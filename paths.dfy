/**
 * The Windows path helpers of `System.IO.Path` that the shell calls, as string
 * functions over the two separators '\' and '/'. Roots are a drive ("C:" or "C:\")
 * or a single leading separator; UNC and device paths are not modelled.
 */
module Paths {
  import opened Wrappers

  /** `Path.DirectorySeparatorChar` or `Path.AltDirectorySeparatorChar`. */
  predicate IsSep(c: char) {
    c == '\\' || c == '/'
  }

  predicate IsDriveLetter(c: char) {
    'a' <= c <= 'z' || 'A' <= c <= 'Z'
  }

  /** `Path.IsPathRooted`: a leading separator or a drive letter and a colon. */
  predicate IsPathRooted(p: string) {
    (|p| >= 1 && IsSep(p[0])) || (|p| >= 2 && IsDriveLetter(p[0]) && p[1] == ':')
  }

  predicate EndsInSep(p: string) {
    |p| > 0 && IsSep(p[|p| - 1])
  }

  predicate ContainsSep(p: string) {
    exists i :: 0 <= i < |p| && IsSep(p[i])
  }

  /** Length of the root: 3 for "C:\", 2 for "C:", 1 for a leading separator, 0 otherwise. */
  function RootLength(p: string): (n: nat)
    ensures n <= |p|
    ensures n > 0 <==> IsPathRooted(p)
    ensures n == 1 ==> IsSep(p[0])
    ensures n >= 2 ==> !IsSep(p[0]) && !IsSep(p[1])
    ensures n == 3 ==> IsSep(p[2])
  {
    if |p| >= 2 && IsDriveLetter(p[0]) && p[1] == ':' then
      (if |p| >= 3 && IsSep(p[2]) then 3 else 2)
    else if |p| >= 1 && IsSep(p[0]) then 1
    else 0
  }

  /** `LastIndexOfAny` of the two separators: -1 when there is none. */
  function LastSep(p: string): (i: int)
    ensures -1 <= i < |p|
    ensures i >= 0 ==> IsSep(p[i])
    ensures forall j :: i < j < |p| ==> !IsSep(p[j])
  {
    if |p| == 0 then -1
    else if IsSep(p[|p| - 1]) then |p| - 1
    else LastSep(p[..|p| - 1])
  }

  /** The string has a separator exactly when `LastIndexOfAny` finds one. */
  lemma {:induction false} ContainsSepIff(p: string)
    ensures ContainsSep(p) <==> LastSep(p) >= 0
  {
  }

  /** `Path.GetFileName`: the text after the last separator, or after the root when the
      last separator lies inside it; it never holds a separator. It is the longest such
      suffix: what comes before it is the root or ends in a separator. */
  function GetFileName(p: string): (r: string)
    ensures |r| <= |p| - RootLength(p) && r == p[|p| - |r|..]
    ensures forall i :: |p| - |r| <= i < |p| ==> !IsSep(p[i])
    ensures |p| - |r| == RootLength(p) || IsSep(p[|p| - |r| - 1])
  {
    var k := LastSep(p);
    var start := if k + 1 > RootLength(p) then k + 1 else RootLength(p);
    p[start..]
  }

  /** Once a separator lies past the root, the file name is exactly the text after the
      last separator. */
  lemma {:induction false} FileNameAfterLastSep(p: string)
    requires ContainsSep(p)
    ensures GetFileName(p) == p[LastSep(p) + 1..]
  {
    var k := LastSep(p);
    var i :| 0 <= i < |p| && IsSep(p[i]);
    assert k >= i;
    var n := RootLength(p);
    if n == 3 {
      assert k >= 2;
    } else if n == 2 {
      assert k != 0 && k != 1;
    }
  }

  /** The separator normalisation `GetDirectoryName` applies: '/' becomes '\', and a
      separator followed by another one is dropped (a leading one is always kept). */
  function NormalizeSeparators(p: string): (r: string)
    ensures |r| <= |p|
    ensures forall i :: 0 <= i < |r| ==> r[i] != '/'
  {
    if p == [] then []
    else if IsSep(p[0]) then "\\" + CollapseSeparators(p[1..])
    else CollapseSeparators(p)
  }

  function CollapseSeparators(p: string): (r: string)
    ensures |r| <= |p|
    ensures forall i :: 0 <= i < |r| ==> r[i] != '/'
    ensures forall i :: 0 <= i < |p| ==> !IsSep(p[i]) ==> p[i] in r
  {
    if p == [] then []
    else if IsSep(p[0]) && |p| > 1 && IsSep(p[1]) then CollapseSeparators(p[1..])
    else [if IsSep(p[0]) then '\\' else p[0]] + CollapseSeparators(p[1..])
  }

  /** Position where the directory part ends: separators ending at it are dropped, down to the root. */
  function TrimSepsBefore(p: string, end: nat, root: nat): (e: nat)
    requires root <= end <= |p|
    ensures root <= e <= end
    ensures forall i :: e <= i < end ==> IsSep(p[i])
    ensures e == root || !IsSep(p[e - 1])
    decreases end
  {
    if end > root && IsSep(p[end - 1]) then TrimSepsBefore(p, end - 1, root) else end
  }

  /** `Path.GetDirectoryName`: None (the source's null) when the path is no longer than
      its root; otherwise the text before the last separator past the root (or the root
      itself), without trailing separators, normalised. */
  function GetDirectoryName(p: string): (r: Option<string>)
    ensures r.None? <==> |p| <= RootLength(p)
    ensures r.Some? ==> |r.value| < |p| && forall i :: 0 <= i < |r.value| ==> r.value[i] != '/'
  {
    var root := RootLength(p);
    if |p| <= root then None
    else
      var k := LastSep(p);
      var end := if k >= root then k else root;
      Some(NormalizeSeparators(p[..TrimSepsBefore(p, end, root)]))
  }

  /** `Path.Combine(first, second)`: an empty part is ignored, a rooted second part wins,
      otherwise the two are joined by at most one '\', none when the first already ends
      in a separator. */
  function Combine(first: string, second: string): (r: string)
    ensures second == [] ==> r == first
    ensures first == [] ==> r == second
    ensures second != [] && IsPathRooted(second) ==> r == second
    ensures first != [] && second != [] && !IsPathRooted(second) ==>
      (r == first + second || r == first + "\\" + second) &&
      (r == first + second <==> IsSep(first[|first| - 1]))
  {
    if second == [] then first
    else if first == [] then second
    else if IsPathRooted(second) then second
    else if IsSep(first[|first| - 1]) || IsSep(second[0]) then first + second
    else first + "\\" + second
  }

  /** A path that has no '/' and no two separators in a row is left as it is by the
      normalisation. */
  predicate Canonical(p: string) {
    && (forall i :: 0 <= i < |p| ==> p[i] != '/')
    && (forall i :: 0 <= i < |p| - 1 ==> !(IsSep(p[i]) && IsSep(p[i + 1])))
  }

  lemma {:induction false} CollapseCanonical(p: string)
    requires Canonical(p)
    ensures CollapseSeparators(p) == p
  {
    if p != [] {
      assert Canonical(p[1..]) by {
        assert forall i :: 0 <= i < |p| - 1 ==> p[1..][i] == p[i + 1];
      }
      CollapseCanonical(p[1..]);
      assert [p[0]] + p[1..] == p;
    }
  }

  /** When its last separator lies past its root, has no separator just before it and
      no '/' or doubled separator before it, the directory name is exactly the text
      before that separator; the separator itself may be a '/' ("sub/fo" gives "sub"). */
  lemma {:induction false} DirectoryBeforeLastSep(p: string)
    requires LastSep(p) >= RootLength(p)
    requires LastSep(p) > 0 ==> !IsSep(p[LastSep(p) - 1])
    requires Canonical(p[..LastSep(p)])
    ensures GetDirectoryName(p) == Some(p[..LastSep(p)])
  {
    var k, root := LastSep(p), RootLength(p);
    assert TrimSepsBefore(p, k, root) == k;
    var q := p[..k];
    if q != [] && IsSep(q[0]) {
      assert Canonical(q[1..]) by {
        assert forall i :: 0 <= i < |q| - 1 ==> q[1..][i] == q[i + 1];
      }
      CollapseCanonical(q[1..]);
      assert "\\" + q[1..] == q;
    } else {
      CollapseCanonical(q);
    }
  }

  /** When the last separator lies inside the root ("C:\Pro", "\Pro") or there is none
      ("C:Pro", "Pro"), the directory name is the root itself, normalised: "\", "C:",
      "C:\" or, for a relative name, the empty string. */
  lemma {:induction false} DirectoryIsRoot(p: string)
    requires LastSep(p) < RootLength(p) < |p|
    ensures GetDirectoryName(p) == Some(NormalizeSeparators(p[..RootLength(p)]))
    ensures RootLength(p) == 0 ==> GetDirectoryName(p) == Some("")
    ensures RootLength(p) == 1 ==> GetDirectoryName(p) == Some("\\")
    ensures RootLength(p) == 2 ==> GetDirectoryName(p) == Some(p[..2])
    ensures RootLength(p) == 3 ==> GetDirectoryName(p) == Some(p[..2] + "\\")
  {
    var root := RootLength(p);
    assert TrimSepsBefore(p, root, root) == root;
    var q := p[..root];
    assert |q| == root;
    assert GetDirectoryName(p) == Some(NormalizeSeparators(q));
    if root == 1 {
      assert q[1..] == [];
      assert NormalizeSeparators(q) == "\\" + CollapseSeparators([]) == "\\";
    } else if root > 1 {
      var t := q[2..];
      var tail := CollapseSeparators(t);
      if root == 2 {
        assert t == [] && tail == [];
      } else {
        assert |t| == 1 && IsSep(t[0]) && t[1..] == [];
        assert tail == ['\\'] + CollapseSeparators([]) == "\\";
      }
      assert q[1..][0] == q[1] && q[1..][1..] == t;
      assert CollapseSeparators(q[1..]) == [q[1]] + tail;
      assert NormalizeSeparators(q) == [q[0]] + ([q[1]] + tail) == p[..2] + tail;
      assert root == 2 ==> p[..2] + tail == p[..2];
    }
  }
}
