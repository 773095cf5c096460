/**
 * The two string operations of the .NET base library the shell relies on:
 * `string.Trim()` and `string.StartsWith(value, StringComparison.OrdinalIgnoreCase)`.
 */
module Text {

  /** `char.IsWhiteSpace`: the space separators (Unicode category Zs), the line and
      paragraph separators, the controls U+0009..U+000D and U+0085. */
  predicate IsWhiteSpace(c: char) {
    || ('\t' <= c <= '\r')
    || c == ' ' || c == '\U{0085}' || c == '\U{00A0}' || c == '\U{1680}'
    || ('\U{2000}' <= c <= '\U{200A}')
    || c == '\U{2028}' || c == '\U{2029}' || c == '\U{202F}' || c == '\U{205F}' || c == '\U{3000}'
  }

  /** Removes the leading white space: exactly the white-space run before the first other character. */
  function TrimStart(s: string): (r: string)
    ensures |r| <= |s| && r == s[|s| - |r|..]
    ensures forall i :: 0 <= i < |s| - |r| ==> IsWhiteSpace(s[i])
    ensures r == [] || !IsWhiteSpace(r[0])
  {
    if |s| > 0 && IsWhiteSpace(s[0]) then TrimStart(s[1..]) else s
  }

  /** Removes the trailing white space: exactly the white-space run after the last other character. */
  function TrimEnd(s: string): (r: string)
    ensures |r| <= |s| && r == s[..|r|]
    ensures forall i :: |r| <= i < |s| ==> IsWhiteSpace(s[i])
    ensures r == [] || !IsWhiteSpace(r[|r| - 1])
  {
    if |s| > 0 && IsWhiteSpace(s[|s| - 1]) then TrimEnd(s[..|s| - 1]) else s
  }

  /** `string.Trim()`: the result neither starts nor ends with white space, and it is
      empty exactly when the whole input is white space. */
  function Trim(s: string): (r: string)
    ensures |r| <= |s|
    ensures r == [] || (!IsWhiteSpace(r[0]) && !IsWhiteSpace(r[|r| - 1]))
    ensures r == [] <==> forall i :: 0 <= i < |s| ==> IsWhiteSpace(s[i])
  {
    TrimEnd(TrimStart(s))
  }

  /** Trimming cuts off exactly the leading and the trailing white-space runs: the result
      is a slice of the input with only white space outside it. */
  lemma {:induction false} TrimIsSlice(s: string)
    ensures exists i, j ::
      && 0 <= i <= j <= |s| && Trim(s) == s[i..j]
      && (forall k :: 0 <= k < i ==> IsWhiteSpace(s[k]))
      && (forall k :: j <= k < |s| ==> IsWhiteSpace(s[k]))
  {
    StartThenEndIsSlice(s);
  }

  lemma {:induction false} StartThenEndIsSlice(s: string)
    ensures exists i, j ::
      && 0 <= i <= j <= |s| && TrimEnd(TrimStart(s)) == s[i..j]
      && (forall k :: 0 <= k < i ==> IsWhiteSpace(s[k]))
      && (forall k :: j <= k < |s| ==> IsWhiteSpace(s[k]))
  {
    var t := TrimStart(s);
    SliceBetweenRuns(s, t, TrimEnd(t));
  }

  /** A suffix after a white-space run, cut before a white-space run, is a slice with
      only white space outside it. */
  lemma {:induction false} SliceBetweenRuns(s: string, t: string, r: string)
    requires |t| <= |s| && t == s[|s| - |t|..]
    requires forall k :: 0 <= k < |s| - |t| ==> IsWhiteSpace(s[k])
    requires |r| <= |t| && r == t[..|r|]
    requires forall k :: |r| <= k < |t| ==> IsWhiteSpace(t[k])
    ensures exists i, j ::
      && 0 <= i <= j <= |s| && r == s[i..j]
      && (forall k :: 0 <= k < i ==> IsWhiteSpace(s[k]))
      && (forall k :: j <= k < |s| ==> IsWhiteSpace(s[k]))
  {
    var i := |s| - |t|;
    var j := i + |r|;
    forall k | j <= k < |s|
      ensures IsWhiteSpace(s[k])
    {
      assert s[k] == t[k - i];
    }
    assert r == s[i..j];
  }

  /** Trimming a trimmed string changes nothing. */
  lemma {:induction false} TrimIdempotent(s: string)
    ensures Trim(Trim(s)) == Trim(s)
  {
    var t := Trim(s);
    if t != [] {
      assert TrimStart(t) == t;
      assert TrimEnd(t) == t;
    }
  }

  /** A string without white space at either end is its own trim. */
  lemma {:induction false} TrimOfTrimmed(s: string)
    requires s == [] || (!IsWhiteSpace(s[0]) && !IsWhiteSpace(s[|s| - 1]))
    ensures Trim(s) == s
  {
    if s != [] {
      assert TrimStart(s) == s;
      assert TrimEnd(s) == s;
    }
  }

  /** White space in front of a trimmed string is all that trimming removes. */
  lemma {:induction false} TrimAfterWhiteSpace(ws: string, s: string)
    requires forall i :: 0 <= i < |ws| ==> IsWhiteSpace(ws[i])
    requires s == [] || (!IsWhiteSpace(s[0]) && !IsWhiteSpace(s[|s| - 1]))
    ensures Trim(ws + s) == s
  {
    TrimStartAfterWhiteSpace(ws, s);
    if s != [] {
      assert TrimEnd(s) == s;
    }
  }

  lemma {:induction false} TrimStartAfterWhiteSpace(ws: string, s: string)
    requires forall i :: 0 <= i < |ws| ==> IsWhiteSpace(ws[i])
    requires s == [] || !IsWhiteSpace(s[0])
    ensures TrimStart(ws + s) == s
    decreases |ws|
  {
    if ws == [] {
      assert ws + s == s;
    } else {
      var rest := ws[1..];
      assert (ws + s)[0] == ws[0] && (ws + s)[1..] == rest + s;
      TrimStartAfterWhiteSpace(rest, s);
    }
  }

  /** Upper-casing as done by an ordinal case-insensitive comparison, for ASCII letters. */
  function ToUpperAscii(c: char): char {
    if 'a' <= c <= 'z' then (c as int - 32) as char else c
  }

  /** `s.StartsWith(prefix, StringComparison.OrdinalIgnoreCase)`. */
  predicate StartsWithIgnoreCase(s: string, prefix: string) {
    |prefix| <= |s| && forall i :: 0 <= i < |prefix| ==> ToUpperAscii(s[i]) == ToUpperAscii(prefix[i])
  }

  /** A line starts with "cd" in the shell's sense exactly when its first two characters
      are a 'c' and a 'd' in either case. */
  lemma {:induction false} StartsWithCd(s: string)
    ensures StartsWithIgnoreCase(s, "cd") <==>
      |s| >= 2 && (s[0] == 'c' || s[0] == 'C') && (s[1] == 'd' || s[1] == 'D')
  {
    if StartsWithIgnoreCase(s, "cd") {
      assert ToUpperAscii(s[0]) == 'C' && ToUpperAscii(s[1]) == 'D';
    }
  }

  /** Whatever follows it, a line beginning with "cd " starts with "cd". */
  lemma {:induction false} CdLine(a: string, b: string)
    ensures StartsWithIgnoreCase("cd " + a + b, "cd")
  {
  }
}
