/**
 * The pure part of tab completion: splitting the typed partial path into the
 * directory to search, the name prefix to match and the literal text to put back
 * in front of each candidate, and filtering the directory listing.
 */
module PathResolver {
  import opened Wrappers
  import opened Text
  import opened Paths

  datatype Resolution = Resolution(baseDir: string, searchPrefix: string, literalPrefix: string)

  /** The argument of a "cd" line: everything after its first two characters, trimmed. */
  function PartialArgument(text: string): (r: string)
    ensures |text| <= 2 ==> r == ""
    ensures r == [] || (!IsWhiteSpace(r[0]) && !IsWhiteSpace(r[|r| - 1]))
  {
    if |text| > 2 then Trim(text[2..]) else ""
  }

  /** Whatever white space separates it from the first two characters, a path typed
      without white space at its ends is the partial argument as typed. */
  lemma {:induction false} PartialArgumentAsTyped(head: string, ws: string, p: string)
    requires |head| == 2
    requires forall i :: 0 <= i < |ws| ==> IsWhiteSpace(ws[i])
    requires p == [] || (!IsWhiteSpace(p[0]) && !IsWhiteSpace(p[|p| - 1]))
    ensures PartialArgument(head + ws + p) == p
  {
    var text := head + ws + p;
    if |text| > 2 {
      assert text[2..] == ws + p;
      TrimAfterWhiteSpace(ws, p);
    }
  }

  /** The directory to search and the prefix to match. Only the relative-with-separator
      case consults `GetFullPath`, whose exception is the one error outcome. */
  function SearchBase(partial: string, currentDirectory: string, fullPath: string -> Result<string>): (r: Result<(string, string)>)
    // only a relative partial path with a separator can fail
    ensures r.Err? ==> !IsPathRooted(partial) && ContainsSep(partial)
    // the prefix to match never holds a separator
    ensures r.Ok? ==> forall i :: 0 <= i < |r.value.1| ==> !IsSep(r.value.1[i])
  {
    if partial == [] then Ok((currentDirectory, partial))
    else if IsPathRooted(partial) then
      if EndsInSep(partial) then Ok((partial, ""))
      else Ok((GetDirectoryName(partial).GetOr(currentDirectory), GetFileName(partial)))
    else if ContainsSep(partial) then
      var dirPart := GetDirectoryName(partial).GetOr("");
      match fullPath(Combine(currentDirectory, dirPart))
      case Ok(full) => Ok((full, GetFileName(partial)))
      case Err(m) => Err(m)
    else Ok((currentDirectory, partial))
  }

  /** The text to re-prepend to every candidate: up to and including the last separator,
      or, for a rooted path without one (such as "C:x"), its parent followed by '\'. */
  function LiteralPrefix(partial: string): (r: string)
    // a kept prefix ends in a separator, so a candidate appended to it is a path below it
    ensures r == [] || IsSep(r[|r| - 1])
    // with a separator typed, it is what was typed up to some separator
    ensures LastSep(partial) >= 0 ==> r <= partial
    // a bare relative name keeps nothing
    ensures LastSep(partial) < 0 && !IsPathRooted(partial) ==> r == []
  {
    if partial == [] then ""
    else
      var idx := LastSep(partial);
      if idx >= 0 then partial[..idx + 1]
      else if IsPathRooted(partial) then
        match GetDirectoryName(partial)
        case Some(parent) => if parent != "" then parent + "\\" else ""
        case None => ""
      else ""
  }

  /** The decomposition of the partial path against the shell's current directory. */
  function Resolve(partial: string, currentDirectory: string, fullPath: string -> Result<string>): (r: Result<Resolution>)
    ensures r.Err? ==> !IsPathRooted(partial) && ContainsSep(partial)
    ensures r.Ok? ==>
      && (forall i :: 0 <= i < |r.value.searchPrefix| ==> !IsSep(r.value.searchPrefix[i]))
      && (r.value.literalPrefix == [] || IsSep(r.value.literalPrefix[|r.value.literalPrefix| - 1]))
  {
    match SearchBase(partial, currentDirectory, fullPath)
    case Ok(bp) => Ok(Resolution(bp.0, bp.1, LiteralPrefix(partial)))
    case Err(m) => Err(m)
  }

  /** What the decomposition yields for each shape of partial path. */
  lemma {:induction false} ResolveCases(partial: string, currentDirectory: string, fullPath: string -> Result<string>)
    ensures var r := Resolve(partial, currentDirectory, fullPath);
      // an empty partial searches the current directory for every name
      && (partial == [] ==> r == Ok(Resolution(currentDirectory, "", "")))
      // a rooted partial ending in a separator is searched itself, and kept verbatim
      && (IsPathRooted(partial) && EndsInSep(partial) ==> r == Ok(Resolution(partial, "", partial)))
      // a bare relative name is a prefix to match in the current directory
      && (!IsPathRooted(partial) && !ContainsSep(partial) ==> r == Ok(Resolution(currentDirectory, partial, "")))
      // only a relative partial with a separator goes through GetFullPath, which can fail
      && (r.Err? ==> !IsPathRooted(partial) && ContainsSep(partial))
  {
    if IsPathRooted(partial) && EndsInSep(partial) {
      var k := LastSep(partial);
      assert k == |partial| - 1;
      assert partial[..k + 1] == partial;
    }
  }

  /** With a separator, the literal prefix and the search prefix split the partial path
      at its last separator. */
  lemma {:induction false} ResolveSplitsAtLastSep(partial: string, currentDirectory: string, fullPath: string -> Result<string>)
    requires ContainsSep(partial)
    ensures var r := Resolve(partial, currentDirectory, fullPath);
      r.Ok? ==>
        r.value.literalPrefix == partial[..LastSep(partial) + 1] &&
        r.value.literalPrefix + r.value.searchPrefix == partial
  {
    var k := LastSep(partial);
    ContainsSepIff(partial);
    FileNameAfterLastSep(partial);
    var r := Resolve(partial, currentDirectory, fullPath);
    if r.Ok? {
      ResolvePieces(partial, currentDirectory, fullPath);
      var lit, search := r.value.literalPrefix, r.value.searchPrefix;
      assert lit == partial[..k + 1];
      assert search == partial[k + 1..] by {
        if EndsInSep(partial) {
          assert k == |partial| - 1;
        }
      }
      SplitAt(partial, k + 1, lit, search);
    }
  }

  lemma {:induction false} SplitAt<T>(s: seq<T>, n: nat, front: seq<T>, back: seq<T>)
    requires n <= |s| && front == s[..n] && back == s[n..]
    ensures front + back == s
  {
  }

  /** A successful decomposition keeps the literal prefix of the partial path and
      matches either its file name or, for a rooted path ending in a separator, every
      name. */
  lemma {:induction false} ResolvePieces(partial: string, currentDirectory: string, fullPath: string -> Result<string>)
    requires Resolve(partial, currentDirectory, fullPath).Ok?
    requires partial != []
    ensures var r := Resolve(partial, currentDirectory, fullPath).value;
      r.literalPrefix == LiteralPrefix(partial) &&
      (r.searchPrefix == GetFileName(partial) || (EndsInSep(partial) && r.searchPrefix == "")) &&
      (!IsPathRooted(partial) && !ContainsSep(partial) ==> r.searchPrefix == partial)
  {
  }

  /** A rooted partial path with a separator but not ending in one is searched in its
      parent directory, matching the text after the last separator. */
  lemma {:induction false} RootedWithParent(partial: string, currentDirectory: string, fullPath: string -> Result<string>)
    requires IsPathRooted(partial) && !EndsInSep(partial) && ContainsSep(partial)
    ensures GetDirectoryName(partial).Some?
    ensures Resolve(partial, currentDirectory, fullPath) ==
      Ok(Resolution(GetDirectoryName(partial).value, partial[LastSep(partial) + 1..], partial[..LastSep(partial) + 1]))
  {
    FileNameAfterLastSep(partial);
    var k := LastSep(partial);
    assert k < |partial| - 1;
    assert RootLength(partial) <= k + 1;
    var parent := GetDirectoryName(partial).value;
    assert SearchBase(partial, currentDirectory, fullPath) == Ok((parent, partial[k + 1..]));
    assert LiteralPrefix(partial) == partial[..k + 1];
  }

  /** A relative partial path with a separator ("sub/fo") is searched in the full path
      of its directory part combined with the current directory, matching the text after
      the last separator; when `GetFullPath` throws, so does the decomposition. */
  lemma {:induction false} RelativeWithSep(partial: string, currentDirectory: string, fullPath: string -> Result<string>)
    requires !IsPathRooted(partial) && ContainsSep(partial)
    ensures var full := fullPath(Combine(currentDirectory, GetDirectoryName(partial).GetOr("")));
      var r := Resolve(partial, currentDirectory, fullPath);
      && (full.Err? ==> r == Err(full.message))
      && (full.Ok? ==> r == Ok(Resolution(full.value, partial[LastSep(partial) + 1..], partial[..LastSep(partial) + 1])))
  {
    FileNameAfterLastSep(partial);
    ContainsSepIff(partial);
    var k := LastSep(partial);
    assert LiteralPrefix(partial) == partial[..k + 1];
  }

  /** A rooted partial path whose only separator ends its root ("C:\Pro", "\Pro") is
      searched in that root, matching the rest, and the root is kept as typed. */
  lemma {:induction false} RootedAtRoot(partial: string, currentDirectory: string, fullPath: string -> Result<string>)
    requires IsPathRooted(partial) && ContainsSep(partial) && !EndsInSep(partial)
    requires LastSep(partial) < RootLength(partial)
    ensures var root := RootLength(partial);
      Resolve(partial, currentDirectory, fullPath) ==
        Ok(Resolution(NormalizeSeparators(partial[..root]), partial[root..], partial[..root]))
  {
    var k, root := LastSep(partial), RootLength(partial);
    ContainsSepIff(partial);
    assert k + 1 == root;
    RootedWithParent(partial, currentDirectory, fullPath);
    DirectoryIsRoot(partial);
  }

  /** A drive-relative partial path without a separator ("C:Pro") is searched in the
      drive-relative "C:" but completed under "C:\"; the bare drive "C:" searches the
      current directory for every name and keeps nothing. */
  lemma {:induction false} RootedNoSep(partial: string, currentDirectory: string, fullPath: string -> Result<string>)
    requires IsPathRooted(partial) && !ContainsSep(partial)
    ensures |partial| > 2 ==> LiteralPrefix(partial) == partial[..2] + "\\"
    ensures |partial| > 2 ==>
      Resolve(partial, currentDirectory, fullPath) == Ok(Resolution(partial[..2], partial[2..], partial[..2] + "\\"))
    ensures |partial| <= 2 ==>
      Resolve(partial, currentDirectory, fullPath) == Ok(Resolution(currentDirectory, "", ""))
  {
    ContainsSepIff(partial);
    assert RootLength(partial) == 2;
    if |partial| > 2 {
      DirectoryIsRoot(partial);
      assert GetFileName(partial) == partial[2..];
    } else {
      assert GetFileName(partial) == "";
    }
  }

  /** The name kept for one listed directory, if it passes the filter. */
  predicate Matches(name: string, prefix: string) {
    name != "" && StartsWithIgnoreCase(name, prefix)
  }

  /** The LINQ pipeline `Select(Path.GetFileName).Where(...)`: the file names of the listed
      directories that are non-empty and start with the prefix (ordinal, ignoring case),
      in listing order. */
  function Candidates(entries: seq<string>, prefix: string): (r: seq<string>)
    ensures |r| <= |entries|
    ensures forall i :: 0 <= i < |r| ==> r[i] != ""
  {
    if entries == [] then [] else Pick(entries[0], prefix) + Candidates(entries[1..], prefix)
  }

  /** What one listed directory contributes: its file name when that passes the filter. */
  function Pick(entry: string, prefix: string): (r: seq<string>)
    ensures |r| <= 1 && forall i :: 0 <= i < |r| ==> r[i] != ""
  {
    var name := GetFileName(entry);
    if Matches(name, prefix) then [name] else []
  }

  /** The candidates are exactly the matching file names of the listed directories: a
      name is among them if and only if it passes the filter and is the name of a
      listed directory. */
  lemma {:induction false} CandidatesExact(entries: seq<string>, prefix: string)
    ensures forall x :: x in Candidates(entries, prefix) <==>
      Matches(x, prefix) && exists e :: e in entries && GetFileName(e) == x
  {
    if entries != [] {
      var rest := entries[1..];
      var name := GetFileName(entries[0]);
      CandidatesExact(rest, prefix);
      forall x | Matches(x, prefix) && exists e :: e in entries && GetFileName(e) == x
        ensures x in Candidates(entries, prefix)
      {
        var e :| e in entries && GetFileName(e) == x;
        if e != entries[0] {
          assert e in rest;
        }
      }
      forall x | x in Candidates(entries, prefix)
        ensures Matches(x, prefix) && exists e :: e in entries && GetFileName(e) == x
      {
        if x !in Candidates(rest, prefix) {
          assert name == x && entries[0] in entries;
        } else {
          var e :| e in rest && GetFileName(e) == x;
          assert e in entries;
        }
      }
    }
  }

  /** Filtering keeps the listing order: the candidates of a concatenated listing are
      those of the first part followed by those of the second. */
  lemma {:induction false} CandidatesKeepOrder(a: seq<string>, b: seq<string>, prefix: string)
    ensures Candidates(a + b, prefix) == Candidates(a, prefix) + Candidates(b, prefix)
  {
    if a != [] {
      assert (a + b)[0] == a[0] && (a + b)[1..] == a[1..] + b;
      CandidatesKeepOrder(a[1..], b, prefix);
      var head, x, y := Pick(a[0], prefix), Candidates(a[1..], prefix), Candidates(b, prefix);
      assert head + (x + y) == (head + x) + y;
    } else {
      assert a + b == b;
    }
  }

  /** Every name matches the empty prefix, so an empty prefix keeps every non-empty name. */
  lemma {:induction false} EmptyPrefixKeepsAll(entries: seq<string>)
    requires forall i :: 0 <= i < |entries| ==> GetFileName(entries[i]) != ""
    ensures |Candidates(entries, "")| == |entries|
  {
    if entries != [] {
      EmptyPrefixKeepsAll(entries[1..]);
    }
  }
}
