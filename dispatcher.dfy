/**
 * `RunCommand`: the built-in "cd" against delegation to the command interpreter,
 * and the text each appends to the output.
 */
module CommandDispatcher {
  import opened Wrappers
  import opened Text
  import opened Platform

  /** The message for a "cd" to a directory that does not exist. */
  const NotFound := "The system cannot find the path specified.\n"

  /** What one submitted line yields: the working directory afterwards and the text
      appended to the output. */
  datatype Dispatched = Dispatched(directory: string, text: string)

  /** The prompt written before each block of output. */
  function Prompt(directory: string): string {
    "\n" + directory + ">"
  }

  /** The first position at or after `from` that holds no space (only ' ', the split
      character), or the length when there is none. */
  function SkipSpaces(s: string, from: nat): (r: nat)
    requires from <= |s|
    ensures from <= r <= |s| && (r < |s| ==> s[r] != ' ')
    ensures forall j :: from <= j < r ==> s[j] == ' '
    decreases |s| - from
  {
    if from < |s| && s[from] == ' ' then SkipSpaces(s, from + 1) else from
  }

  /** The first position at or after `from` that holds a space, or the length when
      there is none. */
  function FindSpace(s: string, from: nat): (r: nat)
    requires from <= |s|
    ensures from <= r <= |s| && (r < |s| ==> s[r] == ' ')
    ensures forall j :: from <= j < r ==> s[j] != ' '
    decreases |s| - from
  {
    if from < |s| && s[from] != ' ' then FindSpace(s, from + 1) else from
  }

  /** `parts[1]` of `line.Split(' ', 2, StringSplitOptions.RemoveEmptyEntries)` when
      there are two parts: the text after the first word and the spaces that follow it,
      kept whole (later spaces included); None when there is no such text. */
  function Argument(line: string): (r: Option<string>)
    ensures r.Some? ==> r.value != [] && r.value[0] != ' ' && |r.value| < |line|
  {
    var first := SkipSpaces(line, 0);
    var gap := FindSpace(line, first);
    if gap == |line| then None
    else
      var start := SkipSpaces(line, gap + 1);
      if start == |line| then None else Some(line[start..])
  }

  /** The argument is a non-empty tail of the line that starts with no space and has a
      space somewhere before it. */
  lemma {:induction false} ArgumentIsRest(line: string)
    ensures Argument(line).Some? ==>
      var a := Argument(line).value;
      a != [] && a[0] != ' ' && |a| < |line| && a == line[|line| - |a|..] &&
      ' ' in line[..|line| - |a|]
  {
    var gap := FindSpace(line, SkipSpaces(line, 0));
    if gap < |line| {
      var start := SkipSpaces(line, gap + 1);
      if start < |line| {
        assert Argument(line) == Some(line[start..]);
        assert line[..start][gap] == ' ';
      }
    }
  }

  /** A first word of any spelling ("cd", "CD", "cdfoo"), one or more spaces and an
      argument that starts with no space: the argument is the whole rest of the line. */
  lemma {:induction false} ArgumentAfterFirstWord(word: string, spaces: string, arg: string)
    requires word != [] && ' ' !in word
    requires |spaces| > 0 && forall i :: 0 <= i < |spaces| ==> spaces[i] == ' '
    requires arg != [] && arg[0] != ' '
    ensures Argument(word + spaces + arg) == Some(arg)
  {
    var line := word + spaces + arg;
    var gap, start := |word|, |word| + |spaces|;
    assert line[0] == word[0];
    assert SkipSpaces(line, 0) == 0;
    WordRun(line, 0, gap);
    SpaceRun(line, gap + 1, start);
    assert line[start..] == arg;
  }

  /** Searching for a space from `from` stops exactly at the end of a run of other
      characters. */
  lemma {:induction false} WordRun(s: string, from: nat, to: nat)
    requires from <= to <= |s|
    requires forall j :: from <= j < to ==> s[j] != ' '
    requires to == |s| || s[to] == ' '
    ensures FindSpace(s, from) == to
    decreases |s| - from
  {
    if from < to {
      WordRun(s, from + 1, to);
    }
  }

  /** Skipping from `from` stops exactly at the end of a run of spaces. */
  lemma {:induction false} SpaceRun(s: string, from: nat, to: nat)
    requires from <= to <= |s|
    requires forall j :: from <= j < to ==> s[j] == ' '
    requires to == |s| || s[to] != ' '
    ensures SkipSpaces(s, from) == to
    decreases |s| - from
  {
    if from < to {
      SpaceRun(s, from + 1, to);
    }
  }

  /** A line without a space has no argument: "cd.." or "cd\\" change nothing. */
  lemma {:induction false} NoSpaceNoArgument(line: string)
    requires ' ' !in line
    ensures Argument(line) == None
  {
  }

  /** `RunCommand(command)` in the directory `directory`. */
  function Dispatch(command: string, directory: string, host: Host): (r: Dispatched)
    // only the built-in moves, and only into a directory that exists
    ensures r.directory != directory ==> StartsWithIgnoreCase(command, "cd") && r.directory in host.directories
    // a delegated line that ran writes the line it ran after the prompt
    ensures !StartsWithIgnoreCase(command, "cd") && host.run(command, directory).Exited? ==>
      Prompt(directory) + command <= r.text
  {
    if StartsWithIgnoreCase(command, "cd") then
      match Argument(command)
      case None => Dispatched(directory, Prompt(directory))
      case Some(arg) =>
        match host.fullPathFrom(arg, directory)
        case Err(m) => Dispatched(directory, "Error: " + m + "\n")
        case Ok(newPath) =>
          if newPath in host.directories then Dispatched(newPath, Prompt(newPath))
          else Dispatched(directory, NotFound + Prompt(directory))
    else
      match host.run(command, directory)
      case FailedToStart(m) => Dispatched(directory, "Error: " + m + "\n")
      case Exited(out, err) => Dispatched(directory, Prompt(directory) + command + "\n" + out + err)
  }

  /** Only a line starting with "cd" changes the directory, only to the resolved form
      of its argument, only when that directory exists, and the text written is then
      the prompt for the new directory. */
  lemma {:induction false} DirectoryChangesOnlyByCd(command: string, directory: string, host: Host)
    ensures var d := Dispatch(command, directory, host);
      d.directory != directory ==>
        StartsWithIgnoreCase(command, "cd") && d.directory in host.directories &&
        Argument(command).Some? &&
        host.fullPathFrom(Argument(command).value, directory) == Ok(d.directory) &&
        d.text == Prompt(d.directory)
  {
  }

  /** The outcomes of the built-in: without an argument only the prompt is written; a
      resolved path that does not exist writes the not-found message and the prompt and
      stays; an exception from GetFullPath writes its message and stays. */
  lemma {:induction false} CdOutcomes(command: string, directory: string, host: Host)
    requires StartsWithIgnoreCase(command, "cd")
    ensures var d := Dispatch(command, directory, host);
      && (Argument(command).None? ==> d == Dispatched(directory, Prompt(directory)))
      && (Argument(command).Some? ==>
            match host.fullPathFrom(Argument(command).value, directory)
            case Ok(path) =>
              if path in host.directories then d == Dispatched(path, Prompt(path))
              else d == Dispatched(directory, NotFound + Prompt(directory))
            case Err(m) => d == Dispatched(directory, "Error: " + m + "\n"))
  {
  }

  /** A "cd" line never reaches the command interpreter: its outcome is the same
      whatever the interpreter would do. */
  lemma {:induction false} CdNeverRunsProcess(command: string, directory: string, host: Host, run: (string, string) -> ProcessOutcome)
    requires StartsWithIgnoreCase(command, "cd")
    ensures Dispatch(command, directory, host.(run := run)) == Dispatch(command, directory, host)
  {
  }

  /** A delegated line never consults the file system or the path resolution and keeps
      the directory; it writes the prompt, the line and a line break, then the whole of
      stdout followed by the whole of stderr, or the message of a process that failed
      to start. */
  lemma {:induction false} DelegationIgnoresFileSystem(command: string, directory: string, host: Host, dirs: set<string>)
    requires !StartsWithIgnoreCase(command, "cd")
    ensures Dispatch(command, directory, host.(directories := dirs)) == Dispatch(command, directory, host)
    ensures Dispatch(command, directory, host).directory == directory
    ensures match host.run(command, directory)
      case Exited(out, err) => Dispatch(command, directory, host).text == Prompt(directory) + command + "\n" + out + err
      case FailedToStart(m) => Dispatch(command, directory, host).text == "Error: " + m + "\n"
    ensures host.run(command, directory).Exited? ==>
      var out := host.run(command, directory).stdout + host.run(command, directory).stderr;
      |out| <= |Dispatch(command, directory, host).text| &&
      Dispatch(command, directory, host).text[|Dispatch(command, directory, host).text| - |out|..] == out
  {
  }
}
