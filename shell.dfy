/**
 * The window itself: the fields of `MainWindow`, updated in place by the key handler,
 * the tab completion and the command runner, each proved to move the window exactly
 * as the corresponding function of `SessionController` moves a `Session`.
 */
module Shell {
  import opened Wrappers
  import opened Text
  import opened Paths
  import opened Platform
  import opened PathResolver
  import opened HistoryLog
  import opened CompletionSession
  import opened CommandDispatcher
  import opened SessionController

  class MainWindow {
    var currentDirectory: string

    var completionSessionActive: bool
    var completionCandidates: seq<string>
    var completionIndex: int
    var sessionBaseDir: string
    var sessionPrefixDirWithSep: string

    var commandHistory: seq<string>
    var historyIndex: int

    /** The text of the input box. */
    var inputText: string
    /** The text of the output box. */
    var outputText: string

    /** The fields read as a value. */
    function State(): Session
      reads this
    {
      Session(
        currentDirectory,
        Completion(completionSessionActive, completionCandidates, completionIndex, sessionBaseDir, sessionPrefixDirWithSep),
        History(commandHistory, historyIndex),
        inputText,
        outputText)
    }

    ghost predicate Valid()
      reads this
    {
      SessionController.Valid(State())
    }

    /** A new window for the user `userName`: the home directory is the working
        directory and the header, `banner` followed by the first prompt, is written. */
    constructor(userName: string, banner: string)
      ensures Valid()
      ensures State() == Initial("C:\\Users\\" + userName, banner)
    {
      currentDirectory := "C:\\Users\\" + userName;
      completionSessionActive := false;
      completionCandidates := [];
      completionIndex := 0;
      sessionBaseDir := "";
      sessionPrefixDirWithSep := "";
      commandHistory := [];
      historyIndex := -1;
      inputText := "";
      outputText := banner + currentDirectory + "> " + "\n";
    }

    /** `InputBox_KeyDown`: one key press, with the effect `Step` gives it. */
    method KeyDown(key: Key, host: Host)
      requires Valid()
      modifies this
      ensures Valid()
      ensures State() == Step(old(State()), key, host)
    {
      match key
      case Enter => EnterPressed(host);
      case Tab => HandleTabCompletion(host);
      case Up => UpPressed();
      case Down => DownPressed();
      case Other => ResetCompletionSession();
    }

    /** The Enter branch of `InputBox_KeyDown`: record the trimmed line when it is not
        empty, clear the input box, run the line and reset the completion session. */
    method EnterPressed(host: Host)
      requires Valid()
      modifies this
      ensures Valid()
      ensures State() == Submit(old(State()), host)
    {
      var command := Trim(inputText);
      TrimmedIsCommand(inputText);
      RecordCommand(command);
      inputText := "";
      RunCommand(command, host);
      ResetCompletionSession();
    }

    /** The start of the Enter branch: a non-empty trimmed line is appended to the
        history and the cursor is put past the end; an empty one changes nothing. */
    method RecordCommand(command: string)
      requires Valid() && (command == "" || Command(command))
      modifies this
      ensures Valid()
      ensures State() == old(State()).(history := Record(old(State()).history, command))
    {
      if command != "" {
        commandHistory := commandHistory + [command];
        historyIndex := |commandHistory|;
      }
    }

    /** The Up branch of `InputBox_KeyDown`: step back through the history. */
    method UpPressed()
      requires Valid()
      modifies this
      ensures Valid()
      ensures State() == UpPress(old(State()))
    {
      if |commandHistory| > 0 && historyIndex > 0 {
        historyIndex := historyIndex - 1;
        inputText := commandHistory[historyIndex];
      }
    }

    /** The Down branch of `InputBox_KeyDown`: step forward through the history, or
        clear the line once past its end. */
    method DownPressed()
      requires Valid()
      modifies this
      ensures Valid()
      ensures State() == DownPress(old(State()))
    {
      if |commandHistory| > 0 && historyIndex < |commandHistory| - 1 {
        historyIndex := historyIndex + 1;
        inputText := commandHistory[historyIndex];
      } else {
        historyIndex := |commandHistory|;
        inputText := "";
      }
    }

    /** `ResetCompletionSession`: the session goes back to its initial, inactive state
        and nothing else changes. */
    method ResetCompletionSession()
      modifies this
      ensures State() == old(State()).(completion := Inactive)
    {
      completionSessionActive := false;
      completionCandidates := [];
      completionIndex := 0;
      sessionBaseDir := "";
      sessionPrefixDirWithSep := "";
    }

    /** `HandleTabCompletion`: on a "cd" line, start a session from the partial path
        when none is active, then put the candidate at the cursor on the line and move
        the cursor on. */
    method HandleTabCompletion(host: Host)
      requires Valid()
      modifies this
      ensures Valid()
      ensures State() == TabPress(old(State()), host)
    {
      ghost var s := State();
      var text := inputText;
      if !StartsWithIgnoreCase(text, "cd") {
        return;
      }
      TabPressEmits(s, host);
      if !completionSessionActive {
        var started := StartCompletionSession(host);
        if !started {
          return;
        }
      }
      ghost var c := Emitting(s, host).value;
      assert completionCandidates == c.candidates && completionIndex == c.index;
      assert sessionPrefixDirWithSep == c.literalPrefix;
      ghost var next := Advance(c);
      assert next.0.index == NextIndex(c.index, |c.candidates|);

      var i, n := completionIndex, |completionCandidates|;
      var selected := completionCandidates[i];
      NextIndexIsMod(i, n);
      completionIndex := (i + 1) % n;
      assert completionIndex == next.0.index;
      var completedPath := if sessionPrefixDirWithSep == "" then selected else sessionPrefixDirWithSep + selected;
      assert sessionPrefixDirWithSep + selected == completedPath;
      inputText := "cd " + completedPath;
      assert inputText == next.1;
    }

    /** The branch of `HandleTabCompletion` taken with no session active: the session
        `NewSession` gives is installed, or nothing changes when there is none (an
        exception from `GetFullPath` included). */
    method StartCompletionSession(host: Host) returns (started: bool)
      // an inactive session holds no candidates, so the assignment made before the
      // Count check leaves them as they were when nothing matches
      requires !completionSessionActive && completionCandidates == []
      modifies this
      ensures started == NewSession(old(State()), host).Some?
      ensures State() == if started then old(State()).(completion := NewSession(old(State()), host).value) else old(State())
    {
      ghost var s0 := State();
      var partialRaw := PartialArgument(inputText);
      var ok, baseDir, searchPrefix, prefixDirWithSep := DecomposePartial(partialRaw, currentDirectory, host);
      if !ok {
        NewSessionSteps(s0, host);
        return false;
      }
      started := OpenSession(baseDir, searchPrefix, prefixDirWithSep, host);
      NewSessionSteps(s0, host);
    }

    /** The second half of starting a session: give up when the directory to search does
        not exist, list and filter its subdirectories, and install the session when some
        name matches. */
    method OpenSession(baseDir: string, searchPrefix: string, prefixDirWithSep: string, host: Host) returns (started: bool)
      requires !completionSessionActive && completionCandidates == []
      modifies this
      ensures var cands := Candidates(host.subdirectories(baseDir), searchPrefix);
        && started == (baseDir in host.directories && cands != [])
        && State() == if started then old(State()).(completion := Completion(true, cands, 0, baseDir, prefixDirWithSep)) else old(State())
    {
      ghost var s0 := State();
      if baseDir !in host.directories {
        return false;
      }
      var cands := Candidates(host.subdirectories(baseDir), searchPrefix);
      completionCandidates := cands;
      if |completionCandidates| == 0 {
        assert cands == [];
        return false;
      }
      completionSessionActive := true;
      sessionBaseDir := baseDir;
      sessionPrefixDirWithSep := prefixDirWithSep;
      completionIndex := 0;
      started := true;
      assert State() == s0.(completion := Completion(true, cands, 0, baseDir, prefixDirWithSep));
    }

    /** The first half of `HandleTabCompletion`: the directory to search, the prefix to
        match and the literal text to keep, for the partial path `partialRaw` typed after
        "cd"; `ok` is false when `GetFullPath` throws. */
    static method DecomposePartial(partialRaw: string, directory: string, host: Host)
      returns (ok: bool, baseDir: string, searchPrefix: string, prefixDirWithSep: string)
      ensures var res := Resolve(partialRaw, directory, host.fullPath);
        ok == res.Ok? && (ok ==> res.value == Resolution(baseDir, searchPrefix, prefixDirWithSep))
    {
      ok, baseDir, searchPrefix, prefixDirWithSep := true, directory, partialRaw, "";
      if partialRaw != "" {
        if IsPathRooted(partialRaw) {
          if EndsInSep(partialRaw) {
            baseDir := partialRaw;
            searchPrefix := "";
          } else {
            baseDir := GetDirectoryName(partialRaw).GetOr(directory);
            searchPrefix := GetFileName(partialRaw);
          }
        } else if ContainsSep(partialRaw) {
          var dirPart := GetDirectoryName(partialRaw).GetOr("");
          var full := host.fullPath(Combine(directory, dirPart));
          if full.Err? {
            ok := false;
            return;
          }
          baseDir := full.value;
          searchPrefix := GetFileName(partialRaw);
        } else {
          baseDir := directory;
          searchPrefix := partialRaw;
        }
      }

      if partialRaw != "" {
        var idx := LastSep(partialRaw);
        if idx >= 0 {
          prefixDirWithSep := partialRaw[..idx + 1];
        } else if IsPathRooted(partialRaw) {
          var parent := GetDirectoryName(partialRaw);
          if parent.Some? && parent.value != "" {
            prefixDirWithSep := parent.value + "\\";
          }
        }
      }
    }

    /** `RunCommand`: the built-in "cd" or a run of the command interpreter, with the
        directory and the appended output `Dispatch` gives; nothing else changes. */
    method RunCommand(command: string, host: Host)
      modifies this
      ensures var d := Dispatch(command, old(currentDirectory), host);
        currentDirectory == d.directory && outputText == old(outputText) + d.text
      ensures State() == old(State()).(directory := currentDirectory, output := outputText)
    {
      if StartsWithIgnoreCase(command, "cd") {
        var arg := Argument(command);
        if arg.Some? {
          var newPath := host.fullPathFrom(arg.value, currentDirectory);
          if newPath.Err? {
            outputText := outputText + ("Error: " + newPath.message + "\n");
            return;
          }
          if newPath.value in host.directories {
            currentDirectory := newPath.value;
          } else {
            outputText := outputText + NotFound;
          }
        }
        outputText := outputText + Prompt(currentDirectory);
        return;
      }
      match host.run(command, currentDirectory)
      case FailedToStart(m) =>
        outputText := outputText + ("Error: " + m + "\n");
      case Exited(out, err) =>
        outputText := outputText + (Prompt(currentDirectory) + command + "\n" + out + err);
    }
  }
}
