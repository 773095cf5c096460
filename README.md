# NitroShell line-editing engine in Dafny

NitroShell is a small Windows terminal window. Its `MainWindow` reacts to the keys
pressed in its input box:

- **Enter** submits the line. The line is trimmed, recorded in the command history when
  it is not blank, and routed. A line starting with `cd` is handled by the built-in
  directory change. Every other line is run by `cmd.exe /c`, whose stdout and stderr
  are appended to the output box.
- **Up** and **Down** walk through the history.
- **Tab** on a `cd` line completes the directory name. The first press fixes the list
  of matching subdirectories. Each later press shows the next one, wrapping around.
- **Any other key** ends the completion session.

This project models that engine and proves what it does.

The model has two layers:

- **Value layer.** `SessionController.Step` gives the effect of one key on a `Session`
  value. The lemmas relate several key presses.
- **Class layer.** `Shell.MainWindow` is a class with the source's own fields:
  - `currentDirectory`;
  - the completion fields `completionSessionActive`, `completionCandidates`,
    `completionIndex`, `sessionBaseDir` and `sessionPrefixDirWithSep`;
  - `commandHistory` and `historyIndex`;
  - the texts of the input and output boxes.

  Its methods update these fields step by step, as the source does. Each is proved to
  move the window exactly as the value layer says.

The modules:

| file | module | content |
|---|---|---|
| wrappers.dfy | `Wrappers` | `Option` (the source's null) and `Result` (a value or an exception message) |
| text.dfy | `Text` | `string.Trim`, `char.IsWhiteSpace`, ordinal case-insensitive `StartsWith` |
| paths.dfy | `Paths` | the `System.IO.Path` helpers used (`IsPathRooted`, `GetFileName`, `GetDirectoryName`, `Combine`), and the string method `LastIndexOfAny` applied to the two separators |
| platform.dfy | `Platform` | the operating system as a value: existing directories, directory listings, `GetFullPath`, and the outcome of running a command |
| resolver.dfy | `PathResolver` | the partial-path decomposition and the candidate filter of tab completion |
| history.dfy | `HistoryLog` | the history and its cursor: record, previous, next |
| completion.dfy | `CompletionSession` | the completion session and its wrap-around cursor |
| dispatcher.dfy | `CommandDispatcher` | `RunCommand`: the built-in `cd` against delegation, and the text each appends |
| controller.dfy | `SessionController` | the whole window as a value, one function per key, and the properties of key sequences |
| shell.dfy | `Shell` | the class `MainWindow`, its fields and its event-handling methods |

The operating system is a parameter `host` of every operation that consults it:

- `Directory.Exists` is the set `host.directories`.
- `Directory.GetDirectories` is `host.subdirectories`.
- `Path.GetFullPath(path)` is `host.fullPath`, and `Path.GetFullPath(path, basePath)` is
  `host.fullPathFrom`. Each returns a path or an exception message.
- `Process.Start` of `cmd.exe /c` is `host.run`. It returns the full stdout and stderr,
  or the message of a start failure.
- The user name and the header banner are constructor parameters.

## Model

| member | source | states |
|---|---|---|
| Text.Trim | NitroShell/MainWindow.xaml.cs:74 | the trimmed line has no white space at either end and is empty exactly when the whole line is white space |
| Text.TrimStart | NitroShell/MainWindow.xaml.cs:74 | the leading half of `Trim`: a suffix of the input, only white space before it, and it does not start with white space |
| Text.TrimEnd | NitroShell/MainWindow.xaml.cs:74 | the trailing half of `Trim`: a prefix of the input, only white space after it, and it does not end in white space |
| Text.TrimIsSlice | NitroShell/MainWindow.xaml.cs:74 | trimming cuts off exactly the leading and trailing white-space runs: the result is a slice `s[i..j]` of the line with only white space before `i` and from `j` on |
| Text.TrimIdempotent | NitroShell/MainWindow.xaml.cs:74 | trimming twice is trimming once |
| Text.TrimOfTrimmed | NitroShell/MainWindow.xaml.cs:74 | a string without white space at either end is its own trim |
| Text.TrimAfterWhiteSpace | NitroShell/MainWindow.xaml.cs:139 | white space in front of a string with no white space at its ends is all that trimming removes |
| Text.StartsWithCd | NitroShell/MainWindow.xaml.cs:134 | `StartsWith("cd", OrdinalIgnoreCase)` holds exactly when the first two characters are c/C and d/D |
| Text.CdLine | NitroShell/MainWindow.xaml.cs:215 | every line tab completion writes, `"cd " + ...`, again starts with "cd", so the next Tab continues the session |
| Paths.RootLength | NitroShell/MainWindow.xaml.cs:146 | the root is non-empty exactly when `Path.IsPathRooted` holds (a leading separator, or a drive letter and a colon); a 1-long root is a separator, a drive root has no separator in its first two characters, and a 3-long root ends in one |
| Paths.LastSep | NitroShell/MainWindow.xaml.cs:177 | `LastIndexOfAny` of '\' and '/': a separator index with no separator after it, or -1 |
| Paths.ContainsSepIff | NitroShell/MainWindow.xaml.cs:159-177 | the `Contains` test of the separators agrees with `LastIndexOfAny` finding one |
| Paths.GetFileName | NitroShell/MainWindow.xaml.cs:156 | the file name is the longest separator-free suffix of the path that lies after its root: what precedes it is the root or ends in a separator |
| Paths.FileNameAfterLastSep | NitroShell/MainWindow.xaml.cs:163 | with a separator present, the file name is exactly the text after the last separator |
| Paths.GetDirectoryName | NitroShell/MainWindow.xaml.cs:155 | null exactly when the path is no longer than its root; otherwise a shorter string with no '/' |
| Paths.DirectoryBeforeLastSep | NitroShell/MainWindow.xaml.cs:155 | when the last separator (either '\' or '/') lies past the root, has no separator just before it, and nothing before it holds a '/' or a doubled separator, the directory name is exactly the text before it ("sub/fo" gives "sub") |
| Paths.DirectoryIsRoot | NitroShell/MainWindow.xaml.cs:155-183 | when the last separator lies inside the root or there is none, the directory name is the root itself, normalised: "\" for "\Pro", "C:\" for "C:\Pro" or "C:/Pro", "C:" for "C:Pro", "" for a relative name |
| Paths.Combine | NitroShell/MainWindow.xaml.cs:162 | an empty part is ignored and a rooted second part wins; otherwise the two are joined with no separator when the first ends in one, else with exactly one '\' |
| PathResolver.PartialArgument | NitroShell/MainWindow.xaml.cs:139 | the partial path is empty for a line of at most two characters and never starts or ends with white space |
| PathResolver.PartialArgumentAsTyped | NitroShell/MainWindow.xaml.cs:139 | for "cd", any white space and a path with no white space at its ends, the partial path is that path as typed |
| PathResolver.SearchBase | NitroShell/MainWindow.xaml.cs:141-170 | only a relative partial with a separator can fail (in `GetFullPath`), and the prefix to match never holds a separator; the directory searched in each case is pinned by `ResolveCases`, `RelativeWithSep`, `RootedWithParent`, `RootedAtRoot` and `RootedNoSep` |
| PathResolver.LiteralPrefix | NitroShell/MainWindow.xaml.cs:174-188 | the kept prefix is empty or ends in a separator; with a separator typed it is a prefix of what was typed; a bare relative name keeps nothing; the exact value is pinned by `ResolveSplitsAtLastSep` and, for "C:Pro", by `RootedNoSep` |
| PathResolver.Resolve | NitroShell/MainWindow.xaml.cs:139-188 | the decomposition fails only for a relative partial with a separator; on success the search prefix has no separator and the literal prefix is empty or ends in one |
| PathResolver.ResolveCases | NitroShell/MainWindow.xaml.cs:141-170 | an empty partial searches the current directory with prefix ""; a rooted partial ending in a separator searches itself with prefix "" and is kept whole; a bare relative name is the prefix searched in the current directory; only a relative partial with a separator can fail, in `GetFullPath` |
| PathResolver.ResolveSplitsAtLastSep | NitroShell/MainWindow.xaml.cs:174-188 | with a separator, the literal prefix is the partial path up to and including its last separator, and literal prefix + search prefix is the whole partial path |
| PathResolver.ResolvePieces | NitroShell/MainWindow.xaml.cs:141-188 | a successful decomposition keeps the literal prefix of the partial path and matches its file name, or every name after a trailing separator |
| PathResolver.RelativeWithSep | NitroShell/MainWindow.xaml.cs:159-179 | a relative partial with a separator is searched in `GetFullPath(Combine(currentDirectory, GetDirectoryName(partial) ?? ""))`, for the text after the last separator, keeping everything up to it; when `GetFullPath` throws, the decomposition fails with its message |
| PathResolver.RootedAtRoot | NitroShell/MainWindow.xaml.cs:153-179 | a rooted partial whose only separator ends its root ("C:\Pro", "\Pro") is searched in that root, normalised, for the rest, and the root as typed is kept |
| PathResolver.RootedNoSep | NitroShell/MainWindow.xaml.cs:153-186 | a drive-relative partial with no separator ("C:Pro") is searched in "C:" for the rest and completed under "C:\"; the bare drive "C:" searches the current directory for every name and keeps nothing |
| PathResolver.RootedWithParent | NitroShell/MainWindow.xaml.cs:153-157 | a rooted partial with a separator that does not end in one is searched in its parent for the text after the last separator |
| PathResolver.Candidates | NitroShell/MainWindow.xaml.cs:190-194 | at most one candidate per listed directory, none of them empty |
| PathResolver.Pick | NitroShell/MainWindow.xaml.cs:191-193 | one listed directory yields at most one non-empty name |
| PathResolver.CandidatesExact | NitroShell/MainWindow.xaml.cs:190-194 | a name is a candidate if and only if it is non-empty, starts with the prefix ignoring case, and is the file name of a listed directory |
| PathResolver.CandidatesKeepOrder | NitroShell/MainWindow.xaml.cs:190-194 | filtering preserves listing order: the candidates of `a + b` are those of `a` followed by those of `b` |
| PathResolver.EmptyPrefixKeepsAll | NitroShell/MainWindow.xaml.cs:192-193 | the empty prefix keeps every listed directory whose name is non-empty |
| HistoryLog.CommandIsTrimmed | NitroShell/MainWindow.xaml.cs:74-77 | what the history holds are exactly the non-empty lines that trimming leaves unchanged |
| HistoryLog.TrimmedIsCommand | NitroShell/MainWindow.xaml.cs:74-77 | whatever is typed, its trimmed form is blank or fit to be recorded |
| HistoryLog.TrimAll | NitroShell/MainWindow.xaml.cs:74 | the lines trimmed one by one, as many as there are lines |
| HistoryLog.TrimAllAt | NitroShell/MainWindow.xaml.cs:74 | the i-th trimmed line is the i-th line trimmed |
| HistoryLog.Record | NitroShell/MainWindow.xaml.cs:75-79 | a blank line leaves the history alone; otherwise it is appended and the cursor goes to Count; the cursor stays in [-1, Count] |
| HistoryLog.Previous | NitroShell/MainWindow.xaml.cs:90-99 | Up with the cursor above 0 moves it back one and shows that entry; otherwise nothing changes and nothing is shown |
| HistoryLog.Next | NitroShell/MainWindow.xaml.cs:100-114 | Down before the last entry moves on one and shows it; otherwise the cursor goes to Count and the line is cleared, also on an empty history |
| HistoryLog.RecordAll | NitroShell/MainWindow.xaml.cs:72-79 | entering lines in turn, each trimmed and recorded when not blank, keeps the history well formed and only ever appends, at most one entry per line |
| HistoryLog.RecordAllAppends | NitroShell/MainWindow.xaml.cs:72-79 | entering lines that are not blank appends all of them, trimmed and in order, and the cursor ends at Count |
| HistoryLog.BlankLineNotRecorded | NitroShell/MainWindow.xaml.cs:74-79 | a white-space-only line changes neither the entries nor the cursor |
| CompletionSession.NextIndex | NitroShell/MainWindow.xaml.cs:209 | the advanced cursor stays in [0, Count) |
| CompletionSession.NextIndexIsMod | NitroShell/MainWindow.xaml.cs:209 | the advanced cursor is `(completionIndex + 1) % Count` |
| CompletionSession.Advance | NitroShell/MainWindow.xaml.cs:208-215 | one press moves only the cursor, to the next place with wrap-around, and yields `"cd " + literal prefix + candidate at the old cursor` |
| CompletionSession.Cycle | NitroShell/MainWindow.xaml.cs:205-215 | any number of presses keeps the session active and well formed and changes only the cursor |
| CompletionSession.CycleIndex | NitroShell/MainWindow.xaml.cs:209 | after k presses the cursor is `(index + k) mod Count` |
| CompletionSession.CycleFromZero | NitroShell/MainWindow.xaml.cs:202-209 | counted from cursor 0, after m presses the cursor is `m mod Count` |
| CommandDispatcher.SkipSpaces | NitroShell/MainWindow.xaml.cs:225 | the next non-space position, with only spaces skipped |
| CommandDispatcher.FindSpace | NitroShell/MainWindow.xaml.cs:225 | the next space position, with no space skipped |
| CommandDispatcher.Argument | NitroShell/MainWindow.xaml.cs:225-226 | `parts[1]` of `Split(' ', 2, RemoveEmptyEntries)`, when present, is non-empty, shorter than the line, and does not start with a space |
| CommandDispatcher.ArgumentIsRest | NitroShell/MainWindow.xaml.cs:225-226 | `parts[1]` of `Split(' ', 2, RemoveEmptyEntries)` is a non-empty tail of the line that starts with no space and has a space before it |
| CommandDispatcher.ArgumentAfterFirstWord | NitroShell/MainWindow.xaml.cs:223-228 | for any first word without spaces ("cd", "CD", "cdfoo"), one or more spaces and an argument, the argument passed to `GetFullPath` is the whole rest of the line |
| CommandDispatcher.NoSpaceNoArgument | NitroShell/MainWindow.xaml.cs:225-226 | a line without a space ("cd..", "cd\") has no argument |
| CommandDispatcher.Dispatch | NitroShell/MainWindow.xaml.cs:219-264 | only a "cd" line moves the working directory, and only into a directory that exists; a delegated line that ran writes the prompt and the line first |
| CommandDispatcher.DirectoryChangesOnlyByCd | NitroShell/MainWindow.xaml.cs:223-239 | the directory changes only on a "cd" line with an argument, only to `GetFullPath(argument, currentDirectory)`, and only when that path exists; the new prompt is then written |
| CommandDispatcher.CdOutcomes | NitroShell/MainWindow.xaml.cs:223-263 | with no argument only the prompt is written; a missing directory writes the not-found message and the prompt and keeps the directory; a `GetFullPath` exception writes only `"Error: " + message + "\n"` |
| CommandDispatcher.CdNeverRunsProcess | NitroShell/MainWindow.xaml.cs:223-240 | a "cd" line never reaches the process: its outcome does not depend on what the process would do |
| CommandDispatcher.DelegationIgnoresFileSystem | NitroShell/MainWindow.xaml.cs:243-263 | any other line keeps the directory and ignores the file system; it writes prompt, line, line break, then all of stdout and then all of stderr, or the start failure's `"Error: "` message |
| SessionController.Initial | NitroShell/MainWindow.xaml.cs:16-25 | a new window has no history (cursor -1), no completion session, and the header followed by the first prompt as output |
| SessionController.Submit | NitroShell/MainWindow.xaml.cs:72-84 | Enter leaves the window well formed with an empty line and no session; the history only grows, by at most the one trimmed line |
| SessionController.TabPress | NitroShell/MainWindow.xaml.cs:130-217 | Tab changes only the session and the line; a line not starting with "cd" is left alone even in an active session; an active session emits the candidate at its cursor and moves only the cursor |
| SessionController.NewSession | NitroShell/MainWindow.xaml.cs:137-202 | a session started by the first press is active, well formed, and has its cursor at 0 |
| SessionController.FirstTab | NitroShell/MainWindow.xaml.cs:137-202 | with no session active, Tab starts one exactly when the partial path resolves, its base exists and some name matches; the session then holds those names in listing order and the line shows the first; otherwise nothing changes |
| SessionController.Step | NitroShell/MainWindow.xaml.cs:70-119 | only Enter changes the directory or the output; Up and Down leave the completion session and the entries alone; any other key resets the session and changes nothing else; no key removes a history entry |
| SessionController.EnterEffect | NitroShell/MainWindow.xaml.cs:72-84 | Enter clears the line and resets the session; it records the trimmed line exactly when it is not blank, and applies the routing of the trimmed line |
| SessionController.UpPress | NitroShell/MainWindow.xaml.cs:90-99 | Up changes only the history cursor and the line, keeps the entries, and the line is kept or becomes a history entry |
| SessionController.DownPress | NitroShell/MainWindow.xaml.cs:100-114 | Down changes only the history cursor and the line, keeps the entries, and the line is cleared or becomes a history entry |
| SessionController.Presses | NitroShell/MainWindow.xaml.cs:70-119 | the same key pressed k times keeps the window well formed (history cursor in [-1, Count], completion cursor in [0, Count)) |
| SessionController.Run | NitroShell/MainWindow.xaml.cs:70-119 | any sequence of key presses keeps the window well formed and never removes a history entry; without Enter the directory and the output do not change |
| SessionController.RunConcat | NitroShell/MainWindow.xaml.cs:70-119 | pressing the keys of `a` and then those of `b` is pressing the keys of `a + b` |
| SessionController.PressesAreRun | NitroShell/MainWindow.xaml.cs:70-119 | one key pressed k times is the run of the sequence of k such keys |
| SessionController.UpWalksBack | NitroShell/MainWindow.xaml.cs:90-99 | k Up presses from cursor i >= k end at i - k showing that entry, with nothing else changed |
| SessionController.UpStopsAtOldest | NitroShell/MainWindow.xaml.cs:92-97 | Up at the oldest entry, or before any, changes nothing |
| SessionController.DownWalksForward | NitroShell/MainWindow.xaml.cs:100-106 | k Down presses that stay before the end move the cursor k places forward and show that entry |
| SessionController.DownPastEnd | NitroShell/MainWindow.xaml.cs:107-111 | Down at or after the last entry sets the cursor to Count and clears the line |
| SessionController.SubmitAll | NitroShell/MainWindow.xaml.cs:72-84 | typing and submitting any lines in turn keeps the window well formed |
| SessionController.SubmitAllHistory | NitroShell/MainWindow.xaml.cs:72-84 | the history after submitting lines is the history after recording them, each trimmed, in turn |
| SessionController.SubmitAllRecords | NitroShell/MainWindow.xaml.cs:72-84 | submitting lines that are not blank appends all of them, trimmed and in order, and leaves the cursor at Count |
| SessionController.RecallNewestFirst | NitroShell/MainWindow.xaml.cs:72-99 | after N lines that are not blank are submitted, the k-th Up press shows the k-th most recent line, trimmed |
| SessionController.TabCycles | NitroShell/MainWindow.xaml.cs:205-215 | k presses in an active session advance it k times; the line shows the candidate before the last press; history, directory and output do not change |
| SessionController.FirstTabStarts | NitroShell/MainWindow.xaml.cs:196-215 | the press that starts a session shows its first candidate and leaves the cursor one place on |
| SessionController.CompletionCycle | NitroShell/MainWindow.xaml.cs:137-215 | from no session, the k-th Tab press shows candidate `(k - 1) mod n` of the list fixed by the first press; the list stays fixed and the cursor stays in [0, n) |
| SessionController.CycleAfterFirst | NitroShell/MainWindow.xaml.cs:205-215 | after the starting press, m more presses show candidate `m mod n` |
| SessionController.ActiveTabIgnoresLineAndDisk | NitroShell/MainWindow.xaml.cs:132-215 | an active session reads neither the line beyond its "cd" nor the file system: such states complete identically |
| Shell.MainWindow.constructor | NitroShell/MainWindow.xaml.cs:16-67 | the fields start as `Initial` gives: the user's home directory, no history, cursor -1, no session, the header written |
| Shell.MainWindow.KeyDown | NitroShell/MainWindow.xaml.cs:70-119 | `InputBox_KeyDown` updates the fields exactly as `Step` and keeps them well formed |
| Shell.MainWindow.EnterPressed | NitroShell/MainWindow.xaml.cs:72-84 | the Enter branch updates the fields exactly as `Submit` |
| Shell.MainWindow.RecordCommand | NitroShell/MainWindow.xaml.cs:75-79 | the history fields become `Record` of the old history, and nothing else changes |
| Shell.MainWindow.UpPressed | NitroShell/MainWindow.xaml.cs:90-99 | the Up branch updates the fields exactly as `Previous` does the history |
| Shell.MainWindow.DownPressed | NitroShell/MainWindow.xaml.cs:100-114 | the Down branch updates the fields exactly as `Next` does the history |
| Shell.MainWindow.ResetCompletionSession | NitroShell/MainWindow.xaml.cs:121-128 | the five completion fields return to their initial values and nothing else changes |
| Shell.MainWindow.HandleTabCompletion | NitroShell/MainWindow.xaml.cs:130-217 | updates the fields exactly as `TabPress`, including the `%` step of the cursor |
| Shell.MainWindow.StartCompletionSession | NitroShell/MainWindow.xaml.cs:137-203 | installs the session `NewSession` gives and reports it, or changes nothing when there is none (an inactive session holds no candidates, so the assignment made before the Count check changes nothing) |
| Shell.MainWindow.OpenSession | NitroShell/MainWindow.xaml.cs:171-202 | gives up when the base directory does not exist; otherwise stores the filtered listing and, when it is not empty, activates the session with cursor 0, the base directory and the literal prefix |
| Shell.MainWindow.DecomposePartial | NitroShell/MainWindow.xaml.cs:139-188 | the step-by-step assignments to `baseDir`, `searchPrefix` and `prefixDirWithSep` compute `Resolve`, and fail exactly when it does |
| Shell.MainWindow.RunCommand | NitroShell/MainWindow.xaml.cs:219-264 | the directory and the appended output are those `Dispatch` gives, with `GetFullPath(argument, currentDirectory)`, and nothing else changes |

## Points where the code is easy to misread

- `historyIndex` starts at -1 (line 25). The history cursor therefore ranges over
  [-1, Count]. It is -1 only before anything has been recorded.
- Down at the end of the history still clears the line, and sets the cursor to Count
  even when it is there already. On an empty history it moves the cursor from -1 to 0
  (lines 107-111).
- The built-in is recognised by `StartsWith("cd")` ignoring case (lines 134, 223), so
  "cd" need not be a word of its own:
  - "cdfoo C:\x" is a directory change to `C:\x`;
  - "cd.." has no argument (its `Split` yields one part), so it only writes the prompt.
- The argument of `cd` is everything after the first run of spaces that follows the
  first word, taken whole. Later spaces are kept.
- For a partial path such as "C:Pro" (lines 153-157 and 180-185), the directory searched
  is the drive-relative "C:" (the current directory of drive C), but the completion put
  back on the line is "C:\" followed by the name, a path under the root of the drive.
- After an exception from `GetFullPath` in `RunCommand`, only the `Error:` line is
  written, with no prompt.

## Left out

- `ConfigureWindow` (lines 34-48) is left out. It is window-handle interop and
  title-bar chrome, with no logic.
- `PrintShellHeader` (lines 50-68) is not modelled as text. The ASCII banner and the OS
  version are an opaque `banner` parameter; the model appends the first prompt and the
  line break.
- `Environment.UserName` is a constructor parameter.
- Running `cmd.exe`, blocking on its output streams, `Directory.Exists`,
  `Directory.GetDirectories` and `Path.GetFullPath` are all oracles in `host`.
  - `GetFullPath` normalisation (`..`, drive-relative forms such as "\x" or "C:x"
    against the base directory) and its invalid-path exceptions are whatever the two
    oracles return.
- The path helpers cover drive roots ("C:", "C:\") and a single leading separator. UNC,
  device and extended paths are not modelled. `GetDirectoryName` normalises '/' to '\'
  and collapses runs of separators, but does no other normalisation.
- Case-insensitive comparison folds ASCII letters only. The ordinal upper-casing of
  other Unicode letters is not modelled.
- Exceptions that `Directory.GetDirectories` can throw (access denied, a vanished
  directory) are not modelled; the listing oracle is total.
- An exception from `GetFullPath` in `HandleTabCompletion` is unhandled in the code and
  escapes the event handler. Nothing has been changed when it is thrown, so the model
  changes nothing.
- Shell.MainWindow.HandleTabCompletion: the `Count == 0` check on line 205 is not
  modelled. An active session always has candidates, so the check can never succeed.
- `OutputBox.UpdateLayout`, the scroll to the bottom, `e.Handled` and the caret position
  (`SelectionStart`) are left out; they are UI only.
- The event arguments and the `?? ""` guards against null texts are left out: the input
  text is always a string here.
- The Enter branch of `InputBox_KeyDown` is spread over `EnterPressed` and
  `RecordCommand`; Up, Down and the start of a completion session are separate methods,
  and the start is split in two: `DecomposePartial`, then `OpenSession`.
  The order of field updates within each branch is the source's.
- Typing into the input box is not modelled. After a key that is not Enter, Tab, Up or
  Down the text box inserts the character at the caret; the model instead takes the
  line as it stands when a key is handled, so a caller sets `input` (or `inputText`)
  between presses, as `SubmitAll` does.
