/**
 * The whole engine as a value: the state of the window and one function per key,
 * with the properties that relate several key presses.
 */
module SessionController {
  import opened Wrappers
  import opened Text
  import opened Platform
  import opened PathResolver
  import opened HistoryLog
  import opened CompletionSession
  import opened CommandDispatcher

  /** The keys the input box distinguishes; `Other` is every remaining key. */
  datatype Key = Enter | Tab | Up | Down | Other

  /** The window's state: working directory, completion session, history, the text of
      the input box and the (append-only) text of the output box. */
  datatype Session = Session(
    directory: string,
    completion: Completion,
    history: History,
    input: string,
    output: string)

  ghost predicate Valid(s: Session) {
    s.completion.Valid() && s.history.Valid()
  }

  /** A new window: the starting directory, no completion, no history, and the header
      (a banner ending with the first prompt) in the output. */
  function Initial(directory: string, banner: string): (s: Session)
    ensures Valid(s)
    ensures s.history.entries == [] && s.history.index == -1 && !s.completion.active
    ensures s.output == banner + directory + "> \n"
  {
    Session(directory, Inactive, Empty, "", banner + directory + "> " + "\n")
  }

  /** Enter: the trimmed line is recorded when non-empty, the input is cleared, the line
      is dispatched, and the completion session is reset. */
  function Submit(s: Session, host: Host): (r: Session)
    requires Valid(s)
    ensures Valid(r) && r.input == "" && r.completion == Inactive
    // the history only grows, by the trimmed line when it is not blank
    ensures s.history.entries <= r.history.entries
    ensures |r.history.entries| <= |s.history.entries| + 1
  {
    var command := Trim(s.input);
    TrimmedIsCommand(s.input);
    var d := Dispatch(command, s.directory, host);
    Session(d.directory, Inactive, Record(s.history, command), "", s.output + d.text)
  }

  /** `HandleTabCompletion`. */
  function TabPress(s: Session, host: Host): (r: Session)
    requires Valid(s)
    ensures Valid(r)
    // nothing but the completion session and the input line changes
    ensures r.directory == s.directory && r.history == s.history && r.output == s.output
    // a line that does not start with "cd" is left alone, even in an active session
    ensures !StartsWithIgnoreCase(s.input, "cd") ==> r == s
    // an active session keeps its candidates and emits the one at its cursor
    ensures StartsWithIgnoreCase(s.input, "cd") && s.completion.active ==>
      r.completion == s.completion.(index := NextIndex(s.completion.index, |s.completion.candidates|)) &&
      r.input == "cd " + s.completion.literalPrefix + s.completion.candidates[s.completion.index]
  {
    if !StartsWithIgnoreCase(s.input, "cd") then s
    else if s.completion.active then
      var (c, line) := Advance(s.completion);
      s.(completion := c, input := line)
    else
      match NewSession(s, host)
      case None => s
      case Some(started) =>
        var (c, line) := Advance(started);
        s.(completion := c, input := line)
  }

  /** The session the first Tab press on a "cd" line starts: none when the partial path
      does not resolve, its search directory does not exist or nothing in it matches;
      otherwise the matching names with the cursor on the first. */
  function NewSession(s: Session, host: Host): (r: Option<Completion>)
    ensures r.Some? ==> r.value.Valid() && r.value.active && r.value.index == 0
  {
    match Resolve(PartialArgument(s.input), s.directory, host.fullPath)
    case Err(_) => None
    case Ok(res) =>
      if res.baseDir !in host.directories then None
      else
        var cands := Candidates(host.subdirectories(res.baseDir), res.searchPrefix);
        if cands == [] then None else Some(Completion(true, cands, 0, res.baseDir, res.literalPrefix))
  }

  /** `NewSession` step by step: the decomposition, then the existence test, then the
      filtered listing. */
  lemma {:induction false} NewSessionSteps(s: Session, host: Host)
    ensures var res := Resolve(PartialArgument(s.input), s.directory, host.fullPath);
      && (res.Err? ==> NewSession(s, host) == None)
      && (res.Ok? && res.value.baseDir !in host.directories ==> NewSession(s, host) == None)
      && (res.Ok? && res.value.baseDir in host.directories ==>
            var cands := Candidates(host.subdirectories(res.value.baseDir), res.value.searchPrefix);
            NewSession(s, host) == if cands == [] then None else Some(Completion(true, cands, 0, res.value.baseDir, res.value.literalPrefix)))
  {
  }

  /** The session a Tab press on a "cd" line advances: the active one, or the one the
      press starts. */
  function Emitting(s: Session, host: Host): Option<Completion>
  {
    if s.completion.active then Some(s.completion) else NewSession(s, host)
  }

  /** A Tab press on a "cd" line advances the session it acts on, when there is one,
      and otherwise changes nothing. */
  lemma {:induction false} TabPressEmits(s: Session, host: Host)
    requires Valid(s) && StartsWithIgnoreCase(s.input, "cd")
    ensures Emitting(s, host).None? ==> TabPress(s, host) == s
    ensures Emitting(s, host).Some? ==>
      var c := Emitting(s, host).value;
      c.Valid() && c.active &&
      TabPress(s, host) == s.(completion := Advance(c).0, input := Advance(c).1)
  {
  }

  /** With no session active, a Tab press on a "cd" line starts one exactly when there is
      something to complete: the partial path resolves, its search directory exists and
      has matching subdirectories. The session then holds those names in listing order
      and the line shows the first of them behind the literal prefix. */
  lemma {:induction false} FirstTab(s: Session, host: Host)
    requires Valid(s) && StartsWithIgnoreCase(s.input, "cd") && !s.completion.active
    ensures var r := TabPress(s, host);
      var res := Resolve(PartialArgument(s.input), s.directory, host.fullPath);
      if res.Ok? && res.value.baseDir in host.directories &&
         Candidates(host.subdirectories(res.value.baseDir), res.value.searchPrefix) != []
      then
        var cands := Candidates(host.subdirectories(res.value.baseDir), res.value.searchPrefix);
        r.completion == Completion(true, cands, NextIndex(0, |cands|), res.value.baseDir, res.value.literalPrefix) &&
        r.input == "cd " + res.value.literalPrefix + cands[0]
      else r == s
  {
  }

  /** Up: recall the previous entry, if any. */
  function UpPress(s: Session): (r: Session)
    requires Valid(s)
    ensures Valid(r)
    ensures r == s.(history := r.history, input := r.input) && r.history.entries == s.history.entries
    // the line is kept, or replaced by an entry of the history
    ensures r.input == s.input || r.input in s.history.entries
  {
    var (h, shown) := Previous(s.history);
    s.(history := h, input := shown.GetOr(s.input))
  }

  /** Down: recall the next entry, or clear the line past the end. */
  function DownPress(s: Session): (r: Session)
    requires Valid(s)
    ensures Valid(r)
    ensures r == s.(history := r.history, input := r.input) && r.history.entries == s.history.entries
    // the line is cleared, or replaced by an entry of the history
    ensures r.input == "" || r.input in s.history.entries
  {
    var (h, shown) := Next(s.history);
    s.(history := h, input := shown)
  }

  /** `InputBox_KeyDown`: the effect of one key. */
  function Step(s: Session, key: Key, host: Host): (r: Session)
    requires Valid(s)
    ensures Valid(r)
    // only Enter changes the directory or writes output
    ensures key != Enter ==> r.directory == s.directory && r.output == s.output
    // the history keys leave the completion session alone
    ensures key == Up || key == Down ==> r.completion == s.completion && r.history.entries == s.history.entries
    // any other key resets the completion session and changes nothing else
    ensures key == Other ==> r == s.(completion := Inactive)
    // no key removes anything from the history
    ensures s.history.entries <= r.history.entries
  {
    match key
    case Enter => Submit(s, host)
    case Tab => TabPress(s, host)
    case Up => UpPress(s)
    case Down => DownPress(s)
    case Other => s.(completion := Inactive)
  }

  /** Enter clears the line and the completion session, records the trimmed line
      exactly when it is not blank (a blank or white-space line leaves the history and
      its cursor alone), and dispatches the trimmed line. */
  lemma {:induction false} EnterEffect(s: Session, host: Host)
    requires Valid(s)
    ensures var r := Step(s, Enter, host);
      var d := Dispatch(Trim(s.input), s.directory, host);
      && r.input == "" && r.completion == Inactive
      && r.directory == d.directory && r.output == s.output + d.text
      && ((forall i :: 0 <= i < |s.input| ==> IsWhiteSpace(s.input[i])) ==> r.history == s.history)
      && (Trim(s.input) != "" ==>
            r.history == History(s.history.entries + [Trim(s.input)], |s.history.entries| + 1))
  {
  }

  /** The same key pressed k times. */
  function Presses(s: Session, key: Key, host: Host, k: nat): (r: Session)
    requires Valid(s)
    ensures Valid(r)
    decreases k
  {
    if k == 0 then s else Presses(Step(s, key, host), key, host, k - 1)
  }

  /** The keys pressed in turn. */
  function Run(s: Session, keys: seq<Key>, host: Host): (r: Session)
    requires Valid(s)
    ensures Valid(r)
    // the history only grows
    ensures s.history.entries <= r.history.entries
    // without Enter the directory and the output stay as they were
    ensures (forall i :: 0 <= i < |keys| ==> keys[i] != Enter) ==> r.directory == s.directory && r.output == s.output
    decreases |keys|
  {
    if keys == [] then s else Run(Step(s, keys[0], host), keys[1..], host)
  }

  /** Pressing the keys of `a` and then those of `b` is pressing the keys of `a + b`. */
  lemma {:induction false} RunConcat(s: Session, a: seq<Key>, b: seq<Key>, host: Host)
    requires Valid(s)
    ensures Run(s, a + b, host) == Run(Run(s, a, host), b, host)
    decreases |a|
  {
    if a == [] {
      assert a + b == b;
    } else {
      var s' := Step(s, a[0], host);
      assert (a + b)[0] == a[0] && (a + b)[1..] == a[1..] + b;
      RunConcat(s', a[1..], b, host);
    }
  }

  /** The key `key`, k times over. */
  function Repeat(key: Key, k: nat): (r: seq<Key>)
    ensures |r| == k && forall i :: 0 <= i < k ==> r[i] == key
  {
    if k == 0 then [] else [key] + Repeat(key, k - 1)
  }

  /** Pressing one key k times is running the sequence of k such keys. */
  lemma {:induction false} PressesAreRun(s: Session, key: Key, host: Host, k: nat)
    requires Valid(s)
    ensures Presses(s, key, host, k) == Run(s, Repeat(key, k), host)
    decreases k
  {
    if k > 0 {
      var keys := Repeat(key, k);
      var s' := Step(s, key, host);
      assert keys[0] == key && keys[1..] == Repeat(key, k - 1);
      PressesAreRun(s', key, host, k - 1);
      PressesUnfold(s, key, host, k);
    }
  }

  lemma {:induction false} PressesUnfold(s: Session, key: Key, host: Host, k: nat)
    requires Valid(s) && k > 0
    ensures Presses(s, key, host, k) == Presses(Step(s, key, host), key, host, k - 1)
  {
  }

  /** Up pressed k times from cursor i (k <= i) walks back through the history: the
      cursor ends at i - k and the line shows entry i - k; nothing else changes. */
  lemma {:induction false} UpWalksBack(s: Session, host: Host, k: nat)
    requires Valid(s) && k <= s.history.index
    ensures var r := Presses(s, Up, host, k);
      r.history == s.history.(index := s.history.index - k) &&
      (k > 0 ==> r.input == s.history.entries[s.history.index - k]) &&
      r.completion == s.completion && r.directory == s.directory && r.output == s.output
    decreases k
  {
    if k > 0 {
      var s' := Step(s, Up, host);
      assert s'.history == s.history.(index := s.history.index - 1);
      assert s'.input == s.history.entries[s.history.index - 1];
      UpWalksBack(s', host, k - 1);
    }
  }

  /** Up at the oldest entry (or before any) changes nothing. */
  lemma {:induction false} UpStopsAtOldest(s: Session, host: Host)
    requires Valid(s) && s.history.index <= 0
    ensures Step(s, Up, host) == s
  {
  }

  /** Down pressed k times from cursor i, while i + k stays before the last entry's
      successor, walks forward: the cursor ends at i + k and the line shows that entry. */
  lemma {:induction false} DownWalksForward(s: Session, host: Host, k: nat)
    requires Valid(s) && 0 <= s.history.index && s.history.index + k < |s.history.entries|
    ensures var r := Presses(s, Down, host, k);
      r.history == s.history.(index := s.history.index + k) &&
      (k > 0 ==> r.input == s.history.entries[s.history.index + k]) &&
      r.completion == s.completion && r.directory == s.directory && r.output == s.output
    decreases k
  {
    if k > 0 {
      var s' := Step(s, Down, host);
      PressesUnfold(s, Down, host, k);
      assert s'.history == s.history.(index := s.history.index + 1);
      assert s'.input == s.history.entries[s.history.index + 1];
      DownWalksForward(s', host, k - 1);
    }
  }

  /** Down at or after the last entry moves the cursor to Count and clears the line,
      also on an empty history. */
  lemma {:induction false} DownPastEnd(s: Session, host: Host)
    requires Valid(s) && s.history.index >= |s.history.entries| - 1
    ensures var r := Step(s, Down, host);
      r.history.index == |s.history.entries| && r.input == "" && r.completion == s.completion
  {
  }

  /** The lines entered in turn, each typed into the input box and submitted. */
  function SubmitAll(s: Session, lines: seq<string>, host: Host): (r: Session)
    requires Valid(s)
    ensures Valid(r)
    decreases |lines|
  {
    if lines == [] then s else SubmitAll(Step(s.(input := lines[0]), Enter, host), lines[1..], host)
  }

  /** The history after lines are submitted in turn is the history after their trimmed
      forms are recorded in turn. */
  lemma {:induction false} SubmitAllHistory(s: Session, lines: seq<string>, host: Host)
    requires Valid(s)
    ensures SubmitAll(s, lines, host).history == RecordAll(s.history, lines)
    decreases |lines|
  {
    if lines != [] {
      var s' := Step(s.(input := lines[0]), Enter, host);
      SubmitAllUnfold(s, lines, host);
      assert s'.history == Record(s.history, Trim(lines[0]));
      SubmitAllHistory(s', lines[1..], host);
    }
  }

  /** After N submitted non-blank lines, N Up presses recall them newest first: the
      k-th press shows the k-th most recent line, trimmed. */
  lemma {:induction false} RecallNewestFirst(s: Session, lines: seq<string>, host: Host, k: nat)
    requires Valid(s)
    requires forall i :: 0 <= i < |lines| ==> Trim(lines[i]) != ""
    requires 1 <= k <= |lines|
    ensures Presses(SubmitAll(s, lines, host), Up, host, k).input == Trim(lines[|lines| - k])
  {
    var r := SubmitAll(s, lines, host);
    SubmitAllRecords(s, lines, host);
    UpWalksBack(r, host, k);
    TrimAllAt(lines, |lines| - k);
    assert r.history.entries[r.history.index - k] == TrimAll(lines)[|lines| - k];
  }

  /** Submitting lines that are not blank appends their trimmed forms to the history, in
      order, and leaves the cursor past the end. */
  lemma {:induction false} SubmitAllRecords(s: Session, lines: seq<string>, host: Host)
    requires Valid(s)
    requires forall i :: 0 <= i < |lines| ==> Trim(lines[i]) != ""
    ensures SubmitAll(s, lines, host).history.entries == s.history.entries + TrimAll(lines)
    ensures lines != [] ==> SubmitAll(s, lines, host).history.index == |s.history.entries| + |lines|
  {
    SubmitAllHistory(s, lines, host);
    if lines != [] {
      RecordAllAppends(s.history, lines);
    } else {
      assert s.history.entries + TrimAll(lines) == s.history.entries;
    }
  }

  lemma {:induction false} SubmitAllUnfold(s: Session, lines: seq<string>, host: Host)
    requires Valid(s) && lines != []
    ensures SubmitAll(s, lines, host) == SubmitAll(Step(s.(input := lines[0]), Enter, host), lines[1..], host)
  {
  }

  /** In an active session k further Tab presses advance the session k times and the
      line shows the candidate at the cursor before the last press; only the cursor and
      the line change. */
  lemma {:induction false} TabCycles(s: Session, host: Host, k: nat)
    requires Valid(s) && s.completion.active && StartsWithIgnoreCase(s.input, "cd")
    ensures var r := Presses(s, Tab, host, k);
      r.completion == Cycle(s.completion, k) &&
      (k > 0 ==> r.input == "cd " + s.completion.literalPrefix + s.completion.candidates[Cycle(s.completion, k - 1).index]) &&
      r.history == s.history && r.directory == s.directory && r.output == s.output
    decreases k
  {
    if k > 0 {
      var c := s.completion;
      var s' := Step(s, Tab, host);
      PressesUnfold(s, Tab, host, k);
      assert s'.completion == Advance(c).0 && s'.input == "cd " + c.literalPrefix + c.candidates[c.index];
      CdLine(c.literalPrefix, c.candidates[c.index]);
      TabCycles(s', host, k - 1);
      CycleUnfold(c, k);
      if k >= 2 {
        CycleUnfold(c, k - 1);
      }
    }
  }

  /** The first Tab press that starts a session emits the first candidate and leaves
      the cursor one place on. */
  lemma {:induction false} FirstTabStarts(s: Session, host: Host)
    requires Valid(s) && !s.completion.active && StartsWithIgnoreCase(s.input, "cd")
    requires Step(s, Tab, host).completion.active
    ensures var r := Step(s, Tab, host);
      r.completion.(index := 0).Valid() && r.completion == Advance(r.completion.(index := 0)).0 &&
      r.input == "cd " + r.completion.literalPrefix + r.completion.candidates[0]
  {
    var res := Resolve(PartialArgument(s.input), s.directory, host.fullPath);
    assert res.Ok? && res.value.baseDir in host.directories;
  }

  /** From an inactive session, the k-th Tab press on a "cd" line emits candidate
      (k - 1) mod n of the list fixed by the first press, and the cursor stays below n. */
  lemma {:induction false} CompletionCycle(s: Session, host: Host, k: nat)
    requires Valid(s) && !s.completion.active && StartsWithIgnoreCase(s.input, "cd") && k >= 1
    requires Step(s, Tab, host).completion.active
    ensures var c := Step(s, Tab, host).completion;
      var r := Presses(s, Tab, host, k);
      r.input == "cd " + c.literalPrefix + c.candidates[(k - 1) % |c.candidates|] &&
      r.completion.candidates == c.candidates && 0 <= r.completion.index < |c.candidates|
  {
    var s' := Step(s, Tab, host);
    var m := k - 1;
    FirstTabStarts(s, host);
    CdLine(s'.completion.literalPrefix, s'.completion.candidates[0]);
    PressesUnfold(s, Tab, host, k);
    CycleAfterFirst(s', host, m);
    var r := Presses(s', Tab, host, m);
    assert Presses(s, Tab, host, k) == r;
  }

  /** After the press that started a session (cursor moved from 0 to the next place,
      first candidate shown), m further presses show candidate m mod n. */
  lemma {:induction false} CycleAfterFirst(s: Session, host: Host, m: nat)
    requires Valid(s) && s.completion.active && StartsWithIgnoreCase(s.input, "cd")
    requires s.completion.(index := 0).Valid() && s.completion == Advance(s.completion.(index := 0)).0
    requires s.input == "cd " + s.completion.literalPrefix + s.completion.candidates[0]
    ensures var c := s.completion;
      var r := Presses(s, Tab, host, m);
      r.input == "cd " + c.literalPrefix + c.candidates[m % |c.candidates|] &&
      r.completion.candidates == c.candidates && 0 <= r.completion.index < |c.candidates|
  {
    var c := s.completion;
    var c0 := c.(index := 0);
    TabCycles(s, host, m);
    var j := Cycle(c0, m).index;
    CycleFromZero(c0, m);
    if m >= 1 {
      CycleUnfold(c0, m);
      assert j == Cycle(c, m - 1).index;
    } else {
      assert j == 0;
    }
  }

  /** An active session does not look at the line beyond its "cd", nor at the file
      system: two states that differ only there complete identically. */
  lemma {:induction false} ActiveTabIgnoresLineAndDisk(s: Session, line: string, host: Host, other: Host)
    requires Valid(s) && s.completion.active
    requires StartsWithIgnoreCase(s.input, "cd") && StartsWithIgnoreCase(line, "cd")
    ensures Step(s.(input := line), Tab, other) == Step(s, Tab, host)
  {
  }
}
