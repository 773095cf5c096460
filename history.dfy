/**
 * The command history: the submitted lines in order and the recall cursor
 * `historyIndex`, which starts at -1 and otherwise ranges over [0, Count].
 */
module HistoryLog {
  import opened Wrappers
  import opened Text

  datatype History = History(entries: seq<string>, index: int) {
    /** The cursor stays in [-1, Count], is -1 only before anything was recorded, and
        every entry is a non-empty trimmed line. */
    ghost predicate Valid() {
      && -1 <= index <= |entries|
      && (index == -1 ==> entries == [])
      && forall i :: 0 <= i < |entries| ==> Command(entries[i])
    }
  }

  /** A line as the history keeps it: non-empty, with no white space at either end. */
  predicate Command(line: string) {
    line != [] && !IsWhiteSpace(line[0]) && !IsWhiteSpace(line[|line| - 1])
  }

  /** The history keeps exactly the non-empty lines that trimming leaves unchanged. */
  lemma {:induction false} CommandIsTrimmed(line: string)
    ensures Command(line) <==> line != "" && Trim(line) == line
  {
    if Command(line) { TrimOfTrimmed(line); }
  }

  /** Whatever was typed, its trimmed form is blank or a command. */
  lemma {:induction false} TrimmedIsCommand(line: string)
    ensures Trim(line) == "" || Command(Trim(line))
  {
  }

  /** The history of a new window. */
  const Empty := History([], -1)

  /** Enter: a non-empty trimmed command is appended and the cursor moves past the end. */
  function Record(h: History, command: string): (r: History)
    requires h.Valid() && (command == "" || Command(command))
    ensures r.Valid()
    ensures command == "" ==> r == h
    ensures command != "" ==> r.entries == h.entries + [command] && r.index == |r.entries|
  {
    if command != "" then History(h.entries + [command], |h.entries| + 1) else h
  }

  /** Up: when the cursor is past the first entry it moves back one and that entry is
      shown; otherwise nothing changes and nothing is shown. */
  function Previous(h: History): (r: (History, Option<string>))
    requires h.Valid()
    ensures r.0.Valid() && r.0.entries == h.entries
    ensures h.index > 0 ==> r.0.index == h.index - 1 && r.1 == Some(h.entries[h.index - 1])
    ensures h.index <= 0 ==> r == (h, None)
  {
    if |h.entries| > 0 && h.index > 0 then
      (h.(index := h.index - 1), Some(h.entries[h.index - 1]))
    else (h, None)
  }

  /** Down: before the last entry the cursor moves on one and that entry is shown;
      otherwise the cursor goes to Count and the input is cleared, even on an empty history. */
  function Next(h: History): (r: (History, string))
    requires h.Valid()
    ensures r.0.Valid() && r.0.entries == h.entries
    ensures h.index < |h.entries| - 1 ==> r.0.index == h.index + 1 && r.1 == h.entries[h.index + 1]
    ensures h.index >= |h.entries| - 1 ==> r.0.index == |h.entries| && r.1 == ""
  {
    if |h.entries| > 0 && h.index < |h.entries| - 1 then
      (h.(index := h.index + 1), h.entries[h.index + 1])
    else (h.(index := |h.entries|), "")
  }

  /** Each line trimmed, in order. */
  function TrimAll(lines: seq<string>): (r: seq<string>)
    ensures |r| == |lines|
  {
    if lines == [] then [] else [Trim(lines[0])] + TrimAll(lines[1..])
  }

  /** The i-th trimmed line is the i-th line trimmed. */
  lemma {:induction false} TrimAllAt(lines: seq<string>, i: nat)
    requires i < |lines|
    ensures TrimAll(lines)[i] == Trim(lines[i])
    decreases i
  {
    var rest := lines[1..];
    assert TrimAll(lines) == [Trim(lines[0])] + TrimAll(rest);
    if i > 0 {
      TrimAllAt(rest, i - 1);
      assert rest[i - 1] == lines[i];
    }
  }

  /** The history after each of `lines` was typed and entered in turn: each is trimmed
      and recorded when it is not blank. */
  function RecordAll(h: History, lines: seq<string>): (r: History)
    requires h.Valid()
    ensures r.Valid()
    ensures h.entries <= r.entries && |r.entries| <= |h.entries| + |lines|
    decreases |lines|
  {
    if lines == [] then h
    else
      var command := Trim(lines[0]);
      TrimmedIsCommand(lines[0]);
      RecordAll(Record(h, command), lines[1..])
  }

  /** Entering lines that are not blank appends all of them, trimmed and in order, and
      leaves the cursor past the end. */
  lemma {:induction false} RecordAllAppends(h: History, lines: seq<string>)
    requires h.Valid() && lines != []
    requires forall i :: 0 <= i < |lines| ==> Trim(lines[i]) != ""
    ensures RecordAll(h, lines).entries == h.entries + TrimAll(lines)
    ensures RecordAll(h, lines).index == |h.entries| + |lines|
    decreases |lines|
  {
    var command := Trim(lines[0]);
    TrimmedIsCommand(lines[0]);
    var h' := Record(h, command);
    var rest := lines[1..];
    assert RecordAll(h, lines) == RecordAll(h', rest);
    assert h'.entries == h.entries + [command] && h'.index == |h.entries| + 1;
    var all := TrimAll(lines);
    if rest == [] {
      assert all == [command];
    } else {
      assert forall i :: 0 <= i < |rest| ==> rest[i] == lines[i + 1];
      RecordAllAppends(h', rest);
      var tail := TrimAll(rest);
      assert all == [command] + tail;
      Regroup(h.entries, command, tail);
    }
  }

  lemma {:induction false} Regroup<T>(a: seq<T>, x: T, b: seq<T>)
    ensures (a + [x]) + b == a + ([x] + b)
  {
  }

  /** A line that is blank or only white space is never recorded. */
  lemma {:induction false} BlankLineNotRecorded(h: History, line: string)
    requires h.Valid()
    requires forall i :: 0 <= i < |line| ==> IsWhiteSpace(line[i])
    ensures Record(h, Trim(line)) == h
  {
  }
}
