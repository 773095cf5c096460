/**
 * The completion session: inactive, or active on a candidate list fixed by the
 * first Tab press, with a cursor that cycles through it.
 */
module CompletionSession {

  datatype Completion = Completion(
    active: bool,
    candidates: seq<string>,
    index: int,
    baseDir: string,
    literalPrefix: string)
  {
    /** An active session has a non-empty list of non-empty names and a cursor inside
        it; an inactive one is in the state a reset leaves. */
    ghost predicate Valid() {
      if active then
        0 <= index < |candidates| && forall i :: 0 <= i < |candidates| ==> candidates[i] != ""
      else this == Inactive
    }
  }

  /** The state `ResetCompletionSession` leaves (and the initial one). */
  const Inactive := Completion(false, [], 0, "", "")

  /** The cursor after one press, `(index + 1) % Count` for a cursor inside the list:
      the next position, wrapping to 0 after the last candidate. */
  function NextIndex(i: int, n: int): (j: int)
    requires 0 <= i < n
    ensures 0 <= j < n
  {
    if i + 1 == n then 0 else i + 1
  }

  /** The wrap-around step is the remainder the source computes. */
  lemma {:induction false} NextIndexIsMod(i: int, n: int)
    requires 0 <= i < n
    ensures NextIndex(i, n) == (i + 1) % n
  {
    if i + 1 == n {
      ModShift(0, n);
      ModSmall(0, n);
    } else {
      ModSmall(i + 1, n);
    }
  }

  /** One Tab press of an active session: the input line it produces, and the session
      with only the cursor moved, wrapping to 0 after the last candidate. */
  function Advance(c: Completion): (r: (Completion, string))
    requires c.Valid() && c.active
    ensures r.0.Valid() && r.0 == c.(index := r.0.index)
    ensures r.0.index == NextIndex(c.index, |c.candidates|)
    ensures r.1 == "cd " + c.literalPrefix + c.candidates[c.index]
  {
    var selected := c.candidates[c.index];
    var completedPath := if c.literalPrefix == "" then selected else c.literalPrefix + selected;
    (c.(index := NextIndex(c.index, |c.candidates|)), "cd " + completedPath)
  }

  /** The session after k further Tab presses. */
  function Cycle(c: Completion, k: nat): (r: Completion)
    requires c.Valid() && c.active
    ensures r.Valid() && r.active && r == c.(index := r.index)
    decreases k
  {
    if k == 0 then c else Cycle(Advance(c).0, k - 1)
  }

  lemma {:induction false} CycleUnfold(c: Completion, k: nat)
    requires c.Valid() && c.active && k > 0
    ensures Cycle(c, k) == Cycle(Advance(c).0, k - 1)
  {
  }

  /** After k presses the cursor has moved k places, modulo the number of candidates. */
  lemma {:induction false} CycleIndex(c: Completion, k: nat)
    requires c.Valid() && c.active
    ensures Cycle(c, k).index == (c.index + k) % |c.candidates|
    decreases k
  {
    var n := |c.candidates|;
    if k == 0 {
      ModSmall(c.index, n);
    } else {
      var c' := Advance(c).0;
      assert c'.candidates == c.candidates;
      NextIndexIsMod(c.index, n);
      CycleIndex(c', k - 1);
      WrapThenAdvance(c.index, k, n, Cycle(c', k - 1).index);
      assert Cycle(c, k).index == Cycle(c', k - 1).index;
    }
  }

  /** Counted from cursor 0, after m presses the cursor is at m modulo n. */
  lemma {:induction false} CycleFromZero(c: Completion, m: nat)
    requires c.Valid() && c.active && c.index == 0
    ensures Cycle(c, m).index == m % |c.candidates|
  {
    CycleIndex(c, m);
    assert c.index + m == m;
  }

  /** Advancing a cursor that already wrapped is the same as advancing the unwrapped one. */
  lemma {:induction false} WrapThenAdvance(i: int, k: int, n: int, j: int)
    requires 0 <= i < n && 1 <= k
    requires j == ((i + 1) % n + (k - 1)) % n
    ensures j == (i + k) % n
  {
    if i + 1 == n {
      ModShift(0, n);
      ModShift(k - 1, n);
      assert i + k == k - 1 + n;
    } else {
      ModSmall(i + 1, n);
    }
  }

  /** A remainder below the modulus is the number itself. */
  lemma {:induction false} ModSmall(x: int, n: int)
    requires 0 <= x < n
    ensures x % n == x
  {
  }

  /** Adding the modulus does not change the remainder. */
  lemma {:induction false} ModShift(x: int, n: int)
    requires 0 < n
    ensures (x + n) % n == x % n
  {
    var q1, a := (x + n) / n, (x + n) % n;
    var q2, b := x / n, x % n;
    var m := q1 - 1 - q2;
    assert n * m == b - a by {
      assert n * q1 - n - n * q2 == n * (q1 - 1 - q2);
    }
    if m >= 1 {
      PositiveMultiple(n, m);
    } else if m <= -1 {
      PositiveMultiple(n, -m);
    }
  }

  lemma {:induction false} PositiveMultiple(n: int, m: int)
    requires n > 0 && m >= 1
    ensures n * m >= n
  {
  }
}
