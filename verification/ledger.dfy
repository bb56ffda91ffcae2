/** The replay ledger: an ordered list of snapshots and a cursor pointing at
    the snapshot the live state was restored from or recorded as. A fresh
    ledger is empty with the cursor at -1. */
module Ledger {
  import opened Base

  datatype Ledger<S> = Ledger(entries: seq<S>, cursor: int)

  predicate Valid<S>(l: Ledger<S>) { -1 <= l.cursor < |l.entries| }

  function Empty<S>(): (l: Ledger<S>)
    ensures Valid(l) && |l.entries| == 0
  {
    Ledger([], -1)
  }

  /** `recordState`: drop every entry after the cursor, append `s`, and point
      the cursor at it. */
  function Record<S>(l: Ledger<S>, s: S): (r: Ledger<S>)
    requires Valid(l)
    ensures Valid(r)
    ensures |r.entries| == l.cursor + 2
    ensures r.cursor == |r.entries| - 1 == l.cursor + 1
    ensures r.entries[r.cursor] == s
    ensures forall k :: 0 <= k <= l.cursor ==> r.entries[k] == l.entries[k]
  {
    var kept := if l.cursor < |l.entries| - 1 then l.entries[..l.cursor + 1] else l.entries;
    Ledger(kept + [s], l.cursor + 1)
  }

  /** The index `navigateHistory(direction)` moves to, if it is in range. */
  function Target<S>(l: Ledger<S>, direction: int): (t: Option<nat>)
    ensures t.Some? <==> 0 <= l.cursor + direction < |l.entries|
    ensures t.Some? ==> t.value == l.cursor + direction
  {
    var i := l.cursor + direction;
    if 0 <= i < |l.entries| then Some(i) else None
  }

  /** The cursor half of `navigateHistory`: out of range it is a no-op. */
  function Move<S>(l: Ledger<S>, direction: int): (r: Ledger<S>)
    ensures r.entries == l.entries
    ensures Target(l, direction).None? ==> r == l
    ensures Target(l, direction).Some? ==> r.cursor == l.cursor + direction
  {
    match Target(l, direction)
    case None => l
    case Some(i) => l.(cursor := i)
  }

  /** One step forward then one step back returns the cursor where it was. */
  lemma ForwardBack<S>(l: Ledger<S>)
    requires 0 <= l.cursor && l.cursor + 1 < |l.entries|
    ensures Move(Move(l, 1), -1) == l
  {
    var m := Move(l, 1);
    assert m.cursor == l.cursor + 1;
    assert Target(m, -1) == Some(l.cursor);
  }

  /** Branching: after stepping back `k` times from the newest entry, one
      recorded action replaces the `k` discarded entries by exactly one. */
  lemma {:induction false} BranchAfterBack<S>(l: Ledger<S>, k: nat, s: S)
    requires Valid(l) && l.cursor == |l.entries| - 1 && k <= l.cursor
    ensures Valid(Back(l, k))
    ensures |Record(Back(l, k), s).entries| == |l.entries| - k + 1
    ensures Record(Back(l, k), s).entries[..|l.entries| - k] == l.entries[..|l.entries| - k]
  {
    BackCursor(l, k);
    var b := Back(l, k);
    var r := Record(b, s);
    assert forall j :: 0 <= j < |l.entries| - k ==> r.entries[j] == l.entries[j];
  }

  /** `k` successive `navigateHistory(-1)` calls. */
  function Back<S>(l: Ledger<S>, k: nat): Ledger<S>
  {
    if k == 0 then l else Move(Back(l, k - 1), -1)
  }

  lemma {:induction false} BackCursor<S>(l: Ledger<S>, k: nat)
    requires Valid(l) && k <= l.cursor
    ensures Back(l, k) == l.(cursor := l.cursor - k)
  {
    if k > 0 {
      BackCursor(l, k - 1);
    }
  }
}
