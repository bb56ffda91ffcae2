/** Moving through the ledger: `navigateHistory`, `restartReplay`,
    `loadHand` and the tournament revision's `consolidateFlopSnapshots`. */
module History {
  import opened Base
  import opened Cards
  import opened Table
  import opened Setup
  import L = Ledger

  /** The scalars a tournament snapshot restores: all of them, except that
      a hand being replayed stays in the replay phase. */
  function RestoredScalars(live: Scalars, saved: Scalars): (r: Scalars)
    ensures r.phase == (if live.phase == Replay then Replay else saved.phase)
    ensures r.(phase := saved.phase) == saved
  {
    if live.phase == Replay then saved.(phase := Replay) else saved
  }

  /** Copy a snapshot into the live hand: players, board and pots always;
      the betting scalars only in the tournament revision and only when the
      snapshot carries them. */
  function Restore(h: Hand, s: Snapshot): (r: Hand)
    ensures Shows(r, s)
    ensures r.ledger == h.ledger && r.rev == h.rev
    ensures r.sc.phase == Replay <==> h.sc.phase == Replay || (h.rev == Tournament && s.scalars.Some? && s.scalars.value.phase == Replay)
  {
    var r := h.(players := s.players, board := s.board, pots := s.pots);
    if h.rev == Tournament && s.scalars.Some? then r.(sc := RestoredScalars(h.sc, s.scalars.value)) else r
  }

  /** The live hand shows snapshot `s`: restoring `s` would change nothing. */
  predicate Shows(h: Hand, s: Snapshot)
  {
    && h.players == s.players && h.board == s.board && h.pots == s.pots
    && (h.rev == Tournament && s.scalars.Some? ==> h.sc == RestoredScalars(h.sc, s.scalars.value))
  }

  /** The live hand shows the snapshot under the cursor. */
  predicate InSync(h: Hand)
  {
    0 <= h.ledger.cursor < |h.ledger.entries| && Shows(h, h.ledger.entries[h.ledger.cursor])
  }

  lemma RestoreShown(h: Hand, s: Snapshot)
    requires Shows(h, s)
    ensures Restore(h, s) == h
  {
  }

  /** `navigateHistory(direction)`: out of range nothing happens; otherwise
      the cursor moves and the snapshot under it is restored. */
  function Navigate(h: Hand, direction: int): (r: Hand)
    ensures r.ledger.entries == h.ledger.entries && r.rev == h.rev
    ensures L.Target(h.ledger, direction).None? ==> r == h
    ensures L.Target(h.ledger, direction).Some? ==>
      && r.ledger.cursor == h.ledger.cursor + direction
      && InSync(r)
      && r.preAction == h.preAction && r.picker == h.picker && r.discarded == h.discarded
    ensures h.sc.phase == Replay ==> r.sc.phase == Replay
  {
    match L.Target(h.ledger, direction)
    case None => h
    case Some(i) => Restore(h.(ledger := h.ledger.(cursor := i)), h.ledger.entries[i])
  }

  /** Recording leaves the live hand showing the new snapshot. */
  lemma RecordInSync(h: Hand, e: Event)
    requires L.Valid(h.ledger)
    ensures InSync(Record(h, e))
  {
  }

  /** One step forward and one back restore the hand exactly, provided the
      step forward does not enter the replay phase from outside it. */
  lemma ForwardBack(h: Hand)
    requires InSync(h) && h.ledger.cursor + 1 < |h.ledger.entries|
    requires var s := h.ledger.entries[h.ledger.cursor + 1];
      h.rev == Cash || s.scalars.None? ||
      (h.ledger.entries[h.ledger.cursor].scalars.Some? && (h.sc.phase == Replay || s.scalars.value.phase != Replay))
    ensures Navigate(Navigate(h, 1), -1) == h
  {
    var c := h.ledger.cursor;
    var m := Navigate(h, 1);
    assert m.ledger.cursor == c + 1;
    assert L.Target(m.ledger, -1) == Some(c);
    assert m.sc.phase == Replay <==> h.sc.phase == Replay;
    var b := m.(ledger := m.ledger.(cursor := c));
    assert b.ledger == h.ledger;
    assert Navigate(m, -1) == Restore(b, h.ledger.entries[c]);
    assert Restore(b, h.ledger.entries[c]) == h;
  }

  /** `restartReplay()`: the cursor goes back to the first snapshot, which
      is restored. The source reads the first entry unguarded. */
  function RestartReplay(h: Hand): (r: Hand)
    requires |h.ledger.entries| > 0
    ensures r.ledger.cursor == 0 && InSync(r)
  {
    Restore(h.(ledger := h.ledger.(cursor := 0)), h.ledger.entries[0])
  }

  /** Restarting is navigating back by the whole cursor. */
  lemma RestartIsNavigate(h: Hand)
    requires 0 <= h.ledger.cursor < |h.ledger.entries|
    ensures RestartReplay(h) == Navigate(h, -h.ledger.cursor)
  {
    assert L.Target(h.ledger, -h.ledger.cursor) == Some(0);
  }

  /** `getPlayerCards(snapshot)`: every player's slots concatenated, the
      players separated by `|`; a missing snapshot gives the empty string. */
  function CardsKey(s: Option<Snapshot>): string
  {
    match s
    case None => ""
    case Some(x) => Join(seq(|x.players|, k requires 0 <= k < |x.players| => Concat(x.players[k].cards)), "|")
  }

  /** `arePlayersCardsUnchanged(a, b, c, d)`: the four keys are equal. */
  predicate CardsUnchanged(a: Option<Snapshot>, b: Option<Snapshot>, c: Option<Snapshot>, d: Option<Snapshot>)
  {
    CardsKey(a) == CardsKey(b) && CardsKey(b) == CardsKey(c) && CardsKey(c) == CardsKey(d)
  }

  /** Flop cards a possibly missing snapshot shows. */
  function FlopCountOf(s: Option<Snapshot>): nat
  {
    match s
    case None => 0
    case Some(x) => FlopCount(x.board)
  }

  /** Entries `i`, `i+1` and `i+2` deal the flop one card at a time: the
      entry before them (none for the first) shows no flop card, they show
      one, two and three, and nobody's hole cards change. */
  predicate FlopRunAt(hist: seq<Snapshot>, i: nat)
  {
    && i + 2 < |hist|
    && var prev := if i > 0 then Some(hist[i - 1]) else None;
    && FlopCountOf(prev) == 0
    && FlopCount(hist[i].board) == 1 && FlopCount(hist[i + 1].board) == 2 && FlopCount(hist[i + 2].board) == 3
    && CardsUnchanged(prev, Some(hist[i]), Some(hist[i + 1]), Some(hist[i + 2]))
  }

  /** The snapshot that replaces a flop run: its last entry, described as
      the whole flop. */
  function Collapse(s: Snapshot): (r: Snapshot)
    ensures r.players == s.players && r.board == s.board && r.pots == s.pots && r.scalars == s.scalars
  {
    s.(event := FlopAssigned(FlopCards(s.board)))
  }

  /** Which entries open a flop run. */
  function RunMarks(hist: seq<Snapshot>): (runs: seq<bool>)
    ensures |runs| == |hist|
    ensures forall j :: 0 <= j < |hist| ==> (runs[j] <==> FlopRunAt(hist, j))
  {
    seq(|hist|, j requires 0 <= j < |hist| => FlopRunAt(hist, j))
  }

  /** The scan of `consolidateFlopSnapshots` from entry `i` on, with the
      run test for each entry given by `runs`. */
  function ConsolidateFrom(hist: seq<Snapshot>, runs: seq<bool>, i: nat): (out: seq<Snapshot>)
    requires |runs| == |hist| && i <= |hist|
    ensures |out| <= |hist| - i
    ensures |out| == 0 <==> i == |hist|
    decreases |hist| - i
  {
    if i == |hist| then []
    else if runs[i] && i + 2 < |hist| then [Collapse(hist[i + 2])] + ConsolidateFrom(hist, runs, i + 3)
    else [hist[i]] + ConsolidateFrom(hist, runs, i + 1)
  }

  /** `consolidateFlopSnapshots(historial)`: every flop run is replaced by
      its collapsed last entry; the output is never longer. */
  function Consolidate(hist: seq<Snapshot>): (out: seq<Snapshot>)
    ensures |out| <= |hist| && (|out| == 0 <==> |hist| == 0)
  {
    ConsolidateFrom(hist, RunMarks(hist), 0)
  }

  /** The entry of `hist` each consolidated entry comes from: one per
      output entry, each a distinct input entry, later entries from later
      ones. */
  function Origins(hist: seq<Snapshot>, runs: seq<bool>, i: nat): (o: seq<nat>)
    requires |runs| == |hist| && i <= |hist|
    ensures |o| == |ConsolidateFrom(hist, runs, i)|
    ensures forall k :: 0 <= k < |o| ==> i <= o[k] < |hist|
    ensures forall k, m :: 0 <= k < m < |o| ==> o[k] < o[m]
    decreases |hist| - i
  {
    if i == |hist| then []
    else
      var step := if runs[i] && i + 2 < |hist| then 3 else 1;
      var rest := Origins(hist, runs, i + step);
      var o := [i + step - 1] + rest;
      assert forall m :: 1 <= m < |o| ==> o[m] == rest[m - 1];
      o
  }

  /** Output entry `s` stands for input entry `j`: it is that entry, or, for
      the last entry of a run, that entry described as the whole flop. */
  predicate Derived(hist: seq<Snapshot>, runs: seq<bool>, j: nat, s: Snapshot)
    requires |runs| == |hist|
  {
    j < |hist| && (s == hist[j] || (j >= 2 && runs[j - 2] && s == Collapse(hist[j])))
  }

  /** Each output entry is the input entry it comes from, or the collapsed
      last entry of a run. */
  lemma {:induction false} OriginsContent(hist: seq<Snapshot>, runs: seq<bool>, i: nat)
    requires |runs| == |hist| && i <= |hist|
    ensures forall k :: 0 <= k < |Origins(hist, runs, i)| ==>
      Derived(hist, runs, Origins(hist, runs, i)[k], ConsolidateFrom(hist, runs, i)[k])
    decreases |hist| - i
  {
    if i < |hist| {
      var run := runs[i] && i + 2 < |hist|;
      var step := if run then 3 else 1;
      OriginsContent(hist, runs, i + step);
      var out, o := ConsolidateFrom(hist, runs, i), Origins(hist, runs, i);
      var rout, rest := ConsolidateFrom(hist, runs, i + step), Origins(hist, runs, i + step);
      assert out == [out[0]] + rout && o == [o[0]] + rest;
      forall k | 1 <= k < |o|
        ensures Derived(hist, runs, o[k], out[k])
      {
        assert Derived(hist, runs, rest[k - 1], rout[k - 1]);
        assert o[k] == rest[k - 1] && out[k] == rout[k - 1];
      }
    }
  }

  /** The input entry `j` is one of the first two entries of a run whose
      last entry is kept. */
  predicate DroppedInRun(hist: seq<Snapshot>, runs: seq<bool>, o: seq<nat>, j: nat)
    requires |runs| == |hist|
  {
    || (j < |hist| && runs[j] && j + 2 in o)
    || (1 <= j <= |hist| && runs[j - 1] && j + 1 in o)
  }

  /** The only entries consolidation drops are the first two of a run. */
  lemma {:induction false} OriginsDropped(hist: seq<Snapshot>, runs: seq<bool>, i: nat)
    requires |runs| == |hist| && i <= |hist|
    ensures forall j :: i <= j < |hist| && j !in Origins(hist, runs, i) ==> DroppedInRun(hist, runs, Origins(hist, runs, i), j)
    decreases |hist| - i
  {
    if i < |hist| {
      var run := runs[i] && i + 2 < |hist|;
      var step := if run then 3 else 1;
      OriginsDropped(hist, runs, i + step);
      var o := Origins(hist, runs, i);
      var rest := Origins(hist, runs, i + step);
      assert o == [i + step - 1] + rest;
      forall j | i <= j < |hist| && j !in o
        ensures DroppedInRun(hist, runs, o, j)
      {
        if j < i + step {
          assert i + 2 in o;
        } else {
          assert DroppedInRun(hist, runs, rest, j);
        }
      }
    }
  }

  /** Consolidation keeps the history in order and changes it only at flop
      runs: with `o` the entries each output entry comes from, `o` is
      strictly increasing, each output entry is its input entry or the
      collapsed last entry of a flop run, and every input entry left out is
      one of the first two entries of a flop run. */
  lemma ConsolidateKeepsOrder(hist: seq<Snapshot>)
    ensures var runs, out := RunMarks(hist), Consolidate(hist);
      var o := Origins(hist, runs, 0);
      && |o| == |out|
      && (forall k, m :: 0 <= k < m < |o| ==> o[k] < o[m])
      && (forall k :: 0 <= k < |o| ==> Derived(hist, runs, o[k], out[k]))
      && (forall j :: 0 <= j < |hist| && j !in o ==> DroppedInRun(hist, runs, o, j))
  {
    OriginsContent(hist, RunMarks(hist), 0);
    OriginsDropped(hist, RunMarks(hist), 0);
  }

  /** A history without a flop run is left as it is. */
  lemma {:induction false} ConsolidateNoRun(hist: seq<Snapshot>, runs: seq<bool>, i: nat)
    requires |runs| == |hist| && i <= |hist|
    requires forall j :: i <= j < |hist| ==> !runs[j]
    ensures ConsolidateFrom(hist, runs, i) == hist[i..]
    decreases |hist| - i
  {
    if i < |hist| {
      ConsolidateNoRun(hist, runs, i + 1);
    }
  }

  lemma ConsolidateIdentity(hist: seq<Snapshot>)
    requires forall j :: 0 <= j < |hist| ==> !FlopRunAt(hist, j)
    ensures Consolidate(hist) == hist
  {
    ConsolidateNoRun(hist, RunMarks(hist), 0);
  }

  /** Unless the history opens with a flop run, its first entry survives
      consolidation. */
  lemma ConsolidateHead(hist: seq<Snapshot>)
    requires |hist| > 0 && !FlopRunAt(hist, 0)
    ensures Consolidate(hist)[0] == hist[0]
  {
  }

  /** A saved hand as the loader reads it; a missing rule, Bomb Pot size or
      variant is `NoRule`, 0 and `None`. */
  datatype SavedHand = SavedHand(
    historial: seq<Snapshot>, hero: string, smallBlind: int, bigBlind: int,
    rule: Rule, bombPotBB: int, variant: Option<Variant>)

  /** `loadHand(handData)`: the first snapshot becomes the live state, the
      (tournament: consolidated) history becomes the ledger with the cursor
      on its first entry, and the hand enters the replay phase. The
      tournament revision also restores the first snapshot's betting
      scalars when it has them. The source reads the first entry unguarded. */
  function LoadHand(h: Hand, d: SavedHand): (r: Hand)
    requires |d.historial| > 0
    ensures r.ledger.cursor == 0 && L.Valid(r.ledger) && |r.ledger.entries| > 0
    ensures r.sc.phase == Replay && !r.preAction
    ensures r.players == d.historial[0].players && r.board == d.historial[0].board && r.pots == d.historial[0].pots
    ensures h.rev == Cash ==> r.ledger.entries == d.historial && r.rule == d.rule && r.bombPotBB == BombPotSize(d.bombPotBB)
    ensures h.rev == Tournament ==> r.ledger.entries == Consolidate(d.historial)
    ensures h.rev == Tournament && d.historial[0].scalars.Some? ==> r.sc == d.historial[0].scalars.value.(phase := Replay)
  {
    var s := d.historial[0];
    var h1 := h.(players := s.players, board := s.board, pots := s.pots,
                 hero := d.hero, smallBlind := d.smallBlind, bigBlind := d.bigBlind);
    if h.rev == Cash then
      h1.(rule := d.rule, bombPotBB := BombPotSize(d.bombPotBB),
          ledger := L.Ledger(d.historial, 0), sc := h.sc.(phase := Replay), preAction := false)
    else
      var sc := match s.scalars
        case Some(v) => v.(phase := Replay)
        case None => h.sc.(phase := Replay);
      h1.(variant := match d.variant case Some(v) => v case None => Holdem,
          ledger := L.Ledger(Consolidate(d.historial), 0), sc := sc, preAction := false)
  }

  /** A loaded hand shows the entry under the cursor, unless (tournament)
      the history opens with a flop run that consolidation collapsed. */
  lemma LoadHandInSync(h: Hand, d: SavedHand)
    requires |d.historial| > 0
    requires h.rev == Tournament ==> !FlopRunAt(d.historial, 0)
    ensures InSync(LoadHand(h, d))
  {
    if h.rev == Tournament {
      ConsolidateHead(d.historial);
    }
  }
}
