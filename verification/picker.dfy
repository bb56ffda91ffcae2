/** The card picker: `openCardPicker`, `closeCardPicker`, `assignCard` and
    `unassignCard`. The picker's open flag is the presence of a target; the
    multi-slot modes (the flop in both revisions, a player's whole hand in
    the tournament revision) fill consecutive slots one card per call. */
module Picker {
  import opened Base
  import opened Cards
  import opened Table
  import opened Showdown
  import opened Street
  import L = Ledger

  /** `players.find(p => p.id === id)`, as a seat index. */
  function SeatOf(ps: seq<Player>, id: int): (r: Option<nat>)
    ensures r.Some? ==> r.value < |ps| && ps[r.value].id == id && forall j :: 0 <= j < r.value ==> ps[j].id != id
    ensures r.None? ==> forall j :: 0 <= j < |ps| ==> ps[j].id != id
  {
    SeatFrom(ps, id, 0)
  }

  function SeatFrom(ps: seq<Player>, id: int, i: nat): (r: Option<nat>)
    requires i <= |ps|
    ensures r.Some? ==> i <= r.value < |ps| && ps[r.value].id == id && forall j :: i <= j < r.value ==> ps[j].id != id
    ensures r.None? ==> forall j :: i <= j < |ps| ==> ps[j].id != id
    decreases |ps| - i
  {
    if i == |ps| then None else if ps[i].id == id then Some(i) else SeatFrom(ps, id, i + 1)
  }

  /** With seats numbered by position, the player with id `id` sits at seat `id`. */
  lemma SeatOfNumbered(ps: seq<Player>, id: int)
    requires SeatsNumbered(ps)
    ensures SeatOf(ps, id) == if 0 <= id < |ps| then Some(id as nat) else None
  {
    if 0 <= id < |ps| {
      assert ps[id].id == id;
    }
  }

  /** The three flop slots are all empty (a missing slot reads as empty). */
  predicate FlopEmpty(board: seq<Card>)
  {
    SlotAt(board, 0) == NoCard && SlotAt(board, 1) == NoCard && SlotAt(board, 2) == NoCard
  }

  /** `openCardPicker(target)`: the target is set; opening on an empty flop
      slot turns on the flop mode at its first slot, and (tournament) opening
      on a player whose slots are all empty turns on the hand mode at its
      first slot. Otherwise the mode flags are left as they were. */
  function OpenCardPicker(h: Hand, t: Target): (r: Hand)
    ensures r == h.(picker := r.picker) && r.picker.target == Some(t)
    ensures t.BoardSlot? && t.index <= 2 && FlopEmpty(h.board) ==> r.picker.flopMulti && r.picker.flopIndex == 0
    ensures t.PlayerSlot? && h.rev == Tournament && SeatOf(h.players, t.seat).Some? && AllEmpty(h.players[SeatOf(h.players, t.seat).value].cards)
      ==> r.picker.playerMulti && r.picker.playerIndex == 0
    ensures !(t.BoardSlot? && t.index <= 2 && FlopEmpty(h.board))
         && !(t.PlayerSlot? && h.rev == Tournament && SeatOf(h.players, t.seat).Some? && AllEmpty(h.players[SeatOf(h.players, t.seat).value].cards))
      ==> r.picker == h.picker.(target := Some(t))
  {
    var p := h.picker.(target := Some(t));
    match t
    case PlayerSlot(id, _) =>
      var s := SeatOf(h.players, id);
      if h.rev == Tournament && s.Some? && AllEmpty(h.players[s.value].cards) then
        h.(picker := p.(playerMulti := true, playerIndex := 0))
      else h.(picker := p)
    case BoardSlot(id) =>
      if id <= 2 && FlopEmpty(h.board) then h.(picker := p.(flopMulti := true, flopIndex := 0))
      else h.(picker := p)
  }

  /** `closeCardPicker()`: no target, both modes off. */
  function CloseCardPicker(h: Hand): (r: Hand)
    ensures r == h.(picker := ClosedPicker)
  {
    h.(picker := ClosedPicker)
  }

  /** `player.cards[k] = card` at seat `s`. */
  function SetCard(ps: seq<Player>, s: nat, k: nat, card: Card): (r: seq<Player>)
    requires s < |ps|
    ensures |r| == |ps| && r[s].cards == SetSlot(ps[s].cards, k, card)
    ensures Hole(r[s]) == Hole(ps[s])
    ensures forall i :: 0 <= i < |ps| && i != s ==> r[i] == ps[i]
  {
    ps[s := ps[s].(cards := SetSlot(ps[s].cards, k, card))]
  }

  /** Setting a card slot keeps the hand well formed. */
  lemma SetCardValid(h: Hand, s: nat, k: nat, card: Card)
    requires Valid(h) && s < |h.players|
    ensures Valid(h.(players := SetCard(h.players, s, k, card)))
  {
    var ps := SetCard(h.players, s, k, card);
    assert forall i :: 0 <= i < |ps| ==> Hole(ps[i]) == Hole(h.players[i]);
  }

  /** `assignCard(cardId)` on a hand in play. Without a target nothing
      happens. A player slot takes the card, except that a tournament hand
      ignores an unknown player (a cash hand still closes and records). In
      the hand mode the card goes to the next slot and only the last one
      closes the picker and records the hand; in the cash flop mode every
      card is recorded and the third closes the picker; in the tournament
      flop mode only the third card closes and records, and on a Crazy
      Pineapple hand waiting for its flop the round then advances. A
      single slot closes the picker and records. */
  function AssignCard(h: Hand, card: Card, rank: Ranker, choose: Chooser): (r: Hand)
    requires Valid(h)
    ensures Valid(r)
    ensures h.picker.target.None? ==> r == h
  {
    match h.picker.target
    case None => h
    case Some(PlayerSlot(id, ci)) =>
      (match SeatOf(h.players, id)
       case None => if h.rev == Cash then Record(CloseCardPicker(h), CardAssigned(card)) else h
       case Some(s) => AssignToPlayer(h, s, ci, card))
    case Some(BoardSlot(id)) =>
      if h.picker.flopMulti then AssignToFlop(h, card, rank, choose)
      else Record(CloseCardPicker(h.(board := SetSlot(h.board, id, card))), CardAssigned(card))
  }

  /** A card for the player at seat `s`: the next slot in the tournament
      hand mode, slot `ci` otherwise. */
  function AssignToPlayer(h: Hand, s: nat, ci: nat, card: Card): (r: Hand)
    requires Valid(h) && s < |h.players|
    ensures Valid(r)
  {
    if h.rev == Tournament && h.picker.playerMulti then AssignNextHoleCard(h, s, card)
    else
      SetCardValid(h, s, ci, card);
      Record(CloseCardPicker(h.(players := SetCard(h.players, s, ci, card))), CardAssigned(card))
  }

  /** The hand mode: the card goes to the next slot, and after the last slot
      the picker closes and the player's cards are recorded. */
  function AssignNextHoleCard(h: Hand, s: nat, card: Card): (r: Hand)
    requires Valid(h) && s < |h.players|
    ensures Valid(r)
  {
    var j := h.picker.playerIndex;
    SetCardValid(h, s, j, card);
    var ps := SetCard(h.players, s, j, card);
    var h1 := h.(players := ps, picker := h.picker.(playerIndex := j + 1));
    if j + 1 >= |ps[s].cards| then Record(CloseCardPicker(h1), HoleCardsAssigned(h.players[s].id, Dealt(ps[s].cards)))
    else h1
  }

  /** A card for the next flop slot in the flop mode. */
  function AssignToFlop(h: Hand, card: Card, rank: Ranker, choose: Chooser): (r: Hand)
    requires Valid(h)
    ensures Valid(r)
  {
    var f := h.picker.flopIndex;
    var board := SetSlot(h.board, f, card);
    if h.rev == Cash then
      var h1 := Record(h.(board := board), FlopCardAssigned(card));
      var h2 := h1.(picker := h1.picker.(flopIndex := f + 1));
      if f + 1 >= 3 then CloseCardPicker(h2) else h2
    else
      var h1 := h.(board := board, picker := h.picker.(flopIndex := f + 1));
      if f + 1 >= 3 then
        var h2 := Record(CloseCardPicker(h1), FlopAssigned(FlopCards(board)));
        if h2.sc.phase == WaitingForFlop && h2.variant == Pineapple then
          AdvanceRoundValid(h2, rank, choose);
          AdvanceRound(h2, rank, choose)
        else h2
      else h1
  }

  /** `unassignCard(target)`: the slot is emptied (a missing player changes
      nothing), and the hand is recorded only if the slot held a card. */
  function UnassignCard(h: Hand, t: Target): (r: Hand)
    requires L.Valid(h.ledger)
    ensures L.Valid(r.ledger) && r.picker == h.picker && r.sc == h.sc && r.pots == h.pots
    ensures SlotOf(h, t) == NoCard ==> r.ledger == h.ledger
    ensures SlotOf(h, t) != NoCard ==>
      && r.ledger.cursor == h.ledger.cursor + 1 && |r.ledger.entries| == r.ledger.cursor + 1
      && r.ledger.entries[r.ledger.cursor] == Snap(r, CardUnassigned(SlotOf(h, t)))
  {
    var h1 := Emptied(h, t);
    var removed := SlotOf(h, t);
    if removed != NoCard then Record(h1, CardUnassigned(removed)) else h1
  }

  /** The card in the slot a target names, which `unassignCard` takes out;
      a missing player or an out-of-range slot reads as empty. */
  function SlotOf(h: Hand, t: Target): Card
  {
    match t
    case PlayerSlot(id, ci) =>
      (match SeatOf(h.players, id) case None => NoCard case Some(s) => SlotAt(h.players[s].cards, ci))
    case BoardSlot(id) => SlotAt(h.board, id)
  }

  /** The hand with the slot `t` emptied. */
  function Emptied(h: Hand, t: Target): (r: Hand)
    ensures r == h.(players := r.players, board := r.board) && |r.players| == |h.players|
    ensures t.BoardSlot? ==> r.players == h.players && r.board == SetSlot(h.board, t.index, NoCard)
    ensures t.PlayerSlot? ==> r.board == h.board
  {
    match t
    case PlayerSlot(id, ci) =>
      (match SeatOf(h.players, id) case None => h case Some(s) => h.(players := SetCard(h.players, s, ci, NoCard)))
    case BoardSlot(id) => h.(board := SetSlot(h.board, id, NoCard))
  }

  /** One `assignCard` call per card of `cs`, in order. */
  function AssignAll(h: Hand, cs: seq<Card>, rank: Ranker, choose: Chooser): (r: Hand)
    requires Valid(h)
    ensures Valid(r) && |r.players| == |h.players|
    decreases |cs|
  {
    if |cs| == 0 then h else AssignAll(AssignCard(h, cs[0], rank, choose), cs[1..], rank, choose)
  }

  /** The tournament hand mode is selecting cards for the player at seat `id`. */
  predicate HandMode(h: Hand, id: int)
  {
    && h.rev == Tournament && h.picker.playerMulti && 0 <= id < |h.players|
    && h.picker.target.Some? && h.picker.target.value.PlayerSlot? && h.picker.target.value.seat == id
  }

  /** One card in the hand mode: it lands in the next slot; the last slot
      closes the picker and records the whole hand. */
  lemma HandStep(h: Hand, id: int, c: Card, rank: Ranker, choose: Chooser)
    requires Valid(h) && HandMode(h, id)
    ensures var j := h.picker.playerIndex;
      var ps := h.players[id := h.players[id].(cards := SetSlot(h.players[id].cards, j, c))];
      AssignCard(h, c, rank, choose)
        == if j + 1 < |h.players[id].cards| then h.(players := ps, picker := h.picker.(playerIndex := j + 1))
           else Record(h.(players := ps, picker := ClosedPicker), HoleCardsAssigned(id, Dealt(ps[id].cards)))
  {
    SeatOfNumbered(h.players, id);
  }

  /** The hand after `cs` in the hand mode, as promised below. */
  predicate HandFilled(h: Hand, id: int, cs: seq<Card>, r: Hand)
    requires 0 <= id < |h.players| && h.picker.playerIndex <= |h.players[id].cards| && L.Valid(h.ledger)
  {
    && |r.players| == |h.players|
    && r.players[id].cards == h.players[id].cards[..h.picker.playerIndex] + cs
    && r == h.(players := h.players[id := h.players[id].(cards := r.players[id].cards)], picker := ClosedPicker, ledger := r.ledger)
    && r.ledger == L.Record(h.ledger, Snap(r, HoleCardsAssigned(id, Dealt(r.players[id].cards))))
  }

  /** In the hand mode, cards for the remaining slots fill them in order;
      the picker closes and exactly one snapshot is recorded, after the last
      card. */
  lemma {:induction false} HandModeFills(h: Hand, id: int, cs: seq<Card>, rank: Ranker, choose: Chooser)
    requires Valid(h) && HandMode(h, id)
    requires 1 <= |cs| && h.picker.playerIndex + |cs| == |h.players[id].cards|
    ensures HandFilled(h, id, cs, AssignAll(h, cs, rank, choose))
    decreases |cs|, 1
  {
    HandStep(h, id, cs[0], rank, choose);
    if |cs| == 1 {
      HandModeLast(h, id, cs, rank, choose);
    } else {
      HandModeMore(h, id, cs, rank, choose);
    }
  }

  lemma HandModeLast(h: Hand, id: int, cs: seq<Card>, rank: Ranker, choose: Chooser)
    requires Valid(h) && HandMode(h, id)
    requires |cs| == 1 && h.picker.playerIndex + 1 == |h.players[id].cards|
    ensures HandFilled(h, id, cs, AssignAll(h, cs, rank, choose))
  {
    var j := h.picker.playerIndex;
    HandStep(h, id, cs[0], rank, choose);
    var h1 := AssignCard(h, cs[0], rank, choose);
    assert AssignAll(h, cs, rank, choose) == AssignAll(h1, [], rank, choose) == h1;
    assert SetSlot(h.players[id].cards, j, cs[0]) == h.players[id].cards[..j] + cs;
  }

  /** The card before the last one in the hand mode. */
  lemma HandNext(h: Hand, id: int, c: Card, rank: Ranker, choose: Chooser)
    requires Valid(h) && HandMode(h, id) && h.picker.playerIndex + 1 < |h.players[id].cards|
    ensures var h1 := AssignCard(h, c, rank, choose);
      && Valid(h1) && HandMode(h1, id)
      && h1 == h.(players := h.players[id := h.players[id].(cards := SetSlot(h.players[id].cards, h.picker.playerIndex, c))],
                  picker := h.picker.(playerIndex := h.picker.playerIndex + 1))
  {
    HandStep(h, id, c, rank, choose);
  }

  /** A hand filled from the state after one more card was filled from the
      state before it. */
  lemma HandFilledStep(h: Hand, h1: Hand, id: int, cs: seq<Card>, r: Hand)
    requires 0 <= id < |h.players| && L.Valid(h.ledger) && 2 <= |cs| && h.picker.playerIndex + |cs| == |h.players[id].cards|
    requires h1 == h.(players := h.players[id := h.players[id].(cards := SetSlot(h.players[id].cards, h.picker.playerIndex, cs[0]))],
                      picker := h.picker.(playerIndex := h.picker.playerIndex + 1))
    requires HandFilled(h1, id, cs[1..], r)
    ensures HandFilled(h, id, cs, r)
  {
    var j := h.picker.playerIndex;
    assert h1.players[id].cards[..j + 1] + cs[1..] == h.players[id].cards[..j] + cs;
  }

  lemma {:induction false} HandModeMore(h: Hand, id: int, cs: seq<Card>, rank: Ranker, choose: Chooser)
    requires Valid(h) && HandMode(h, id)
    requires 2 <= |cs| && h.picker.playerIndex + |cs| == |h.players[id].cards|
    ensures HandFilled(h, id, cs, AssignAll(h, cs, rank, choose))
    decreases |cs|, 0
  {
    HandNext(h, id, cs[0], rank, choose);
    var h1 := AssignCard(h, cs[0], rank, choose);
    assert AssignAll(h, cs, rank, choose) == AssignAll(h1, cs[1..], rank, choose);
    HandModeFills(h1, id, cs[1..], rank, choose);
    HandFilledStep(h, h1, id, cs, AssignAll(h1, cs[1..], rank, choose));
  }

  /** Opening the picker on a tournament player with no cards yet and
      choosing one card per slot deals exactly those cards, closes the
      picker and adds one snapshot. */
  lemma DealHand(h: Hand, id: int, ci: nat, cs: seq<Card>, rank: Ranker, choose: Chooser)
    requires Valid(h) && h.rev == Tournament && 0 <= id < |h.players|
    requires AllEmpty(h.players[id].cards) && |cs| == |h.players[id].cards| >= 1
    ensures var r := AssignAll(OpenCardPicker(h, PlayerSlot(id, ci)), cs, rank, choose);
      && r.players[id].cards == cs
      && (forall i :: 0 <= i < |h.players| && i != id ==> r.players[i] == h.players[i])
      && r.board == h.board && r.sc == h.sc && r.picker == ClosedPicker
      && r.ledger.cursor == h.ledger.cursor + 1 && |r.ledger.entries| == r.ledger.cursor + 1
      && r.ledger.entries[r.ledger.cursor].event == HoleCardsAssigned(id, Dealt(cs))
  {
    SeatOfNumbered(h.players, id);
    var o := OpenCardPicker(h, PlayerSlot(id, ci));
    assert o == h.(picker := Picker(Some(PlayerSlot(id, ci)), h.picker.flopMulti, h.picker.flopIndex, true, 0));
    HandModeFills(o, id, cs, rank, choose);
    HandFilledFromStart(o, h, id, cs, AssignAll(o, cs, rank, choose));
  }

  lemma HandFilledFromStart(o: Hand, h: Hand, id: int, cs: seq<Card>, r: Hand)
    requires 0 <= id < |h.players| && L.Valid(h.ledger) && |cs| == |h.players[id].cards|
    requires o == h.(picker := o.picker) && o.picker.playerIndex == 0 && HandFilled(o, id, cs, r)
    ensures && r.players[id].cards == cs
      && (forall i :: 0 <= i < |h.players| && i != id ==> r.players[i] == h.players[i])
      && r.board == h.board && r.sc == h.sc && r.picker == ClosedPicker
      && r.ledger.cursor == h.ledger.cursor + 1 && |r.ledger.entries| == r.ledger.cursor + 1
      && r.ledger.entries[r.ledger.cursor].event == HoleCardsAssigned(id, Dealt(cs))
  {
  }

  /** The flop mode is on for a board target. */
  predicate FlopMode(h: Hand)
  {
    h.picker.flopMulti && h.picker.target.Some? && h.picker.target.value.BoardSlot?
  }

  /** A Crazy Pineapple tournament hand waiting for its flop. */
  predicate FlopPending(h: Hand)
  {
    h.sc.phase == WaitingForFlop && h.variant == Pineapple
  }

  /** `rb` is the board `b` with the flop slots from `f` on holding `cs`:
      the slots before `f` and after the flop keep their cards, and the
      board has grown to at least three slots. */
  predicate BoardFilled(b: seq<Card>, f: nat, cs: seq<Card>, rb: seq<Card>)
    requires f + |cs| == 3
  {
    && |rb| == (if |b| < 3 then 3 else |b|)
    && (forall k :: 0 <= k < |cs| ==> rb[f + k] == cs[k])
    && (forall k :: 0 <= k < f ==> rb[k] == SlotAt(b, k))
    && (forall k :: 3 <= k < |b| ==> rb[k] == b[k])
  }

  lemma BoardFilledLast(b: seq<Card>, c: Card)
    ensures BoardFilled(b, 2, [c], SetSlot(b, 2, c))
  {
  }

  lemma BoardFilledStep(b: seq<Card>, f: nat, cs: seq<Card>, rb: seq<Card>)
    requires 2 <= |cs| && f + |cs| == 3
    requires BoardFilled(SetSlot(b, f, cs[0]), f + 1, cs[1..], rb)
    ensures BoardFilled(b, f, cs, rb)
  {
    var b1 := SetSlot(b, f, cs[0]);
    forall k | 0 <= k < |cs|
      ensures rb[f + k] == cs[k]
    {
      if k > 0 {
        assert rb[(f + 1) + (k - 1)] == cs[1..][k - 1];
      } else {
        assert rb[f] == SlotAt(b1, f);
      }
    }
    forall k | 0 <= k < f
      ensures rb[k] == SlotAt(b, k)
    {
      assert rb[k] == SlotAt(b1, k);
    }
  }

  /** One card in the tournament flop mode. */
  lemma FlopStep(h: Hand, c: Card, rank: Ranker, choose: Chooser)
    requires Valid(h) && FlopMode(h) && h.rev == Tournament
    ensures var f := h.picker.flopIndex;
      var b := SetSlot(h.board, f, c);
      var done := Record(h.(board := b, picker := ClosedPicker), FlopAssigned(FlopCards(b)));
      AssignCard(h, c, rank, choose)
        == if f + 1 < 3 then h.(board := b, picker := h.picker.(flopIndex := f + 1))
           else if FlopPending(h) then AdvanceRound(done, rank, choose) else done
  {
  }

  /** The tournament hand once the flop mode has taken `cs`, before any
      advance of the round. */
  predicate FlopFilled(h: Hand, cs: seq<Card>, r: Hand)
    requires h.picker.flopIndex + |cs| == 3 && L.Valid(h.ledger)
  {
    && BoardFilled(h.board, h.picker.flopIndex, cs, r.board)
    && r == h.(board := r.board, picker := ClosedPicker, ledger := r.ledger)
    && r.ledger == L.Record(h.ledger, Snap(r, FlopAssigned(FlopCards(r.board))))
  }

  /** In the tournament flop mode, cards for the remaining flop slots fill
      them in order; the picker closes and exactly one snapshot is recorded,
      after the third card. A Crazy Pineapple hand waiting for its flop then
      advances the round from that recorded state. */
  lemma {:induction false} FlopModeFills(h: Hand, cs: seq<Card>, rank: Ranker, choose: Chooser)
    requires Valid(h) && FlopMode(h) && h.rev == Tournament
    requires 1 <= |cs| && h.picker.flopIndex + |cs| == 3
    ensures !FlopPending(h) ==> FlopFilled(h, cs, AssignAll(h, cs, rank, choose))
    ensures FlopPending(h) ==> exists c :: FlopFilled(h, cs, c) && AssignAll(h, cs, rank, choose) == AdvanceRound(c, rank, choose)
    decreases |cs|, 1
  {
    if |cs| == 1 {
      FlopModeLast(h, cs, rank, choose);
    } else {
      FlopModeMore(h, cs, rank, choose);
    }
  }

  lemma FlopModeLast(h: Hand, cs: seq<Card>, rank: Ranker, choose: Chooser)
    requires Valid(h) && FlopMode(h) && h.rev == Tournament && h.picker.flopIndex == 2 && |cs| == 1
    ensures !FlopPending(h) ==> FlopFilled(h, cs, AssignAll(h, cs, rank, choose))
    ensures FlopPending(h) ==> exists c :: FlopFilled(h, cs, c) && AssignAll(h, cs, rank, choose) == AdvanceRound(c, rank, choose)
  {
    FlopStep(h, cs[0], rank, choose);
    var b := SetSlot(h.board, 2, cs[0]);
    var done := Record(h.(board := b, picker := ClosedPicker), FlopAssigned(FlopCards(b)));
    FlopFilledLast(h, cs, done);
    assert AssignAll(h, cs, rank, choose) == AssignCard(h, cs[0], rank, choose);
  }

  lemma FlopFilledLast(h: Hand, cs: seq<Card>, done: Hand)
    requires L.Valid(h.ledger) && h.picker.flopIndex == 2 && |cs| == 1
    requires done == Record(h.(board := SetSlot(h.board, 2, cs[0]), picker := ClosedPicker), FlopAssigned(FlopCards(SetSlot(h.board, 2, cs[0]))))
    ensures FlopFilled(h, cs, done)
  {
    BoardFilledLast(h.board, cs[0]);
    assert cs == [cs[0]];
  }

  lemma {:induction false} FlopModeMore(h: Hand, cs: seq<Card>, rank: Ranker, choose: Chooser)
    requires Valid(h) && FlopMode(h) && h.rev == Tournament
    requires 2 <= |cs| && h.picker.flopIndex + |cs| == 3
    ensures !FlopPending(h) ==> FlopFilled(h, cs, AssignAll(h, cs, rank, choose))
    ensures FlopPending(h) ==> exists c :: FlopFilled(h, cs, c) && AssignAll(h, cs, rank, choose) == AdvanceRound(c, rank, choose)
    decreases |cs|, 0
  {
    var f := h.picker.flopIndex;
    FlopStep(h, cs[0], rank, choose);
    var h1 := AssignCard(h, cs[0], rank, choose);
    assert h1 == h.(board := SetSlot(h.board, f, cs[0]), picker := h.picker.(flopIndex := f + 1));
    assert AssignAll(h, cs, rank, choose) == AssignAll(h1, cs[1..], rank, choose);
    FlopModeFills(h1, cs[1..], rank, choose);
    if FlopPending(h) {
      var c :| FlopFilled(h1, cs[1..], c) && AssignAll(h1, cs[1..], rank, choose) == AdvanceRound(c, rank, choose);
      BoardFilledStep(h.board, f, cs, c.board);
      assert FlopFilled(h, cs, c);
    } else {
      BoardFilledStep(h.board, f, cs, AssignAll(h1, cs[1..], rank, choose).board);
    }
  }

  /** Opening the picker on an empty flop of a tournament hand that is not
      a Crazy Pineapple hand waiting for its flop, and choosing three cards,
      deals exactly those cards as the flop with one snapshot. */
  lemma DealFlop(h: Hand, id: nat, cs: seq<Card>, rank: Ranker, choose: Chooser)
    requires Valid(h) && h.rev == Tournament && !FlopPending(h)
    requires id <= 2 && FlopEmpty(h.board) && |cs| == 3
    ensures var r := AssignAll(OpenCardPicker(h, BoardSlot(id)), cs, rank, choose);
      && FlopCards(r.board) == cs
      && r.players == h.players && r.sc == h.sc && r.pots == h.pots && r.picker == ClosedPicker
      && r.ledger.cursor == h.ledger.cursor + 1 && |r.ledger.entries| == r.ledger.cursor + 1
      && r.ledger.entries[r.ledger.cursor].event == FlopAssigned(cs)
  {
    var o := OpenCardPicker(h, BoardSlot(id));
    FlopModeFills(o, cs, rank, choose);
    var r := AssignAll(o, cs, rank, choose);
    FlopOfFilled(o.board, cs, r.board);
  }

  /** A board whose flop was filled from its first slot has `cs` as its flop. */
  lemma FlopOfFilled(b: seq<Card>, cs: seq<Card>, rb: seq<Card>)
    requires |cs| == 3 && BoardFilled(b, 0, cs, rb)
    ensures FlopCards(rb) == cs
  {
    forall k | 0 <= k < 3 ensures rb[k] == cs[k] { assert rb[0 + k] == cs[k]; }
  }

  /** One card in the cash flop mode: it is recorded at once, and the third
      closes the picker. */
  lemma CashFlopStep(h: Hand, c: Card, rank: Ranker, choose: Chooser)
    requires Valid(h) && FlopMode(h) && h.rev == Cash
    ensures var f := h.picker.flopIndex;
      var h1 := Record(h.(board := SetSlot(h.board, f, c)), FlopCardAssigned(c));
      AssignCard(h, c, rank, choose)
        == if f + 1 < 3 then h1.(picker := h.picker.(flopIndex := f + 1)) else h1.(picker := ClosedPicker)
  {
  }

  /** The cash hand once the flop mode has taken `cs`: one snapshot per card,
      in order. */
  predicate CashFlopFilled(h: Hand, cs: seq<Card>, r: Hand)
    requires h.picker.flopIndex + |cs| == 3 && L.Valid(h.ledger)
  {
    && BoardFilled(h.board, h.picker.flopIndex, cs, r.board)
    && r == h.(board := r.board, picker := ClosedPicker, ledger := r.ledger)
    && r.ledger.cursor == h.ledger.cursor + |cs| && |r.ledger.entries| == r.ledger.cursor + 1
    && (forall k :: 0 <= k <= h.ledger.cursor ==> r.ledger.entries[k] == h.ledger.entries[k])
    && (forall k :: 0 <= k < |cs| ==> r.ledger.entries[h.ledger.cursor + 1 + k].event == FlopCardAssigned(cs[k]))
  }

  /** In the cash flop mode every card of `cs` is recorded as it is placed,
      and the picker closes after the third. */
  lemma {:induction false} CashFlopFills(h: Hand, cs: seq<Card>, rank: Ranker, choose: Chooser)
    requires Valid(h) && FlopMode(h) && h.rev == Cash
    requires 1 <= |cs| && h.picker.flopIndex + |cs| == 3
    ensures CashFlopFilled(h, cs, AssignAll(h, cs, rank, choose))
    decreases |cs|, 1
  {
    if |cs| == 1 {
      CashFlopLast(h, cs, rank, choose);
    } else {
      CashFlopMore(h, cs, rank, choose);
    }
  }

  lemma CashFlopLast(h: Hand, cs: seq<Card>, rank: Ranker, choose: Chooser)
    requires Valid(h) && FlopMode(h) && h.rev == Cash && h.picker.flopIndex == 2 && |cs| == 1
    ensures CashFlopFilled(h, cs, AssignAll(h, cs, rank, choose))
  {
    CashFlopStep(h, cs[0], rank, choose);
    BoardFilledLast(h.board, cs[0]);
    assert cs == [cs[0]];
    assert AssignAll(h, cs, rank, choose) == AssignCard(h, cs[0], rank, choose);
  }

  lemma {:induction false} CashFlopMore(h: Hand, cs: seq<Card>, rank: Ranker, choose: Chooser)
    requires Valid(h) && FlopMode(h) && h.rev == Cash
    requires 2 <= |cs| && h.picker.flopIndex + |cs| == 3
    ensures CashFlopFilled(h, cs, AssignAll(h, cs, rank, choose))
    decreases |cs|, 0
  {
    CashFlopStep(h, cs[0], rank, choose);
    var h1 := AssignCard(h, cs[0], rank, choose);
    assert AssignAll(h, cs, rank, choose) == AssignAll(h1, cs[1..], rank, choose);
    CashFlopFills(h1, cs[1..], rank, choose);
    CashFlopFilledStep(h, h1, cs, AssignAll(h1, cs[1..], rank, choose));
  }

  lemma CashFlopFilledStep(h: Hand, h1: Hand, cs: seq<Card>, r: Hand)
    requires L.Valid(h.ledger) && 2 <= |cs| && h.picker.flopIndex + |cs| == 3
    requires h1 == Record(h.(board := SetSlot(h.board, h.picker.flopIndex, cs[0])), FlopCardAssigned(cs[0])).(picker := h.picker.(flopIndex := h.picker.flopIndex + 1))
    requires CashFlopFilled(h1, cs[1..], r)
    ensures CashFlopFilled(h, cs, r)
  {
    BoardFilledStep(h.board, h.picker.flopIndex, cs, r.board);
    forall k | 0 <= k < |cs|
      ensures r.ledger.entries[h.ledger.cursor + 1 + k].event == FlopCardAssigned(cs[k])
    {
      if k > 0 {
        assert r.ledger.entries[h1.ledger.cursor + 1 + (k - 1)].event == FlopCardAssigned(cs[1..][k - 1]);
      }
    }
  }

  /** Which mode `assignCard` runs in for a target: a single slot unless
      the flop mode (board) or the tournament hand mode (player) is on. */
  predicate SingleSlot(h: Hand)
  {
    h.picker.target.Some? &&
    match h.picker.target.value
    case PlayerSlot(_, _) => !(h.rev == Tournament && h.picker.playerMulti)
    case BoardSlot(_) => !h.picker.flopMulti
  }

  /** `u` is `h` after the card `card` went into the target slot and came
      out again: the cards are as they were, the picker is closed, and the
      assignment and the removal are the two newest snapshots. */
  predicate RoundTrip(h: Hand, card: Card, u: Hand)
    requires L.Valid(h.ledger)
  {
    && u.players == h.players && u.board == h.board && u.picker == ClosedPicker
    && u.ledger.cursor == h.ledger.cursor + 2 && |u.ledger.entries| == u.ledger.cursor + 1
    && u.ledger.entries[h.ledger.cursor + 1].event == CardAssigned(card)
    && u.ledger.entries[h.ledger.cursor + 2].event == CardUnassigned(card)
  }

  /** A card placed in an empty single slot and then taken out again leaves
      the cards as they were; the hand records the assignment and the
      removal, in that order. */
  lemma AssignThenUnassign(h: Hand, card: Card, rank: Ranker, choose: Chooser)
    requires Valid(h) && SingleSlot(h) && card != NoCard
    requires var t := h.picker.target.value;
      t.PlayerSlot? ==> 0 <= t.seat < |h.players| && t.cardIndex < |h.players[t.seat].cards|
    requires var t := h.picker.target.value;
      t.BoardSlot? ==> t.index < |h.board|
    requires SlotOf(h, h.picker.target.value) == NoCard
    ensures SlotOf(AssignCard(h, card, rank, choose), h.picker.target.value) == card
    ensures RoundTrip(h, card, UnassignCard(AssignCard(h, card, rank, choose), h.picker.target.value))
  {
    if h.picker.target.value.PlayerSlot? {
      PlayerRoundTrip(h, card, rank, choose);
    } else {
      BoardRoundTrip(h, card, rank, choose);
    }
  }

  lemma BoardRoundTrip(h: Hand, card: Card, rank: Ranker, choose: Chooser)
    requires Valid(h) && SingleSlot(h) && card != NoCard && h.picker.target.value.BoardSlot?
    requires h.picker.target.value.index < |h.board| && h.board[h.picker.target.value.index] == NoCard
    ensures SlotOf(AssignCard(h, card, rank, choose), h.picker.target.value) == card
    ensures RoundTrip(h, card, UnassignCard(AssignCard(h, card, rank, choose), h.picker.target.value))
  {
    var id := h.picker.target.value.index;
    var a := AssignCard(h, card, rank, choose);
    assert a == Record(h.(board := h.board[id := card], picker := ClosedPicker), CardAssigned(card));
    UnassignBoardAfterAssign(h, id, card, a);
  }

  lemma UnassignBoardAfterAssign(h: Hand, id: nat, card: Card, a: Hand)
    requires L.Valid(h.ledger) && id < |h.board| && h.board[id] == NoCard && card != NoCard
    requires a == Record(h.(board := h.board[id := card], picker := ClosedPicker), CardAssigned(card))
    ensures SlotOf(a, BoardSlot(id)) == card
    ensures RoundTrip(h, card, UnassignCard(a, BoardSlot(id)))
  {
    assert a.board[id := NoCard] == h.board;
  }

  lemma PlayerRoundTrip(h: Hand, card: Card, rank: Ranker, choose: Chooser)
    requires Valid(h) && SingleSlot(h) && card != NoCard && h.picker.target.value.PlayerSlot?
    requires var t := h.picker.target.value; 0 <= t.seat < |h.players| && t.cardIndex < |h.players[t.seat].cards|
    requires var t := h.picker.target.value; h.players[t.seat].cards[t.cardIndex] == NoCard
    ensures SlotOf(AssignCard(h, card, rank, choose), h.picker.target.value) == card
    ensures RoundTrip(h, card, UnassignCard(AssignCard(h, card, rank, choose), h.picker.target.value))
  {
    AssignPlayerSingle(h, card, rank, choose);
    UnassignAfterAssign(h, h.picker.target.value, card, AssignCard(h, card, rank, choose));
  }

  lemma UnassignAfterAssign(h: Hand, t: Target, card: Card, a: Hand)
    requires Valid(h) && t.PlayerSlot? && 0 <= t.seat < |h.players| && t.cardIndex < |h.players[t.seat].cards|
    requires h.players[t.seat].cards[t.cardIndex] == NoCard && card != NoCard
    requires a == Record(h.(players := h.players[t.seat := h.players[t.seat].(cards := h.players[t.seat].cards[t.cardIndex := card])],
                            picker := ClosedPicker), CardAssigned(card))
    ensures SlotOf(a, t) == card
    ensures RoundTrip(h, card, UnassignCard(a, t))
  {
    SeatOfNumbered(a.players, t.seat);
    assert a.players[t.seat].cards[t.cardIndex := NoCard] == h.players[t.seat].cards;
    assert Emptied(a, t).players == h.players;
  }

  /** A single player slot takes the card, closes the picker and records. */
  lemma AssignPlayerSingle(h: Hand, card: Card, rank: Ranker, choose: Chooser)
    requires Valid(h) && SingleSlot(h) && h.picker.target.value.PlayerSlot?
    requires var t := h.picker.target.value; 0 <= t.seat < |h.players| && t.cardIndex < |h.players[t.seat].cards|
    ensures var t := h.picker.target.value;
      AssignCard(h, card, rank, choose)
        == Record(h.(players := h.players[t.seat := h.players[t.seat].(cards := h.players[t.seat].cards[t.cardIndex := card])],
                     picker := ClosedPicker), CardAssigned(card))
  {
    SeatOfNumbered(h.players, h.picker.target.value.seat);
  }

  /** A player target whose seat does not exist: the cash revision still
      closes the picker and records the assignment without placing the card,
      the tournament revision does nothing. */
  lemma AssignUnknownPlayer(h: Hand, card: Card, rank: Ranker, choose: Chooser)
    requires Valid(h) && h.picker.target.Some? && h.picker.target.value.PlayerSlot?
    requires !(0 <= h.picker.target.value.seat < |h.players|)
    ensures var r := AssignCard(h, card, rank, choose);
      && (h.rev == Tournament ==> r == h)
      && (h.rev == Cash ==>
            && r.players == h.players && r.board == h.board && r.picker == ClosedPicker
            && r.ledger == L.Record(h.ledger, Snap(h, CardAssigned(card))))
  {
    SeatOfNumbered(h.players, h.picker.target.value.seat);
  }
}
