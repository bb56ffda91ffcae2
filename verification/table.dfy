/** The hand-state record shared by both revisions of the engine: players,
    board, pots, the betting scalars, the card picker and the ledger. */
module Table {
  import opened Base
  import opened Cards
  import L = Ledger

  /** `game.js` is the cash-game revision, `tournament.js` the tournament
      revision; they differ only where a function says so. */
  datatype Revision = Cash | Tournament

  datatype Rule = NoRule | Straddle | Mississippi | BombPot

  datatype Phase = SetupPhase | Preflop | WaitingForFlop | Discard | Flop | Turn | River | Showdown | Replay

  datatype Player = Player(
    id: int, name: string, stack: int, cards: seq<Card>, position: string,
    inHand: bool, isAllIn: bool, hasActed: bool,
    betThisRound: int, totalBetInHand: int,
    isDealer: bool, isSB: bool, isBB: bool,
    isStraddle: bool, isMississippi: bool, isBombPot: bool)

  /** A pot; `betAmountPerPlayer` is never written by the source, so it is absent. */
  datatype Pot = Pot(amount: int, eligible: seq<int>)

  /** The betting scalars a tournament snapshot carries besides players,
      board and pots. */
  datatype Scalars = Scalars(
    phase: Phase, dealer: int, active: Option<int>,
    currentBet: int, minRaise: int, lastRaiser: Option<int>, lastRaiseAmount: int)

  /** What a ledger entry's description says, as data rather than a sentence. */
  datatype Event =
    | BlindsPosted | BombPotPosted(bigBlinds: int) | StraddlePosted(seat: int) | MississippiPosted(seat: int)
    | Folds(seat: int) | Checks(seat: int) | Calls(seat: int) | GoesAllIn(seat: int, total: int)
    | Bets(seat: int, total: int) | RaisesTo(seat: int, total: int)
    | DealFlop | AssignFlopPrompt | DiscardPrompt | DealTurn | DealRiver | BettingClosed
    | Discards(seat: int) | AllDiscarded
    | ShowdownStarts | WinsByFold(seat: int, amount: int) | WinsPot(index: nat, amount: int, winners: seq<int>)
    | CardAssigned(card: Card) | FlopCardAssigned(card: Card) | HoleCardsAssigned(seat: int, cards: seq<Card>)
    | FlopAssigned(cards: seq<Card>) | CardUnassigned(card: Card)

  datatype Snapshot = Snapshot(
    players: seq<Player>, board: seq<Card>, pots: seq<Pot>, event: Event, scalars: Option<Scalars>)

  datatype Target = PlayerSlot(seat: int, cardIndex: nat) | BoardSlot(index: nat)

  /** The card picker: which slot is being filled and whether the
      auto-advancing multi-slot mode is on. */
  datatype Picker = Picker(target: Option<Target>, flopMulti: bool, flopIndex: nat, playerMulti: bool, playerIndex: nat)

  const ClosedPicker := Picker(None, false, 0, false, 0)

  datatype Hand = Hand(
    rev: Revision, variant: Variant, rule: Rule, hero: string,
    smallBlind: int, bigBlind: int, bombPotBB: int,
    players: seq<Player>, board: seq<Card>, pots: seq<Pot>, sc: Scalars,
    preAction: bool, discarded: set<int>, picker: Picker,
    ledger: L.Ledger<Snapshot>)

  /** A player with the hole cards set aside: what the card operations
      leave untouched. */
  function Hole(p: Player): Player { p.(cards := []) }

  predicate CanAct(p: Player) { p.inHand && !p.isAllIn }

  /** Seats are numbered by position in the list, and every amount is a
      non-negative chip count with each player's bet inside their running total. */
  predicate SeatsNumbered(ps: seq<Player>) { forall i :: 0 <= i < |ps| ==> ps[i].id == i }

  predicate ChipsSane(ps: seq<Player>)
  {
    forall i :: 0 <= i < |ps| ==> 0 <= ps[i].stack && 0 <= ps[i].betThisRound && 0 <= ps[i].totalBetInHand
  }

  predicate PotsSane(pots: seq<Pot>) { forall k :: 0 <= k < |pots| ==> 0 <= pots[k].amount }

  predicate Valid(h: Hand)
  {
    && |h.players| >= 2
    && SeatsNumbered(h.players) && ChipsSane(h.players) && PotsSane(h.pots)
    && L.Valid(h.ledger)
    && (h.sc.active.Some? ==> 0 <= h.sc.active.value < |h.players|)
    && 0 <= h.sc.dealer < |h.players|
    && 0 <= h.sc.currentBet
  }

  function SumStacks(ps: seq<Player>): int
  {
    if |ps| == 0 then 0 else SumStacks(ps[..|ps| - 1]) + ps[|ps| - 1].stack
  }

  function SumBets(ps: seq<Player>): int
  {
    if |ps| == 0 then 0 else SumBets(ps[..|ps| - 1]) + ps[|ps| - 1].betThisRound
  }

  /** `totalPot`: the sum of the pot amounts. */
  function TotalPot(pots: seq<Pot>): int
  {
    if |pots| == 0 then 0 else TotalPot(pots[..|pots| - 1]) + pots[|pots| - 1].amount
  }

  /** The chips in pots `k..`. */
  function PotsFrom(pots: seq<Pot>, k: nat): int
    requires k <= |pots|
    decreases |pots| - k
  {
    if k == |pots| then 0 else pots[k].amount + PotsFrom(pots, k + 1)
  }

  lemma {:induction false} PotsFromAll(pots: seq<Pot>, k: nat)
    requires k <= |pots|
    ensures PotsFrom(pots, k) == TotalPot(pots) - TotalPot(pots[..k])
    decreases |pots| - k
  {
    if k == |pots| {
      assert pots[..k] == pots;
    } else {
      PotsFromAll(pots, k + 1);
      assert pots[..k + 1][..k] == pots[..k];
    }
  }

  lemma {:induction false} SumStacksUpdate(ps: seq<Player>, i: nat, q: Player)
    requires i < |ps|
    ensures SumStacks(ps[i := q]) == SumStacks(ps) - ps[i].stack + q.stack
    decreases |ps|
  {
    if i < |ps| - 1 {
      assert ps[i := q][..|ps| - 1] == ps[..|ps| - 1][i := q];
      SumStacksUpdate(ps[..|ps| - 1], i, q);
    } else {
      assert ps[i := q][..|ps| - 1] == ps[..|ps| - 1];
    }
  }

  lemma {:induction false} SumBetsUpdate(ps: seq<Player>, i: nat, q: Player)
    requires i < |ps|
    ensures SumBets(ps[i := q]) == SumBets(ps) - ps[i].betThisRound + q.betThisRound
    decreases |ps|
  {
    if i < |ps| - 1 {
      assert ps[i := q][..|ps| - 1] == ps[..|ps| - 1][i := q];
      SumBetsUpdate(ps[..|ps| - 1], i, q);
    } else {
      assert ps[i := q][..|ps| - 1] == ps[..|ps| - 1];
    }
  }

  lemma {:induction false} TotalPotAppend(pots: seq<Pot>, p: Pot)
    ensures TotalPot(pots + [p]) == TotalPot(pots) + p.amount
  {
    assert (pots + [p])[..|pots|] == pots;
  }

  lemma {:induction false} TotalPotNonNegative(pots: seq<Pot>)
    requires PotsSane(pots)
    ensures TotalPot(pots) >= 0
  {
    if |pots| > 0 {
      TotalPotNonNegative(pots[..|pots| - 1]);
    }
  }

  lemma {:induction false} SumBetsZero(ps: seq<Player>)
    requires forall i :: 0 <= i < |ps| ==> ps[i].betThisRound == 0
    ensures SumBets(ps) == 0
  {
    if |ps| > 0 {
      SumBetsZero(ps[..|ps| - 1]);
    }
  }

  lemma {:induction false} SumBetsNonNegative(ps: seq<Player>)
    requires ChipsSane(ps)
    ensures SumBets(ps) >= 0
    ensures SumBets(ps) == 0 ==> forall i :: 0 <= i < |ps| ==> ps[i].betThisRound == 0
  {
    if |ps| > 0 {
      SumBetsNonNegative(ps[..|ps| - 1]);
      assert forall i :: 0 <= i < |ps| - 1 ==> ps[..|ps| - 1][i] == ps[i];
    }
  }

  /** Seats still holding cards, in seat order. */
  function InHand(ps: seq<Player>): (r: seq<nat>)
    ensures forall k :: 0 <= k < |r| ==> r[k] < |ps| && ps[r[k]].inHand
    ensures forall i :: 0 <= i < |ps| && ps[i].inHand ==> i in r
    ensures |r| <= |ps|
  {
    if |ps| == 0 then []
    else
      var r0 := InHand(ps[..|ps| - 1]);
      assert forall i :: 0 <= i < |ps| - 1 ==> ps[..|ps| - 1][i] == ps[i];
      if ps[|ps| - 1].inHand then r0 + [|ps| - 1] else r0
  }

  /** `InHand` lists the seats in increasing order, so none twice. */
  lemma {:induction false} InHandIncreasing(ps: seq<Player>)
    ensures forall j1, j2 :: 0 <= j1 < j2 < |InHand(ps)| ==> InHand(ps)[j1] < InHand(ps)[j2]
  {
    if |ps| > 0 {
      InHandIncreasing(ps[..|ps| - 1]);
    }
  }

  /** Number of seats that can still act (in the hand and not all-in). */
  function CountCanAct(ps: seq<Player>): (n: nat)
    ensures n <= |ps|
    ensures n == 0 <==> forall i :: 0 <= i < |ps| ==> !CanAct(ps[i])
    ensures n > 0 ==> exists i :: 0 <= i < |ps| && CanAct(ps[i])
  {
    if |ps| == 0 then 0
    else
      var n0 := CountCanAct(ps[..|ps| - 1]);
      assert forall i :: 0 <= i < |ps| - 1 ==> ps[..|ps| - 1][i] == ps[i];
      n0 + (if CanAct(ps[|ps| - 1]) then 1 else 0)
  }

  lemma {:induction false} CountCanActSame(ps: seq<Player>, qs: seq<Player>)
    requires |ps| == |qs| && forall i :: 0 <= i < |ps| ==> CanAct(ps[i]) == CanAct(qs[i])
    ensures CountCanAct(ps) == CountCanAct(qs)
  {
    if |ps| > 0 {
      var n := |ps| - 1;
      assert forall i :: 0 <= i < n ==> ps[..n][i] == ps[i] && qs[..n][i] == qs[i];
      CountCanActSame(ps[..n], qs[..n]);
    }
  }

  /** `usedCards` of the tournament revision: every non-empty card in any
      player slot or board slot. */
  function UsedCards(ps: seq<Player>, board: seq<Card>): (r: set<Card>)
    ensures forall c :: c in r <==>
      c != NoCard && ((exists i, k :: 0 <= i < |ps| && 0 <= k < |ps[i].cards| && ps[i].cards[k] == c)
                      || (exists k :: 0 <= k < |board| && board[k] == c))
  {
    var fromPlayers := set i, k | 0 <= i < |ps| && 0 <= k < |ps[i].cards| && ps[i].cards[k] != NoCard :: ps[i].cards[k];
    var fromBoard := set k | 0 <= k < |board| && board[k] != NoCard :: board[k];
    fromPlayers + fromBoard
  }

  /** `usedCards` of the cash revision: only the first two hole-card slots count. */
  function UsedCardsCash(ps: seq<Player>, board: seq<Card>): (r: set<Card>)
    ensures forall c :: c in r <==>
      c != NoCard && ((exists i, k :: 0 <= i < |ps| && 0 <= k < 2 && k < |ps[i].cards| && ps[i].cards[k] == c)
                      || (exists k :: 0 <= k < |board| && board[k] == c))
  {
    var fromPlayers := set i, k | 0 <= i < |ps| && 0 <= k < 2 && k < |ps[i].cards| && ps[i].cards[k] != NoCard :: ps[i].cards[k];
    var fromBoard := set k | 0 <= k < |board| && board[k] != NoCard :: board[k];
    fromPlayers + fromBoard
  }

  /** A snapshot of the live hand; the cash revision stores no scalars. */
  function Snap(h: Hand, e: Event): (s: Snapshot)
    ensures s.players == h.players && s.board == h.board && s.pots == h.pots && s.event == e
    ensures s.scalars.Some? <==> h.rev == Tournament
    ensures h.rev == Tournament ==> s.scalars == Some(h.sc)
  {
    Snapshot(h.players, h.board, h.pots, e, if h.rev == Tournament then Some(h.sc) else None)
  }

  /** `recordState(description)`. */
  function Record(h: Hand, e: Event): (r: Hand)
    requires L.Valid(h.ledger)
    ensures r == h.(ledger := r.ledger) && L.Valid(r.ledger)
    ensures |r.ledger.entries| == h.ledger.cursor + 2 && r.ledger.cursor == h.ledger.cursor + 1
    ensures r.ledger.entries[r.ledger.cursor] == Snap(h, e)
    ensures forall k :: 0 <= k <= h.ledger.cursor ==> r.ledger.entries[k] == h.ledger.entries[k]
  {
    h.(ledger := L.Record(h.ledger, Snap(h, e)))
  }
}
