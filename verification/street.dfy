/** `advanceRound` and its helpers: the bets on the table move to the
    pots at the end of a betting round, then the hand moves to the next
    street, runs the remaining streets out, or ends at the river. */
module Street {
  import opened Base
  import opened Cards
  import opened Table
  import opened Betting
  import opened Pots
  import opened Showdown
  import L = Ledger

  /** The random discard of `autoDiscardNonHeroPlayers`, left abstract: the
      index a player at seat `s` holding `n` cards throws away is
      `choose(s, n) % n`. */
  type Chooser = (nat, nat) -> nat

  /** The pot half of `advanceRound`: with chips on the table, a single
      empty pot is topped up and handed to the players still in (without
      touching their running totals); otherwise the bets are peeled. */
  function CollectRound(ps: seq<Player>, pots: seq<Pot>): (r: (seq<Player>, seq<Pot>))
    requires ChipsSane(ps)
    ensures |r.0| == |ps| && ChipsSane(r.0)
    ensures PotsSane(pots) ==> PotsSane(r.1)
    ensures TotalPot(r.1) == TotalPot(pots) + SumBets(ps)
    ensures forall i :: 0 <= i < |ps| ==> Chips(r.0[i]) == Chips(ps[i])
    ensures SumBets(ps) > 0 && |pots| == 1 && pots[0].amount == 0 ==> r == (ps, [Pot(SumBets(ps), InHand(ps))])
  {
    var bets := SumBets(ps);
    SumBetsNonNegative(ps);
    if bets <= 0 then (ps, pots)
    else if |pots| == 1 && pots[0].amount == 0 then
      assert TotalPot(pots) == TotalPot(pots[..0]) + 0;
      TotalPotAppend([], Pot(bets, InHand(ps)));
      (ps, [Pot(bets, InHand(ps))])
    else Collect(ps, pots)
  }

  /** Every player's round state is cleared: no bet on the table and not
      yet acted. */
  function ResetRound(ps: seq<Player>): (r: seq<Player>)
    ensures |r| == |ps|
    ensures forall i :: 0 <= i < |ps| ==> r[i] == ps[i].(betThisRound := 0, hasActed := false)
  {
    seq(|ps|, i requires 0 <= i < |ps| => ps[i].(betThisRound := 0, hasActed := false))
  }

  lemma ResetKeeps(ps: seq<Player>, qs: seq<Player>)
    requires |ps| == |qs| && forall i :: 0 <= i < |ps| ==> Chips(ps[i]) == Chips(qs[i])
    ensures forall i :: 0 <= i < |ps| ==>
      var r := ResetRound(ps)[i];
      && r.betThisRound == 0 && !r.hasActed
      && r.stack == qs[i].stack && r.inHand == qs[i].inHand && r.isAllIn == qs[i].isAllIn
      && r.name == qs[i].name && r.id == qs[i].id
  {
    forall i | 0 <= i < |ps|
      ensures ResetRound(ps)[i].stack == qs[i].stack && ResetRound(ps)[i].inHand == qs[i].inHand
      ensures ResetRound(ps)[i].isAllIn == qs[i].isAllIn && ResetRound(ps)[i].name == qs[i].name
      ensures ResetRound(ps)[i].id == qs[i].id
    {
      assert Chips(ps[i]).stack == Chips(qs[i]).stack;
    }
  }

  lemma ResetSane(ps: seq<Player>)
    requires ChipsSane(ps)
    ensures ChipsSane(ResetRound(ps))
  {
  }

  /** The first half of `advanceRound`, common to every branch. */
  function Gather(h: Hand): (g: Hand)
    requires Valid(h)
    ensures g == h.(players := g.players, pots := g.pots, sc := g.sc)
    ensures g.sc == h.sc.(currentBet := 0, minRaise := h.bigBlind, lastRaiseAmount := 0)
    ensures |g.players| == |h.players|
    ensures forall i :: 0 <= i < |h.players| ==> g.players[i].betThisRound == 0 && !g.players[i].hasActed
    ensures forall i :: 0 <= i < |h.players| ==>
      && g.players[i].stack == h.players[i].stack
      && g.players[i].inHand == h.players[i].inHand && g.players[i].isAllIn == h.players[i].isAllIn
      && g.players[i].name == h.players[i].name && g.players[i].id == h.players[i].id
    ensures TotalPot(g.pots) == TotalPot(h.pots) + SumBets(h.players)
    ensures ChipsSane(g.players) && PotsSane(g.pots)
  {
    var (ps, pots) := CollectRound(h.players, h.pots);
    ResetKeeps(ps, h.players);
    ResetSane(ps);
    h.(players := ResetRound(ps), pots := pots, sc := h.sc.(currentBet := 0, minRaise := h.bigBlind, lastRaiseAmount := 0))
  }

  /** Collecting keeps the hand well formed and moves chips from the table
      to the pots without losing any. */
  lemma GatherValid(h: Hand)
    requires Valid(h)
    ensures Valid(Gather(h))
    ensures SumStacks(Gather(h).players) == SumStacks(h.players)
    ensures SumBets(Gather(h).players) == 0
    ensures CountCanAct(Gather(h).players) == CountCanAct(h.players)
  {
    var g := Gather(h);
    assert SeatsNumbered(g.players);
    SameStacks(h.players, g.players);
    SumBetsZero(g.players);
    CountCanActSame(h.players, g.players);
  }

  /** Moves to phase `ph` and records `e`. */
  function Enter(h: Hand, ph: Phase, e: Event): (r: Hand)
    requires L.Valid(h.ledger)
    ensures r.sc == h.sc.(phase := ph) && r == h.(sc := r.sc, ledger := r.ledger) && L.Valid(r.ledger)
    ensures r.ledger == L.Record(h.ledger, Snap(h.(sc := r.sc), e))
  {
    Record(h.(sc := h.sc.(phase := ph)), e)
  }

  /** A player at the table named "Hero" who is still in the hand. */
  predicate HeroInHand(ps: seq<Player>)
  {
    exists i :: 0 <= i < |ps| && ps[i].inHand && ps[i].name == "Hero"
  }

  /** `c1` is `c0` after `splice(k, 1)` at some index `k`, or `c0` itself
      when there was no card to throw away. */
  predicate OneDiscarded(c0: seq<Card>, c1: seq<Card>)
  {
    if |c0| == 0 then c1 == c0 else exists k :: 0 <= k < |c0| && c1 == c0[..k] + c0[k + 1..]
  }

  /** A discard leaves one card fewer, all of them cards the player held. */
  lemma OneDiscardedShrinks(c0: seq<Card>, c1: seq<Card>)
    requires OneDiscarded(c0, c1)
    ensures |c0| > 0 ==> |c1| == |c0| - 1
    ensures multiset(c1) <= multiset(c0)
  {
    if |c0| > 0 {
      var k :| 0 <= k < |c0| && c1 == c0[..k] + c0[k + 1..];
      assert c0 == c0[..k] + [c0[k]] + c0[k + 1..];
    }
  }

  /** Seat `i` is the only seat `r` changes, and only its cards, by one
      discard. */
  predicate DiscardedAt(ps: seq<Player>, r: seq<Player>, i: nat)
    requires i < |ps| && |r| == |ps|
  {
    r == ps[i := r[i]] && r[i] == ps[i].(cards := r[i].cards) && OneDiscarded(ps[i].cards, r[i].cards)
  }

  /** `player.cards.splice(randomIndex, 1)` with the index drawn by `choose`
      below the number of cards. */
  function ThrowOne(p: Player, s: nat, choose: Chooser): (q: Player)
    ensures q == p.(cards := q.cards) && OneDiscarded(p.cards, q.cards)
  {
    var n := |p.cards|;
    var q := p.(cards := RemoveAt(p.cards, if n == 0 then 0 else choose(s, n) % n));
    assert n > 0 ==> q.cards == p.cards[..choose(s, n) % n] + p.cards[choose(s, n) % n + 1..];
    q
  }

  /** One seat of `autoDiscardNonHeroPlayers`: a player not named "Hero"
      throws one card away, is marked as having discarded, and the discard
      is recorded. */
  function DiscardOne(h: Hand, s: nat, choose: Chooser): (r: Hand)
    requires L.Valid(h.ledger) && s < |h.players|
    ensures r == h.(players := r.players, discarded := r.discarded, ledger := r.ledger) && L.Valid(r.ledger)
    ensures |r.players| == |h.players|
    ensures forall i :: 0 <= i < |h.players| ==> Hole(r.players[i]) == Hole(h.players[i])
    ensures h.players[s].name == "Hero" ==> r == h
    ensures h.players[s].name != "Hero" ==>
      && r.discarded == h.discarded + {s}
      && r.ledger.cursor == h.ledger.cursor + 1 && r.ledger.entries[r.ledger.cursor].event == Discards(s)
      && forall k :: 0 <= k <= h.ledger.cursor ==> r.ledger.entries[k] == h.ledger.entries[k]
  {
    var p := h.players[s];
    if p.name == "Hero" then h
    else
      var q := ThrowOne(p, s, choose);
      assert Hole(q) == Hole(p);
      var h1 := h.(players := h.players[s := q], discarded := h.discarded + {s});
      Record(h1, Discards(s))
  }

  /** A non-hero seat changes only its own cards, by one discard. */
  lemma DiscardOneSeat(h: Hand, s: nat, choose: Chooser)
    requires L.Valid(h.ledger) && s < |h.players| && h.players[s].name != "Hero"
    ensures DiscardedAt(h.players, DiscardOne(h, s, choose).players, s)
  {
    var q := ThrowOne(h.players[s], s, choose);
    assert DiscardOne(h, s, choose).players == h.players[s := q];
  }

  /** The seats of `seats[k..]` whose player is not the hero. */
  function Discarders(ps: seq<Player>, seats: seq<nat>, k: nat): set<nat>
    requires k <= |seats| && forall j :: 0 <= j < |seats| ==> seats[j] < |ps|
    decreases |seats| - k
  {
    if k == |seats| then {}
    else (if ps[seats[k]].name != "Hero" then {seats[k]} else {}) + Discarders(ps, seats, k + 1)
  }

  /** How many entries of `seats[k..]` are not the hero's seat. */
  function DiscarderCount(ps: seq<Player>, seats: seq<nat>, k: nat): nat
    requires k <= |seats| && forall j :: 0 <= j < |seats| ==> seats[j] < |ps|
    decreases |seats| - k
  {
    if k == |seats| then 0
    else (if ps[seats[k]].name != "Hero" then 1 else 0) + DiscarderCount(ps, seats, k + 1)
  }

  /** Both only read the players' names. */
  lemma {:induction false} DiscardersSameNames(ps: seq<Player>, qs: seq<Player>, seats: seq<nat>, k: nat)
    requires |ps| == |qs| && forall i :: 0 <= i < |ps| ==> ps[i].name == qs[i].name
    requires k <= |seats| && forall j :: 0 <= j < |seats| ==> seats[j] < |ps|
    ensures Discarders(ps, seats, k) == Discarders(qs, seats, k)
    ensures DiscarderCount(ps, seats, k) == DiscarderCount(qs, seats, k)
    decreases |seats| - k
  {
    if k < |seats| {
      DiscardersSameNames(ps, qs, seats, k + 1);
    }
  }

  /** No seat is listed twice. */
  predicate NoRepeats(seats: seq<nat>)
  {
    forall j1, j2 :: 0 <= j1 < j2 < |seats| ==> seats[j1] != seats[j2]
  }

  /** The loop of `autoDiscardNonHeroPlayers` over the seats `seats[k..]`:
      every listed non-hero seat discards once and the others are kept. */
  function DiscardEach(h: Hand, seats: seq<nat>, k: nat, choose: Chooser): (r: Hand)
    requires L.Valid(h.ledger) && k <= |seats|
    requires forall j :: 0 <= j < |seats| ==> seats[j] < |h.players|
    ensures r == h.(players := r.players, discarded := r.discarded, ledger := r.ledger) && L.Valid(r.ledger)
    ensures |r.players| == |h.players|
    decreases |seats| - k
  {
    if k == |seats| then h
    else DiscardEach(DiscardOne(h, seats[k], choose), seats, k + 1, choose)
  }

  /** The loop marks exactly the discarders and records one snapshot for
      each of them. */
  lemma {:induction false} DiscardEachRecords(h: Hand, seats: seq<nat>, k: nat, choose: Chooser)
    requires L.Valid(h.ledger) && k <= |seats|
    requires forall j :: 0 <= j < |seats| ==> seats[j] < |h.players|
    ensures var r := DiscardEach(h, seats, k, choose);
      && r.discarded == h.discarded + Discarders(h.players, seats, k)
      && r.ledger.cursor == h.ledger.cursor + DiscarderCount(h.players, seats, k)
    decreases |seats| - k
  {
    if k < |seats| {
      var h1 := DiscardOne(h, seats[k], choose);
      DiscardersSameNames(h.players, h1.players, seats, k + 1);
      DiscardEachRecords(h1, seats, k + 1, choose);
    }
  }

  /** The loop leaves every seat that is not a discarder as it was; with no
      seat listed twice, each discarder throws exactly one card away and
      nothing else about it changes. */
  lemma {:induction false} DiscardEachPlayers(h: Hand, seats: seq<nat>, k: nat, choose: Chooser)
    requires L.Valid(h.ledger) && k <= |seats|
    requires forall j :: 0 <= j < |seats| ==> seats[j] < |h.players|
    ensures var r := DiscardEach(h, seats, k, choose);
      forall i :: 0 <= i < |h.players| ==> Hole(r.players[i]) == Hole(h.players[i])
    ensures var r := DiscardEach(h, seats, k, choose);
      forall i :: 0 <= i < |h.players| && i !in Discarders(h.players, seats, k) ==> r.players[i] == h.players[i]
    ensures var r := DiscardEach(h, seats, k, choose);
      NoRepeats(seats) ==> forall i :: 0 <= i < |h.players| && i in Discarders(h.players, seats, k) ==>
        r.players[i] == h.players[i].(cards := r.players[i].cards) && OneDiscarded(h.players[i].cards, r.players[i].cards)
    decreases |seats| - k
  {
    if k < |seats| {
      var s := seats[k];
      var h1 := DiscardOne(h, s, choose);
      var r := DiscardEach(h1, seats, k + 1, choose);
      assert r == DiscardEach(h, seats, k, choose);
      DiscardersSameNames(h.players, h1.players, seats, k + 1);
      DiscardEachPlayers(h1, seats, k + 1, choose);
      var d := Discarders(h.players, seats, k);
      var d1 := Discarders(h.players, seats, k + 1);
      assert d == (if h.players[s].name != "Hero" then {s} else {}) + d1;
      forall i | 0 <= i < |h.players|
        ensures Hole(r.players[i]) == Hole(h.players[i])
      {
        assert Hole(r.players[i]) == Hole(h1.players[i]);
      }
      forall i | 0 <= i < |h.players| && i !in d
        ensures r.players[i] == h.players[i]
      {
        if h.players[s].name != "Hero" { DiscardOneSeat(h, s, choose); }
        assert h1.players[i] == h.players[i];
      }
      if NoRepeats(seats) {
        NotLater(h.players, seats, k);
        if h.players[s].name != "Hero" { DiscardOneSeat(h, s, choose); }
        forall i | 0 <= i < |h.players| && i in d
          ensures r.players[i] == h.players[i].(cards := r.players[i].cards)
          ensures OneDiscarded(h.players[i].cards, r.players[i].cards)
        {
          if i == s {
            assert i !in d1;
            assert r.players[i] == h1.players[i];
          } else {
            assert i in d1 && h1.players[i] == h.players[i];
          }
        }
      }
    }
  }

  /** With no repeats, `seats[k]` is not among the later discarders. */
  lemma NotLater(ps: seq<Player>, seats: seq<nat>, k: nat)
    requires k < |seats| && forall j :: 0 <= j < |seats| ==> seats[j] < |ps|
    requires NoRepeats(seats)
    ensures seats[k] !in Discarders(ps, seats, k + 1)
  {
    DiscardersListed(ps, seats, k + 1);
  }

  /** Every discarder of `seats[k..]` is listed there and is not the hero. */
  lemma {:induction false} DiscardersListed(ps: seq<Player>, seats: seq<nat>, k: nat)
    requires k <= |seats| && forall j :: 0 <= j < |seats| ==> seats[j] < |ps|
    ensures forall i :: i in Discarders(ps, seats, k) ==>
      i < |ps| && ps[i].name != "Hero" && exists j :: k <= j < |seats| && seats[j] == i
    decreases |seats| - k
  {
    if k < |seats| {
      DiscardersListed(ps, seats, k + 1);
    }
  }

  /** `autoDiscardNonHeroPlayers`: every in-hand player but the hero
      discards; with no hero in the hand the discard phase ends at once. */
  function AutoDiscard(h: Hand, choose: Chooser): (r: Hand)
    requires L.Valid(h.ledger)
    ensures r == h.(players := r.players, discarded := r.discarded, sc := r.sc, ledger := r.ledger) && L.Valid(r.ledger)
    ensures |r.players| == |h.players|
    ensures forall i :: 0 <= i < |h.players| ==> Hole(r.players[i]) == Hole(h.players[i])
    // each non-hero player in the hand throws exactly one card away, nobody else changes
    ensures forall i :: 0 <= i < |h.players| && !(h.players[i].inHand && h.players[i].name != "Hero") ==>
      r.players[i] == h.players[i]
    ensures forall i :: 0 <= i < |h.players| && h.players[i].inHand && h.players[i].name != "Hero" ==>
      r.players[i] == h.players[i].(cards := r.players[i].cards) && OneDiscarded(h.players[i].cards, r.players[i].cards)
    ensures HeroInHand(h.players) ==> r.sc == h.sc
    ensures !HeroInHand(h.players) ==> r.sc == h.sc.(phase := Flop) && r.discarded == {}
  {
    var seats := InHand(h.players);
    InHandIncreasing(h.players);
    DiscardersListed(h.players, seats, 0);
    DiscardersOfInHand(h.players);
    DiscardEachRecords(h, seats, 0, choose);
    DiscardEachPlayers(h, seats, 0, choose);
    var h1 := DiscardEach(h, seats, 0, choose);
    if HeroInHand(h.players) then h1
    else Enter(h1.(discarded := {}), Flop, AllDiscarded)
  }

  /** Over the seats in the hand, the discarders are exactly the non-hero
      players in the hand. */
  lemma DiscardersOfInHand(ps: seq<Player>)
    ensures forall i :: 0 <= i < |ps| ==>
      (i in Discarders(ps, InHand(ps), 0) <==> ps[i].inHand && ps[i].name != "Hero")
  {
    var seats := InHand(ps);
    var d := Discarders(ps, seats, 0);
    DiscardersListed(ps, seats, 0);
    forall i | i in d
      ensures ps[i].inHand
    {
      var j :| 0 <= j < |seats| && seats[j] == i;
    }
    forall i | 0 <= i < |ps| && ps[i].inHand && ps[i].name != "Hero"
      ensures i in d
    {
      var j :| 0 <= j < |seats| && seats[j] == i;
      DiscarderAt(ps, seats, 0, j);
    }
  }

  /** A listed non-hero seat is a discarder. */
  lemma {:induction false} DiscarderAt(ps: seq<Player>, seats: seq<nat>, k: nat, j: nat)
    requires k <= j < |seats| && forall m :: 0 <= m < |seats| ==> seats[m] < |ps|
    requires ps[seats[j]].name != "Hero"
    ensures seats[j] in Discarders(ps, seats, k)
    decreases j - k
  {
    if k < j {
      DiscarderAt(ps, seats, k + 1, j);
    }
  }

  /** The street `advanceRound` moves to from `ph` when two or more players
      can still act (before the discard phase's own shortcut). */
  function StreetAfter(rev: Revision, v: Variant, ph: Phase): Phase
  {
    match ph
    case Preflop => if rev == Tournament && v == Pineapple then WaitingForFlop else Flop
    case WaitingForFlop => if rev == Tournament then Discard else WaitingForFlop
    case Flop => Turn
    case Turn => River
    case _ => ph
  }

  /** The `switch (gamePhase)` at the end of `advanceRound`. */
  function NextStreet(g: Hand, choose: Chooser): (r: Hand)
    requires L.Valid(g.ledger)
    ensures |r.players| == |g.players| && L.Valid(r.ledger) && r.pots == g.pots
    ensures forall i :: 0 <= i < |g.players| ==> Hole(r.players[i]) == Hole(g.players[i])
    ensures r.sc == g.sc.(phase := r.sc.phase)
    ensures r.sc.phase == StreetAfter(g.rev, g.variant, g.sc.phase)
         || (r.sc.phase == Flop && g.sc.phase == WaitingForFlop && !HeroInHand(g.players))
  {
    match g.sc.phase
    case Preflop =>
      if g.rev == Tournament && g.variant == Pineapple then Enter(g, WaitingForFlop, AssignFlopPrompt)
      else Enter(g, Flop, DealFlop)
    case WaitingForFlop =>
      if g.rev == Tournament then AutoDiscard(Enter(g.(discarded := {}), Discard, DiscardPrompt), choose)
      else g
    case Flop => Enter(g, Turn, DealTurn)
    case Turn => Enter(g, River, DealRiver)
    case _ => g
  }

  /** The street announcements a run-out records after betting stops at `ph`. */
  function StreetsToDeal(ph: Phase): seq<Event>
  {
    match ph
    case Preflop => [DealFlop, DealTurn, DealRiver]
    case Flop => [DealTurn, DealRiver]
    case Turn => [DealRiver]
    case _ => []
  }

  function StreetRank(ph: Phase): nat
  {
    match ph
    case Preflop => 3
    case Flop => 2
    case Turn => 1
    case _ => 0
  }

  /** The street a run-out enters after `ph`, with its announcement. */
  function NextDeal(ph: Phase): (r: Option<(Phase, Event)>)
    ensures r.Some? <==> ph in {Preflop, Flop, Turn}
    ensures r.Some? ==> StreetRank(r.value.0) + 1 == StreetRank(ph)
    ensures r.Some? ==> StreetsToDeal(ph) == [r.value.1] + StreetsToDeal(r.value.0)
  {
    match ph
    case Preflop => Some((Flop, DealFlop))
    case Flop => Some((Turn, DealTurn))
    case Turn => Some((River, DealRiver))
    case _ => None
  }

  /** The three chained street checks of `runItOut`: every street still to
      come is entered and recorded in turn, and nothing else changes. */
  function DealStreets(h: Hand): (r: Hand)
    requires L.Valid(h.ledger)
    ensures r == h.(sc := r.sc, ledger := r.ledger) && L.Valid(r.ledger)
    ensures r.sc == h.sc.(phase := r.sc.phase)
    ensures r.sc.phase == (if h.sc.phase in {Preflop, Flop, Turn} then River else h.sc.phase)
    ensures h.sc.phase !in {Preflop, Flop, Turn} ==> r == h
    ensures h.sc.phase in {Preflop, Flop, Turn} ==>
      r.ledger.cursor == h.ledger.cursor + |StreetsToDeal(h.sc.phase)| == |r.ledger.entries| - 1
    decreases StreetRank(h.sc.phase)
  {
    match NextDeal(h.sc.phase)
    case None => h
    case Some(next) => DealStreets(Enter(h, next.0, next.1))
  }

  /** The run-out keeps the history up to the cursor. */
  lemma {:induction false} DealStreetsKeeps(h: Hand)
    requires L.Valid(h.ledger)
    ensures forall k :: 0 <= k <= h.ledger.cursor ==> DealStreets(h).ledger.entries[k] == h.ledger.entries[k]
    decreases StreetRank(h.sc.phase)
  {
    var next := NextDeal(h.sc.phase);
    if next.Some? {
      DealStreetsKeeps(Enter(h, next.value.0, next.value.1));
    }
  }

  /** After the cursor, the run-out appends one announcement per street, in
      street order. */
  lemma {:induction false} DealStreetsRecords(h: Hand)
    requires L.Valid(h.ledger)
    ensures forall k :: 0 <= k < |StreetsToDeal(h.sc.phase)| ==>
      DealStreets(h).ledger.entries[h.ledger.cursor + 1 + k].event == StreetsToDeal(h.sc.phase)[k]
    decreases StreetRank(h.sc.phase)
  {
    var next := NextDeal(h.sc.phase);
    if next.Some? {
      var e := Enter(h, next.value.0, next.value.1);
      DealStreetsKeeps(e);
      DealStreetsRecords(e);
    }
  }

  /** The tail of `runItOut`: unless the hand is already at showdown, the
      end of betting is recorded, the remaining streets are dealt, and the
      pots go to showdown. */
  function RunOut(g: Hand, rank: Ranker): (r: Hand)
    requires L.Valid(g.ledger)
    ensures r.sc.phase == Showdown && r.sc.active == (if g.sc.phase == Showdown then g.sc.active else None)
    ensures r.pots == g.pots && |r.players| == |g.players| && L.Valid(r.ledger)
  {
    if g.sc.phase == Showdown then g
    else EndHand(DealStreets(Record(g, BettingClosed)), None, rank)
  }

  /** The seat that opens a new street: the first one after the dealer
      that can act, who also becomes the last raiser. */
  function Opened(g: Hand): (r: Hand)
    requires Valid(g) && CountCanAct(g.players) > 0
    ensures r == g.(sc := r.sc) && Valid(r)
    ensures r.sc == g.sc.(active := r.sc.active, lastRaiser := r.sc.active)
    ensures r.sc.active.Some? && r.sc.active.value == NextActor(g.players, g.sc.dealer)
  {
    var a := NextActor(g.players, g.sc.dealer);
    g.(sc := g.sc.(active := Some(a), lastRaiser := Some(a)))
  }

  /** The second half of `advanceRound`, once the bets are in the pots:
      showdown at the river, a run-out when fewer than two players can act,
      otherwise the next street opens. */
  function Proceed(g: Hand, rank: Ranker, choose: Chooser): (r: Hand)
    requires Valid(g)
    ensures r.pots == g.pots && |r.players| == |g.players|
    ensures r.sc == g.sc.(phase := r.sc.phase, active := r.sc.active, lastRaiser := r.sc.lastRaiser)
    // the river and a table with fewer than two players able to act both end at showdown
    ensures g.sc.phase == River ==> r.sc.phase == Showdown && r.sc.active.None?
    ensures g.sc.phase != River && g.sc.phase != Showdown && CountCanAct(g.players) < 2 ==>
      r.sc.phase == Showdown && r.sc.active.None?
  {
    if g.sc.phase == River then EndHand(g, None, rank)
    else if CountCanAct(g.players) < 2 then RunOut(g, rank)
    else NextStreet(Opened(g), choose)
  }

  /** `advanceRound` with the run-out repaired: when fewer than two players
      can act, the remaining streets are dealt directly instead of
      re-entering `advanceRound` (see `Findings.AdvanceRoundAsWritten`). */
  function AdvanceRound(h: Hand, rank: Ranker, choose: Chooser): (r: Hand)
    requires Valid(h)
    ensures |r.players| == |h.players|
    ensures TotalPot(r.pots) == TotalPot(h.pots) + SumBets(h.players)
    ensures r.sc.currentBet == 0 && r.sc.minRaise == h.bigBlind && r.sc.lastRaiseAmount == 0 && r.sc.dealer == h.sc.dealer
  {
    GatherValid(h);
    Proceed(Gather(h), rank, choose)
  }

  /** At the river, or with fewer than two players able to act, the hand
      goes to showdown. */
  lemma AdvanceRoundEnds(h: Hand, rank: Ranker, choose: Chooser)
    requires Valid(h) && (h.sc.phase == River || CountCanAct(h.players) < 2)
    ensures AdvanceRound(h, rank, choose).sc.phase == Showdown
    ensures h.sc.phase != Showdown ==> AdvanceRound(h, rank, choose).sc.active == None
  {
    GatherValid(h);
  }

  /** `r` is `h` moved on to its next street (or, in a tournament pineapple
      hand with no hero left, straight past the discard to the flop), with
      an able seat to act who is also the last raiser. */
  predicate OpensNextStreet(h: Hand, r: Hand)
  {
    && r.sc.active.Some? && r.sc.lastRaiser == r.sc.active
    && 0 <= r.sc.active.value < |r.players| && CanAct(r.players[r.sc.active.value])
    && (r.sc.phase == StreetAfter(h.rev, h.variant, h.sc.phase)
        || (r.sc.phase == Flop && h.sc.phase == WaitingForFlop && !HeroInHand(h.players)))
  }

  /** Otherwise the first seat after the dealer that can act opens the next
      street and is recorded as the last raiser. */
  lemma ProceedOpens(g: Hand, rank: Ranker, choose: Chooser)
    requires Valid(g) && g.sc.phase != River && CountCanAct(g.players) >= 2
    ensures OpensNextStreet(g, Proceed(g, rank, choose))
  {
    var o := Opened(g);
    var r := NextStreet(o, choose);
    var a := o.sc.active.value;
    assert CanAct(r.players[a]) == CanAct(Hole(r.players[a])) == CanAct(Hole(o.players[a]));
  }

  lemma AdvanceRoundOpens(h: Hand, rank: Ranker, choose: Chooser)
    requires Valid(h) && h.sc.phase != River && CountCanAct(h.players) >= 2
    ensures OpensNextStreet(h, AdvanceRound(h, rank, choose))
  {
    GatherValid(h);
    ProceedOpens(Gather(h), rank, choose);
    GatherKeepsHero(h);
  }

  lemma GatherKeepsHero(h: Hand)
    requires Valid(h)
    ensures HeroInHand(Gather(h).players) == HeroInHand(h.players)
  {
    var g := Gather(h);
    if HeroInHand(g.players) {
      var i :| 0 <= i < |g.players| && g.players[i].inHand && g.players[i].name == "Hero";
      assert h.players[i].inHand && h.players[i].name == "Hero";
    }
    if HeroInHand(h.players) {
      var i :| 0 <= i < |h.players| && h.players[i].inHand && h.players[i].name == "Hero";
      assert g.players[i].inHand && g.players[i].name == "Hero";
    }
  }

  lemma DealStreetsValid(h: Hand)
    requires Valid(h)
    ensures Valid(DealStreets(h))
  {
  }

  lemma NextStreetValid(o: Hand, choose: Chooser)
    requires Valid(o)
    ensures Valid(NextStreet(o, choose))
  {
    var r := NextStreet(o, choose);
    assert forall i :: 0 <= i < |o.players| ==> r.players[i].id == Hole(r.players[i]).id == Hole(o.players[i]).id;
    assert forall i :: 0 <= i < |o.players| ==>
      && r.players[i].stack == Hole(r.players[i]).stack == Hole(o.players[i]).stack
      && r.players[i].betThisRound == Hole(r.players[i]).betThisRound == Hole(o.players[i]).betThisRound
      && r.players[i].totalBetInHand == Hole(r.players[i]).totalBetInHand == Hole(o.players[i]).totalBetInHand;
  }

  lemma RunOutValid(g: Hand, rank: Ranker)
    requires Valid(g)
    ensures Valid(RunOut(g, rank))
  {
    if g.sc.phase != Showdown {
      DealStreetsValid(Record(g, BettingClosed));
      EndHandValid(DealStreets(Record(g, BettingClosed)), None, rank);
    }
  }

  lemma ProceedValid(g: Hand, rank: Ranker, choose: Chooser)
    requires Valid(g)
    ensures Valid(Proceed(g, rank, choose))
  {
    if g.sc.phase == River {
      EndHandValid(g, None, rank);
    } else if CountCanAct(g.players) < 2 {
      RunOutValid(g, rank);
    } else {
      NextStreetValid(Opened(g), choose);
    }
  }

  /** Every branch of `advanceRound` leaves a well-formed hand. */
  lemma AdvanceRoundValid(h: Hand, rank: Ranker, choose: Chooser)
    requires Valid(h)
    ensures Valid(AdvanceRound(h, rank, choose))
  {
    GatherValid(h);
    ProceedValid(Gather(h), rank, choose);
  }
}
