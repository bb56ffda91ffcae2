/** The pot accountant: `collectBetsAndCreatePots` peels the bets on the
    table into new pots layer by layer, and the street-boundary collection
    of `advanceRound` either tops up an empty single pot or peels. */
module Pots {
  import opened Base
  import opened Table

  /** Bets on the table are non-negative, and every taker's bet lies within
      their running total for the hand. */
  predicate Peelable(ps: seq<Player>, m: seq<bool>)
  {
    && |m| == |ps|
    && (forall i :: 0 <= i < |ps| ==> 0 <= ps[i].betThisRound)
    && (forall i :: 0 <= i < |ps| && m[i] ==> ps[i].betThisRound <= ps[i].totalBetInHand)
    && (forall i :: 0 <= i < |ps| && !m[i] ==> ps[i].betThisRound == 0)
  }

  /** Smallest running total among takers still holding a bet who are all-in. */
  function MinAllInTotal(ps: seq<Player>, m: seq<bool>): (r: Option<int>)
    requires |m| == |ps|
    ensures r.None? <==> forall i :: 0 <= i < |ps| ==> !(m[i] && ps[i].betThisRound > 0 && ps[i].isAllIn)
    ensures r.Some? ==> exists i :: 0 <= i < |ps| && m[i] && ps[i].betThisRound > 0 && ps[i].isAllIn && ps[i].totalBetInHand == r.value
    ensures r.Some? ==> forall i :: 0 <= i < |ps| && m[i] && ps[i].betThisRound > 0 && ps[i].isAllIn ==> r.value <= ps[i].totalBetInHand
  {
    if |ps| == 0 then None
    else
      var n := |ps| - 1;
      var r0 := MinAllInTotal(ps[..n], m[..n]);
      assert forall i :: 0 <= i < n ==> ps[..n][i] == ps[i] && m[..n][i] == m[i];
      var p := ps[n];
      if m[n] && p.betThisRound > 0 && p.isAllIn then
        (if r0.Some? && r0.value <= p.totalBetInHand then r0 else Some(p.totalBetInHand))
      else r0
  }

  /** Smallest bet among takers still holding a bet. */
  function MinBet(ps: seq<Player>, m: seq<bool>): (r: Option<int>)
    requires |m| == |ps|
    ensures r.None? <==> forall i :: 0 <= i < |ps| ==> !(m[i] && ps[i].betThisRound > 0)
    ensures r.Some? ==> exists i :: 0 <= i < |ps| && m[i] && ps[i].betThisRound > 0 && ps[i].betThisRound == r.value
    ensures r.Some? ==> forall i :: 0 <= i < |ps| && m[i] && ps[i].betThisRound > 0 ==> r.value <= ps[i].betThisRound
  {
    if |ps| == 0 then None
    else
      var n := |ps| - 1;
      var r0 := MinBet(ps[..n], m[..n]);
      assert forall i :: 0 <= i < n ==> ps[..n][i] == ps[i] && m[..n][i] == m[i];
      var p := ps[n];
      if m[n] && p.betThisRound > 0 then
        (if r0.Some? && r0.value <= p.betThisRound then r0 else Some(p.betThisRound))
      else r0
  }

  /** The per-player cap of the next layer: the lowest all-in total when an
      all-in player still has chips on the table (the pots' recorded
      per-player amounts are never set, so nothing is subtracted), otherwise
      the smallest outstanding bet. */
  function LayerCap(ps: seq<Player>, m: seq<bool>): (c: int)
    requires Peelable(ps, m) && MinBet(ps, m).Some?
    ensures c > 0
  {
    match MinAllInTotal(ps, m)
    case Some(t) => t
    case None => MinBet(ps, m).value
  }

  /** Does player `p` pay into the layer being built? */
  predicate InLayer(p: Player, taker: bool) { taker && p.totalBetInHand > 0 }

  /** What player `p` pays into a layer capped at `cap`. */
  function Pay(p: Player, taker: bool, cap: int): int
  {
    if InLayer(p, taker) then Min(p.betThisRound, cap) else 0
  }

  /** Two seatings that agree on everything but the bets on the table. */
  predicate OnlyBetsDiffer(ps: seq<Player>, qs: seq<Player>)
  {
    |qs| == |ps| && forall i :: 0 <= i < |ps| ==> OffTable(qs[i]) == OffTable(ps[i])
  }

  /** A player with the bet on the table set aside. */
  function OffTable(p: Player): Player { p.(betThisRound := 0) }

  /** A player with both bet counters set aside. */
  function Chips(p: Player): Player { p.(betThisRound := 0, totalBetInHand := 0) }

  /** One pass of the peel, players' side: every taker with a positive
      running total takes `min(bet, cap)` off their bet. */
  function LayerPlayers(ps: seq<Player>, m: seq<bool>, cap: int): (r: seq<Player>)
    requires |m| == |ps|
    ensures |r| == |ps|
    ensures forall i :: 0 <= i < |ps| ==> r[i].betThisRound == ps[i].betThisRound - Pay(ps[i], m[i], cap)
    ensures OnlyBetsDiffer(ps, r)
  {
    seq(|ps|, i requires 0 <= i < |ps| => ps[i].(betThisRound := ps[i].betThisRound - Pay(ps[i], m[i], cap)))
  }

  /** One pass of the peel, pot's side: the new pot holds what the payers
      paid, and they (by id, without repeats) are eligible for it. */
  function LayerPot(ps: seq<Player>, m: seq<bool>, cap: int): (pot: Pot)
    requires |m| == |ps|
    ensures forall x :: x in pot.eligible <==> exists i :: 0 <= i < |ps| && InLayer(ps[i], m[i]) && ps[i].id == x
  {
    if |ps| == 0 then Pot(0, [])
    else
      var n := |ps| - 1;
      var pot0 := LayerPot(ps[..n], m[..n], cap);
      assert forall i :: 0 <= i < n ==> ps[..n][i] == ps[i] && m[..n][i] == m[i];
      var p := ps[n];
      if InLayer(p, m[n]) then
        Pot(pot0.amount + Pay(p, m[n], cap), if p.id in pot0.eligible then pot0.eligible else pot0.eligible + [p.id])
      else pot0
  }

  lemma {:induction false} LayerConserves(ps: seq<Player>, m: seq<bool>, cap: int)
    requires |m| == |ps|
    ensures SumBets(LayerPlayers(ps, m, cap)) + LayerPot(ps, m, cap).amount == SumBets(ps)
    ensures SumStacks(LayerPlayers(ps, m, cap)) == SumStacks(ps)
    decreases |ps|
  {
    if |ps| > 0 {
      var n := |ps| - 1;
      LayerConserves(ps[..n], m[..n], cap);
      LayerLast(ps, m, cap);
    }
  }

  /** A layer over `ps` is the layer over all seats but the last, plus what
      the last seat pays. */
  lemma LayerLast(ps: seq<Player>, m: seq<bool>, cap: int)
    requires |m| == |ps| > 0
    ensures var n := |ps| - 1;
      && LayerPlayers(ps, m, cap)[..n] == LayerPlayers(ps[..n], m[..n], cap)
      && LayerPot(ps, m, cap).amount == LayerPot(ps[..n], m[..n], cap).amount + Pay(ps[n], m[n], cap)
  {
    var n := |ps| - 1;
    var l := LayerPlayers(ps, m, cap);
    var l0 := LayerPlayers(ps[..n], m[..n], cap);
    forall i | 0 <= i < n
      ensures l[..n][i] == l0[i]
    {
      assert ps[..n][i] == ps[i] && m[..n][i] == m[i];
    }
  }

  /** A layer with a positive cap takes at least `min(bet, cap)` from every
      payer, so a payer with chips on the table makes it strictly positive. */
  lemma {:induction false} LayerTakesFrom(ps: seq<Player>, m: seq<bool>, cap: int, j: nat)
    requires |m| == |ps| && cap > 0 && j < |ps| && InLayer(ps[j], m[j])
    requires forall i :: 0 <= i < |ps| ==> 0 <= ps[i].betThisRound
    ensures LayerPot(ps, m, cap).amount >= Min(ps[j].betThisRound, cap)
    decreases |ps|
  {
    var n := |ps| - 1;
    assert forall i :: 0 <= i < n ==> ps[..n][i] == ps[i] && m[..n][i] == m[i];
    LayerNonNegative(ps[..n], m[..n], cap);
    if j < n {
      LayerTakesFrom(ps[..n], m[..n], cap, j);
    }
  }

  lemma LayerShrinksBets(ps: seq<Player>, m: seq<bool>, cap: int)
    requires Peelable(ps, m) && cap > 0
    requires exists j :: 0 <= j < |ps| && m[j] && ps[j].betThisRound > 0
    ensures LayerPot(ps, m, cap).amount > 0
  {
    var j :| 0 <= j < |ps| && m[j] && ps[j].betThisRound > 0;
    LayerTakesFrom(ps, m, cap, j);
  }

  lemma {:induction false} LayerNonNegative(ps: seq<Player>, m: seq<bool>, cap: int)
    requires |m| == |ps| && cap > 0
    requires forall i :: 0 <= i < |ps| ==> 0 <= ps[i].betThisRound
    ensures LayerPot(ps, m, cap).amount >= 0
    decreases |ps|
  {
    if |ps| > 0 {
      var n := |ps| - 1;
      assert forall i :: 0 <= i < n ==> ps[..n][i] == ps[i];
      LayerNonNegative(ps[..n], m[..n], cap);
    }
  }

  lemma {:induction false} BetsNonNegativeSum(ps: seq<Player>)
    requires forall i :: 0 <= i < |ps| ==> 0 <= ps[i].betThisRound
    ensures SumBets(ps) >= 0
    ensures SumBets(ps) == 0 ==> forall i :: 0 <= i < |ps| ==> ps[i].betThisRound == 0
  {
    if |ps| > 0 {
      var n := |ps| - 1;
      assert forall i :: 0 <= i < n ==> ps[..n][i] == ps[i];
      BetsNonNegativeSum(ps[..n]);
    }
  }

  /** The `while (true)` loop of `collectBetsAndCreatePots`. It stops when no
      taker has chips on the table; each pass removes a positive amount from
      the bets on the table, which is the termination measure. Earlier pots
      are kept as they are. */
  function Peel(ps: seq<Player>, m: seq<bool>, pots: seq<Pot>): (r: (seq<Player>, seq<Pot>))
    requires Peelable(ps, m)
    ensures |r.1| >= |pots| && r.1[..|pots|] == pots
    decreases SumBets(ps)
  {
    if MinBet(ps, m).None? then (ps, pots)
    else
      var (ps1, pot) := NextLayer(ps, m);
      var r := Peel(ps1, m, pots + [pot]);
      assert r.1[..|pots|] == (r.1[..|pots| + 1])[..|pots|];
      r
  }

  /** The peel empties the table into the pots: every bet ends at zero, the
      pots grow by exactly what was on the table, and nothing but the bets
      changes on the players. */
  lemma {:induction false} PeelEmptiesTable(ps: seq<Player>, m: seq<bool>, pots: seq<Pot>)
    requires Peelable(ps, m)
    ensures Peelable(Peel(ps, m, pots).0, m) && OnlyBetsDiffer(ps, Peel(ps, m, pots).0)
    ensures forall i :: 0 <= i < |ps| ==> Peel(ps, m, pots).0[i].betThisRound == 0
    ensures TotalPot(Peel(ps, m, pots).1) == TotalPot(pots) + SumBets(ps)
    decreases SumBets(ps)
  {
    if MinBet(ps, m).None? {
      NothingLeftToPeel(ps, m);
      assert forall i :: 0 <= i < |ps| ==> ps[i].betThisRound == 0;
    } else {
      var (ps1, pot) := NextLayer(ps, m);
      TotalPotAppend(pots, pot);
      PeelEmptiesTable(ps1, m, pots + [pot]);
      OnlyBetsDifferTrans(ps, ps1, Peel(ps1, m, pots + [pot]).0);
    }
  }

  lemma OnlyBetsDifferTrans(ps: seq<Player>, qs: seq<Player>, rs: seq<Player>)
    requires OnlyBetsDiffer(ps, qs) && OnlyBetsDiffer(qs, rs)
    ensures OnlyBetsDiffer(ps, rs)
  {
  }

  /** Every pot the peel creates holds a non-negative amount. */
  lemma {:induction false} PeelKeepsPotsSane(ps: seq<Player>, m: seq<bool>, pots: seq<Pot>)
    requires Peelable(ps, m) && PotsSane(pots)
    ensures PotsSane(Peel(ps, m, pots).1)
    decreases SumBets(ps)
  {
    if MinBet(ps, m).Some? {
      var (ps1, pot) := NextLayer(ps, m);
      PeelKeepsPotsSane(ps1, m, pots + [pot]);
    }
  }

  lemma PeelKeepsPotsSaneIf(ps: seq<Player>, pots: seq<Pot>)
    requires Peelable(Credit(ps, Takers(ps)), Takers(ps))
    ensures PotsSane(pots) ==> PotsSane(Peel(Credit(ps, Takers(ps)), Takers(ps), pots).1)
  {
    if PotsSane(pots) {
      PeelKeepsPotsSane(Credit(ps, Takers(ps)), Takers(ps), pots);
    }
  }

  lemma NothingLeftToPeel(ps: seq<Player>, m: seq<bool>)
    requires Peelable(ps, m) && MinBet(ps, m).None?
    ensures SumBets(ps) == 0
  {
    assert forall i :: 0 <= i < |ps| ==> ps[i].betThisRound == 0;
    SumBetsZero(ps);
  }

  /** One layer keeps the bets peelable and strictly lowers what is left on
      the table, changing nothing but the bets. */
  function NextLayer(ps: seq<Player>, m: seq<bool>): (r: (seq<Player>, Pot))
    requires Peelable(ps, m) && MinBet(ps, m).Some?
    ensures Peelable(r.0, m) && OnlyBetsDiffer(ps, r.0)
    ensures 0 <= SumBets(r.0) < SumBets(ps)
    ensures SumBets(r.0) + r.1.amount == SumBets(ps)
    ensures SumStacks(r.0) == SumStacks(ps)
    ensures r.1.amount >= 0
  {
    var cap := LayerCap(ps, m);
    LayerKeepsPeelable(ps, m, cap);
    LayerShrinksBets(ps, m, cap);
    LayerConserves(ps, m, cap);
    BetsNonNegativeSum(LayerPlayers(ps, m, cap));
    LayerNonNegative(ps, m, cap);
    (LayerPlayers(ps, m, cap), LayerPot(ps, m, cap))
  }

  lemma LayerKeepsPeelable(ps: seq<Player>, m: seq<bool>, cap: int)
    requires Peelable(ps, m) && cap > 0
    ensures Peelable(LayerPlayers(ps, m, cap), m)
  {
  }

  /** The players `collectBetsAndCreatePots` takes from: those with a bet on
      the table or still in the hand. */
  function Takers(ps: seq<Player>): (m: seq<bool>)
    ensures |m| == |ps|
    ensures forall i :: 0 <= i < |ps| ==> m[i] == (ps[i].betThisRound > 0 || ps[i].inHand)
  {
    seq(|ps|, i requires 0 <= i < |ps| => ps[i].betThisRound > 0 || ps[i].inHand)
  }

  /** Before peeling, each taker's bet joins their running total. */
  function Credit(ps: seq<Player>, m: seq<bool>): (r: seq<Player>)
    requires |m| == |ps|
    ensures |r| == |ps|
    ensures forall i :: 0 <= i < |ps| ==> r[i] == if m[i] then ps[i].(totalBetInHand := ps[i].totalBetInHand + ps[i].betThisRound) else ps[i]
  {
    seq(|ps|, i requires 0 <= i < |ps| =>
      if m[i] then ps[i].(totalBetInHand := ps[i].totalBetInHand + ps[i].betThisRound) else ps[i])
  }

  function ZeroBets(ps: seq<Player>): (r: seq<Player>)
    ensures |r| == |ps|
    ensures forall i :: 0 <= i < |ps| ==> r[i] == ps[i].(betThisRound := 0)
  {
    seq(|ps|, i requires 0 <= i < |ps| => ps[i].(betThisRound := 0))
  }

  /** `collectBetsAndCreatePots`: the bets on the table move into new pots,
      each player's running total grows by their bet, and no chip is lost
      or made. */
  function Collect(ps: seq<Player>, pots: seq<Pot>): (r: (seq<Player>, seq<Pot>))
    requires ChipsSane(ps)
    ensures |r.0| == |ps| && ChipsSane(r.0)
    ensures forall i :: 0 <= i < |ps| ==> r.0[i].betThisRound == 0
    ensures forall i :: 0 <= i < |ps| ==> r.0[i].totalBetInHand == ps[i].totalBetInHand + ps[i].betThisRound
    ensures forall i :: 0 <= i < |ps| ==> Chips(r.0[i]) == Chips(ps[i])
    ensures TotalPot(r.1) == TotalPot(pots) + SumBets(ps)
    ensures |r.1| >= |pots| && r.1[..|pots|] == pots
    ensures PotsSane(pots) ==> PotsSane(r.1)
  {
    var r := Peel(Credit(ps, Takers(ps)), Takers(ps), pots);
    PeeledSeats(ps, pots);
    PeelKeepsPotsSaneIf(ps, pots);
    (ZeroBets(r.0), r.1)
  }

  lemma PeeledSeats(ps: seq<Player>, pots: seq<Pot>)
    requires ChipsSane(ps)
    ensures Peelable(Credit(ps, Takers(ps)), Takers(ps))
    ensures var r := Peel(Credit(ps, Takers(ps)), Takers(ps), pots);
      && |r.0| == |ps|
      && TotalPot(r.1) == TotalPot(pots) + SumBets(ps)
      && (forall i :: 0 <= i < |ps| ==> ZeroBets(r.0)[i].totalBetInHand == ps[i].totalBetInHand + ps[i].betThisRound)
      && (forall i :: 0 <= i < |ps| ==> Chips(ZeroBets(r.0)[i]) == Chips(ps[i]))
      && ChipsSane(ZeroBets(r.0))
  {
    var m := Takers(ps);
    var ps1 := Credit(ps, m);
    SameBetsAndStacks(ps, ps1);
    PeelEmptiesTable(ps1, m, pots);
    CreditedThenZeroed(ps, Peel(ps1, m, pots).0);
  }

  /** Zeroing the bets of a seating that differs from the credited one only
      in its bets leaves each running total grown by the bet. */
  lemma CreditedThenZeroed(ps: seq<Player>, qs: seq<Player>)
    requires ChipsSane(ps) && OnlyBetsDiffer(Credit(ps, Takers(ps)), qs)
    ensures forall i :: 0 <= i < |ps| ==> ZeroBets(qs)[i].totalBetInHand == ps[i].totalBetInHand + ps[i].betThisRound
    ensures forall i :: 0 <= i < |ps| ==> Chips(ZeroBets(qs)[i]) == Chips(ps[i])
    ensures ChipsSane(ZeroBets(qs))
  {
    var ps1 := Credit(ps, Takers(ps));
    var z := ZeroBets(qs);
    forall i | 0 <= i < |ps|
      ensures z[i].totalBetInHand == ps[i].totalBetInHand + ps[i].betThisRound
      ensures Chips(z[i]) == Chips(ps[i])
    {
      assert OffTable(qs[i]) == OffTable(ps1[i]);
      assert qs[i].totalBetInHand == OffTable(qs[i]).totalBetInHand;
    }
  }

  /** Collecting moves chips from the table to the pots: stacks are
      untouched, and the chips in play stay the same. */
  lemma CollectConserves(ps: seq<Player>, pots: seq<Pot>)
    requires ChipsSane(ps)
    ensures SumStacks(Collect(ps, pots).0) == SumStacks(ps)
    ensures SumStacks(Collect(ps, pots).0) + SumBets(Collect(ps, pots).0) + TotalPot(Collect(ps, pots).1)
         == SumStacks(ps) + SumBets(ps) + TotalPot(pots)
  {
    var r := Collect(ps, pots);
    assert forall i :: 0 <= i < |ps| ==> r.0[i].stack == Chips(r.0[i]).stack == Chips(ps[i]).stack == ps[i].stack;
    SameStacks(ps, r.0);
    SumBetsZero(r.0);
  }

  lemma {:induction false} SameStacks(ps: seq<Player>, qs: seq<Player>)
    requires |ps| == |qs|
    requires forall i :: 0 <= i < |ps| ==> qs[i].stack == ps[i].stack
    ensures SumStacks(qs) == SumStacks(ps)
  {
    if |ps| > 0 {
      var n := |ps| - 1;
      assert forall i :: 0 <= i < n ==> ps[..n][i] == ps[i] && qs[..n][i] == qs[i];
      SameStacks(ps[..n], qs[..n]);
    }
  }

  lemma {:induction false} SameBetsAndStacks(ps: seq<Player>, qs: seq<Player>)
    requires |ps| == |qs|
    requires forall i :: 0 <= i < |ps| ==> qs[i].betThisRound == ps[i].betThisRound && qs[i].stack == ps[i].stack
    ensures SumBets(qs) == SumBets(ps) && SumStacks(qs) == SumStacks(ps)
  {
    if |ps| > 0 {
      var n := |ps| - 1;
      assert forall i :: 0 <= i < n ==> ps[..n][i] == ps[i] && qs[..n][i] == qs[i];
      SameBetsAndStacks(ps[..n], qs[..n]);
    }
  }
}
