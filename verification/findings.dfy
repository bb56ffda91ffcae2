/** Two defects of the source, each modelled as written next to the
    repaired definition the rest of the model uses.

    1. `advanceRound` calls `runItOut` when fewer than two players can act,
       and `runItOut` begins by calling `advanceRound` again. Off the river
       nothing in between changes the phase or who can act, so the two call
       each other until the stack overflows. Fuel stands in for the stack:
       every nested call spends one unit, and running out is `None`.

    2. On a fold to one player, `checkHandOrRoundCompletion` calls
       `advanceRound` and then `endHand(winner)`. On the river the first call
       already ends the hand at showdown and pays the pots, and the second
       credits the pot total again, since paying a pot does not empty it. */
module Findings {
  import opened Base
  import opened Cards
  import opened Table
  import opened Betting
  import opened Showdown
  import opened Street
  import opened Engine
  import L = Ledger

  /** The call stack the mutual recursion runs on: each nested call of
      `runItOut` takes one frame. */
  datatype Stack = Exhausted | Frame(rest: Stack)

  /** `advanceRound` as written, on the call stack `st`. */
  function AdvanceRoundAsWritten(h: Hand, rank: Ranker, choose: Chooser, st: Stack): (r: Option<Hand>)
    requires Valid(h)
    ensures r.Some? ==> L.Valid(r.value.ledger) && |r.value.players| == |h.players|
    decreases st, 1
  {
    var g := Gather(h);
    GatherValid(h);
    if g.sc.phase == River then Some(EndHand(g, None, rank))
    else if CountCanAct(g.players) < 2 then RunItOutAsWritten(g, rank, choose, st)
    else Some(NextStreet(Opened(g), choose))
  }

  /** `runItOut` as written: it starts by calling `advanceRound`, which
      fails once the stack is exhausted. */
  function RunItOutAsWritten(h: Hand, rank: Ranker, choose: Chooser, st: Stack): (r: Option<Hand>)
    requires Valid(h)
    ensures r.Some? ==> L.Valid(r.value.ledger) && |r.value.players| == |h.players|
    decreases st, 0
  {
    match st
    case Exhausted => None
    case Frame(rest) =>
      match AdvanceRoundAsWritten(h, rank, choose, rest)
      case None => None
      case Some(a) => Some(RunOut(a, rank))
  }

  /** Off the river with fewer than two players able to act, `advanceRound`
      as written never returns, however deep the stack. */
  lemma {:induction false} AdvanceRoundAsWrittenDiverges(h: Hand, rank: Ranker, choose: Chooser, st: Stack)
    requires Valid(h) && h.sc.phase != River && CountCanAct(h.players) < 2
    ensures AdvanceRoundAsWritten(h, rank, choose, st) == None
    decreases st
  {
    GatherKeepsPhase(h);
    AdvanceRoundAsWrittenRunsOut(h, rank, choose, st);
    match st
    case Exhausted =>
    case Frame(rest) => AdvanceRoundAsWrittenDiverges(Gather(h), rank, choose, rest);
  }

  lemma AdvanceRoundAsWrittenRunsOut(h: Hand, rank: Ranker, choose: Chooser, st: Stack)
    requires Valid(h) && Valid(Gather(h)) && Gather(h).sc.phase != River && CountCanAct(Gather(h).players) < 2
    ensures AdvanceRoundAsWritten(h, rank, choose, st) == RunItOutAsWritten(Gather(h), rank, choose, st)
  {
  }

  lemma GatherKeepsPhase(h: Hand)
    requires Valid(h)
    ensures Valid(Gather(h)) && Gather(h).sc.phase == h.sc.phase
    ensures CountCanAct(Gather(h).players) == CountCanAct(h.players)
  {
    GatherValid(h);
  }

  /** Everywhere else the source and the repaired `AdvanceRound` agree. */
  lemma AdvanceRoundAsWrittenAgrees(h: Hand, rank: Ranker, choose: Chooser, st: Stack)
    requires Valid(h) && (h.sc.phase == River || CountCanAct(h.players) >= 2)
    ensures AdvanceRoundAsWritten(h, rank, choose, st) == Some(AdvanceRound(h, rank, choose))
  {
    GatherValid(h);
  }

  /** `checkHandOrRoundCompletion` as written. */
  function CheckCompletionAsWritten(h: Hand, a: nat, rank: Ranker, choose: Chooser, st: Stack): (r: Option<Hand>)
    requires Valid(h) && a < |h.players|
    ensures r.Some? ==> |r.value.players| == |h.players|
  {
    var ins := InHand(h.players);
    if |ins| == 1 then
      match AdvanceRoundAsWritten(h, rank, choose, st)
      case None => None
      case Some(x) => Some(EndHand(x, Some(ins[0]), rank))
    else if RoundOver(h) then AdvanceRoundAsWritten(h, rank, choose, st)
    else Some(h.(sc := h.sc.(active := Some(NextActor(h.players, a)))))
  }

  /** Seat `w` is the only one still holding cards. */
  predicate SoleSurvivor(ps: seq<Player>, w: nat)
  {
    w < |ps| && ps[w].inHand && forall i :: 0 <= i < |ps| && i != w ==> !ps[i].inHand
  }

  lemma SoleSurvivorOfInHand(ps: seq<Player>)
    requires |InHand(ps)| == 1
    ensures SoleSurvivor(ps, InHand(ps)[0])
  {
  }

  lemma {:induction false} CountWhereOne(ps: seq<Player>, f: Player -> bool, w: nat)
    requires w < |ps| && f(ps[w]) && forall i :: 0 <= i < |ps| && i != w ==> !f(ps[i])
    ensures CountWhere(ps, f) == 1
  {
    var n := |ps| - 1;
    assert forall i :: 0 <= i < n ==> ps[..n][i] == ps[i];
    if w < n {
      CountWhereOne(ps[..n], f, w);
    } else {
      assert CountWhere(ps[..n], f) == 0;
    }
  }

  /** A pot with a sole eligible survivor goes to that survivor in full. */
  lemma PayPotSole(ps: seq<Player>, k: nat, pot: Pot, rank: Ranker, board: seq<Card>, w: nat)
    requires SoleSurvivor(ps, w) && ps[w].id in pot.eligible
    ensures PayPot(ps, k, pot, rank, board).0 == Credit(ps, w, pot.amount)
  {
    var f := ContendsFor(pot);
    assert f(ps[w]);
    assert forall i :: 0 <= i < |ps| && i != w ==> !f(ps[i]);
    CountWhereOne(ps, f, w);
    if pot.amount == 0 {
      assert ps[w].(stack := ps[w].stack + pot.amount) == ps[w];
    } else {
      var qs := PaySingle(ps, k, pot).0;
      assert |qs| == |ps|;
      PaySingleAt(ps, k, pot, w);
      assert forall i :: 0 <= i < |ps| && i != w ==> qs[i] == ps[i];
    }
  }

  lemma PaySingleAt(ps: seq<Player>, k: nat, pot: Pot, w: nat)
    requires CountWhere(ps, ContendsFor(pot)) == 1 && w < |ps| && Contends(ps[w], pot)
    ensures PaySingle(ps, k, pot).0[w] == ps[w].(stack := ps[w].stack + pot.amount)
  {
  }

  /** Seat `w` credited `x` chips. */
  function Credit(ps: seq<Player>, w: nat, x: int): (r: seq<Player>)
    requires w < |ps|
    ensures |r| == |ps| && r[w].stack == ps[w].stack + x
    ensures forall i :: 0 <= i < |ps| && i != w ==> r[i] == ps[i]
  {
    ps[w := ps[w].(stack := ps[w].stack + x)]
  }

  lemma CreditTwice(ps: seq<Player>, w: nat, x: int, y: int, z: int)
    requires w < |ps| && x + y == z
    ensures Credit(Credit(ps, w, x), w, y) == Credit(ps, w, z)
  {
  }

  lemma CreditKeepsSole(ps: seq<Player>, w: nat, x: int)
    requires SoleSurvivor(ps, w)
    ensures SoleSurvivor(Credit(ps, w, x), w) && Credit(ps, w, x)[w].id == ps[w].id
  {
  }

  /** With a single player left in the hand and eligible for every pot,
      the showdown loop pays that player every pot from `k` on. */
  lemma {:induction false} PayPotsSole(h: Hand, k: nat, rank: Ranker, w: nat)
    requires L.Valid(h.ledger) && k <= |h.pots| && SoleSurvivor(h.players, w)
    requires forall j :: k <= j < |h.pots| ==> h.players[w].id in h.pots[j].eligible
    ensures PayPots(h, k, rank).players == Credit(h.players, w, PotsFrom(h.pots, k))
    decreases |h.pots| - k
  {
    if k == |h.pots| {
      assert h.players[w].(stack := h.players[w].stack + 0) == h.players[w];
    } else {
      var h2 := PayStep(h, k, rank);
      PayPotSole(h.players, k, h.pots[k], rank, h.board, w);
      CreditKeepsSole(h.players, w, h.pots[k].amount);
      PayPotsSole(h2, k + 1, rank, w);
      CreditTwice(h.players, w, h.pots[k].amount, PotsFrom(h.pots, k + 1), PotsFrom(h.pots, k));
    }
  }

  /** A showdown with one player left, eligible for every pot, pays that
      player the pot total. */
  lemma ShowdownSole(g: Hand, rank: Ranker, w: nat)
    requires L.Valid(g.ledger) && SoleSurvivor(g.players, w)
    requires forall j :: 0 <= j < |g.pots| ==> g.players[w].id in g.pots[j].eligible
    ensures EndHand(g, None, rank).players == Credit(g.players, w, TotalPot(g.pots))
  {
    var h1 := Record(g.(sc := g.sc.(phase := Showdown, active := None)), ShowdownStarts);
    PayPotsSole(h1, 0, rank, w);
    PotsFromAll(g.pots, 0);
    assert g.pots[..0] == [];
  }

  /** On the river, a fold to one player pays that player the pot twice:
      once at the showdown `advanceRound` runs, once in `endHand(winner)`. */
  lemma FoldOnRiverPaysTwice(h: Hand, a: nat, rank: Ranker, choose: Chooser, st: Stack)
    requires Valid(h) && a < |h.players|
    requires h.sc.phase == River && |InHand(h.players)| == 1
    requires var w := InHand(h.players)[0];
      forall j :: 0 <= j < |Gather(h).pots| ==> w in Gather(h).pots[j].eligible
    ensures var r := CheckCompletionAsWritten(h, a, rank, choose, st);
      var w := InHand(h.players)[0];
      && r.Some?
      && r.value.players[w].stack == h.players[w].stack + 2 * (TotalPot(h.pots) + SumBets(h.players))
  {
    var w := InHand(h.players)[0];
    var g := Gather(h);
    SoleSurvivorOfInHand(h.players);
    GatherValid(h);
    assert SoleSurvivor(g.players, w);
    assert g.players[w].id == w;
    ShowdownThenFold(g, rank, w);
    RiverFoldAsWritten(h, a, rank, choose, st);
  }

  /** A showdown followed by a fold win pays the sole survivor the pot
      total twice. */
  lemma ShowdownThenFold(g: Hand, rank: Ranker, w: nat)
    requires L.Valid(g.ledger) && SoleSurvivor(g.players, w)
    requires forall j :: 0 <= j < |g.pots| ==> g.players[w].id in g.pots[j].eligible
    ensures EndHand(EndHand(g, None, rank), Some(w), rank).players[w].stack == g.players[w].stack + 2 * TotalPot(g.pots)
  {
    ShowdownSole(g, rank, w);
  }

  /** On the river with one player left, the check as written ends the hand
      at showdown and then again for the fold winner. */
  lemma RiverFoldAsWritten(h: Hand, a: nat, rank: Ranker, choose: Chooser, st: Stack)
    requires Valid(h) && a < |h.players|
    requires h.sc.phase == River && |InHand(h.players)| == 1
    ensures Valid(Gather(h))
    ensures CheckCompletionAsWritten(h, a, rank, choose, st)
         == Some(EndHand(EndHand(Gather(h), None, rank), Some(InHand(h.players)[0]), rank))
  {
    GatherValid(h);
  }

  /** The repaired check pays the survivor once. */
  lemma FoldOnRiverPaysOnce(h: Hand, a: nat, rank: Ranker, choose: Chooser)
    requires Valid(h) && a < |h.players| && h.sc.phase == River && |InHand(h.players)| == 1
    ensures var w := InHand(h.players)[0];
      CheckCompletion(h, a, rank, choose).players[w].stack == h.players[w].stack + TotalPot(h.pots) + SumBets(h.players)
  {
    FoldWinTakesAll(h, a, rank, choose);
  }
}
