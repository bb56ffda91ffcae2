/** `endHand`: a fold winner takes the whole pot total; otherwise each pot
    with chips in it goes to its contenders, split evenly among the best
    ranked with the odd chips dropped. */
module Showdown {
  import opened Base
  import opened Cards
  import opened Table
  import L = Ledger

  /** The hand evaluator, left abstract: a rank for hole cards against the
      board, higher is better. */
  type Ranker = (seq<Card>, seq<Card>) -> int

  /** Number of players satisfying `f`. */
  function CountWhere(ps: seq<Player>, f: Player -> bool): (n: nat)
    ensures n <= |ps|
    ensures n == 0 <==> forall i :: 0 <= i < |ps| ==> !f(ps[i])
  {
    if |ps| == 0 then 0
    else
      var n := |ps| - 1;
      assert forall i :: 0 <= i < n ==> ps[..n][i] == ps[i];
      CountWhere(ps[..n], f) + (if f(ps[n]) then 1 else 0)
  }

  /** The seats of the players satisfying `f`, in seat order. */
  function SeatsWhere(ps: seq<Player>, f: Player -> bool): (r: seq<nat>)
    ensures |r| == CountWhere(ps, f)
    ensures forall k :: 0 <= k < |r| ==> r[k] < |ps| && f(ps[r[k]])
    ensures forall k, j :: 0 <= k < j < |r| ==> r[k] < r[j]
  {
    if |ps| == 0 then []
    else
      var n := |ps| - 1;
      var r0 := SeatsWhere(ps[..n], f);
      assert forall i :: 0 <= i < n ==> ps[..n][i] == ps[i];
      if f(ps[n]) then r0 + [n] else r0
  }

  /** Adds `x` chips to the stack of every player satisfying `f`. */
  function CreditWhere(ps: seq<Player>, f: Player -> bool, x: int): (r: seq<Player>)
    ensures |r| == |ps|
    ensures forall i :: 0 <= i < |ps| ==> r[i] == if f(ps[i]) then ps[i].(stack := ps[i].stack + x) else ps[i]
  {
    seq(|ps|, i requires 0 <= i < |ps| => if f(ps[i]) then ps[i].(stack := ps[i].stack + x) else ps[i])
  }

  /** Crediting `x` to each of the `c` selected players adds `c * x` chips. */
  lemma CreditWhereSum(ps: seq<Player>, f: Player -> bool, x: int)
    ensures SumStacks(CreditWhere(ps, f, x)) == SumStacks(ps) + CountWhere(ps, f) * x
  {
    CreditWhereGain(ps, f, x);
    GainIsProduct(ps, f, x);
  }

  /** What crediting `x` to the players satisfying `f` adds, player by player. */
  function Gain(ps: seq<Player>, f: Player -> bool, x: int): int
  {
    if |ps| == 0 then 0 else Gain(ps[..|ps| - 1], f, x) + (if f(ps[|ps| - 1]) then x else 0)
  }

  lemma {:induction false} CreditWhereGain(ps: seq<Player>, f: Player -> bool, x: int)
    ensures SumStacks(CreditWhere(ps, f, x)) == SumStacks(ps) + Gain(ps, f, x)
    decreases |ps|
  {
    if |ps| > 0 {
      var n := |ps| - 1;
      CreditWherePrefix(ps, f, x);
      CreditWhereGain(ps[..n], f, x);
    }
  }

  lemma {:induction false} GainIsProduct(ps: seq<Player>, f: Player -> bool, x: int)
    ensures Gain(ps, f, x) == CountWhere(ps, f) * x
    decreases |ps|
  {
    if |ps| > 0 {
      var n := |ps| - 1;
      GainIsProduct(ps[..n], f, x);
      MulSucc(CountWhere(ps[..n], f), x);
    }
  }

  lemma CreditWherePrefix(ps: seq<Player>, f: Player -> bool, x: int)
    requires |ps| > 0
    ensures CreditWhere(ps, f, x)[..|ps| - 1] == CreditWhere(ps[..|ps| - 1], f, x)
  {
    var n := |ps| - 1;
    assert forall i :: 0 <= i < n ==> CreditWhere(ps, f, x)[..n][i] == CreditWhere(ps[..n], f, x)[i];
  }

  lemma MulSucc(c: int, x: int)
    ensures (c + 1) * x == c * x + x
  {
  }

  /** A contender for `pot`: still in the hand and listed as eligible. */
  predicate Contends(p: Player, pot: Pot) { p.inHand && p.id in pot.eligible }

  function ContendsFor(pot: Pot): Player -> bool { p => Contends(p, pot) }

  /** A contender holding the rank `best`. */
  function RankedFor(pot: Pot, rank: Ranker, board: seq<Card>, best: int): Player -> bool
  {
    p => Contends(p, pot) && rank(p.cards, board) == best
  }

  /** The best rank among the players satisfying `f`, if any. */
  function BestRank(ps: seq<Player>, f: Player -> bool, rank: Ranker, board: seq<Card>): (b: Option<int>)
    ensures b.None? <==> CountWhere(ps, f) == 0
    ensures b.Some? ==> forall i :: 0 <= i < |ps| && f(ps[i]) ==> rank(ps[i].cards, board) <= b.value
    ensures b.Some? ==> exists i :: 0 <= i < |ps| && f(ps[i]) && rank(ps[i].cards, board) == b.value
  {
    if |ps| == 0 then None
    else
      var n := |ps| - 1;
      var b0 := BestRank(ps[..n], f, rank, board);
      assert forall i :: 0 <= i < n ==> ps[..n][i] == ps[i];
      if !f(ps[n]) then b0
      else
        var here := rank(ps[n].cards, board);
        if b0.Some? && b0.value >= here then b0 else Some(here)
  }

  /** The contenders of a pot with more than one: those holding the best rank. */
  function PotWinners(ps: seq<Player>, pot: Pot, rank: Ranker, board: seq<Card>): (w: Player -> bool)
    requires CountWhere(ps, ContendsFor(pot)) > 0
    ensures CountWhere(ps, w) > 0
    ensures forall i, j :: 0 <= i < |ps| && 0 <= j < |ps| && w(ps[i]) && Contends(ps[j], pot) ==>
      rank(ps[j].cards, board) <= rank(ps[i].cards, board)
    ensures forall i :: 0 <= i < |ps| ==> (w(ps[i]) ==> Contends(ps[i], pot))
    ensures forall i, j :: 0 <= i < |ps| && 0 <= j < |ps| && w(ps[i]) && Contends(ps[j], pot) ==>
      (rank(ps[j].cards, board) == rank(ps[i].cards, board) ==> w(ps[j]))
  {
    var best := BestRank(ps, ContendsFor(pot), rank, board).value;
    var i :| 0 <= i < |ps| && ContendsFor(pot)(ps[i]) && rank(ps[i].cards, board) == best;
    assert RankedFor(pot, rank, board, best)(ps[i]);
    RankedFor(pot, rank, board, best)
  }

  /** A pot with a single contender is paid to that contender in full. */
  function PaySingle(ps: seq<Player>, k: nat, pot: Pot): (r: (seq<Player>, Option<Event>))
    requires CountWhere(ps, ContendsFor(pot)) == 1
    ensures |r.0| == |ps| && r.1 == Some(WinsPot(k, pot.amount, SeatsWhere(ps, ContendsFor(pot))))
    ensures SumStacks(r.0) == SumStacks(ps) + pot.amount
    ensures forall i :: 0 <= i < |ps| ==>
      r.0[i] == if Contends(ps[i], pot) then ps[i].(stack := ps[i].stack + pot.amount) else ps[i]
  {
    CreditWhereSum(ps, ContendsFor(pot), pot.amount);
    assert CountWhere(ps, ContendsFor(pot)) * pot.amount == pot.amount;
    (CreditWhere(ps, ContendsFor(pot), pot.amount), Some(WinsPot(k, pot.amount, SeatsWhere(ps, ContendsFor(pot)))))
  }

  /** A contested pot of `amount` chips: each of the `c` winners selected
      by `w` receives `floor(amount / c)`, nobody else is paid, and the
      remainder is dropped. */
  function PaySplit(ps: seq<Player>, k: nat, amount: int, w: Player -> bool): (r: (seq<Player>, Option<Event>))
    requires CountWhere(ps, w) > 0
    ensures |r.0| == |ps| && r.1 == Some(WinsPot(k, amount, SeatsWhere(ps, w)))
    ensures forall i :: 0 <= i < |ps| ==>
      r.0[i] == if w(ps[i]) then ps[i].(stack := ps[i].stack + amount / CountWhere(ps, w)) else ps[i]
    ensures SumStacks(r.0) == SumStacks(ps) + CountWhere(ps, w) * (amount / CountWhere(ps, w))
  {
    var share := amount / CountWhere(ps, w);
    CreditWhereSum(ps, w, share);
    (CreditWhere(ps, w, share), Some(WinsPot(k, amount, SeatsWhere(ps, w))))
  }

  /** One pot of the showdown loop: the players after the payout and, when
      something was paid, the event recorded for it. */
  function PayPot(ps: seq<Player>, k: nat, pot: Pot, rank: Ranker, board: seq<Card>): (r: (seq<Player>, Option<Event>))
    ensures pot.amount == 0 || CountWhere(ps, ContendsFor(pot)) == 0 ==> r == (ps, None)
    ensures pot.amount != 0 && CountWhere(ps, ContendsFor(pot)) == 1 ==> r == PaySingle(ps, k, pot)
    ensures pot.amount != 0 && CountWhere(ps, ContendsFor(pot)) > 1 ==> r == PaySplit(ps, k, pot.amount, PotWinners(ps, pot, rank, board))
  {
    var n := CountWhere(ps, ContendsFor(pot));
    if pot.amount == 0 || n == 0 then (ps, None)
    else if n == 1 then PaySingle(ps, k, pot)
    else PaySplit(ps, k, pot.amount, PotWinners(ps, pot, rank, board))
  }

  /** Whatever the ranks, a pot pays out at most its amount. */
  lemma PayPotBounded(ps: seq<Player>, k: nat, pot: Pot, rank: Ranker, board: seq<Card>)
    requires pot.amount >= 0
    ensures |PayPot(ps, k, pot, rank, board).0| == |ps|
    ensures 0 <= SumStacks(PayPot(ps, k, pot, rank, board).0) - SumStacks(ps) <= pot.amount
  {
    if pot.amount != 0 && CountWhere(ps, ContendsFor(pot)) > 1 {
      PaySplitRemainder(ps, k, pot, rank, board);
    }
  }

  /** A split pays the winners all but the odd chips, fewer than one per
      winner. */
  lemma PaySplitRemainder(ps: seq<Player>, k: nat, pot: Pot, rank: Ranker, board: seq<Card>)
    requires CountWhere(ps, ContendsFor(pot)) > 1
    ensures var paid := SumStacks(PaySplit(ps, k, pot.amount, PotWinners(ps, pot, rank, board)).0) - SumStacks(ps);
      var c := CountWhere(ps, PotWinners(ps, pot, rank, board));
      && (pot.amount >= 0 ==> 0 <= paid <= pot.amount)
      && 0 <= pot.amount - paid < c
  {
    FloorShares(pot.amount, CountWhere(ps, PotWinners(ps, pot, rank, board)));
  }

  /** Seat for seat, `r` differs from `ps` at most by a larger stack, and
      only for the contenders of `pot`. */
  predicate OnlyCredits(ps: seq<Player>, r: seq<Player>, pot: Pot)
  {
    |r| == |ps| &&
    forall i :: 0 <= i < |r| ==>
      Staked(r[i]) == Staked(ps[i]) && r[i].stack >= ps[i].stack && (!Contends(ps[i], pot) ==> r[i] == ps[i])
  }

  /** Only stacks change, none shrinks, and only the pot's contenders are paid. */
  lemma PayPotOnlyCredits(ps: seq<Player>, k: nat, pot: Pot, rank: Ranker, board: seq<Card>)
    requires pot.amount >= 0
    ensures OnlyCredits(ps, PayPot(ps, k, pot, rank, board).0, pot)
  {
    var n := CountWhere(ps, ContendsFor(pot));
    if pot.amount != 0 && n == 1 {
      PaySingleOnlyCredits(ps, k, pot);
    } else if pot.amount != 0 && n > 1 {
      PaySplitOnlyCredits(ps, k, pot, rank, board);
    }
  }

  lemma PaySingleOnlyCredits(ps: seq<Player>, k: nat, pot: Pot)
    requires pot.amount >= 0 && CountWhere(ps, ContendsFor(pot)) == 1
    ensures OnlyCredits(ps, PaySingle(ps, k, pot).0, pot)
  {
    var r := PaySingle(ps, k, pot).0;
    forall i | 0 <= i < |r|
      ensures Staked(r[i]) == Staked(ps[i]) && r[i].stack >= ps[i].stack && (!Contends(ps[i], pot) ==> r[i] == ps[i])
    {
      if Contends(ps[i], pot) {
        assert r[i] == ps[i].(stack := ps[i].stack + pot.amount);
      }
    }
  }

  lemma PaySplitOnlyCredits(ps: seq<Player>, k: nat, pot: Pot, rank: Ranker, board: seq<Card>)
    requires pot.amount >= 0 && CountWhere(ps, ContendsFor(pot)) > 1
    ensures OnlyCredits(ps, PaySplit(ps, k, pot.amount, PotWinners(ps, pot, rank, board)).0, pot)
  {
    var w := PotWinners(ps, pot, rank, board);
    var c := CountWhere(ps, w);
    var r := PaySplit(ps, k, pot.amount, w).0;
    DivNonNegative(pot.amount, c);
    forall i | 0 <= i < |r|
      ensures Staked(r[i]) == Staked(ps[i]) && r[i].stack >= ps[i].stack && (!Contends(ps[i], pot) ==> r[i] == ps[i])
    {
      if w(ps[i]) {
        assert r[i] == ps[i].(stack := ps[i].stack + pot.amount / c);
      } else {
        assert r[i] == ps[i];
      }
    }
  }

  lemma DivNonNegative(a: int, c: int)
    requires a >= 0 && c > 0
    ensures a / c >= 0
  {
  }

  /** Split shares never pay out more than the pot, and drop less than one
      chip per winner. */
  lemma FloorShares(amount: int, c: nat)
    requires c > 0
    ensures amount >= 0 ==> 0 <= c * (amount / c) <= amount
    ensures 0 <= amount - c * (amount / c) < c
  {
  }

  /** A player with the stack set aside. */
  function Staked(p: Player): Player { p.(stack := 0) }

  /** One turn of the `pots.forEach` loop of `endHand`: pot `k` is paid out
      and, when something was paid, the payout is recorded. */
  function PayStep(h: Hand, k: nat, rank: Ranker): (r: Hand)
    requires L.Valid(h.ledger) && k < |h.pots|
    ensures r == h.(players := r.players, ledger := r.ledger) && L.Valid(r.ledger)
    ensures r.players == PayPot(h.players, k, h.pots[k], rank, h.board).0
  {
    var (ps, e) := PayPot(h.players, k, h.pots[k], rank, h.board);
    var h1 := h.(players := ps);
    if e.Some? then Record(h1, e.value) else h1
  }

  /** The `pots.forEach` loop of `endHand`, from pot `k` on. */
  function PayPots(h: Hand, k: nat, rank: Ranker): (r: Hand)
    requires L.Valid(h.ledger) && k <= |h.pots|
    ensures r == h.(players := r.players, ledger := r.ledger)
    ensures |r.players| == |h.players| && L.Valid(r.ledger)
    decreases |h.pots| - k
  {
    if k == |h.pots| then h else PayPots(PayStep(h, k, rank), k + 1, rank)
  }

  /** Paying pots `k..` hands out at most what those pots hold. */
  lemma {:induction false} PayPotsBounded(h: Hand, k: nat, rank: Ranker)
    requires L.Valid(h.ledger) && k <= |h.pots| && PotsSane(h.pots)
    ensures 0 <= SumStacks(PayPots(h, k, rank).players) - SumStacks(h.players) <= PotsFrom(h.pots, k)
    decreases |h.pots| - k
  {
    if k < |h.pots| {
      PayPotBounded(h.players, k, h.pots[k], rank, h.board);
      PayPotsBounded(PayStep(h, k, rank), k + 1, rank);
    }
  }

  /** Paying pots only ever adds to stacks. */
  lemma {:induction false} PayPotsOnlyCredits(h: Hand, k: nat, rank: Ranker)
    requires L.Valid(h.ledger) && k <= |h.pots| && PotsSane(h.pots)
    ensures forall i :: 0 <= i < |h.players| ==>
      Staked(PayPots(h, k, rank).players[i]) == Staked(h.players[i]) && PayPots(h, k, rank).players[i].stack >= h.players[i].stack
    decreases |h.pots| - k
  {
    if k < |h.pots| {
      PayPotOnlyCredits(h.players, k, h.pots[k], rank, h.board);
      PayPotsOnlyCredits(PayStep(h, k, rank), k + 1, rank);
    }
  }

  /** `endHand`: the phase becomes showdown and nobody is to act. A fold
      winner is credited the whole pot total (the pots themselves are left
      as they are); otherwise the showdown is recorded and the pots paid. */
  function EndHand(h: Hand, winner: Option<nat>, rank: Ranker): (r: Hand)
    requires L.Valid(h.ledger)
    requires winner.Some? ==> winner.value < |h.players|
    ensures r.sc == h.sc.(phase := Showdown, active := None)
    ensures r.pots == h.pots && r.board == h.board && |r.players| == |h.players| && L.Valid(r.ledger)
    ensures r == h.(players := r.players, sc := r.sc, ledger := r.ledger)
    ensures winner.Some? ==>
      var w := winner.value;
      && r.players == h.players[w := h.players[w].(stack := h.players[w].stack + TotalPot(h.pots))]
      && 0 <= r.ledger.cursor && r.ledger.entries[r.ledger.cursor].event == WinsByFold(w, TotalPot(h.pots))
      && SumStacks(r.players) == SumStacks(h.players) + TotalPot(h.pots)
  {
    var h1 := h.(sc := h.sc.(phase := Showdown, active := None));
    match winner
    case Some(w) =>
      var q := h.players[w].(stack := h.players[w].stack + TotalPot(h.pots));
      SumStacksUpdate(h.players, w, q);
      Record(h1.(players := h.players[w := q]), WinsByFold(w, TotalPot(h.pots)))
    case None =>
      PayPots(Record(h1, ShowdownStarts), 0, rank)
  }

  /** A showdown pays out at most the pot total and never takes chips from
      a stack. */
  lemma ShowdownPaysAtMostPot(h: Hand, rank: Ranker)
    requires L.Valid(h.ledger) && PotsSane(h.pots)
    ensures var r := EndHand(h, None, rank);
      && 0 <= SumStacks(r.players) - SumStacks(h.players) <= TotalPot(h.pots)
      && forall i :: 0 <= i < |h.players| ==> r.players[i].stack >= h.players[i].stack
  {
    var h1 := h.(sc := h.sc.(phase := Showdown, active := None));
    PayPotsBounded(Record(h1, ShowdownStarts), 0, rank);
    PayPotsOnlyCredits(Record(h1, ShowdownStarts), 0, rank);
    PotsFromAll(h.pots, 0);
    assert h.pots[..0] == [];
  }

  /** Ending the hand keeps the hand well formed: stacks only grow and the
      pots are left as they are. */
  lemma EndHandValid(h: Hand, winner: Option<nat>, rank: Ranker)
    requires Valid(h)
    requires winner.Some? ==> winner.value < |h.players|
    ensures Valid(EndHand(h, winner, rank))
  {
    var r := EndHand(h, winner, rank);
    match winner
    case Some(w) =>
      TotalPotNonNegative(h.pots);
      assert forall i :: 0 <= i < |h.players| && i != w ==> r.players[i] == h.players[i];
    case None =>
      var h1 := h.(sc := h.sc.(phase := Showdown, active := None));
      PayPotsOnlyCredits(Record(h1, ShowdownStarts), 0, rank);
      assert forall i :: 0 <= i < |h.players| ==> r.players[i].id == Staked(r.players[i]).id == h.players[i].id;
  }
}
