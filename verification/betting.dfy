/** The action processor's per-player pieces: posting chips, the cyclic
    search for the next seat that can act, and one player action applied to
    the hand before the round-completion check. */
module Betting {
  import opened Base
  import opened Cards
  import opened Table
  import L = Ledger

  /** `postBet`: move `min(amount, stack)` chips from the stack onto the
      table; a non-blind post that empties the stack marks the player all-in. */
  function PostBet(p: Player, amount: int, isBlind: bool): (q: Player)
    ensures q.stack + q.betThisRound == p.stack + p.betThisRound
    ensures q.stack == p.stack - Min(amount, p.stack)
    ensures 0 <= amount && 0 <= p.stack ==> q.stack <= p.stack && q.betThisRound >= p.betThisRound
    ensures amount <= p.stack ==> q.betThisRound == p.betThisRound + amount
    ensures amount >= p.stack ==> q.stack == 0
    ensures q.isAllIn <==> p.isAllIn || (q.stack == 0 && !isBlind)
    ensures q == p.(stack := q.stack, betThisRound := q.betThisRound, isAllIn := q.isAllIn)
  {
    var bet := Min(amount, p.stack);
    var q := p.(stack := p.stack - bet, betThisRound := p.betThisRound + bet);
    if q.stack == 0 && !isBlind then q.(isAllIn := true) else q
  }

  /** A post never leaves a negative stack behind a non-negative one. */
  lemma PostBetKeepsStackNonNegative(p: Player, amount: int, isBlind: bool)
    requires p.stack >= 0
    ensures PostBet(p, amount, isBlind).stack >= 0
  {
    assert Min(amount, p.stack) <= p.stack;
  }

  function PostAt(ps: seq<Player>, i: nat, amount: int, isBlind: bool): (r: seq<Player>)
    requires i < |ps|
    ensures |r| == |ps| && r[i] == PostBet(ps[i], amount, isBlind)
    ensures forall k :: 0 <= k < |ps| && k != i ==> r[k] == ps[k]
    ensures ChipsKept(ps, r)
  {
    var q := PostBet(ps[i], amount, isBlind);
    SumStacksUpdate(ps, i, q);
    SumBetsUpdate(ps, i, q);
    ps[i := q]
  }

  /** Offset, in 1..n, of seat `j` counted clockwise from seat `base`. */
  function CyclicDistance(base: nat, j: nat, n: nat): (d: nat)
    requires base < n && j < n
    ensures 1 <= d <= n
  {
    if j > base then j - base else j - base + n
  }

  lemma SeatAtDistance(base: nat, e: nat, n: nat)
    requires base < n && 1 <= e <= n
    ensures (base + e) % n < n
    ensures CyclicDistance(base, (base + e) % n, n) == e
  {
    if base + e < n {
      assert (base + e) % n == base + e;
    } else {
      assert (base + e) % n == base + e - n;
    }
  }

  /** The seat `e` places clockwise from `base` at a table of `n`. */
  function SeatAt(base: nat, e: nat, n: nat): (j: nat)
    requires n > 0
    ensures j < n
  {
    (base + e) % n
  }

  /** First offset `>= d` whose seat, counted from `base`, can act. */
  function Seek(ps: seq<Player>, base: nat, d: nat): (r: nat)
    requires base < |ps| && 1 <= d
    requires exists e :: d <= e <= |ps| && CanAct(ps[SeatAt(base, e, |ps|)])
    ensures d <= r <= |ps|
    ensures CanAct(ps[SeatAt(base, r, |ps|)])
    ensures forall e :: d <= e < r ==> !CanAct(ps[SeatAt(base, e, |ps|)])
    decreases |ps| - d
  {
    if CanAct(ps[SeatAt(base, d, |ps|)]) then d else Seek(ps, base, d + 1)
  }

  /** A seat lies at its own cyclic distance from `base`. */
  lemma SeatOfDistance(base: nat, j: nat, n: nat)
    requires base < n && j < n
    ensures SeatAt(base, CyclicDistance(base, j, n), n) == j
  {
    if j > base {
      ModSmall(j, n);
    } else {
      ModSmall(j, n);
      ModShift(j, n);
    }
  }

  lemma ModSmall(x: nat, n: nat)
    requires x < n
    ensures x % n == x
  {
  }

  lemma ModShift(x: nat, n: nat)
    requires x < n
    ensures (x + n) % n == x
  {
  }

  lemma ActorAtSomeDistance(ps: seq<Player>, base: nat)
    requires base < |ps|
    requires exists j :: 0 <= j < |ps| && CanAct(ps[j])
    ensures exists e :: 1 <= e <= |ps| && CanAct(ps[SeatAt(base, e, |ps|)])
  {
    var j0 :| 0 <= j0 < |ps| && CanAct(ps[j0]);
    SeatOfDistance(base, j0, |ps|);
    var e := CyclicDistance(base, j0, |ps|);
    assert CanAct(ps[SeatAt(base, e, |ps|)]);
  }

  lemma SkippedSeats(ps: seq<Player>, base: nat, off: nat)
    requires base < |ps| && 1 <= off <= |ps|
    requires forall e :: 1 <= e < off ==> !CanAct(ps[SeatAt(base, e, |ps|)])
    ensures forall j :: 0 <= j < |ps| && CyclicDistance(base, j, |ps|) < off ==> !CanAct(ps[j])
  {
    forall j | 0 <= j < |ps| && CyclicDistance(base, j, |ps|) < off
      ensures !CanAct(ps[j])
    {
      SeatOfDistance(base, j, |ps|);
    }
  }

  /** The seat search of `advanceTurn` and `advanceRound`: starting after
      `base`, the first seat clockwise that is in the hand and not all-in. */
  function NextActor(ps: seq<Player>, base: nat): (r: nat)
    requires base < |ps|
    requires exists j :: 0 <= j < |ps| && CanAct(ps[j])
    ensures r < |ps| && CanAct(ps[r])
    ensures forall j :: 0 <= j < |ps| && CyclicDistance(base, j, |ps|) < CyclicDistance(base, r, |ps|)
                        ==> !CanAct(ps[j])
  {
    ActorAtSomeDistance(ps, base);
    var off := Seek(ps, base, 1);
    SkippedSeats(ps, base, off);
    SeatAtDistance(base, off, |ps|);
    (base + off) % |ps|
  }

  datatype Action = Fold | Check | Call | AllInAction | BetAction | RaiseAction

  /** The amount a bet or raise names is a chip count; the other actions
      ignore it. */
  predicate AmountSane(action: Action, amount: int)
  {
    (action == BetAction || action == RaiseAction) ==> 0 <= amount
  }

  /** A rejected action still leaves the actor marked as having acted (the
      flag is set before the legality guards); an applied one carries the
      description the ledger will record. */
  datatype Outcome = Rejected(hand: Hand) | Applied(hand: Hand, event: Event)

  /** Marks every player matching the filter as not yet having acted. */
  function Reopen(ps: seq<Player>, onlyAbleToAct: bool): (r: seq<Player>)
    ensures |r| == |ps|
    ensures forall i :: 0 <= i < |ps| ==>
      r[i] == (if ps[i].inHand && (!onlyAbleToAct || !ps[i].isAllIn) then ps[i].(hasActed := false) else ps[i])
  {
    seq(|ps|, i requires 0 <= i < |ps| =>
      if ps[i].inHand && (!onlyAbleToAct || !ps[i].isAllIn) then ps[i].(hasActed := false) else ps[i])
  }

  lemma ReopenKeepsChips(ps: seq<Player>, onlyAbleToAct: bool)
    ensures SumStacks(Reopen(ps, onlyAbleToAct)) == SumStacks(ps)
    ensures SumBets(Reopen(ps, onlyAbleToAct)) == SumBets(ps)
    decreases |ps|
  {
    if |ps| > 0 {
      var r := Reopen(ps, onlyAbleToAct);
      ReopenKeepsChips(ps[..|ps| - 1], onlyAbleToAct);
      assert r[..|ps| - 1] == Reopen(ps[..|ps| - 1], onlyAbleToAct);
    }
  }

  /** The legality guard of a bet or raise: below the minimum raise and
      below the player's whole stack plus current bet is refused. */
  predicate BetRefused(h: Hand, p: Player, amount: int)
  {
    amount < h.sc.minRaise && amount < p.stack + p.betThisRound
  }

  /** The actor marked as having acted, as `performAction` does before its
      `switch`; the pre-action flag is cleared. */
  function Acted(h: Hand, a: nat): (h0: Hand)
    requires a < |h.players|
    ensures h0 == h.(players := h.players[a := h.players[a].(hasActed := true)], preAction := false)
    ensures SumStacks(h0.players) == SumStacks(h.players) && SumBets(h0.players) == SumBets(h.players)
  {
    var q := h.players[a].(hasActed := true);
    SumStacksUpdate(h.players, a, q);
    SumBetsUpdate(h.players, a, q);
    h.(players := h.players[a := q], preAction := false)
  }

  /** Sets the actor's acted flag again once the `switch` has reopened the
      action for the others. */
  function MarkActed(ps: seq<Player>, a: nat): (r: seq<Player>)
    requires a < |ps|
    ensures r == ps[a := ps[a].(hasActed := true)]
    ensures SumStacks(r) == SumStacks(ps) && SumBets(r) == SumBets(ps)
  {
    var q := ps[a].(hasActed := true);
    SumStacksUpdate(ps, a, q);
    SumBetsUpdate(ps, a, q);
    ps[a := q]
  }

  function ApplyFold(h: Hand, a: nat): (o: Outcome)
    requires a < |h.players|
    ensures o.Applied? && o.hand.sc == h.sc && o.hand.ledger == h.ledger && o.hand.pots == h.pots
    ensures o.hand.players == h.players[a := h.players[a].(hasActed := true, inHand := false)]
    ensures SumStacks(o.hand.players) == SumStacks(h.players) && SumBets(o.hand.players) == SumBets(h.players)
  {
    var h0 := Acted(h, a);
    var q := h0.players[a].(inHand := false);
    SumStacksUpdate(h0.players, a, q);
    SumBetsUpdate(h0.players, a, q);
    Applied(h0.(players := h0.players[a := q]), Folds(a))
  }

  function ApplyCheck(h: Hand, a: nat): (o: Outcome)
    requires a < |h.players|
    ensures o.Rejected? <==> h.sc.currentBet > h.players[a].betThisRound
    ensures o.hand == Acted(h, a)
  {
    var h0 := Acted(h, a);
    if h.sc.currentBet > h.players[a].betThisRound then Rejected(h0) else Applied(h0, Checks(a))
  }

  function ApplyCall(h: Hand, a: nat): (o: Outcome)
    requires a < |h.players|
    ensures o.Applied? && o.hand.sc == h.sc && o.hand.ledger == h.ledger && o.hand.pots == h.pots
    ensures |o.hand.players| == |h.players|
    ensures PostedChips(o.hand.players[a], h.players[a], h.sc.currentBet - h.players[a].betThisRound)
    ensures forall i :: 0 <= i < |h.players| && i != a ==> o.hand.players[i] == h.players[i]
    ensures ChipsKept(h.players, o.hand.players)
  {
    PostBetIgnoresFlag(h.players[a], h.sc.currentBet - h.players[a].betThisRound, false, true);
    var h0 := Acted(h, a);
    Applied(h0.(players := PostAt(h0.players, a, h.sc.currentBet - h.players[a].betThisRound, false)), Calls(a))
  }

  /** Stacks plus bets are the same: chips only move between a player's
      stack and bet. */
  predicate ChipsKept(ps: seq<Player>, r: seq<Player>)
  {
    SumStacks(r) + SumBets(r) == SumStacks(ps) + SumBets(ps)
  }

  /** A player with the acted flag set aside. */
  function Unflagged(p: Player): Player { p.(hasActed := false) }

  /** Nobody but seat `a` changes, except for a cleared acted flag. */
  predicate OthersKept(ps: seq<Player>, r: seq<Player>, a: nat)
  {
    |r| == |ps| && forall i :: 0 <= i < |ps| && i != a ==> Unflagged(r[i]) == Unflagged(ps[i])
  }

  /** Seat `q` is `p` after a (non-blind) post of `x`, marked as having
      acted: the chips move as `postBet` moves them, the all-in flag is set
      when the stack runs out, and nothing else about the player changes. */
  predicate PostedChips(q: Player, p: Player, x: int)
  {
    q == PostBet(p, x, false).(hasActed := true)
  }

  /** Whether the player had acted does not change what a post moves. */
  lemma PostedChipsFlag(q: Player, p: Player, x: int)
    requires PostedChips(q, p.(hasActed := true), x)
    ensures PostedChips(q, p, x)
  {
    PostBetIgnoresFlag(p, x, false, true);
  }

  /** A post does not look at the acted flag. */
  lemma PostBetIgnoresFlag(p: Player, x: int, isBlind: bool, acted: bool)
    ensures PostBet(p.(hasActed := acted), x, isBlind) == PostBet(p, x, isBlind).(hasActed := acted)
  {
  }

  /** The seats after `a` posts `x` without reopening the action, the
      actor marked as having acted. */
  function Posted(ps: seq<Player>, a: nat, x: int): (r: seq<Player>)
    requires a < |ps|
    ensures |r| == |ps| && r[a].hasActed
    ensures PostedChips(r[a], ps[a], x)
    ensures forall i :: 0 <= i < |ps| && i != a ==> r[i] == ps[i]
    ensures ChipsKept(ps, r)
  {
    MarkActed(PostAt(ps, a, x, false), a)
  }

  /** The seats after `a` posts `x` and reopens the action: the acted flags
      are cleared (for everyone in the hand, or only for those who can still
      act) and the actor is marked again. */
  function Reopened(ps: seq<Player>, a: nat, x: int, onlyAbleToAct: bool): (r: seq<Player>)
    requires a < |ps|
    ensures |r| == |ps| && r[a].hasActed
    ensures PostedChips(r[a], ps[a], x)
    ensures OthersKept(ps, r, a)
    ensures forall i :: 0 <= i < |ps| && i != a && ps[i].inHand && (!onlyAbleToAct || !ps[i].isAllIn) ==> !r[i].hasActed
    ensures ChipsKept(ps, r)
  {
    var p := ps[a];
    PostBetIgnoresFlag(p, x, false, false);
    var ps1 := Reopen(ps, onlyAbleToAct);
    assert OthersKept(ps, ps1, a);
    ReopenKeepsChips(ps, onlyAbleToAct);
    Posted(ps1, a, x)
  }

  function ApplyAllIn(h: Hand, a: nat): (o: Outcome)
    requires a < |h.players|
    ensures o.Applied? && o.hand.ledger == h.ledger && o.hand.pots == h.pots
    ensures |o.hand.players| == |h.players| && o.hand.players[a].hasActed
    ensures ChipsKept(h.players, o.hand.players)
    // the whole stack is posted, which leaves the player all-in
    ensures PostedChips(o.hand.players[a], h.players[a], h.players[a].stack)
    ensures o.hand.players[a].isAllIn && o.hand.players[a].inHand == h.players[a].inHand
    ensures var total := h.players[a].betThisRound + h.players[a].stack;
      && o.hand.players[a].stack == 0 && o.hand.players[a].betThisRound == total
      && (total > h.sc.currentBet ==>
            && o.hand.sc == h.sc.(lastRaiser := Some(a), minRaise := total + (total - h.sc.currentBet),
                                  lastRaiseAmount := h.sc.currentBet, currentBet := total)
            && forall i :: 0 <= i < |h.players| && i != a && CanAct(h.players[i]) ==> !o.hand.players[i].hasActed)
      && (total <= h.sc.currentBet ==> o.hand.sc == h.sc)
  {
    var p := h.players[a];
    var total := p.betThisRound + p.stack;
    // the acted flag set before the switch is set again by the post
    var r := AllInSeats(h.players, a, total > h.sc.currentBet);
    var sc := if total > h.sc.currentBet then
      h.sc.(lastRaiser := Some(a), minRaise := total + (total - h.sc.currentBet),
            lastRaiseAmount := h.sc.currentBet, currentBet := total)
    else h.sc;
    Applied(h.(players := r, sc := sc, preAction := false), GoesAllIn(a, total))
  }

  /** The seats after `a` moves their whole stack onto the table; when that
      raises the bet, the action reopens for those who can still act. */
  function AllInSeats(ps: seq<Player>, a: nat, raises: bool): (r: seq<Player>)
    requires a < |ps|
    ensures |r| == |ps| && r[a].hasActed
    ensures r[a].stack == 0 && r[a].betThisRound == ps[a].betThisRound + ps[a].stack
    ensures PostedChips(r[a], ps[a], ps[a].stack)
    ensures OthersKept(ps, r, a)
    ensures raises ==> forall i :: 0 <= i < |ps| && i != a && CanAct(ps[i]) ==> !r[i].hasActed
    ensures ChipsKept(ps, r)
  {
    if raises then Reopened(ps, a, ps[a].stack, true)
    else
      var r := Posted(ps, a, ps[a].stack);
      assert OthersKept(ps, r, a);
      r
  }

  /** The seats after an accepted bet or raise: the actor is marked, the
      action reopens for everyone in the hand and the actor posts `x`. */
  function BetSeats(ps: seq<Player>, a: nat, x: int): (r: seq<Player>)
    requires a < |ps|
    ensures |r| == |ps| && r[a].hasActed
    ensures PostedChips(r[a], ps[a], x)
    ensures OthersKept(ps, r, a)
    ensures forall i :: 0 <= i < |ps| && i != a && ps[i].inHand ==> !r[i].hasActed
    ensures ChipsKept(ps, r)
  {
    var ps0 := MarkActed(ps, a);
    var r := Reopened(ps0, a, x, false);
    PostedChipsFlag(r[a], ps[a], x);
    assert forall i :: 0 <= i < |ps| && i != a ==> ps0[i] == ps[i];
    r
  }

  function ApplyBet(h: Hand, a: nat, isRaise: bool, amount: int): (o: Outcome)
    requires a < |h.players|
    ensures o.Rejected? <==> BetRefused(h, h.players[a], amount)
    ensures o.Rejected? ==> o.hand == Acted(h, a)
    ensures o.hand.ledger == h.ledger && o.hand.pots == h.pots && o.hand.board == h.board
    ensures |o.hand.players| == |h.players| && o.hand.players[a].hasActed
    ensures ChipsKept(h.players, o.hand.players)
    // the bettor posts the difference between the new bet and what they already have in
    ensures o.Applied? ==> PostedChips(o.hand.players[a], h.players[a], amount - h.players[a].betThisRound)
    ensures o.Applied? ==>
      && o.hand.sc == h.sc.(lastRaiser := Some(a), minRaise := amount + (amount - h.sc.currentBet),
                            lastRaiseAmount := h.sc.currentBet, currentBet := amount)
      && forall i :: 0 <= i < |h.players| && i != a && h.players[i].inHand ==> !o.hand.players[i].hasActed
  {
    var p := h.players[a];
    if BetRefused(h, p, amount) then Rejected(Acted(h, a))
    else
      var sc := h.sc.(lastRaiser := Some(a), minRaise := amount + (amount - h.sc.currentBet),
                      lastRaiseAmount := h.sc.currentBet, currentBet := amount);
      var r := BetSeats(h.players, a, amount - p.betThisRound);
      Applied(h.(players := r, sc := sc, preAction := false), if isRaise then RaisesTo(a, amount) else Bets(a, amount))
  }

  /** A bet of at least the minimum raise, or of the player's whole stack
      and current bet together, is never refused. */
  lemma BetAllowed(h: Hand, a: nat, isRaise: bool, amount: int)
    requires a < |h.players|
    requires amount >= h.sc.minRaise || amount >= h.players[a].stack + h.players[a].betThisRound
    ensures ApplyBet(h, a, isRaise, amount).Applied?
  {
  }

  /** The `switch` of `performAction` for the active seat `a`, before the
      round-completion check. */
  function ApplyAction(h: Hand, a: nat, action: Action, amount: int): (o: Outcome)
    requires a < |h.players|
    ensures |o.hand.players| == |h.players|
    ensures o.hand.ledger == h.ledger && o.hand.pots == h.pots
    ensures o.hand.players[a].hasActed
    ensures ChipsKept(h.players, o.hand.players)
    // only a check facing a bet and an undersized bet or raise are refused
    ensures o.Rejected? <==>
      (action == Check && h.sc.currentBet > h.players[a].betThisRound)
      || ((action == BetAction || action == RaiseAction) && BetRefused(h, h.players[a], amount))
    ensures o.Rejected? ==> o.hand == h.(players := h.players[a := h.players[a].(hasActed := true)], preAction := false)
  {
    match action
    case Fold => ApplyFold(h, a)
    case Check => ApplyCheck(h, a)
    case Call => ApplyCall(h, a)
    case AllInAction => ApplyAllIn(h, a)
    case BetAction => ApplyBet(h, a, false, amount)
    case RaiseAction => ApplyBet(h, a, true, amount)
  }

  /** What the actor posts: a call posts the bet to match less their own
      bet, an accepted bet or raise its amount less their own bet. */
  lemma ApplyActionPosts(h: Hand, a: nat, action: Action, amount: int)
    requires a < |h.players|
    ensures action == Call ==>
      PostedChips(ApplyAction(h, a, action, amount).hand.players[a], h.players[a], h.sc.currentBet - h.players[a].betThisRound)
    ensures (action == BetAction || action == RaiseAction) && ApplyAction(h, a, action, amount).Applied? ==>
      PostedChips(ApplyAction(h, a, action, amount).hand.players[a], h.players[a], amount - h.players[a].betThisRound)
  {
    if action == Call {
      CallPosts(h, a, amount);
    } else if action == BetAction || action == RaiseAction {
      BetPosts(h, a, action, amount);
    }
  }

  /** The call branch of the `switch`. */
  lemma CallPosts(h: Hand, a: nat, amount: int)
    requires a < |h.players|
    ensures PostedChips(ApplyAction(h, a, Call, amount).hand.players[a], h.players[a], h.sc.currentBet - h.players[a].betThisRound)
  {
    assert ApplyAction(h, a, Call, amount) == ApplyCall(h, a);
  }

  /** Bet and raise share one branch of the `switch`. */
  lemma BetDispatch(h: Hand, a: nat, action: Action, amount: int)
    requires a < |h.players| && (action == BetAction || action == RaiseAction)
    ensures ApplyAction(h, a, action, amount) == ApplyBet(h, a, action == RaiseAction, amount)
  {
  }

  /** The bet and raise branch of the `switch`. */
  lemma BetPosts(h: Hand, a: nat, action: Action, amount: int)
    requires a < |h.players| && (action == BetAction || action == RaiseAction)
    ensures var o := ApplyAction(h, a, action, amount);
      o.Applied? ==> PostedChips(o.hand.players[a], h.players[a], amount - h.players[a].betThisRound)
  {
    BetDispatch(h, a, action, amount);
  }



  /** A post that leaves a non-negative bet keeps the player's chips sane. */
  lemma PostBetSane(p: Player, amount: int, isBlind: bool)
    requires 0 <= p.stack && 0 <= p.betThisRound && 0 <= p.betThisRound + amount
    ensures var q := PostBet(p, amount, isBlind);
      0 <= q.stack && 0 <= q.betThisRound && q.id == p.id && q.totalBetInHand == p.totalBetInHand
  {
    PostBetKeepsStackNonNegative(p, amount, isBlind);
  }

  /** Seat `a` of `r` holds sane chips, the same id and the same running total as in `ps`. */
  predicate ActorSane(ps: seq<Player>, r: seq<Player>, a: nat)
    requires a < |ps| && a < |r|
  {
    0 <= r[a].stack && 0 <= r[a].betThisRound && r[a].id == ps[a].id && r[a].totalBetInHand == ps[a].totalBetInHand
  }

  /** An action touches nobody but the actor, except for clearing their
      acted flags. */
  lemma ApplyActionOthers(h: Hand, a: nat, action: Action, amount: int)
    requires a < |h.players|
    ensures OthersKept(h.players, ApplyAction(h, a, action, amount).hand.players, a)
  {
    match action
    case AllInAction => AllInOthers(h, a);
    case BetAction => BetOthers(h, a, false, amount);
    case RaiseAction => BetOthers(h, a, true, amount);
    case _ =>
  }

  lemma AllInOthers(h: Hand, a: nat)
    requires a < |h.players|
    ensures OthersKept(h.players, ApplyAllIn(h, a).hand.players, a)
  {
    assert OthersKept(h.players, Acted(h, a).players, a);
  }

  lemma BetOthers(h: Hand, a: nat, isRaise: bool, amount: int)
    requires a < |h.players|
    ensures OthersKept(h.players, ApplyBet(h, a, isRaise, amount).hand.players, a)
  {
    assert OthersKept(h.players, Acted(h, a).players, a);
  }

  /** With a non-negative bet or raise amount, the actor's chips stay sane and the
      amount to match stays non-negative. */
  lemma ApplyActionActor(h: Hand, a: nat, action: Action, amount: int)
    requires Valid(h) && a < |h.players| && AmountSane(action, amount)
    ensures ActorSane(h.players, ApplyAction(h, a, action, amount).hand.players, a)
  {
    match action
    case Call => CallActorSane(h, a);
    case AllInAction => AllInActorSane(h, a);
    case BetAction => BetActorSane(h, a, false, amount);
    case RaiseAction => BetActorSane(h, a, true, amount);
    case _ =>
  }

  lemma CallActorSane(h: Hand, a: nat)
    requires Valid(h) && a < |h.players|
    ensures ActorSane(h.players, ApplyCall(h, a).hand.players, a)
  {
    var p := h.players[a];
    PostBetSane(p.(hasActed := true), h.sc.currentBet - p.betThisRound, false);
  }

  lemma AllInActorSane(h: Hand, a: nat)
    requires Valid(h) && a < |h.players|
    ensures ActorSane(h.players, ApplyAllIn(h, a).hand.players, a)
  {
    var p := h.players[a];
    PostBetSane(p.(hasActed := true), p.stack, false);
  }

  lemma BetActorSane(h: Hand, a: nat, isRaise: bool, amount: int)
    requires Valid(h) && a < |h.players| && 0 <= amount
    ensures ActorSane(h.players, ApplyBet(h, a, isRaise, amount).hand.players, a)
  {
    var p := h.players[a];
    PostBetSane(p.(hasActed := true), amount - p.betThisRound, false);
  }

  lemma ApplyActionScalars(h: Hand, a: nat, action: Action, amount: int)
    requires Valid(h) && a < |h.players| && AmountSane(action, amount)
    ensures var o := ApplyAction(h, a, action, amount);
      0 <= o.hand.sc.currentBet && o.hand.sc.active == h.sc.active && o.hand.sc.dealer == h.sc.dealer
  {
  }

  /** One action keeps the hand well formed. */
  lemma ApplyActionValid(h: Hand, a: nat, action: Action, amount: int)
    requires Valid(h) && a < |h.players| && AmountSane(action, amount)
    ensures Valid(ApplyAction(h, a, action, amount).hand)
  {
    var r := ApplyAction(h, a, action, amount).hand;
    ApplyActionOthers(h, a, action, amount);
    ApplyActionActor(h, a, action, amount);
    ApplyActionScalars(h, a, action, amount);
    forall i | 0 <= i < |h.players| && i != a
      ensures r.players[i].id == i
      ensures 0 <= r.players[i].stack && 0 <= r.players[i].betThisRound && 0 <= r.players[i].totalBetInHand
    {
      assert Unflagged(r.players[i]) == Unflagged(h.players[i]);
    }
    assert ActorSane(h.players, r.players, a);
    assert SeatsNumbered(r.players);
    assert ChipsSane(r.players);
  }
}
