/** `performAction`, `checkHandOrRoundCompletion` and `performDiscard`: one
    player decision applied to the hand, then the decision of whether the
    hand ends, the round ends, or the turn passes on. */
module Engine {
  import opened Base
  import opened Cards
  import opened Table
  import opened Betting
  import opened Showdown
  import opened Street
  import L = Ledger

  /** Every player who can still act has acted and matched the current bet. */
  predicate RoundOver(h: Hand)
  {
    forall i :: 0 <= i < |h.players| && CanAct(h.players[i]) ==>
      h.players[i].hasActed && h.players[i].betThisRound == h.sc.currentBet
  }

  /** `checkHandOrRoundCompletion` with the fold win repaired: when a single
      player is left, the bets are gathered and that player is credited
      the whole pot, without dealing or paying a showdown first (see
      `Findings.CheckCompletionAsWritten`). */
  function CheckCompletion(h: Hand, a: nat, rank: Ranker, choose: Chooser): (r: Hand)
    requires Valid(h) && a < |h.players|
    ensures |r.players| == |h.players|
    ensures !RoundOver(h) && |InHand(h.players)| != 1 ==>
      r == h.(sc := h.sc.(active := r.sc.active)) && r.sc.active.Some? && 0 <= r.sc.active.value < |h.players|
    ensures !RoundOver(h) && |InHand(h.players)| != 1 && r.sc.active.Some? && 0 <= r.sc.active.value < |h.players| ==>
      && CanAct(h.players[r.sc.active.value])
      && forall j :: 0 <= j < |h.players| && CyclicDistance(a, j, |h.players|) < CyclicDistance(a, r.sc.active.value, |h.players|)
                     ==> !CanAct(h.players[j])
  {
    var ins := InHand(h.players);
    if |ins| == 1 then
      GatherValid(h);
      EndHand(Gather(h), Some(ins[0]), rank)
    else if RoundOver(h) then AdvanceRound(h, rank, choose)
    else h.(sc := h.sc.(active := Some(NextActor(h.players, a))))
  }

  /** A lone survivor takes everything: the bets still on the table and
      every pot. */
  lemma FoldWinTakesAll(h: Hand, a: nat, rank: Ranker, choose: Chooser)
    requires Valid(h) && a < |h.players| && |InHand(h.players)| == 1
    ensures var r := CheckCompletion(h, a, rank, choose);
      var w := InHand(h.players)[0];
      && r.sc.phase == Showdown && r.sc.active == None
      && r.players[w].stack == h.players[w].stack + SumBets(h.players) + TotalPot(h.pots)
      && (forall i :: 0 <= i < |h.players| && i != w ==> r.players[i].stack == h.players[i].stack)
      && SumStacks(r.players) == SumStacks(h.players) + SumBets(h.players) + TotalPot(h.pots)
  {
    var w := InHand(h.players)[0];
    GatherValid(h);
    GatherKeepsStacks(h);
    FoldWinCredits(Gather(h), w, rank);
  }

  lemma GatherKeepsStacks(h: Hand)
    requires Valid(h)
    ensures forall i :: 0 <= i < |h.players| ==> Gather(h).players[i].stack == h.players[i].stack
  {
  }

  /** `endHand(winner)` credits the winner the pot total and nobody else. */
  lemma FoldWinCredits(g: Hand, w: nat, rank: Ranker)
    requires Valid(g) && w < |g.players|
    ensures var r := EndHand(g, Some(w), rank);
      && r.players[w].stack == g.players[w].stack + TotalPot(g.pots)
      && (forall i :: 0 <= i < |g.players| && i != w ==> r.players[i].stack == g.players[i].stack)
      && SumStacks(r.players) == SumStacks(g.players) + TotalPot(g.pots)
  {
  }

  /** When the round is over, the pots absorb the bets and the hand moves on. */
  lemma RoundOverAdvances(h: Hand, a: nat, rank: Ranker, choose: Chooser)
    requires Valid(h) && a < |h.players| && |InHand(h.players)| != 1 && RoundOver(h)
    ensures var r := CheckCompletion(h, a, rank, choose);
      && TotalPot(r.pots) == TotalPot(h.pots) + SumBets(h.players)
      && r.sc.currentBet == 0 && r.sc.minRaise == h.bigBlind
  {
  }

  lemma CheckCompletionValid(h: Hand, a: nat, rank: Ranker, choose: Chooser)
    requires Valid(h) && a < |h.players|
    ensures Valid(CheckCompletion(h, a, rank, choose))
  {
    var ins := InHand(h.players);
    GatherValid(h);
    if |ins| == 1 {
      EndHandValid(Gather(h), Some(ins[0]), rank);
    } else if RoundOver(h) {
      AdvanceRoundValid(h, rank, choose);
    }
  }

  /** Whether `ApplyAction` refuses the action. */
  predicate Refused(h: Hand, a: nat, action: Action, amount: int)
    requires a < |h.players|
  {
    (action == Check && h.sc.currentBet > h.players[a].betThisRound)
    || ((action == BetAction || action == RaiseAction) && BetRefused(h, h.players[a], amount))
  }

  /** `performAction(action, amount)`: the pre-action flag drops, and if a
      seat is to act its decision is applied, recorded, and followed by the
      completion check. A bet or raise names a non-negative chip count. */
  function PerformAction(h: Hand, action: Action, amount: int, rank: Ranker, choose: Chooser): (r: Hand)
    requires Valid(h) && AmountSane(action, amount)
    ensures h.sc.active.None? ==> r == h.(preAction := false)
    ensures h.sc.active.Some? && Refused(h, h.sc.active.value, action, amount) ==>
      var a := h.sc.active.value;
      r == h.(players := h.players[a := h.players[a].(hasActed := true)], preAction := false)
    ensures |r.players| == |h.players|
  {
    var h0 := h.(preAction := false);
    match h0.sc.active
    case None => h0
    case Some(a) =>
      ApplyActionValid(h0, a, action, amount);
      match ApplyAction(h0, a, action, amount)
      case Rejected(x) => x
      case Applied(x, e) => CheckCompletion(Record(x, e), a, rank, choose)
  }

  /** A player decision keeps the hand well formed. */
  lemma PerformActionValid(h: Hand, action: Action, amount: int, rank: Ranker, choose: Chooser)
    requires Valid(h) && AmountSane(action, amount)
    ensures Valid(PerformAction(h, action, amount, rank, choose))
  {
    var h0 := h.(preAction := false);
    if h0.sc.active.Some? {
      var a := h0.sc.active.value;
      ApplyActionValid(h0, a, action, amount);
      var o := ApplyAction(h0, a, action, amount);
      if o.Applied? {
        CheckCompletionValid(Record(o.hand, o.event), a, rank, choose);
      }
    }
  }

  /** Every player still in the hand has discarded. */
  predicate AllDiscardedIn(ps: seq<Player>, discarded: set<int>)
  {
    forall i :: 0 <= i < |ps| && ps[i].inHand ==> ps[i].id in discarded
  }

  /** `performDiscard(playerId, cardIndex)`: an unknown or folded player is
      ignored; otherwise the card at `cardIndex` is removed, the player is
      marked and the discard recorded, and once every player in the hand has
      discarded the flop betting begins. */
  function PerformDiscard(h: Hand, id: int, cardIndex: nat): (r: Hand)
    requires Valid(h)
    ensures !(0 <= id < |h.players| && h.players[id].inHand) ==> r == h
    ensures 0 <= id < |h.players| && h.players[id].inHand ==>
      && r.players == h.players[id := h.players[id].(cards := RemoveAt(h.players[id].cards, cardIndex))]
      && r.board == h.board && r.pots == h.pots
      && (AllDiscardedIn(h.players, h.discarded + {id}) ==> r.sc == h.sc.(phase := Flop) && r.discarded == {})
      && (!AllDiscardedIn(h.players, h.discarded + {id}) ==> r.sc == h.sc && r.discarded == h.discarded + {id})
      && r.ledger.cursor > h.ledger.cursor && L.Valid(r.ledger)
  {
    if !(0 <= id < |h.players| && h.players[id].inHand) then h
    else
      var p := h.players[id];
      var h1 := h.(players := h.players[id := p.(cards := RemoveAt(p.cards, cardIndex))], discarded := h.discarded + {id});
      var h2 := Record(h1, Discards(id));
      assert forall i :: 0 <= i < |h.players| ==> h2.players[i].inHand == h.players[i].inHand && h2.players[i].id == h.players[i].id;
      assert AllDiscardedIn(h2.players, h2.discarded) == AllDiscardedIn(h.players, h.discarded + {id});
      if AllDiscardedIn(h2.players, h2.discarded) then Enter(h2.(discarded := {}), Flop, AllDiscarded)
      else h2
  }

  /** A discard only ever removes a card from the discarding player's hand. */
  lemma PerformDiscardValid(h: Hand, id: int, cardIndex: nat)
    requires Valid(h)
    ensures Valid(PerformDiscard(h, id, cardIndex))
  {
    if 0 <= id < |h.players| && h.players[id].inHand {
      var r := PerformDiscard(h, id, cardIndex);
      var q := h.players[id].(cards := RemoveAt(h.players[id].cards, cardIndex));
      assert Hole(q) == Hole(h.players[id]);
      assert r.players == h.players[id := q];
      assert r.sc.active == h.sc.active && r.sc.dealer == h.sc.dealer && r.sc.currentBet == h.sc.currentBet;
    }
  }
}
