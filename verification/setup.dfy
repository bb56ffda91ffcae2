/** `setupNewHand`: seats `n` fresh players, places the button on seat 0,
    posts the blinds (or, in the cash revision, the Bomb Pot antes, the
    Straddle or the Mississippi blind) and records the first snapshots. */
module Setup {
  import opened Base
  import opened Cards
  import opened Table
  import opened Betting
  import L = Ledger

  /** The label `getPositions(n)` gives seat `i`; past the end of the list
      JavaScript reads `undefined`, shown here as the empty string. */
  function SeatLabel(n: int, i: nat): string
  {
    var labels := Positions(n);
    if i < |labels| then labels[i] else ""
  }

  /** Seat `i` carries the label the hero chose. */
  predicate HeroSeat(n: int, i: nat, hero: string)
  {
    var labels := Positions(n);
    i < |labels| && labels[i] == hero
  }

  /** The display name of seat `i`: "Hero", or "Jugador " and the seat
      number counted from one. */
  function SeatName(n: int, i: nat, hero: string): string
  {
    if HeroSeat(n, i, hero) then "Hero" else "Jugador " + Digits(i + 1, 10)
  }

  /** A player as pushed by the seating loop; only seat 0 is the button. */
  function FreshPlayer(rev: Revision, variant: Variant, n: int, hero: string, bb: int, i: nat): Player
  {
    Player(i, SeatName(n, i, hero), bb * 100,
           EmptyCardSlots(if rev == Cash then Holdem else variant), SeatLabel(n, i),
           true, false, false, 0, 0, i == 0, false, false, false, false, false)
  }

  function SmallBlindSeat(n: nat): nat { if n == 2 then 0 else 1 }

  function BigBlindSeat(n: nat): nat { if n == 2 then 1 else 2 }

  /** The seat after the big blind, going round the table: the button
      with two or three players, seat 3 otherwise. */
  function AfterBigBlind(n: nat): (s: nat)
    requires n >= 2
    ensures s == if n <= 3 then 0 else 3
  {
    (BigBlindSeat(n) + 1) % n
  }

  /** The Bomb Pot size in big blinds: a missing (or zero) value means 2. */
  function BombPotSize(bombPotBB: int): int { if bombPotBB == 0 then 2 else bombPotBB }

  /** The rule the hand is actually played under: the tournament revision
      has no special rules. */
  function PlayedRule(rev: Revision, rule: Rule): Rule { if rev == Cash then rule else NoRule }

  /** The hand right after the seating loop and the seat assignments, before
      any chip moves. Fields the source leaves alone (the discard set and the
      card picker) are kept from `prev`. The tournament revision always plays
      without a special rule; the cash revision always plays Hold'em. */
  function Seated(prev: Hand, variant: Variant, rule: Rule, n: nat, hero: string, sb: int, bb: int, bombPotBB: int): (h: Hand)
    requires n >= 2
    ensures |h.players| == n && L.Valid(h.ledger) && |h.ledger.entries| == 0
    ensures forall i :: 0 <= i < n ==> h.players[i] == FreshPlayer(prev.rev, variant, n, hero, bb, i)
    ensures h.rule == BombPot ==> h.bombPotBB == BombPotSize(bombPotBB)
    ensures h.smallBlind == sb && h.bigBlind == bb && h.rule == PlayedRule(prev.rev, rule)
    ensures 0 <= bb ==> Sane(h)
  {
    var ps := seq(n, i requires 0 <= i < n => FreshPlayer(prev.rev, variant, n, hero, bb, i));
    var first := if n == 2 then SmallBlindSeat(n) else AfterBigBlind(n);
    prev.(variant := if prev.rev == Cash then Holdem else variant,
          rule := if prev.rev == Cash then rule else NoRule,
          hero := hero, smallBlind := sb, bigBlind := bb,
          bombPotBB := if prev.rev == Cash then BombPotSize(bombPotBB) else prev.bombPotBB,
          players := ps, board := [NoCard, NoCard, NoCard, NoCard, NoCard], pots := [Pot(0, [])],
          sc := prev.sc.(phase := Preflop, dealer := 0, active := Some(first),
                         lastRaiser := Some(BigBlindSeat(n)), lastRaiseAmount := 0),
          preAction := true, ledger := L.Empty())
  }

  /** The part of `Valid` the blind posts can affect. */
  predicate Sane(h: Hand)
  {
    ChipsSane(h.players) && (h.sc.active.Some? ==> 0 <= h.sc.active.value < |h.players|)
  }

  /** A blind post keeps a player's chips, card slots and flags apart from
      the role marks, and never puts the player all-in. */
  predicate PostedBlind(q: Player, p: Player)
  {
    && q.stack + q.betThisRound == p.stack + p.betThisRound
    && q.inHand == p.inHand && q.isAllIn == p.isAllIn && q.hasActed == p.hasActed
    && q.totalBetInHand == p.totalBetInHand && q.cards == p.cards && q.id == p.id && q.isDealer == p.isDealer
  }

  /** Hand `r` follows `h` by blind posts and recorded snapshots only. */
  predicate PostsOnly(h: Hand, r: Hand)
  {
    && |r.players| == |h.players|
    && (forall i :: 0 <= i < |h.players| ==> PostedBlind(r.players[i], h.players[i]))
    && r.board == h.board && r.pots == h.pots && r.preAction == h.preAction
    && r.sc.phase == h.sc.phase && r.sc.dealer == h.sc.dealer
    && r.rule == h.rule && r.bigBlind == h.bigBlind
    && L.Valid(r.ledger) && 0 <= r.ledger.cursor == |r.ledger.entries| - 1
  }

  /** Bomb Pot: every player posts the antes as a blind and is marked. */
  function BombPotAntes(ps: seq<Player>, bomb: int): (r: seq<Player>)
    ensures |r| == |ps|
    ensures forall i :: 0 <= i < |ps| ==> r[i] == PostBet(ps[i], bomb, true).(isBombPot := true)
    ensures forall i :: 0 <= i < |ps| ==> PostedBlind(r[i], ps[i])
    ensures 0 <= bomb && ChipsSane(ps) ==> ChipsSane(r)
  {
    seq(|ps|, i requires 0 <= i < |ps| => PostBet(ps[i], bomb, true).(isBombPot := true))
  }

  /** The blinds: seat `sbs` is marked and posts `sb`, then seat `bbs` is
      marked and posts `bb`. */
  function Blinds(ps: seq<Player>, sbs: nat, bbs: nat, sb: int, bb: int): (r: seq<Player>)
    requires sbs < |ps| && bbs < |ps| && sbs != bbs
    ensures |r| == |ps|
    ensures r[sbs] == PostBet(ps[sbs].(isSB := true), sb, true)
    ensures r[bbs] == PostBet(ps[bbs].(isBB := true), bb, true)
    ensures r[sbs].isSB && r[bbs].isBB
    ensures forall i :: 0 <= i < |ps| && i != sbs && i != bbs ==> r[i] == ps[i]
    ensures forall i :: 0 <= i < |ps| ==> PostedBlind(r[i], ps[i])
    ensures 0 <= sb && 0 <= bb && ChipsSane(ps) ==> ChipsSane(r)
  {
    var ps1 := PostAt(ps[sbs := ps[sbs].(isSB := true)], sbs, sb, true);
    PostAt(ps1[bbs := ps1[bbs].(isBB := true)], bbs, bb, true)
  }

  /** The extra blind of a Straddle or a Mississippi: seat `s` is marked
      and posts `x`. */
  function Forced(ps: seq<Player>, s: nat, x: int, straddle: bool): (r: seq<Player>)
    requires s < |ps|
    ensures |r| == |ps|
    ensures r[s] == PostBet(if straddle then ps[s].(isStraddle := true) else ps[s].(isMississippi := true), x, true)
    ensures forall i :: 0 <= i < |ps| && i != s ==> r[i] == ps[i]
    ensures forall i :: 0 <= i < |ps| ==> PostedBlind(r[i], ps[i])
    ensures 0 <= x && ChipsSane(ps) ==> ChipsSane(r)
  {
    var p := if straddle then ps[s].(isStraddle := true) else ps[s].(isMississippi := true);
    ps[s := PostBet(p, x, true)]
  }

  /** Straddle (more than two players): the seat after the big blind posts
      two big blinds and becomes the last raiser; the snapshot is taken
      before the turn passes to the seat after the straddle. */
  function Straddled(h: Hand): (r: Hand)
    requires L.Valid(h.ledger) && |h.players| > 2
    ensures PostsOnly(h, r)
    ensures var s := AfterBigBlind(|h.players|);
      && r.players == Forced(h.players, s, h.bigBlind * 2, true)
      && r.sc == h.sc.(currentBet := h.bigBlind * 2, minRaise := h.bigBlind * 4, lastRaiseAmount := h.bigBlind * 2,
                       lastRaiser := Some(s), active := Some((s + 1) % |h.players|))
      && r.ledger.cursor == h.ledger.cursor + 1
      && r.ledger.entries[r.ledger.cursor].event == StraddlePosted(s)
    ensures forall k :: 0 <= k <= h.ledger.cursor ==> r.ledger.entries[k] == h.ledger.entries[k]
    ensures 0 <= h.bigBlind && Sane(h) ==> Sane(r) && 0 <= r.sc.currentBet
  {
    var n := |h.players|;
    var s := AfterBigBlind(n);
    var h1 := h.(players := Forced(h.players, s, h.bigBlind * 2, true),
                 sc := h.sc.(currentBet := h.bigBlind * 2, minRaise := h.bigBlind * 4,
                             lastRaiseAmount := h.bigBlind * 2, lastRaiser := Some(s)));
    var h2 := Record(h1, StraddlePosted(s));
    h2.(sc := h2.sc.(active := Some((s + 1) % n)))
  }

  /** Mississippi: the button posts two big blinds and becomes the last
      raiser; the turn does not move. */
  function Mississippied(h: Hand): (r: Hand)
    requires L.Valid(h.ledger) && |h.players| > 0
    ensures PostsOnly(h, r)
    ensures r.players == Forced(h.players, 0, h.bigBlind * 2, false)
    ensures r.sc == h.sc.(currentBet := Max(h.sc.currentBet, h.bigBlind * 2), minRaise := h.bigBlind * 4,
                          lastRaiseAmount := h.bigBlind * 2, lastRaiser := Some(0))
    ensures r.ledger.cursor == h.ledger.cursor + 1 && r.ledger.entries[r.ledger.cursor].event == MississippiPosted(0)
    ensures forall k :: 0 <= k <= h.ledger.cursor ==> r.ledger.entries[k] == h.ledger.entries[k]
    ensures 0 <= h.bigBlind && Sane(h) ==> Sane(r) && 0 <= r.sc.currentBet
  {
    var h1 := h.(players := Forced(h.players, 0, h.bigBlind * 2, false),
                 sc := h.sc.(currentBet := Max(h.sc.currentBet, h.bigBlind * 2), minRaise := h.bigBlind * 4,
                             lastRaiseAmount := h.bigBlind * 2, lastRaiser := Some(0)));
    Record(h1, MississippiPosted(0))
  }

  /** The hand once the blinds (or the Bomb Pot antes) are in, before any
      Straddle or Mississippi. */
  function Opening(h0: Hand): (h1: Hand)
    requires |h0.players| >= 2 && L.Valid(h0.ledger) && |h0.ledger.entries| == 0
    ensures PostsOnly(h0, h1) && h1.ledger.cursor == 0
    ensures h0.rule == BombPot ==>
      var bomb := h0.bigBlind * h0.bombPotBB;
      var a := AfterBigBlind(|h0.players|);
      && h1.players == BombPotAntes(h0.players, bomb)
      && h1.sc == h0.sc.(currentBet := bomb, minRaise := bomb * 2, lastRaiseAmount := bomb, active := Some(a), lastRaiser := Some(a))
      && h1.ledger.entries[0].event == BombPotPosted(h0.bombPotBB)
    ensures h0.rule != BombPot ==>
      && h1.players == Blinds(h0.players, SmallBlindSeat(|h0.players|), BigBlindSeat(|h0.players|), h0.smallBlind, h0.bigBlind)
      && h1.sc == h0.sc.(currentBet := h0.bigBlind, minRaise := h0.bigBlind * 2, lastRaiseAmount := h0.bigBlind)
      && h1.ledger.entries[0].event == BlindsPosted
    ensures 0 <= h0.smallBlind && 0 <= h0.bigBlind && (h0.rule == BombPot ==> 0 <= h0.bombPotBB) && Sane(h0) ==> Sane(h1) && 0 <= h1.sc.currentBet
  {
    var n := |h0.players|;
    var sbs := SmallBlindSeat(n);
    var bbs := BigBlindSeat(n);
    if h0.rule == BombPot then
      var bomb := h0.bigBlind * h0.bombPotBB;
      var a := AfterBigBlind(n);
      assert 0 <= h0.bigBlind && 0 <= h0.bombPotBB ==> 0 <= bomb;
      Record(h0.(players := BombPotAntes(h0.players, bomb),
                 sc := h0.sc.(currentBet := bomb, minRaise := bomb * 2, lastRaiseAmount := bomb,
                              active := Some(a), lastRaiser := Some(a))),
             BombPotPosted(h0.bombPotBB))
    else
      Record(h0.(players := Blinds(h0.players, sbs, bbs, h0.smallBlind, h0.bigBlind),
                 sc := h0.sc.(currentBet := h0.bigBlind, minRaise := h0.bigBlind * 2, lastRaiseAmount := h0.bigBlind)),
             BlindsPosted)
  }

  /** Every forced bet of the hand: the blinds or the antes, then the
      Straddle or the Mississippi when the rule asks for one. */
  function PostBlinds(h0: Hand): (h2: Hand)
    requires |h0.players| >= 2 && L.Valid(h0.ledger) && |h0.ledger.entries| == 0
    ensures PostsOnly(h0, h2)
    ensures 0 <= h0.smallBlind && 0 <= h0.bigBlind && (h0.rule == BombPot ==> 0 <= h0.bombPotBB) && Sane(h0) ==>
      Sane(h2) && 0 <= h2.sc.currentBet
  {
    var h1 := Opening(h0);
    var h2 := if h1.rule == Straddle && |h0.players| > 2 then Straddled(h1)
              else if h1.rule == Mississippi then Mississippied(h1)
              else h1;
    PostsOnlyTrans(h0, h1, h2);
    h2
  }

  /** `setupNewHand(n, hero, …, sb, bb, rule or variant, bombPotBB)`. The
      source needs at least two players (with fewer it reads a missing seat). */
  function SetupNewHand(prev: Hand, variant: Variant, rule: Rule, n: nat, hero: string, sb: int, bb: int, bombPotBB: int): (h: Hand)
    requires n >= 2
    ensures FreshTable(h, n, bb)
  {
    var h0 := Seated(prev, variant, rule, n, hero, sb, bb, bombPotBB);
    var h2 := PostBlinds(h0);
    SeatedFresh(prev, variant, rule, n, hero, sb, bb, bombPotBB);
    FreshAfterPosts(h0, h2, n, bb);
    h2
  }

  lemma PostsOnlyTrans(h0: Hand, h1: Hand, h2: Hand)
    requires PostsOnly(h0, h1) && (PostsOnly(h1, h2) || h2 == h1)
    ensures PostsOnly(h0, h2)
  {
  }

  /** The seats before the blinds, as `FreshTable` describes them. */
  predicate FreshSeats(h: Hand, n: nat, bb: int)
  {
    && |h.players| == n && SeatsNumbered(h.players)
    && h.sc.dealer == 0 && h.sc.phase == Preflop && h.preAction
    && (forall i :: 0 <= i < n ==> h.players[i].isDealer == (i == 0))
    && (forall i :: 0 <= i < n ==>
          && h.players[i].inHand && !h.players[i].isAllIn && !h.players[i].hasActed
          && h.players[i].totalBetInHand == 0 && AllEmpty(h.players[i].cards)
          && h.players[i].stack + h.players[i].betThisRound == bb * 100)
    && h.pots == [Pot(0, [])] && h.board == [NoCard, NoCard, NoCard, NoCard, NoCard]
  }

  lemma SeatedFresh(prev: Hand, variant: Variant, rule: Rule, n: nat, hero: string, sb: int, bb: int, bombPotBB: int)
    requires n >= 2
    ensures FreshSeats(Seated(prev, variant, rule, n, hero, sb, bb, bombPotBB), n, bb)
  {
    var h := Seated(prev, variant, rule, n, hero, sb, bb, bombPotBB);
    forall i | 0 <= i < n
      ensures AllEmpty(h.players[i].cards)
    {
      assert h.players[i] == FreshPlayer(prev.rev, variant, n, hero, bb, i);
    }
  }

  lemma FreshAfterPosts(h0: Hand, h2: Hand, n: nat, bb: int)
    requires FreshSeats(h0, n, bb) && PostsOnly(h0, h2)
    ensures FreshTable(h2, n, bb)
  {
    forall i | 0 <= i < n
      ensures h2.players[i].id == i
    {
      assert PostedBlind(h2.players[i], h0.players[i]);
    }
  }

  /** What every new hand looks like, whatever the rule: `n` numbered
      seats, the button on seat 0, everyone in the hand with empty card
      slots and nothing yet in the running totals, each player's chips
      (stack plus bet) still the starting hundred big blinds, one empty pot,
      five empty board slots, the preflop phase, and the cursor on the
      newest snapshot. */
  predicate FreshTable(h: Hand, n: nat, bb: int)
  {
    && FreshSeats(h, n, bb)
    && L.Valid(h.ledger) && 0 <= h.ledger.cursor == |h.ledger.entries| - 1
  }

  /** A seated table before any forced bet: the seats are as the seating
      loop leaves them, the turn and the last raiser as set for the blinds,
      and nothing recorded yet. */
  predicate Unposted(h: Hand)
  {
    var n := |h.players|;
    && n >= 2 && L.Valid(h.ledger) && |h.ledger.entries| == 0
    && (forall i :: 0 <= i < n ==>
          && h.players[i].betThisRound == 0 && h.players[i].stack == h.bigBlind * 100
          && h.players[i].isDealer == (i == 0))
    && h.sc.active == Some(if n == 2 then 0 else AfterBigBlind(n))
    && h.sc.lastRaiser == Some(BigBlindSeat(n))
  }

  lemma SeatedUnposted(prev: Hand, variant: Variant, rule: Rule, n: nat, hero: string, sb: int, bb: int, bombPotBB: int)
    requires n >= 2
    ensures var h := Seated(prev, variant, rule, n, hero, sb, bb, bombPotBB);
      && Unposted(h)
      && SetupNewHand(prev, variant, rule, n, hero, sb, bb, bombPotBB) == PostBlinds(h)
  {
    var h := Seated(prev, variant, rule, n, hero, sb, bb, bombPotBB);
    forall i | 0 <= i < n
      ensures h.players[i].betThisRound == 0 && h.players[i].stack == bb * 100 && h.players[i].isDealer == (i == 0)
    {
      assert h.players[i] == FreshPlayer(prev.rev, variant, n, hero, bb, i);
    }
  }

  /** The blinds on a seated table, in terms of the table's own blinds. */
  lemma BlindsOn(h0: Hand)
    requires Unposted(h0) && (h0.rule == NoRule || (h0.rule == Straddle && |h0.players| == 2))
    ensures var h := PostBlinds(h0);
      var n := |h0.players|;
      var sbs := if n == 2 then 0 else 1;
      var bbs := if n == 2 then 1 else 2;
      var bb := h0.bigBlind;
      && h.players[sbs].isSB && h.players[sbs].betThisRound == Min(h0.smallBlind, bb * 100)
      && h.players[bbs].isBB && h.players[bbs].betThisRound == Min(bb, bb * 100)
      && (forall i :: 0 <= i < n && i != sbs && i != bbs ==> h.players[i].betThisRound == 0 && h.players[i].stack == bb * 100)
      && h.sc.currentBet == bb && h.sc.minRaise == bb * 2 && h.sc.lastRaiseAmount == bb
      && h.sc.lastRaiser == Some(bbs) && h.sc.active == Some(if n <= 3 then 0 else 3)
      && (n == 2 ==> h.players[0].isDealer && h.players[0].isSB)
      && |h.ledger.entries| == 1 && h.ledger.entries[0].event == BlindsPosted
  {
    assert PostBlinds(h0) == Opening(h0);
  }

  /** Plain blinds (no rule, or a Straddle asked for heads-up): the small
      and big blind seats are marked and post their blinds, capped by the
      stack; nobody else has bet; the big blind is the bet to match, a
      raise must reach twice it, the big blind is the last raiser, the
      first to act is the seat after the big blind (the small blind
      heads-up, who is also the button), and one snapshot is recorded. */
  lemma SetupBlinds(prev: Hand, variant: Variant, rule: Rule, n: nat, hero: string, sb: int, bb: int, bombPotBB: int)
    requires n >= 2
    requires PlayedRule(prev.rev, rule) == NoRule || (PlayedRule(prev.rev, rule) == Straddle && n == 2)
    ensures var h := SetupNewHand(prev, variant, rule, n, hero, sb, bb, bombPotBB);
      var sbs := if n == 2 then 0 else 1;
      var bbs := if n == 2 then 1 else 2;
      && h.players[sbs].isSB && h.players[sbs].betThisRound == Min(sb, bb * 100)
      && h.players[bbs].isBB && h.players[bbs].betThisRound == Min(bb, bb * 100)
      && (forall i :: 0 <= i < n && i != sbs && i != bbs ==> h.players[i].betThisRound == 0 && h.players[i].stack == bb * 100)
      && h.sc.currentBet == bb && h.sc.minRaise == bb * 2 && h.sc.lastRaiseAmount == bb
      && h.sc.lastRaiser == Some(bbs) && h.sc.active == Some(if n <= 3 then 0 else 3)
      && (n == 2 ==> h.players[0].isDealer && h.players[0].isSB)
      && |h.ledger.entries| == 1 && h.ledger.entries[0].event == BlindsPosted
  {
    SeatedUnposted(prev, variant, rule, n, hero, sb, bb, bombPotBB);
    BlindsOn(Seated(prev, variant, rule, n, hero, sb, bb, bombPotBB));
  }

  lemma BombPotOn(h0: Hand)
    requires Unposted(h0) && h0.rule == BombPot
    ensures var h := PostBlinds(h0);
      var n := |h0.players|;
      var bomb := h0.bigBlind * h0.bombPotBB;
      var a := if n <= 3 then 0 else 3;
      && (forall i :: 0 <= i < n ==> h.players[i].isBombPot && h.players[i].betThisRound == Min(bomb, h0.bigBlind * 100))
      && h.sc.currentBet == bomb && h.sc.minRaise == bomb * 2 && h.sc.lastRaiseAmount == bomb
      && h.sc.active == Some(a) && h.sc.lastRaiser == Some(a)
      && |h.ledger.entries| == 1 && h.ledger.entries[0].event == BombPotPosted(h0.bombPotBB)
  {
    assert PostBlinds(h0) == Opening(h0);
  }

  /** Bomb Pot (cash only): every player is marked and posts the antes
      (the Bomb Pot size in big blinds, 2 when none is given), capped by the
      stack; the antes are the bet to match, a raise must reach twice
      them, the seat after the big blind both acts first and counts as the
      last raiser, and one snapshot is recorded. */
  lemma SetupBombPot(prev: Hand, variant: Variant, rule: Rule, n: nat, hero: string, sb: int, bb: int, bombPotBB: int)
    requires n >= 2 && PlayedRule(prev.rev, rule) == BombPot
    ensures var h := SetupNewHand(prev, variant, rule, n, hero, sb, bb, bombPotBB);
      var bomb := bb * BombPotSize(bombPotBB);
      var a := if n <= 3 then 0 else 3;
      && (forall i :: 0 <= i < n ==> h.players[i].isBombPot && h.players[i].betThisRound == Min(bomb, bb * 100))
      && h.sc.currentBet == bomb && h.sc.minRaise == bomb * 2 && h.sc.lastRaiseAmount == bomb
      && h.sc.active == Some(a) && h.sc.lastRaiser == Some(a)
      && |h.ledger.entries| == 1 && h.ledger.entries[0].event == BombPotPosted(BombPotSize(bombPotBB))
  {
    SeatedUnposted(prev, variant, rule, n, hero, sb, bb, bombPotBB);
    BombPotOn(Seated(prev, variant, rule, n, hero, sb, bb, bombPotBB));
  }

  lemma StraddleOn(h0: Hand)
    requires Unposted(h0) && h0.rule == Straddle && |h0.players| > 2
    ensures var h := PostBlinds(h0);
      var n := |h0.players|;
      var s := AfterBigBlind(n);
      && h.players[s].isStraddle && h.players[s].betThisRound == Min(h0.bigBlind * 2, h0.bigBlind * 100)
      && h.players[1].isSB && h.players[2].isBB
      && h.sc.currentBet == h0.bigBlind * 2 && h.sc.minRaise == h0.bigBlind * 4 && h.sc.lastRaiseAmount == h0.bigBlind * 2
      && h.sc.lastRaiser == Some(s) && h.sc.active == Some((s + 1) % n)
      && |h.ledger.entries| == 2 && h.ledger.entries[0].event == BlindsPosted
      && h.ledger.entries[1].event == StraddlePosted(s)
  {
    var n := |h0.players|;
    var s := AfterBigBlind(n);
    var bb := h0.bigBlind;
    var h1 := Opening(h0);
    assert PostBlinds(h0) == Straddled(h1);
    assert Straddled(h1).sc == h0.sc.(currentBet := bb * 2, minRaise := bb * 4, lastRaiseAmount := bb * 2,
                                      lastRaiser := Some(s), active := Some((s + 1) % n));
    StraddleSeats(h0, h1);
    StraddleLedger(h0, h1);
  }

  lemma StraddleSeats(h0: Hand, h1: Hand)
    requires Unposted(h0) && h0.rule == Straddle && |h0.players| > 2 && h1 == Opening(h0)
    ensures var ps := Straddled(h1).players;
      var s := AfterBigBlind(|h0.players|);
      && ps[s].isStraddle && ps[s].betThisRound == Min(h0.bigBlind * 2, h0.bigBlind * 100)
      && ps[1].isSB && ps[2].isBB
  {
    var n := |h0.players|;
    var s := AfterBigBlind(n);
    assert SmallBlindSeat(n) == 1 && BigBlindSeat(n) == 2;
    assert h1.players == Blinds(h0.players, 1, 2, h0.smallBlind, h0.bigBlind);
    assert Straddled(h1).players == Forced(h1.players, s, h0.bigBlind * 2, true);
    StraddleOverBlinds(h0.players, s, h0.smallBlind, h0.bigBlind);
  }

  lemma StraddleLedger(h0: Hand, h1: Hand)
    requires Unposted(h0) && h0.rule == Straddle && |h0.players| > 2 && h1 == Opening(h0)
    ensures var l := Straddled(h1).ledger;
      && |l.entries| == 2 && l.entries[0].event == BlindsPosted
      && l.entries[1].event == StraddlePosted(AfterBigBlind(|h0.players|))
  {
    assert h1.ledger.entries[0].event == BlindsPosted;
  }

  lemma StraddleOverBlinds(ps: seq<Player>, s: nat, sb: int, bb: int)
    requires |ps| > 2 && s == AfterBigBlind(|ps|) && ps[s].betThisRound == 0 && ps[s].stack == bb * 100
    ensures var r := Forced(Blinds(ps, 1, 2, sb, bb), s, bb * 2, true);
      && r[s].isStraddle && r[s].betThisRound == Min(bb * 2, bb * 100)
      && r[1].isSB && r[2].isBB
  {
    var ps1 := Blinds(ps, 1, 2, sb, bb);
    assert ps1[s] == ps[s];
  }

  /** Straddle (cash, more than two players): after the blinds, the seat
      after the big blind is marked and posts two big blinds, capped by the
      stack; two big blinds are the bet to match, a raise must reach four,
      the straddler is the last raiser and the seat after them acts first;
      the blinds and the straddle are two snapshots. */
  lemma SetupStraddle(prev: Hand, variant: Variant, rule: Rule, n: nat, hero: string, sb: int, bb: int, bombPotBB: int)
    requires n > 2 && PlayedRule(prev.rev, rule) == Straddle
    ensures var h := SetupNewHand(prev, variant, rule, n, hero, sb, bb, bombPotBB);
      var s := if n == 3 then 0 else 3;
      && h.players[s].isStraddle && h.players[s].betThisRound == Min(bb * 2, bb * 100)
      && h.players[1].isSB && h.players[2].isBB
      && h.sc.currentBet == bb * 2 && h.sc.minRaise == bb * 4 && h.sc.lastRaiseAmount == bb * 2
      && h.sc.lastRaiser == Some(s) && h.sc.active == Some((s + 1) % n)
      && |h.ledger.entries| == 2 && h.ledger.entries[0].event == BlindsPosted
      && h.ledger.entries[1].event == StraddlePosted(s)
  {
    SeatedUnposted(prev, variant, rule, n, hero, sb, bb, bombPotBB);
    StraddleOn(Seated(prev, variant, rule, n, hero, sb, bb, bombPotBB));
  }

  lemma MississippiOn(h0: Hand)
    requires Unposted(h0) && h0.rule == Mississippi
    ensures var h := PostBlinds(h0);
      var n := |h0.players|;
      var bb := h0.bigBlind;
      && h.players[0].isMississippi && h.players[0].isDealer
      && (n > 2 ==> h.players[0].betThisRound == Min(bb * 2, bb * 100))
      && h.sc.currentBet == Max(bb, bb * 2) && h.sc.minRaise == bb * 4 && h.sc.lastRaiseAmount == bb * 2
      && h.sc.lastRaiser == Some(0) && h.sc.active == Some(if n <= 3 then 0 else 3)
      && |h.ledger.entries| == 2 && h.ledger.entries[0].event == BlindsPosted
      && h.ledger.entries[1].event == MississippiPosted(0)
  {
    var n := |h0.players|;
    var h1 := Opening(h0);
    assert PostBlinds(h0) == Mississippied(h1);
    assert h1.players == Blinds(h0.players, SmallBlindSeat(n), BigBlindSeat(n), h0.smallBlind, h0.bigBlind);
    if n > 2 {
      assert SmallBlindSeat(n) == 1 && BigBlindSeat(n) == 2;
      assert h1.players[0] == h0.players[0];
    }
  }

  /** Mississippi (cash): after the blinds, the button is marked and posts
      two big blinds, capped by what is left of the stack; the bet to match
      becomes the larger of the big blind and two big blinds, a raise must
      reach four, the button is the last raiser, the first to act does not
      change, and the blinds and the Mississippi are two snapshots. */
  lemma SetupMississippi(prev: Hand, variant: Variant, rule: Rule, n: nat, hero: string, sb: int, bb: int, bombPotBB: int)
    requires n >= 2 && PlayedRule(prev.rev, rule) == Mississippi
    ensures var h := SetupNewHand(prev, variant, rule, n, hero, sb, bb, bombPotBB);
      && h.players[0].isMississippi && h.players[0].isDealer
      && (n > 2 ==> h.players[0].betThisRound == Min(bb * 2, bb * 100))
      && h.sc.currentBet == Max(bb, bb * 2) && h.sc.minRaise == bb * 4 && h.sc.lastRaiseAmount == bb * 2
      && h.sc.lastRaiser == Some(0) && h.sc.active == Some(if n <= 3 then 0 else 3)
      && |h.ledger.entries| == 2 && h.ledger.entries[0].event == BlindsPosted
      && h.ledger.entries[1].event == MississippiPosted(0)
  {
    SeatedUnposted(prev, variant, rule, n, hero, sb, bb, bombPotBB);
    MississippiOn(Seated(prev, variant, rule, n, hero, sb, bb, bombPotBB));
  }

  /** With non-negative blinds (and Bomb Pot size), a new hand is well formed. */
  lemma SetupValid(prev: Hand, variant: Variant, rule: Rule, n: nat, hero: string, sb: int, bb: int, bombPotBB: int)
    requires n >= 2 && 0 <= sb && 0 <= bb && 0 <= bombPotBB
    ensures Valid(SetupNewHand(prev, variant, rule, n, hero, sb, bb, bombPotBB))
  {
    var h0 := Seated(prev, variant, rule, n, hero, sb, bb, bombPotBB);
    assert Sane(h0) && (h0.rule == BombPot ==> 0 <= h0.bombPotBB);
    var h := PostBlinds(h0);
    assert Sane(h) && 0 <= h.sc.currentBet;
    assert SetupNewHand(prev, variant, rule, n, hero, sb, bb, bombPotBB) == h;
    FreshSaneValid(h, n, bb);
  }

  lemma FreshSaneValid(h: Hand, n: nat, bb: int)
    requires n >= 2 && FreshTable(h, n, bb) && Sane(h) && 0 <= h.sc.currentBet
    ensures Valid(h)
  {
  }
}
