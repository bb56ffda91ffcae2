/** The cash-session log: the live session (time on the clock, break time,
    rebuys and expenses) and the saved session summaries, newest first,
    with the aggregates the session panel shows. Amounts are whole chip
    counts. */
module Sessions {
  import opened Base

  /** A saved session summary. A summary read back without a `result`
      field has `result == None`. */
  datatype Summary = Summary(
    id: string, duration: int, totalBreakTime: int,
    initialStack: int, totalRebuys: int, totalExpenses: int, finalStack: int,
    result: Option<int>)

  /** The live session and the saved summaries. */
  datatype Session = Session(
    isActive: bool, elapsedTime: int, isOnBreak: bool, breakElapsedTime: int,
    totalBreakTime: int, totalRebuys: int, totalExpenses: int, initialStack: int,
    saved: seq<Summary>)

  /** `startSession()`: the clock, break total, rebuys and expenses restart
      from zero and the session is running, not on a break. */
  function StartSession(s: Session): (r: Session)
    ensures r.isActive && !r.isOnBreak && r.saved == s.saved && r.initialStack == s.initialStack
    ensures r.elapsedTime == 0 && r.totalBreakTime == 0 && r.totalRebuys == 0 && r.totalExpenses == 0
  {
    s.(elapsedTime := 0, totalBreakTime := 0, totalRebuys := 0, totalExpenses := 0, isActive := true, isOnBreak := false)
  }

  /** `startBreak()`: only a running session goes on a break, whose clock
      restarts. */
  function StartBreak(s: Session): (r: Session)
    ensures !s.isActive ==> r == s
    ensures s.isActive ==> r.isOnBreak && r.breakElapsedTime == 0 && r.totalBreakTime == s.totalBreakTime
  {
    if !s.isActive then s else s.(isOnBreak := true, breakElapsedTime := 0)
  }

  /** `endBreak()`: the break's time joins the break total. */
  function EndBreak(s: Session): (r: Session)
    ensures !r.isOnBreak && r.totalBreakTime == s.totalBreakTime + s.breakElapsedTime
    ensures r.totalRebuys == s.totalRebuys && r.totalExpenses == s.totalExpenses && r.saved == s.saved
  {
    s.(isOnBreak := false, totalBreakTime := s.totalBreakTime + s.breakElapsedTime)
  }

  /** `addRebuy(amount)`: only a positive amount counts. */
  function AddRebuy(s: Session, amount: int): (r: Session)
    ensures r == s.(totalRebuys := r.totalRebuys)
    ensures r.totalRebuys == s.totalRebuys + Max(amount, 0)
  {
    if amount > 0 then s.(totalRebuys := s.totalRebuys + amount) else s
  }

  /** `addExpense(amount)`: only a positive amount counts. */
  function AddExpense(s: Session, amount: int): (r: Session)
    ensures r == s.(totalExpenses := r.totalExpenses)
    ensures r.totalExpenses == s.totalExpenses + Max(amount, 0)
  {
    if amount > 0 then s.(totalExpenses := s.totalExpenses + amount) else s
  }

  /** The net result of a session that ends with `finalStack` chips. */
  function SessionResult(s: Session, finalStack: int): int
  {
    finalStack - (s.initialStack + s.totalRebuys) - s.totalExpenses
  }

  /** `stopAndSaveSession(finalStack)` with the fresh summary id `id`: a
      break in progress is added to the break total, the summary is put in
      front of the saved list, and the session stops with its clocks at
      zero. */
  function StopAndSave(s: Session, finalStack: int, id: string): (r: Session)
    ensures |r.saved| == |s.saved| + 1 && r.saved[1..] == s.saved
    ensures r.saved[0].id == id && r.saved[0].finalStack == finalStack && r.saved[0].duration == s.elapsedTime
    ensures r.saved[0].totalBreakTime == s.totalBreakTime + (if s.isOnBreak then s.breakElapsedTime else 0)
    ensures r.saved[0].result.Some?
    ensures !r.isActive && !r.isOnBreak && r.elapsedTime == 0 && r.breakElapsedTime == 0
  {
    var breaks := if s.isOnBreak then s.totalBreakTime + s.breakElapsedTime else s.totalBreakTime;
    var summary := Summary(id, s.elapsedTime, breaks, s.initialStack, s.totalRebuys, s.totalExpenses,
                           finalStack, Some(SessionResult(s, finalStack)));
    s.(totalBreakTime := breaks, saved := [summary] + s.saved,
       isActive := false, isOnBreak := false, elapsedTime := 0, breakElapsedTime := 0)
  }

  /** The saved result accounts for every chip: buy-in plus rebuys plus
      expenses plus result is the final stack. */
  lemma ResultAccounts(s: Session, finalStack: int, id: string)
    ensures var x := StopAndSave(s, finalStack, id).saved[0];
      x.initialStack + x.totalRebuys + x.totalExpenses + x.result.value == x.finalStack
  {
  }

  /** A positive rebuy or expense lowers the saved result by exactly its
      amount; any other amount changes nothing. */
  lemma CostsLowerResult(s: Session, amount: int, finalStack: int, id: string)
    ensures StopAndSave(AddRebuy(s, amount), finalStack, id).saved[0].result.value
         == StopAndSave(s, finalStack, id).saved[0].result.value - Max(amount, 0)
    ensures StopAndSave(AddExpense(s, amount), finalStack, id).saved[0].result.value
         == StopAndSave(s, finalStack, id).saved[0].result.value - Max(amount, 0)
  {
  }

  /** A break's time is counted once, whether the break is ended before the
      session stops or the session stops during it. */
  lemma BreakCountedOnce(s: Session, finalStack: int, id: string)
    requires s.isOnBreak
    ensures StopAndSave(EndBreak(s), finalStack, id).saved[0] == StopAndSave(s, finalStack, id).saved[0]
  {
  }

  /** A session stopped right after it starts saves the final stack less the
      buy-in, with no time on the clock. */
  lemma StartThenStop(s: Session, finalStack: int, id: string)
    ensures var x := StopAndSave(StartSession(s), finalStack, id).saved[0];
      x.result == Some(finalStack - s.initialStack) && x.duration == 0 && x.totalBreakTime == 0
  {
  }

  /** `deleteSession(id)`: the summaries whose id differs, in their order. */
  function DeleteSession(ss: seq<Summary>, id: string): (r: seq<Summary>)
    ensures |r| <= |ss|
    ensures forall k :: 0 <= k < |r| ==> r[k].id != id
  {
    if |ss| == 0 then []
    else (if ss[0].id != id then [ss[0]] else []) + DeleteSession(ss[1..], id)
  }

  /** A summary survives deletion iff its id differs, and every survivor
      appears as often as before. */
  lemma {:induction false} DeleteSessionKeeps(ss: seq<Summary>, id: string)
    ensures var r := DeleteSession(ss, id);
      forall x :: x in r <==> x in ss && x.id != id
    ensures var r := DeleteSession(ss, id);
      forall x :: multiset(r)[x] == if x.id != id then multiset(ss)[x] else 0
  {
    if |ss| > 0 {
      assert ss == [ss[0]] + ss[1..];
      DeleteSessionKeeps(ss[1..], id);
    }
  }

  /** Deleting distributes over concatenation, so the kept summaries stay
      in their order. */
  lemma {:induction false} DeleteAppend(a: seq<Summary>, b: seq<Summary>, id: string)
    ensures DeleteSession(a + b, id) == DeleteSession(a, id) + DeleteSession(b, id)
  {
    if |a| > 0 {
      assert (a + b)[1..] == a[1..] + b;
      DeleteAppend(a[1..], b, id);
    } else {
      assert a + b == b;
    }
  }

  /** Deleting an id no summary carries changes nothing. */
  lemma {:induction false} DeleteAbsent(ss: seq<Summary>, id: string)
    requires forall k :: 0 <= k < |ss| ==> ss[k].id != id
    ensures DeleteSession(ss, id) == ss
  {
    if |ss| > 0 {
      DeleteAbsent(ss[1..], id);
    }
  }

  /** Deleting twice is deleting once. */
  lemma DeleteIdempotent(ss: seq<Summary>, id: string)
    ensures DeleteSession(DeleteSession(ss, id), id) == DeleteSession(ss, id)
  {
    DeleteAbsent(DeleteSession(ss, id), id);
  }

  /** Deleting the summary just saved under a fresh id restores the saved
      list. */
  lemma SaveThenDelete(s: Session, finalStack: int, id: string)
    requires forall k :: 0 <= k < |s.saved| ==> s.saved[k].id != id
    ensures DeleteSession(StopAndSave(s, finalStack, id).saved, id) == s.saved
  {
    var r := StopAndSave(s, finalStack, id);
    assert r.saved == [r.saved[0]] + s.saved;
    DeleteAppend([r.saved[0]], s.saved, id);
    DeleteAbsent(s.saved, id);
  }

  /** `session.result || 0`. */
  function ResultOr0(x: Summary): int
  {
    if x.result.Some? then x.result.value else 0
  }

  predicate Won(x: Summary) { x.result.Some? && x.result.value > 0 }

  predicate Lost(x: Summary) { x.result.Some? && x.result.value < 0 }

  /** `totalNetProfit`: the sum of the results, a missing one counting 0. */
  function TotalNetProfit(ss: seq<Summary>): (p: int)
    // without a losing session the net profit is not negative, without a winning one not positive
    ensures (forall k :: 0 <= k < |ss| ==> !Lost(ss[k])) ==> p >= 0
    ensures (forall k :: 0 <= k < |ss| ==> !Won(ss[k])) ==> p <= 0
  {
    if |ss| == 0 then 0 else ResultOr0(ss[0]) + TotalNetProfit(ss[1..])
  }

  /** Saving a session adds its result to the net profit. */
  lemma SaveAddsProfit(s: Session, finalStack: int, id: string)
    ensures TotalNetProfit(StopAndSave(s, finalStack, id).saved) == TotalNetProfit(s.saved) + SessionResult(s, finalStack)
  {
    assert StopAndSave(s, finalStack, id).saved[1..] == s.saved;
  }

  /** `winningDays`: the summaries with a positive result. */
  function WinningDays(ss: seq<Summary>): (n: nat)
    ensures n <= |ss|
    ensures n == 0 <==> forall k :: 0 <= k < |ss| ==> !Won(ss[k])
    ensures n == |ss| <==> forall k :: 0 <= k < |ss| ==> Won(ss[k])
  {
    if |ss| == 0 then 0 else (if Won(ss[0]) then 1 else 0) + WinningDays(ss[1..])
  }

  /** `losingDays`: the summaries with a negative result. */
  function LosingDays(ss: seq<Summary>): (n: nat)
    ensures n <= |ss|
    ensures n == 0 <==> forall k :: 0 <= k < |ss| ==> !Lost(ss[k])
    ensures n == |ss| <==> forall k :: 0 <= k < |ss| ==> Lost(ss[k])
  {
    if |ss| == 0 then 0 else (if Lost(ss[0]) then 1 else 0) + LosingDays(ss[1..])
  }

  /** No summary is both a winning and a losing day, so together they never
      exceed `sessionCount`. */
  lemma {:induction false} WinLoseBound(ss: seq<Summary>)
    ensures WinningDays(ss) + LosingDays(ss) <= |ss|
  {
    if |ss| > 0 {
      WinLoseBound(ss[1..]);
    }
  }

  /** `bestDay`: the highest result, a missing one counting 0; 0 with no
      summaries. */
  function BestDay(ss: seq<Summary>): (b: int)
    ensures forall k :: 0 <= k < |ss| ==> ResultOr0(ss[k]) <= b
    ensures |ss| > 0 ==> exists k :: 0 <= k < |ss| && ResultOr0(ss[k]) == b
    ensures |ss| == 0 ==> b == 0
  {
    if |ss| == 0 then 0
    else if |ss| == 1 then ResultOr0(ss[0])
    else
      var rest := BestDay(ss[1..]);
      assert forall k :: 1 <= k < |ss| ==> ss[k] == ss[1..][k - 1];
      Max(ResultOr0(ss[0]), rest)
  }

  /** `worstDay`: the lowest result, a missing one counting 0; 0 with no
      summaries. */
  function WorstDay(ss: seq<Summary>): (w: int)
    ensures forall k :: 0 <= k < |ss| ==> w <= ResultOr0(ss[k])
    ensures |ss| > 0 ==> exists k :: 0 <= k < |ss| && ResultOr0(ss[k]) == w
    ensures |ss| == 0 ==> w == 0
  {
    if |ss| == 0 then 0
    else if |ss| == 1 then ResultOr0(ss[0])
    else
      var rest := WorstDay(ss[1..]);
      assert forall k :: 1 <= k < |ss| ==> ss[k] == ss[1..][k - 1];
      Min(ResultOr0(ss[0]), rest)
  }

  /** The worst day is never better than the best day. */
  lemma WorstNotAboveBest(ss: seq<Summary>)
    ensures WorstDay(ss) <= BestDay(ss)
  {
    if |ss| > 0 {
      assert WorstDay(ss) <= ResultOr0(ss[0]) <= BestDay(ss);
    }
  }

  /** The summaries in the order they were played (the list is newest
      first). */
  function Chronological(ss: seq<Summary>): (c: seq<Summary>)
    ensures |c| == |ss|
    ensures forall k :: 0 <= k < |ss| ==> c[k] == ss[|ss| - 1 - k]
  {
    if |ss| == 0 then [] else Chronological(ss[1..]) + [ss[0]]
  }

  /** Every summary in `c[i..j]` is a win. */
  predicate WinRun(c: seq<Summary>, i: int, j: int)
    requires 0 <= i <= j <= |c|
  {
    forall k :: i <= k < j ==> Won(c[k])
  }

  /** `winningStreak`: the longest run of consecutive winning sessions in
      the order they were played; 0 without summaries. */
  method WinningStreak(ss: seq<Summary>) returns (best: nat)
    ensures var c := Chronological(ss);
      forall i, j :: 0 <= i <= j <= |c| && WinRun(c, i, j) ==> j - i <= best
    ensures var c := Chronological(ss);
      exists i, j :: 0 <= i <= j <= |c| && j - i == best && WinRun(c, i, j)
  {
    var c := Chronological(ss);
    var current: nat := 0;
    var start: nat := 0;
    best := 0;
    var n := 0;
    while n < |c|
      invariant 0 <= n <= |c| && current <= n
      invariant WinRun(c, n - current, n)
      invariant n - current > 0 ==> !Won(c[n - current - 1])
      invariant forall i, j :: 0 <= i <= j <= n - current && WinRun(c, i, j) ==> j - i <= best
      invariant start + best <= n && WinRun(c, start, start + best)
    {
      if Won(c[n]) {
        current := current + 1;
      } else {
        if current > best {
          best := current;
          start := n - current;
        }
        current := 0;
        forall i, j | 0 <= i <= j <= n + 1 && WinRun(c, i, j)
          ensures j - i <= best
        {
          RunBefore(c, i, j, n);
        }
      }
      n := n + 1;
    }
    if current > best {
      best := current;
      start := n - current;
    }
    LastRun(c, current, best);
    assert c == Chronological(ss);
    assert 0 <= start <= start + best <= |c| && best == (start + best) - start && WinRun(c, start, start + best);
  }

  /** After the last summary, a run either ends before the final streak
      or lies inside it, so both are bounded by `best`. */
  lemma LastRun(c: seq<Summary>, current: nat, best: nat)
    requires current <= |c| && current <= best
    requires WinRun(c, |c| - current, |c|)
    requires |c| - current > 0 ==> !Won(c[|c| - current - 1])
    requires forall i, j :: 0 <= i <= j <= |c| - current && WinRun(c, i, j) ==> j - i <= best
    ensures forall i, j :: 0 <= i <= j <= |c| && WinRun(c, i, j) ==> j - i <= best
  {
    var n := |c|;
    forall i, j | 0 <= i <= j <= n && WinRun(c, i, j)
      ensures j - i <= best
    {
      if i < n - current && j > n - current {
        RunBefore(c, i, j, n - current - 1);
      }
    }
  }

  /** A run of wins cannot contain the loss at `n`. */
  lemma RunBefore(c: seq<Summary>, i: int, j: int, n: int)
    requires 0 <= n && 0 <= i <= j <= n + 1 <= |c| && WinRun(c, i, j) && !Won(c[n])
    ensures j <= n || i == j
  {
  }
}
