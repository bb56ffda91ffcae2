/** The multi-day tournament session: the live session state, the day
    records it saves, and resuming a tournament on its next day. The
    duration is typed in as hours and minutes; a tournament id groups the
    days of one tournament. */
module TournamentSessions {
  import opened Base

  /** A duration input field: a number the program stored, or text typed
      by the player (read with `parseInt`). */
  datatype Field = Num(n: int) | Typed(text: string)

  /** `parseInt(field) || 0`. */
  function FieldValue(f: Field): (v: int)
    ensures f.Num? ==> v == f.n
    // NaN and a parsed 0 both fall back to 0; any other reading is kept
    ensures f.Typed? ==> (v == 0 <==> ParseInt(f.text, 0).None? || ParseInt(f.text, 0) == Some(0))
    ensures f.Typed? && ParseInt(f.text, 0).Some? ==> v == ParseInt(f.text, 0).value
  {
    match f
    case Num(n) => n
    case Typed(t) => (match ParseInt(t, 0) case Some(v) => v case None => 0)
  }

  /** The live tournament session. `tournamentId` is `None` when it is null
      or empty. */
  datatype State = State(
    isActive: bool, isResuming: bool, tournamentId: Option<string>,
    durationHours: Field, durationMinutes: Field,
    totalRebuys: int, totalExpenses: int, initialStack: int, currentDay: int)

  /** A saved day of a tournament. Optional fields are `None` when the
      record lacks them; `Some(0)` and `None` read alike wherever the
      program falls back to a default. */
  datatype DayRecord = DayRecord(
    id: int, tournamentId: Option<string>, duration: Option<int>,
    isDay2: bool, day: Option<int>, day2Stack: Option<int>,
    initialStack: Option<int>, totalRebuys: int, totalExpenses: Option<int>)

  /** What the player enters when a day ends. */
  datatype DayEnd = DayEnd(isDay2: bool, totalRebuys: int, day2Stack: Option<int>)

  /** `x || d` for a number that may be missing. */
  function OrElse(x: Option<int>, d: int): int
  {
    if x.Some? && x.value != 0 then x.value else d
  }

  /** `totalDurationInSeconds`: hours and minutes as seconds, an unreadable
      field counting 0. */
  function TotalDuration(st: State): (s: int)
    ensures s == 3600 * FieldValue(st.durationHours) + 60 * FieldValue(st.durationMinutes)
  {
    FieldValue(st.durationHours) * 3600 + FieldValue(st.durationMinutes) * 60
  }

  /** A typed decimal number reads back as itself. */
  lemma TypedDigits(n: nat)
    ensures FieldValue(Typed(Digits(n, 10))) == n
  {
    ParseIntDigits(n, [], 0);
    assert Digits(n, 10) + [] == Digits(n, 10);
  }

  /** `startSession()`: the session runs with no time, rebuys or expenses;
      the tournament id and day are kept. */
  function StartSession(st: State): (r: State)
    ensures r.isActive && TotalDuration(r) == 0 && r.totalRebuys == 0 && r.totalExpenses == 0
    ensures r.tournamentId == st.tournamentId && r.currentDay == st.currentDay && r.isResuming == st.isResuming
  {
    st.(isActive := true, durationHours := Num(0), durationMinutes := Num(0), totalRebuys := 0, totalExpenses := 0)
  }

  /** `addRebuy(amount)`: only a positive amount counts. */
  function AddRebuy(st: State, amount: int): (r: State)
    ensures r == st.(totalRebuys := r.totalRebuys)
    ensures r.totalRebuys == st.totalRebuys + Max(amount, 0)
  {
    if amount > 0 then st.(totalRebuys := st.totalRebuys + amount) else st
  }

  /** `addExpense(amount)`: only a positive amount counts. */
  function AddExpense(st: State, amount: int): (r: State)
    ensures r == st.(totalExpenses := r.totalExpenses)
    ensures r.totalExpenses == st.totalExpenses + Max(amount, 0)
  {
    if amount > 0 then st.(totalExpenses := st.totalExpenses + amount) else st
  }

  /** The tournament id of a new tournament first saved at time `now`. */
  function NewTournamentId(now: nat): string
  {
    "tournament_" + Digits(now, 10)
  }

  /** `saveTournament(data)` at time `now` (milliseconds, also the record's
      id): the day is appended under the session's tournament id, or a new
      one; a day that continues is stored as the next day, and a day that
      ends the tournament clears the id and starts the count again at day
      one. The typed duration is cleared either way. */
  function SaveTournament(st: State, saved: seq<DayRecord>, data: DayEnd, now: nat): (r: (State, seq<DayRecord>))
    ensures var (st', saved') := r;
      && |saved'| == |saved| + 1 && saved'[..|saved|] == saved
      && saved'[|saved|].tournamentId == Some(if st.tournamentId.Some? then st.tournamentId.value else NewTournamentId(now))
      && saved'[|saved|].duration == Some(TotalDuration(st))
      && saved'[|saved|].isDay2 == data.isDay2
      && saved'[|saved|].day == Some(if data.isDay2 then st.currentDay + 1 else st.currentDay)
      && saved'[|saved|].id == now
      && saved'[|saved|].totalRebuys == data.totalRebuys && saved'[|saved|].day2Stack == data.day2Stack
      && TotalDuration(st') == 0
      && (data.isDay2 ==> st'.tournamentId == st.tournamentId && st'.currentDay == st.currentDay)
      && (!data.isDay2 ==> st'.tournamentId == None && st'.currentDay == 1)
    // only the tournament id, the day and the two duration fields change
    ensures var st' := r.0;
      st' == st.(tournamentId := st'.tournamentId, currentDay := st'.currentDay,
                 durationHours := st'.durationHours, durationMinutes := st'.durationMinutes)
  {
    var tid := if st.tournamentId.Some? then st.tournamentId.value else NewTournamentId(now);
    var record := DayRecord(now, Some(tid), Some(TotalDuration(st)), data.isDay2,
                            Some(if data.isDay2 then st.currentDay + 1 else st.currentDay),
                            data.day2Stack, None, data.totalRebuys, None);
    var st1 := if data.isDay2 then st else st.(tournamentId := None, currentDay := 1);
    (st1.(durationHours := Num(0), durationMinutes := Num(0)), saved + [record])
  }

  /** JavaScript's `%` truncates toward zero. */
  function JsRem(a: int, b: int): int
    requires b > 0
  {
    if a >= 0 then a % b else -((-a) % b)
  }

  /** `Math.floor(a / b)` for a positive divisor (Dafny's `/` already rounds
      down when the divisor is positive). */
  function FloorDiv(a: int, b: int): int
    requires b > 0
  {
    a / b
  }

  /** `resumeTournament(record)`: only a day that continues can be resumed
      (`None` stands for the thrown error). The saved seconds come back as
      hours and minutes, the day defaults to 2, and the session is loaded
      but not running. */
  function ResumeTournament(st: State, d: DayRecord): (r: Option<State>)
    ensures r.None? <==> !d.isDay2
    ensures r.Some? ==>
      && !r.value.isActive && r.value.isResuming
      && r.value.tournamentId == d.tournamentId
      && r.value.currentDay == OrElse(d.day, 2)
      && r.value.initialStack == OrElse(d.day2Stack, OrElse(d.initialStack, 5000))
      && r.value.totalRebuys == d.totalRebuys
      && r.value.totalExpenses == OrElse(d.totalExpenses, 0)
  {
    if !d.isDay2 then None
    else
      var secs := OrElse(d.duration, 0);
      Some(st.(
        initialStack := OrElse(d.day2Stack, OrElse(d.initialStack, 5000)),
        totalRebuys := d.totalRebuys,
        totalExpenses := OrElse(d.totalExpenses, 0),
        currentDay := OrElse(d.day, 2),
        tournamentId := d.tournamentId,
        isActive := false, isResuming := true,
        durationHours := Num(FloorDiv(secs, 3600)),
        durationMinutes := Num(FloorDiv(JsRem(secs, 3600), 60))))
  }

  /** Resuming a non-negative duration keeps it to the minute: the minutes
      are below 60 and the restored total is the saved seconds less the
      leftover seconds. */
  lemma ResumeDuration(st: State, d: DayRecord)
    requires d.isDay2 && (d.duration.None? || d.duration.value >= 0)
    ensures var r := ResumeTournament(st, d).value;
      var secs := OrElse(d.duration, 0);
      && 0 <= FieldValue(r.durationMinutes) < 60
      && TotalDuration(r) == secs - secs % 60
  {
    var secs := OrElse(d.duration, 0);
    var h := secs / 3600;
    var m := (secs % 3600) / 60;
    assert secs == 3600 * h + secs % 3600;
    assert secs % 3600 == 60 * m + (secs % 3600) % 60;
    SecondsSplit(secs);
  }

  /** Taking away whole hours leaves the seconds-within-minute untouched. */
  lemma SecondsSplit(secs: nat)
    ensures (secs % 3600) % 60 == secs % 60
  {
    var h := secs / 3600;
    var q := secs % 3600;
    assert secs == 60 * (60 * h) + q;
    assert (60 * (60 * h) + q) % 60 == q % 60;
  }

  /** A continuing day saved and then resumed carries the tournament on:
      the same tournament id, the next day, the day's rebuys and day-two
      stack, and the typed hours and minutes
      back as they were typed (when they are non-negative and the minutes
      are below an hour). */
  lemma SaveThenResume(st: State, saved: seq<DayRecord>, data: DayEnd, now: nat)
    requires data.isDay2 && st.currentDay >= 0
    requires FieldValue(st.durationHours) >= 0 && 0 <= FieldValue(st.durationMinutes) < 60
    ensures var (st', saved') := SaveTournament(st, saved, data, now);
      var r := ResumeTournament(st', saved'[|saved|]);
      && r.Some?
      && r.value.tournamentId == Some(if st.tournamentId.Some? then st.tournamentId.value else NewTournamentId(now))
      && r.value.currentDay == st.currentDay + 1
      && FieldValue(r.value.durationHours) == FieldValue(st.durationHours)
      && FieldValue(r.value.durationMinutes) == FieldValue(st.durationMinutes)
      // the day's rebuys and its day-two stack carry over to the next day
      && r.value.totalRebuys == data.totalRebuys
      && r.value.initialStack == OrElse(data.day2Stack, 5000)
  {
    var h := FieldValue(st.durationHours);
    var m := FieldValue(st.durationMinutes);
    HoursMinutes(h, m);
  }

  /** Whole hours and minutes below an hour come back from their seconds. */
  lemma HoursMinutes(h: nat, m: nat)
    requires m < 60
    ensures (3600 * h + 60 * m) / 3600 == h
    ensures ((3600 * h + 60 * m) % 3600) / 60 == m
  {
    assert 0 <= 60 * m < 3600;
  }

  /** `findIndex(s => s.id === id)`. */
  function FindRecord(saved: seq<DayRecord>, id: int): (r: Option<nat>)
    ensures r.Some? ==> r.value < |saved| && saved[r.value].id == id && forall k :: 0 <= k < r.value ==> saved[k].id != id
    ensures r.None? ==> forall k :: 0 <= k < |saved| ==> saved[k].id != id
  {
    if |saved| == 0 then None
    else if saved[0].id == id then Some(0)
    else match FindRecord(saved[1..], id)
      case None => None
      case Some(k) => Some(k + 1)
  }

  /** `updateSession(id, changes)`: the first record with that id takes the
      changes (`merge` stands for spreading them over the record); without
      one nothing changes. */
  function UpdateSession(saved: seq<DayRecord>, id: int, merge: DayRecord -> DayRecord): (r: seq<DayRecord>)
    ensures |r| == |saved|
    ensures (forall k :: 0 <= k < |saved| ==> saved[k].id != id) ==> r == saved
    ensures forall k :: 0 <= k < |saved| && saved[k].id == id && (forall j :: 0 <= j < k ==> saved[j].id != id) ==>
      r == saved[k := merge(saved[k])]
  {
    match FindRecord(saved, id)
    case None => saved
    case Some(k) => saved[k := merge(saved[k])]
  }
}
