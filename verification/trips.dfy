/** The trip tracker: a group of players on a trip, the list of trip days,
    and per day the result and hours each player records. The program keeps
    the daily records in objects keyed by date and by player id; they are
    modelled as association lists in insertion order, which is the order
    the program walks them in. Amounts are whole chip counts. */
module Trips {
  import opened Base

  datatype TripPlayer = TripPlayer(id: string, name: string, bankroll: int)

  datatype DayEntry = DayEntry(result: int, hours: int, stake: string)

  /** The entry every player gets on a new day. */
  const NoPlay := DayEntry(0, 0, "")

  datatype Trip = Trip(
    players: seq<TripPlayer>, playerCount: int,
    tripDays: seq<string>, daily: seq<(string, seq<(string, DayEntry)>)>)

  // ---------------------------------------------------------------------
  // Association lists (a JavaScript object with string keys)

  /** `obj[k]`: the value under the first occurrence of `k`. */
  function Lookup<V>(a: seq<(string, V)>, k: string): (r: Option<V>)
    ensures r.None? <==> forall i :: 0 <= i < |a| ==> a[i].0 != k
    ensures r.Some? ==> exists i :: 0 <= i < |a| && a[i] == (k, r.value)
  {
    if |a| == 0 then None else if a[0].0 == k then Some(a[0].1) else Lookup(a[1..], k)
  }

  /** `obj[k] = v`: an existing key keeps its place, a new one goes last. */
  function Put<V>(a: seq<(string, V)>, k: string, v: V): (r: seq<(string, V)>)
    ensures Lookup(r, k) == Some(v)
    ensures forall j :: j != k ==> Lookup(r, j) == Lookup(a, j)
    ensures |r| == if Lookup(a, k).None? then |a| + 1 else |a|
    ensures Lookup(a, k).None? ==> r == a + [(k, v)]
    ensures forall i :: 0 <= i < |r| ==> r[i] == (k, v) || r[i] in a
  {
    if |a| == 0 then [(k, v)]
    else if a[0].0 == k then [(k, v)] + a[1..]
    else [a[0]] + Put(a[1..], k, v)
  }

  // ---------------------------------------------------------------------
  // String order (`Array.prototype.sort` compares strings code unit by code unit)

  /** The UTF-16 code units of a string: a character above U+FFFF becomes
      a surrogate pair. */
  function Utf16(s: string): seq<int>
  {
    if |s| == 0 then []
    else
      var c := s[0] as int;
      var units := if c < 0x1_0000 then [c]
                   else [0xD800 + (c - 0x1_0000) / 0x400, 0xDC00 + (c - 0x1_0000) % 0x400];
      units + Utf16(s[1..])
  }

  /** Lexicographic order on code-unit sequences; a prefix comes first. */
  predicate UnitsLe(a: seq<int>, b: seq<int>)
    decreases |a|
  {
    if |a| == 0 then true
    else if |b| == 0 then false
    else if a[0] != b[0] then a[0] < b[0]
    else UnitsLe(a[1..], b[1..])
  }

  /** The order `sort()` puts strings in. */
  predicate StrLe(a: string, b: string)
  {
    UnitsLe(Utf16(a), Utf16(b))
  }

  lemma {:induction false} UnitsLeTotal(a: seq<int>, b: seq<int>)
    ensures UnitsLe(a, b) || UnitsLe(b, a)
    decreases |a|
  {
    if |a| > 0 && |b| > 0 && a[0] == b[0] {
      UnitsLeTotal(a[1..], b[1..]);
    }
  }

  lemma {:induction false} UnitsLeTrans(a: seq<int>, b: seq<int>, c: seq<int>)
    requires UnitsLe(a, b) && UnitsLe(b, c)
    ensures UnitsLe(a, c)
    decreases |a|
  {
    if |a| > 0 && |b| > 0 && |c| > 0 && a[0] == b[0] && b[0] == c[0] {
      UnitsLeTrans(a[1..], b[1..], c[1..]);
    }
  }

  lemma StrLeTotal(a: string, b: string)
    ensures StrLe(a, b) || StrLe(b, a)
  {
    UnitsLeTotal(Utf16(a), Utf16(b));
  }

  lemma StrLeTrans(a: string, b: string, c: string)
    requires StrLe(a, b) && StrLe(b, c)
    ensures StrLe(a, c)
  {
    UnitsLeTrans(Utf16(a), Utf16(b), Utf16(c));
  }

  /** A character above U+FFFF sorts before U+FF61, whose single code unit
      is larger than the high surrogate 0xD83D of U+1F600. */
  lemma SurrogatesSortFirst()
    ensures StrLe("\U{1F600}", "\U{FF61}") && !StrLe("\U{FF61}", "\U{1F600}")
  {
    assert Utf16("\U{1F600}") == [0xD83D, 0xDE00];
    assert Utf16("\U{FF61}") == [0xFF61];
  }

  predicate Sorted(s: seq<string>)
  {
    forall i, j :: 0 <= i < j < |s| ==> StrLe(s[i], s[j])
  }

  /** `x` put into the sorted list `s` before the first element it does not
      follow. */
  function Insert(x: string, s: seq<string>): (r: seq<string>)
    requires Sorted(s)
    ensures Sorted(r) && multiset(r) == multiset(s) + multiset{x}
  {
    if |s| == 0 then [x]
    else if StrLe(x, s[0]) then
      InsertFront(x, s);
      [x] + s
    else
      var rest := Insert(x, s[1..]);
      StrLeTotal(x, s[0]);
      InsertBehind(x, s, rest);
      assert s == [s[0]] + s[1..];
      [s[0]] + rest
  }

  lemma InsertFront(x: string, s: seq<string>)
    requires Sorted(s) && |s| > 0 && StrLe(x, s[0])
    ensures Sorted([x] + s)
  {
    forall j | 0 <= j < |s| ensures StrLe(x, s[j]) {
      if j > 0 {
        StrLeTrans(x, s[0], s[j]);
      }
    }
  }

  lemma InsertBehind(x: string, s: seq<string>, rest: seq<string>)
    requires Sorted(s) && |s| > 0 && StrLe(s[0], x)
    requires Sorted(rest) && multiset(rest) == multiset(s[1..]) + multiset{x}
    ensures Sorted([s[0]] + rest)
  {
    forall k | 0 <= k < |rest| ensures StrLe(s[0], rest[k]) {
      assert rest[k] in multiset(rest);
      if rest[k] != x {
        assert rest[k] in s[1..];
        var j :| 0 <= j < |s[1..]| && s[1..][j] == rest[k];
        assert s[j + 1] == rest[k];
      }
    }
  }

  /** `sort()`: the sorted arrangement of `s`. */
  function Sort(s: seq<string>): (r: seq<string>)
    ensures Sorted(r) && multiset(r) == multiset(s)
  {
    if |s| == 0 then []
    else
      assert s == s[..|s| - 1] + [s[|s| - 1]];
      Insert(s[|s| - 1], Sort(s[..|s| - 1]))
  }

  // ---------------------------------------------------------------------
  // Days

  /** The records of a new day: one `NoPlay` entry per player id. */
  function NewDay(ps: seq<TripPlayer>): (r: seq<(string, DayEntry)>)
    ensures forall i :: 0 <= i < |r| ==> r[i].1 == NoPlay
  {
    if |ps| == 0 then [] else Put(NewDay(ps[..|ps| - 1]), ps[|ps| - 1].id, NoPlay)
  }

  /** A new day has an entry for exactly the players' ids. */
  lemma {:induction false} NewDayLookup(ps: seq<TripPlayer>, k: string)
    ensures Lookup(NewDay(ps), k) == if k in Ids(ps) then Some(NoPlay) else None
    decreases |ps|
  {
    if |ps| > 0 {
      var init := ps[..|ps| - 1];
      var last := ps[|ps| - 1].id;
      NewDayLookup(init, k);
      IdsSnoc(ps);
      if k == last {
        assert Lookup(NewDay(ps), k) == Some(NoPlay);
      } else {
        assert Lookup(NewDay(ps), k) == Lookup(NewDay(init), k);
      }
    }
  }

  lemma IdsSnoc(ps: seq<TripPlayer>)
    requires |ps| > 0
    ensures Ids(ps) == Ids(ps[..|ps| - 1]) + {ps[|ps| - 1].id}
  {
    var init := ps[..|ps| - 1];
    assert forall i :: 0 <= i < |init| ==> init[i] == ps[i];
  }

  /** `addTripDay(date)`: an empty date or a day already listed changes
      nothing; otherwise the day joins the sorted day list and gets a
      `NoPlay` entry for every player. */
  function AddTripDay(t: Trip, day: string): (r: Trip)
    ensures day == "" || day in t.tripDays ==> r == t
    ensures day != "" && day !in t.tripDays ==>
      && Sorted(r.tripDays) && multiset(r.tripDays) == multiset(t.tripDays) + multiset{day}
      && Lookup(r.daily, day) == Some(NewDay(t.players))
      && (forall d :: d != day ==> Lookup(r.daily, d) == Lookup(t.daily, d))
      && r.players == t.players
  {
    if day == "" || day in t.tripDays then t
    else t.(tripDays := Sort(t.tripDays + [day]), daily := Put(t.daily, day, NewDay(t.players)))
  }

  /** No date appears twice. */
  predicate NoRepeats(s: seq<string>)
  {
    forall i, j :: 0 <= i < j < |s| ==> s[i] != s[j]
  }

  /** A new day appears exactly once, and a list without repeats stays
      without repeats. */
  lemma AddTripDayOnce(t: Trip, day: string)
    requires day != "" && day !in t.tripDays
    ensures multiset(AddTripDay(t, day).tripDays)[day] == 1
    ensures NoRepeats(t.tripDays) ==> NoRepeats(AddTripDay(t, day).tripDays)
  {
    var r := AddTripDay(t, day).tripDays;
    assert multiset(t.tripDays)[day] == 0;
    if NoRepeats(t.tripDays) {
      NoRepeatsCount(t.tripDays);
      forall x ensures multiset(r)[x] <= 1 {
        if x != day {
          assert multiset(r)[x] == multiset(t.tripDays)[x];
        }
      }
      CountNoRepeats(r);
    }
  }

  lemma {:induction false} NoRepeatsCount(s: seq<string>)
    requires NoRepeats(s)
    ensures forall x :: multiset(s)[x] <= 1
  {
    if |s| > 0 {
      var u := s[..|s| - 1];
      assert s == u + [s[|s| - 1]];
      assert NoRepeats(u);
      NoRepeatsCount(u);
      assert s[|s| - 1] !in u;
    }
  }

  lemma {:induction false} CountNoRepeats(s: seq<string>)
    requires forall x :: multiset(s)[x] <= 1
    ensures NoRepeats(s)
  {
    forall i, j | 0 <= i < j < |s| ensures s[i] != s[j] {
      TwiceCounted(s, i, j);
    }
  }

  lemma TwiceCounted(s: seq<string>, i: nat, j: nat)
    requires i < j < |s|
    ensures s[i] == s[j] ==> multiset(s)[s[i]] >= 2
  {
    assert s == s[..i] + [s[i]] + s[i + 1..j] + [s[j]] + s[j + 1..];
  }

  // ---------------------------------------------------------------------
  // Daily records

  datatype DayField = ResultField | HoursField | StakeField

  /** `parseFloat(value) || 0` on a whole number. */
  function NumberOr0(value: string): int
  {
    match ParseInt(value, 10) case Some(v) => v case None => 0
  }

  /** The entry with one field set from `value`. */
  function SetField(e: DayEntry, field: DayField, value: string): (r: DayEntry)
    // only the named field changes
    ensures field != ResultField ==> r.result == e.result
    ensures field != HoursField ==> r.hours == e.hours
    ensures field != StakeField ==> r.stake == e.stake
    ensures field == StakeField ==> r.stake == value
    ensures field != StakeField ==> (if field == ResultField then r.result else r.hours) == NumberOr0(value)
    ensures r == e.(result := r.result, hours := r.hours, stake := r.stake)
  {
    match field
    case ResultField => e.(result := NumberOr0(value))
    case HoursField => e.(hours := NumberOr0(value))
    case StakeField => e.(stake := value)
  }

  /** A whole number typed in decimal is stored as that number, where
      `parseFloat` and the model agree. */
  lemma SetFieldWhole(e: DayEntry, field: DayField, n: nat)
    requires field != StakeField
    ensures var r := SetField(e, field, Digits(n, 10));
      (if field == ResultField then r.result else r.hours) == n
  {
    ParseIntDigits(n, "", 10);
    assert Digits(n, 10) + "" == Digits(n, 10);
  }

  /** `updatePlayerDailyData(day, playerId, field, value)`: a missing day or
      player changes nothing; otherwise that one entry takes the value and
      every other entry is kept. */
  function UpdatePlayerDailyData(t: Trip, day: string, pid: string, field: DayField, value: string): (r: Trip)
    ensures r.players == t.players && r.tripDays == t.tripDays
    ensures Lookup(t.daily, day).None? || Lookup(Lookup(t.daily, day).value, pid).None? ==> r == t
    ensures Lookup(t.daily, day).Some? && Lookup(Lookup(t.daily, day).value, pid).Some? ==>
      && Lookup(r.daily, day).Some?
      && Lookup(Lookup(r.daily, day).value, pid) == Some(SetField(Lookup(Lookup(t.daily, day).value, pid).value, field, value))
      && (forall q :: q != pid ==> Lookup(Lookup(r.daily, day).value, q) == Lookup(Lookup(t.daily, day).value, q))
      && (forall d :: d != day ==> Lookup(r.daily, d) == Lookup(t.daily, d))
  {
    match Lookup(t.daily, day)
    case None => t
    case Some(recs) =>
      match Lookup(recs, pid)
      case None => t
      case Some(e) => t.(daily := Put(t.daily, day, Put(recs, pid, SetField(e, field, value))))
  }

  // ---------------------------------------------------------------------
  // Players

  /** The `i`-th new seat (counting from 0) of `setPlayerCount`. */
  function NewPlayer(i: nat, uuid: nat -> string): TripPlayer
  {
    TripPlayer(uuid(i), "Jugador " + Digits(i + 1, 10), 1000)
  }

  /** The `count` players from seat `from` on added by `setPlayerCount`. */
  function NewPlayers(from: nat, count: nat, uuid: nat -> string): (r: seq<TripPlayer>)
    ensures |r| == count
    ensures forall k :: 0 <= k < |r| ==> r[k] == NewPlayer(from + k, uuid)
    decreases count
  {
    if count == 0 then [] else [NewPlayer(from, uuid)] + NewPlayers(from + 1, count - 1, uuid)
  }

  /** `setPlayerCount(n)`, with `uuid(i)` the id drawn for the `i`-th seat:
      growing adds numbered players with a bankroll of 1000, shrinking keeps
      the first `n` (a negative `n` cuts that many from the end, as
      `splice` does). */
  function SetPlayerCount(t: Trip, n: int, uuid: nat -> string): (r: Trip)
    ensures r.playerCount == n && r.tripDays == t.tripDays && r.daily == t.daily
    ensures n >= 0 ==> |r.players| == n
    ensures |r.players| >= |t.players| ==> r.players[..|t.players|] == t.players
    ensures |r.players| < |t.players| ==> r.players == t.players[..|r.players|]
    ensures n < 0 ==> |r.players| == Max(|t.players| + n, 0)
  {
    var len := |t.players|;
    var ps :=
      if n > len then t.players + NewPlayers(len, n - len, uuid)
      else if n >= 0 then t.players[..n]
      else t.players[..Max(len + n, 0)];
    t.(players := ps, playerCount := n)
  }

  /** `collectiveBankroll`: the players' bankrolls together. */
  function CollectiveBankroll(ps: seq<TripPlayer>): (r: int)
    ensures (forall i :: 0 <= i < |ps| ==> ps[i].bankroll >= 0) ==> r >= 0
    ensures (forall i :: 0 <= i < |ps| ==> ps[i].bankroll == 0) ==> r == 0
  {
    if |ps| == 0 then 0 else CollectiveBankroll(ps[..|ps| - 1]) + ps[|ps| - 1].bankroll
  }

  lemma {:induction false} BankrollAppend(a: seq<TripPlayer>, b: seq<TripPlayer>)
    ensures CollectiveBankroll(a + b) == CollectiveBankroll(a) + CollectiveBankroll(b)
    decreases |b|
  {
    if |b| > 0 {
      assert (a + b)[..|a + b| - 1] == a + b[..|b| - 1];
      BankrollAppend(a, b[..|b| - 1]);
    } else {
      assert a + b == a;
    }
  }

  lemma {:induction false} NewPlayersBankroll(from: nat, count: nat, uuid: nat -> string)
    ensures CollectiveBankroll(NewPlayers(from, count, uuid)) == 1000 * count
    decreases count
  {
    if count > 0 {
      NewPlayersBankroll(from + 1, count - 1, uuid);
      BankrollAppend([NewPlayer(from, uuid)], NewPlayers(from + 1, count - 1, uuid));
      assert [NewPlayer(from, uuid)][..0] == [];
    }
  }

  /** Each seat `setPlayerCount` adds brings 1000 into the collective
      bankroll. */
  lemma GrowBankroll(t: Trip, n: int, uuid: nat -> string)
    requires n >= |t.players|
    ensures CollectiveBankroll(SetPlayerCount(t, n, uuid).players) == CollectiveBankroll(t.players) + 1000 * (n - |t.players|)
  {
    if n > |t.players| {
      BankrollAppend(t.players, NewPlayers(|t.players|, n - |t.players|, uuid));
      NewPlayersBankroll(|t.players|, n - |t.players|, uuid);
    } else {
      assert t.players[..n] == t.players;
    }
  }

  // ---------------------------------------------------------------------
  // Totals

  /** What player `p` won on one day. */
  function DayTotal(recs: seq<(string, DayEntry)>, p: string): int
  {
    if |recs| == 0 then 0
    else DayTotal(recs[..|recs| - 1], p) + (if recs[|recs| - 1].0 == p then recs[|recs| - 1].1.result else 0)
  }

  /** What player `p` won over the recorded days. */
  function TripTotal(daily: seq<(string, seq<(string, DayEntry)>)>, p: string): int
  {
    if |daily| == 0 then 0 else TripTotal(daily[..|daily| - 1], p) + DayTotal(daily[|daily| - 1].1, p)
  }

  /** A player's day total skips records under other ids. */
  lemma {:induction false} DayTotalSkipsOthers(recs: seq<(string, DayEntry)>, p: string)
    ensures (forall k :: 0 <= k < |recs| ==> recs[k].0 != p) ==> DayTotal(recs, p) == 0
    ensures (forall k :: 0 <= k < |recs| && recs[k].0 == p ==> recs[k].1.result >= 0) ==> DayTotal(recs, p) >= 0
    decreases |recs|
  {
    if |recs| > 0 {
      DayTotalSkipsOthers(recs[..|recs| - 1], p);
    }
  }

  /** A player with no record on any day has a trip total of 0. */
  lemma {:induction false} TripTotalSkipsOthers(daily: seq<(string, seq<(string, DayEntry)>)>, p: string)
    requires forall d, k :: 0 <= d < |daily| && 0 <= k < |daily[d].1| ==> daily[d].1[k].0 != p
    ensures TripTotal(daily, p) == 0
    decreases |daily|
  {
    if |daily| > 0 {
      TripTotalSkipsOthers(daily[..|daily| - 1], p);
      DayTotalSkipsOthers(daily[|daily| - 1].1, p);
    }
  }

  /** The results of one day together. */
  function DayProfit(recs: seq<(string, DayEntry)>): (r: int)
    // a day on which nobody won or lost anything adds nothing
    ensures (forall k :: 0 <= k < |recs| ==> recs[k].1.result == 0) ==> r == 0
    ensures (forall k :: 0 <= k < |recs| ==> recs[k].1.result >= 0) ==> r >= 0
  {
    if |recs| == 0 then 0 else DayProfit(recs[..|recs| - 1]) + recs[|recs| - 1].1.result
  }

  /** `tripTotalProfit`: every result of every day together. */
  function TripProfit(daily: seq<(string, seq<(string, DayEntry)>)>): (r: int)
    ensures (forall d, k :: 0 <= d < |daily| && 0 <= k < |daily[d].1| ==> daily[d].1[k].1.result == 0) ==> r == 0
  {
    if |daily| == 0 then 0 else TripProfit(daily[..|daily| - 1]) + DayProfit(daily[|daily| - 1].1)
  }

  function Ids(ps: seq<TripPlayer>): set<string>
  {
    set i | 0 <= i < |ps| :: ps[i].id
  }

  /** `playerTotals`: for each player id, the results recorded under it
      over every day; records under other ids are skipped. */
  method PlayerTotals(t: Trip) returns (totals: map<string, int>)
    ensures totals.Keys == Ids(t.players)
    ensures forall p :: p in totals ==> totals[p] == TripTotal(t.daily, p)
  {
    totals := map[];
    var i := 0;
    while i < |t.players|
      invariant 0 <= i <= |t.players|
      invariant totals.Keys == Ids(t.players[..i])
      invariant forall p :: p in totals ==> totals[p] == 0
    {
      totals := totals[t.players[i].id := 0];
      assert t.players[..i + 1] == t.players[..i] + [t.players[i]];
      i := i + 1;
    }
    assert t.players[..i] == t.players;
    var d := 0;
    while d < |t.daily|
      invariant 0 <= d <= |t.daily|
      invariant totals.Keys == Ids(t.players)
      invariant forall p :: p in totals ==> totals[p] == TripTotal(t.daily[..d], p)
    {
      var recs := t.daily[d].1;
      var k := 0;
      while k < |recs|
        invariant 0 <= k <= |recs|
        invariant totals.Keys == Ids(t.players)
        invariant forall p :: p in totals ==> totals[p] == TripTotal(t.daily[..d], p) + DayTotal(recs[..k], p)
      {
        var (pid, e) := recs[k];
        assert recs[..k + 1][..k] == recs[..k];
        if pid in totals {
          totals := totals[pid := totals[pid] + e.result];
        }
        k := k + 1;
      }
      assert recs[..k] == recs;
      assert t.daily[..d + 1][..d] == t.daily[..d];
      d := d + 1;
    }
    assert t.daily[..d] == t.daily;
  }

  /** Every record of every day is filed under a player id. */
  predicate RecordsOfPlayers(t: Trip)
  {
    forall d, k :: 0 <= d < |t.daily| && 0 <= k < |t.daily[d].1| ==> t.daily[d].1[k].0 in Ids(t.players)
  }

  /** The players' ids, each once. */
  predicate DistinctIds(ps: seq<TripPlayer>)
  {
    forall i, j :: 0 <= i < j < |ps| ==> ps[i].id != ps[j].id
  }

  /** `p`'s total, summed over the players `ps`. */
  function SumTotals(ps: seq<TripPlayer>, daily: seq<(string, seq<(string, DayEntry)>)>): int
  {
    if |ps| == 0 then 0 else SumTotals(ps[..|ps| - 1], daily) + TripTotal(daily, ps[|ps| - 1].id)
  }

  function SumDayTotals(ps: seq<TripPlayer>, recs: seq<(string, DayEntry)>): int
  {
    if |ps| == 0 then 0 else SumDayTotals(ps[..|ps| - 1], recs) + DayTotal(recs, ps[|ps| - 1].id)
  }

  /** When every record belongs to a current player and ids are distinct,
      the players' totals add up to the trip's total profit. */
  lemma TotalsAddUp(t: Trip)
    requires DistinctIds(t.players) && RecordsOfPlayers(t)
    ensures SumTotals(t.players, t.daily) == TripProfit(t.daily)
  {
    TotalsAddUpOver(t.players, t.daily);
  }

  lemma {:induction false} TotalsAddUpOver(ps: seq<TripPlayer>, daily: seq<(string, seq<(string, DayEntry)>)>)
    requires DistinctIds(ps)
    requires forall d, k :: 0 <= d < |daily| && 0 <= k < |daily[d].1| ==> daily[d].1[k].0 in Ids(ps)
    ensures SumTotals(ps, daily) == TripProfit(daily)
    decreases |daily|
  {
    if |daily| == 0 {
      SumTotalsEmpty(ps, daily);
    } else {
      var init := daily[..|daily| - 1];
      var recs := daily[|daily| - 1].1;
      assert forall d :: 0 <= d < |init| ==> init[d] == daily[d];
      TotalsAddUpOver(ps, init);
      SumTotalsSplit(ps, daily);
      DayTotalsAddUp(ps, recs);
    }
  }

  lemma {:induction false} SumTotalsEmpty(ps: seq<TripPlayer>, daily: seq<(string, seq<(string, DayEntry)>)>)
    requires |daily| == 0
    ensures SumTotals(ps, daily) == 0
    decreases |ps|
  {
    if |ps| > 0 {
      SumTotalsEmpty(ps[..|ps| - 1], daily);
    }
  }

  /** Summing over the players splits by day. */
  lemma {:induction false} SumTotalsSplit(ps: seq<TripPlayer>, daily: seq<(string, seq<(string, DayEntry)>)>)
    requires |daily| > 0
    ensures SumTotals(ps, daily) == SumTotals(ps, daily[..|daily| - 1]) + SumDayTotals(ps, daily[|daily| - 1].1)
    decreases |ps|
  {
    if |ps| > 0 {
      SumTotalsSplit(ps[..|ps| - 1], daily);
    }
  }

  /** On one day whose records all belong to distinct players, the players'
      day totals add up to the day's profit. */
  lemma {:induction false} DayTotalsAddUp(ps: seq<TripPlayer>, recs: seq<(string, DayEntry)>)
    requires DistinctIds(ps)
    requires forall k :: 0 <= k < |recs| ==> recs[k].0 in Ids(ps)
    ensures SumDayTotals(ps, recs) == DayProfit(recs)
    decreases |recs|
  {
    if |recs| == 0 {
      SumDayTotalsEmpty(ps, recs);
    } else {
      var init := recs[..|recs| - 1];
      var last := recs[|recs| - 1];
      assert forall k :: 0 <= k < |init| ==> init[k] == recs[k];
      DayTotalsAddUp(ps, init);
      SumDayTotalsSplit(ps, recs);
      OneOwner(ps, last.0, last.1.result);
    }
  }

  lemma {:induction false} SumDayTotalsEmpty(ps: seq<TripPlayer>, recs: seq<(string, DayEntry)>)
    requires |recs| == 0
    ensures SumDayTotals(ps, recs) == 0
    decreases |ps|
  {
    if |ps| > 0 {
      SumDayTotalsEmpty(ps[..|ps| - 1], recs);
    }
  }

  /** The share of the last record, summed over the players. */
  function OwnerShare(ps: seq<TripPlayer>, owner: string, v: int): int
  {
    if |ps| == 0 then 0 else OwnerShare(ps[..|ps| - 1], owner, v) + (if ps[|ps| - 1].id == owner then v else 0)
  }

  lemma {:induction false} SumDayTotalsSplit(ps: seq<TripPlayer>, recs: seq<(string, DayEntry)>)
    requires |recs| > 0
    ensures SumDayTotals(ps, recs)
         == SumDayTotals(ps, recs[..|recs| - 1]) + OwnerShare(ps, recs[|recs| - 1].0, recs[|recs| - 1].1.result)
    decreases |ps|
  {
    if |ps| > 0 {
      SumDayTotalsSplit(ps[..|ps| - 1], recs);
    }
  }

  /** A record's owner is exactly one of distinct players. */
  lemma {:induction false} OneOwner(ps: seq<TripPlayer>, owner: string, v: int)
    requires DistinctIds(ps)
    ensures OwnerShare(ps, owner, v) == if owner in Ids(ps) then v else 0
    decreases |ps|
  {
    if |ps| > 0 {
      var init := ps[..|ps| - 1];
      assert DistinctIds(init);
      OneOwner(init, owner, v);
      assert Ids(ps) == Ids(init) + {ps[|ps| - 1].id};
      if ps[|ps| - 1].id == owner {
        assert owner !in Ids(init);
      }
    }
  }

  lemma {:induction false} NoPlayProfit(recs: seq<(string, DayEntry)>, p: string)
    requires forall i :: 0 <= i < |recs| ==> recs[i].1 == NoPlay
    ensures DayProfit(recs) == 0 && DayTotal(recs, p) == 0
    decreases |recs|
  {
    if |recs| > 0 {
      NoPlayProfit(recs[..|recs| - 1], p);
    }
  }

  /** Adding a day that has no records yet changes neither the trip's
      profit nor any player's total. */
  lemma AddDayKeepsTotals(t: Trip, day: string, p: string)
    requires Lookup(t.daily, day).None?
    ensures TripProfit(AddTripDay(t, day).daily) == TripProfit(t.daily)
    ensures TripTotal(AddTripDay(t, day).daily, p) == TripTotal(t.daily, p)
  {
    var r := AddTripDay(t, day);
    if day != "" && day !in t.tripDays {
      assert r.daily == t.daily + [(day, NewDay(t.players))];
      assert r.daily[..|r.daily| - 1] == t.daily;
      NoPlayProfit(NewDay(t.players), p);
    }
  }
}
