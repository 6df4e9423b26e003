/** The attendance service: daily records of check-in/check-out sessions per
    (employee, day), the read side that turns a record into the row HR sees,
    the 30-day history seeder, and the store whose check-in and check-out
    operations change the table in place. */
module AttendanceService {
  import opened Common
  import opened Text
  import Sorting

  const HOUR_MS: int := 3600000
  const MINUTE_MS: int := 60000

  /** The threshold for a full day: 8 hours. */
  const FULL_DAY_MS: int := 8 * HOUR_MS

  /** One presence interval; `checkOut == None` while it is open.
      Timestamps are milliseconds since the epoch. */
  datatype Session = Session(checkIn: int, checkOut: Option<int>)

  datatype DayStatus = Present | Partial | Absent | Leave

  function StatusName(s: DayStatus): string
  {
    match s
    case Present => "Present"
    case Partial => "Partial"
    case Absent => "Absent"
    case Leave => "Leave"
  }

  datatype DailyRecord = DailyRecord(
    id: string,
    employeeId: string,
    date: string,          // YYYY-MM-DD
    sessions: seq<Session>,
    status: DayStatus,
    lastUpdated: int)

  predicate IsOpen(s: Session) { s.checkOut.None? }

  predicate IsClosed(s: Session) { s.checkOut.Some? }

  /** What one session adds to the day's total: nothing while open. */
  function Duration(s: Session): int
  {
    match s.checkOut
    case None => 0
    case Some(out) => out - s.checkIn
  }

  // ---------------------------------------------------------------------
  // Aggregation: calculateNetMs, formatDuration, getClassification
  // ---------------------------------------------------------------------

  /** `calculateNetMs`: the left fold over the sessions. */
  function NetMs(sessions: seq<Session>): int
  {
    if sessions == [] then 0
    else NetMs(sessions[..|sessions| - 1]) + Duration(sessions[|sessions| - 1])
  }

  lemma {:induction false} NetMsAppend(a: seq<Session>, b: seq<Session>)
    ensures NetMs(a + b) == NetMs(a) + NetMs(b)
  {
    if b == [] {
      assert a + b == a;
    } else {
      assert (a + b)[..|a + b| - 1] == a + b[..|b| - 1];
      NetMsAppend(a, b[..|b| - 1]);
    }
  }

  /** Only closed sessions count: the total is the sum of
      `checkOut - checkIn` over the sessions that have both ends. */
  lemma {:induction false} NetMsClosedOnly(s: seq<Session>)
    ensures NetMs(s) == NetMs(Filter(s, IsClosed))
    ensures forall x :: x in Filter(s, IsClosed) ==> x.checkOut.Some?
  {
    if s != [] {
      NetMsClosedOnly(s[1..]);
      assert s == [s[0]] + s[1..];
      NetMsAppend([s[0]], s[1..]);
      if IsClosed(s[0]) {
        NetMsAppend([s[0]], Filter(s[1..], IsClosed));
      }
    }
  }

  /** The total of a list with one session in front. */
  lemma NetMsCons(x: Session, s: seq<Session>)
    ensures NetMs([x] + s) == Duration(x) + NetMs(s)
  {
    NetMsAppend([x], s);
    assert [x][..0] == [];
  }

  /** Taking one session out of a list takes its duration out of the
      total. */
  lemma NetMsRemove(b: seq<Session>, i: nat)
    requires i < |b|
    ensures NetMs(b) == Duration(b[i]) + NetMs(b[..i] + b[i + 1..])
  {
    var pre, x, post := b[..i], b[i], b[i + 1..];
    SplitAt(b, i);
    NetMsAppend(pre, [x] + post);
    NetMsCons(x, post);
    NetMsAppend(pre, post);
  }

  /** Removing the same session from two permutations of each other leaves
      permutations of each other. */
  lemma MultisetRemove(a: seq<Session>, b: seq<Session>, i: nat)
    requires a != [] && i < |b| && b[i] == a[0] && multiset(a) == multiset(b)
    ensures multiset(a[1..]) == multiset(b[..i] + b[i + 1..])
  {
    assert a == [a[0]] + a[1..];
    assert b == b[..i] + [b[i]] + b[i + 1..];
    assert multiset(a[1..]) == multiset(a) - multiset{a[0]};
    assert multiset(b[..i] + b[i + 1..]) == multiset(b) - multiset{b[i]};
  }

  /** The total does not depend on the order of the sessions. */
  lemma {:induction false} NetMsPermutation(a: seq<Session>, b: seq<Session>)
    requires multiset(a) == multiset(b)
    ensures NetMs(a) == NetMs(b)
    decreases |a|
  {
    if a != [] {
      assert a[0] in multiset(b);
      var i :| 0 <= i < |b| && b[i] == a[0];
      MultisetRemove(a, b, i);
      NetMsPermutation(a[1..], b[..i] + b[i + 1..]);
      assert a == [a[0]] + a[1..];
      NetMsCons(a[0], a[1..]);
      NetMsRemove(b, i);
    } else {
      assert |b| == |multiset(b)| == 0;
    }
  }

  /** With every closed session ending no earlier than it starts, the
      total is non-negative. */
  lemma {:induction false} NetMsNonNegative(s: seq<Session>)
    requires forall x :: x in s && x.checkOut.Some? ==> x.checkIn <= x.checkOut.value
    ensures NetMs(s) >= 0
  {
    if s != [] {
      assert s[|s| - 1] in s;
      assert forall x :: x in s[..|s| - 1] ==> x in s;
      NetMsNonNegative(s[..|s| - 1]);
    }
  }

  /** Whole hours and remaining whole minutes of a positive duration. */
  function DurationParts(ms: int): (hm: (nat, nat))
    requires ms > 0
    ensures hm.1 < 60
    ensures hm.0 * HOUR_MS + hm.1 * MINUTE_MS <= ms < hm.0 * HOUR_MS + (hm.1 + 1) * MINUTE_MS
  {
    var h := ms / HOUR_MS;
    var rest := ms % HOUR_MS;
    var m := rest / MINUTE_MS;
    assert ms == h * HOUR_MS + rest;
    assert rest == m * MINUTE_MS + rest % MINUTE_MS;
    (h, m)
  }

  /** `formatDuration`: "--" for a non-positive duration, else "{h}h {m}m". */
  function FormatDuration(ms: int): (r: string)
    ensures ms <= 0 <==> r == "--"
    ensures ms > 0 ==>
      r == NatToString(DurationParts(ms).0) + "h " + NatToString(DurationParts(ms).1) + "m"
  {
    if ms <= 0 then "--"
    else
      var hm := DurationParts(ms);
      NatToString(hm.0) + "h " + NatToString(hm.1) + "m"
  }

  /** `getClassification`: a stored Leave or Absent wins; otherwise no
      sessions is Absent, 8 hours or more is Present, less is Partial. */
  function Classify(netMs: int, hasSessions: bool, stored: DayStatus): (r: DayStatus)
    ensures stored == Leave || stored == Absent ==> r == stored
    ensures stored != Leave && stored != Absent ==>
      (r == Absent <==> !hasSessions) &&
      (r == Present <==> hasSessions && netMs >= FULL_DAY_MS) &&
      (r == Partial <==> hasSessions && netMs < FULL_DAY_MS)
  {
    if stored == Leave || stored == Absent then stored
    else if !hasSessions then Absent
    else if netMs >= FULL_DAY_MS then Present
    else Partial
  }

  /** A stored Present or Partial is never trusted: only Leave and Absent
      are taken from storage. */
  lemma ClassifyIgnoresDerivedStatus(netMs: int, hasSessions: bool)
    ensures Classify(netMs, hasSessions, Present) == Classify(netMs, hasSessions, Partial)
  {
  }

  /** More time worked never lowers the classification from Present. */
  lemma ClassifyMonotone(a: int, b: int, hasSessions: bool, stored: DayStatus)
    requires a <= b && Classify(a, hasSessions, stored) == Present
    ensures Classify(b, hasSessions, stored) == Present
  {
  }

  // ---------------------------------------------------------------------
  // mapRecordToHRView
  // ---------------------------------------------------------------------

  /** The row HR sees for one record; entry and exit are the timestamps the
      page renders as local times. */
  datatype HRView = HRView(
    id: string,
    employeeId: string,
    date: string,
    entry: Option<int>,
    exit: Option<int>,
    workHours: string,
    workHoursMs: int,
    status: DayStatus)

  function ByCheckIn(a: Session, b: Session): bool { a.checkIn <= b.checkIn }

  lemma ByCheckInIsOrder()
    ensures Sorting.Total(ByCheckIn) && Sorting.Transitive(ByCheckIn)
  {
  }

  /** The sessions sorted by check-in time (a copy; the record is untouched).
      The sort is stable, so of the sessions that start last the one
      latest in the list ends the result. */
  function SortedSessions(s: seq<Session>): (r: seq<Session>)
    ensures multiset(r) == multiset(s) && |r| == |s|
    ensures r != [] ==>
      (r[0] in s && r[|r| - 1] in s &&
       forall x :: x in s ==> r[0].checkIn <= x.checkIn && x.checkIn <= r[|r| - 1].checkIn)
    ensures r != [] ==> LastToStart(s, r[|r| - 1])
  {
    var r := Sorting.SortBy(s, ByCheckIn);
    SortedByCheckIn(s);
    r
  }

  /** The sorted sessions are in check-in order. */
  lemma SessionsInCheckInOrder(s: seq<Session>)
    ensures var r := SortedSessions(s);
      forall i, j :: 0 <= i < j < |r| ==> r[i].checkIn <= r[j].checkIn
  {
    SortedByCheckIn(s);
  }

  lemma SortedByCheckIn(s: seq<Session>)
    ensures var r := Sorting.SortBy(s, ByCheckIn);
      Sorting.SortedBy(r, ByCheckIn) &&
      (r != [] ==>
        (r[0] in s && r[|r| - 1] in s &&
         forall x :: x in s ==> r[0].checkIn <= x.checkIn && x.checkIn <= r[|r| - 1].checkIn)) &&
      (r != [] ==> LastToStart(s, r[|r| - 1]))
  {
    ByCheckInIsOrder();
    var r := Sorting.SortBy(s, ByCheckIn);
    Sorting.SortBySorted(s, ByCheckIn);
    if s != [] {
      Sorting.SortByBounds(s, ByCheckIn);
      EndsLastToStart(s);
    }
  }

  lemma EndsLastToStart(s: seq<Session>)
    requires s != []
    ensures var r := Sorting.SortBy(s, ByCheckIn); LastToStart(s, r[|r| - 1])
  {
    ByCheckInIsOrder();
    Sorting.SortByLast(s, ByCheckIn);
    var k := Sorting.LastMaxIndex(s, ByCheckIn);
    Sorting.LastMaxIndexIsLastMax(s, ByCheckIn);
    assert LastToStartAt(s, k);
  }

  /** `x` is the session at a position `k` of `s` that no session starts
      after, and every session after `k` starts strictly before it. */
  predicate LastToStart(s: seq<Session>, x: Session)
  {
    exists k :: 0 <= k < |s| && s[k] == x && LastToStartAt(s, k)
  }

  predicate LastToStartAt(s: seq<Session>, k: nat)
    requires k < |s|
  {
    (forall j :: 0 <= j < |s| ==> s[j].checkIn <= s[k].checkIn) &&
    (forall j :: k < j < |s| ==> s[j].checkIn < s[k].checkIn)
  }

  function MapRecordToHRView(r: DailyRecord): (v: HRView)
    ensures v.id == r.id && v.employeeId == r.employeeId && v.date == r.date
    ensures v.entry.None? <==> r.sessions == []
    ensures v.entry.Some? ==>
      (exists s :: s in r.sessions && s.checkIn == v.entry.value) &&
      (forall s :: s in r.sessions ==> v.entry.value <= s.checkIn)
    ensures r.sessions == [] ==> v.exit.None?
    ensures r.sessions != [] ==>
      exists s :: s in r.sessions && v.exit == s.checkOut &&
                  forall t :: t in r.sessions ==> t.checkIn <= s.checkIn
    ensures v.workHoursMs == NetMs(r.sessions)
    ensures v.workHours == FormatDuration(NetMs(r.sessions))
    ensures v.status == Classify(NetMs(r.sessions), |r.sessions| > 0, r.status)
  {
    var sorted := SortedSessions(r.sessions);
    var firstIn := if sorted == [] then None else Some(sorted[0].checkIn);
    var lastOut := if sorted == [] then None else sorted[|sorted| - 1].checkOut;
    var netMs := NetMs(r.sessions);
    HRView(r.id, r.employeeId, r.date, firstIn, lastOut, FormatDuration(netMs), netMs,
           Classify(netMs, |r.sessions| > 0, r.status))
  }

  /** Of the sessions that start last, the exit is that of the one latest
      in the list: the sort is stable. */
  lemma ExitOfLastToStart(r: DailyRecord)
    requires r.sessions != []
    ensures exists s :: LastToStart(r.sessions, s) && MapRecordToHRView(r).exit == s.checkOut
  {
    var sorted := SortedSessions(r.sessions);
    assert LastToStart(r.sessions, sorted[|sorted| - 1]);
  }

  // ---------------------------------------------------------------------
  // The historical seed
  // ---------------------------------------------------------------------

  /** One of the 30 days before today as the clock sees it: its UTC calendar
      date, its local weekday (0 Sunday .. 6 Saturday), the timestamp of that
      day at the current time of day, and that day's local midnight carrying
      the current millisecond (setting hours, minutes and seconds leaves the
      milliseconds alone). */
  datatype SeedDay = SeedDay(date: string, weekday: int, stamp: int, midnight: int)

  /** The random draws for one employee on one day: the draw that decides
      Absent/Leave, and the two whole-minute offsets
      `floor(random * 60)` and `floor(random * 90)`. */
  datatype Draw = Draw(rand: real, startJitter: int, endJitter: int)

  predicate ValidDraw(d: Draw)
  {
    0.0 <= d.rand < 1.0 && 0 <= d.startJitter < 60 && 0 <= d.endJitter < 90
  }

  predicate IsWeekend(day: SeedDay) { day.weekday == 0 || day.weekday == 6 }

  /** The generated record for one employee on one working day. */
  function SeedRecord(empId: string, day: SeedDay, d: Draw): (r: DailyRecord)
    requires ValidDraw(d)
    ensures r.id == "hist_" + empId + "_" + day.date
    ensures r.employeeId == empId && r.date == day.date
    ensures r.status == Absent <==> d.rand < 0.05
    ensures r.status == Leave <==> 0.05 <= d.rand < 0.1
    ensures r.status == Absent || r.status == Leave ==>
      r.sessions == [] && r.lastUpdated == day.stamp
    ensures r.status != Absent && r.status != Leave ==>
      |r.sessions| == 1 && r.sessions[0].checkOut.Some? &&
      day.midnight + 8 * HOUR_MS + 45 * MINUTE_MS <= r.sessions[0].checkIn
                   <= day.midnight + 9 * HOUR_MS + 44 * MINUTE_MS &&
      day.midnight + 17 * HOUR_MS + 30 * MINUTE_MS <= r.sessions[0].checkOut.value
                   <= day.midnight + 18 * HOUR_MS + 59 * MINUTE_MS &&
      r.lastUpdated == r.sessions[0].checkOut.value &&
      (r.status == Present <==> NetMs(r.sessions) >= FULL_DAY_MS)
    ensures Classify(NetMs(r.sessions), |r.sessions| > 0, r.status) == r.status
  {
    var id := "hist_" + empId + "_" + day.date;
    if d.rand < 0.05 then DailyRecord(id, empId, day.date, [], Absent, day.stamp)
    else if d.rand < 0.1 then DailyRecord(id, empId, day.date, [], Leave, day.stamp)
    else
      var start := day.midnight + 8 * HOUR_MS + (45 + d.startJitter) * MINUTE_MS;
      var end := day.midnight + 17 * HOUR_MS + (30 + d.endJitter) * MINUTE_MS;
      var sessions := [Session(start, Some(end))];
      assert NetMs(sessions) == end - start by {
        assert sessions[..0] == [];
      }
      DailyRecord(id, empId, day.date, sessions,
                  if end - start >= FULL_DAY_MS then Present else Partial, end)
  }

  /** Draws for every (day, employee) pair, each in the range the code
      produces. */
  predicate DrawsFit(emps: seq<string>, calendar: seq<SeedDay>, draws: seq<seq<Draw>>)
  {
    |draws| == |calendar| && forall k :: 0 <= k < |draws| ==> DayFits(emps, draws[k])
  }

  /** One valid draw per employee for one day. */
  predicate DayFits(emps: seq<string>, ds: seq<Draw>)
  {
    |ds| == |emps| && forall j :: 0 <= j < |ds| ==> ValidDraw(ds[j])
  }

  /** The records of the first `n` employees on a working day, in roster
      order. */
  function DayRun(emps: seq<string>, day: SeedDay, ds: seq<Draw>, n: nat): seq<DailyRecord>
    requires DayFits(emps, ds) && n <= |emps|
  {
    if n == 0 then [] else DayRun(emps, day, ds, n - 1) + [SeedRecord(emps[n - 1], day, ds[n - 1])]
  }

  /** The `j`-th record of a day's run is employee `j`'s. */
  lemma {:induction false} DayRunIndex(emps: seq<string>, day: SeedDay, ds: seq<Draw>, n: nat)
    requires DayFits(emps, ds) && n <= |emps|
    ensures |DayRun(emps, day, ds, n)| == n
    ensures forall j :: 0 <= j < n ==> DayRun(emps, day, ds, n)[j] == SeedRecord(emps[j], day, ds[j])
  {
    if n > 0 {
      DayRunIndex(emps, day, ds, n - 1);
    }
  }

  /** Which employee a record of a working day belongs to. */
  lemma DayOrigin(emps: seq<string>, day: SeedDay, ds: seq<Draw>, r: DailyRecord) returns (j: nat)
    requires DayFits(emps, ds) && r in DayRecords(emps, day, ds)
    ensures j < |emps| && !IsWeekend(day) && r == SeedRecord(emps[j], day, ds[j])
  {
    DayRunIndex(emps, day, ds, |emps|);
    var i :| 0 <= i < |DayRecords(emps, day, ds)| && DayRecords(emps, day, ds)[i] == r;
    j := i;
  }

  /** The records of one day, one per employee in roster order; none at a
      weekend. */
  function DayRecords(emps: seq<string>, day: SeedDay, ds: seq<Draw>): seq<DailyRecord>
    requires DayFits(emps, ds)
  {
    if IsWeekend(day) then [] else DayRun(emps, day, ds, |emps|)
  }

  /** The records the first `n` days of the calendar produce, oldest day
      first. */
  function SeededUpTo(emps: seq<string>, calendar: seq<SeedDay>, draws: seq<seq<Draw>>, n: nat): seq<DailyRecord>
    requires DrawsFit(emps, calendar, draws) && n <= |calendar|
  {
    if n == 0 then []
    else SeededUpTo(emps, calendar, draws, n - 1) + DayRecords(emps, calendar[n - 1], draws[n - 1])
  }

  /** Everything the seeder emits for the calendar, oldest day first. */
  function Seeded(emps: seq<string>, calendar: seq<SeedDay>, draws: seq<seq<Draw>>): seq<DailyRecord>
    requires DrawsFit(emps, calendar, draws)
  {
    SeededUpTo(emps, calendar, draws, |calendar|)
  }

  /** The `employeeIds.forEach` of one working day: one pushed record per
      employee, in roster order. */
  method PushDay(records: seq<DailyRecord>, employeeIds: seq<string>, day: SeedDay, ds: seq<Draw>)
    returns (out: seq<DailyRecord>)
    requires DayFits(employeeIds, ds)
    requires !IsWeekend(day)
    ensures out == records + DayRecords(employeeIds, day, ds)
  {
    out := records;
    var j := 0;
    while j < |employeeIds|
      invariant 0 <= j <= |employeeIds|
      invariant out == records + DayRun(employeeIds, day, ds, j)
    {
      out := out + [SeedRecord(employeeIds[j], day, ds[j])];
      j := j + 1;
    }
  }

  /** `generateHistoricalData`: `calendar[k]` is the day `30 - k` days back,
      so the loop over `i = 30 .. 1` visits `calendar[30 - i]`. */
  method GenerateHistoricalData(employeeIds: seq<string>, calendar: seq<SeedDay>, draws: seq<seq<Draw>>)
    returns (records: seq<DailyRecord>)
    requires |calendar| == 30 && DrawsFit(employeeIds, calendar, draws)
    ensures records == Seeded(employeeIds, calendar, draws)
  {
    records := [];
    var i := 30;
    while i >= 1
      invariant 0 <= i <= 30
      invariant records == SeededUpTo(employeeIds, calendar, draws, 30 - i)
    {
      var k := 30 - i;
      var day := calendar[k];
      if IsWeekend(day) {
        i := i - 1;
        continue;
      }
      records := PushDay(records, employeeIds, day, draws[k]);
      i := i - 1;
    }
  }

  /** Every record of the first `n` days is the record of one roster
      employee on one working day among them. */
  lemma {:induction false} SeededOrigin(emps: seq<string>, calendar: seq<SeedDay>, draws: seq<seq<Draw>>, n: nat)
    requires DrawsFit(emps, calendar, draws) && n <= |calendar|
    ensures forall r :: r in SeededUpTo(emps, calendar, draws, n) ==>
      exists k, j :: 0 <= k < n && 0 <= j < |emps| && !IsWeekend(calendar[k]) &&
                     r == SeedRecord(emps[j], calendar[k], draws[k][j])
  {
    if n > 0 {
      var prefix := SeededUpTo(emps, calendar, draws, n - 1);
      var day := calendar[n - 1];
      var d := DayRecords(emps, day, draws[n - 1]);
      assert SeededUpTo(emps, calendar, draws, n) == prefix + d;
      SeededOrigin(emps, calendar, draws, n - 1);
      forall r | r in d
        ensures exists k, j :: 0 <= k < n && 0 <= j < |emps| && !IsWeekend(calendar[k]) &&
                               r == SeedRecord(emps[j], calendar[k], draws[k][j])
      {
        var j := DayOrigin(emps, day, draws[n - 1], r);
        assert r == SeedRecord(emps[j], calendar[n - 1], draws[n - 1][j]);
      }
    }
  }

  /** No record falls on a weekend; absent and leave days have no sessions;
      every other day has one closed session inside the seeded windows. */
  lemma SeededShape(emps: seq<string>, calendar: seq<SeedDay>, draws: seq<seq<Draw>>)
    requires DrawsFit(emps, calendar, draws)
    ensures forall r :: r in Seeded(emps, calendar, draws) ==>
      r.employeeId in emps &&
      (exists k :: 0 <= k < |calendar| && !IsWeekend(calendar[k]) && r.date == calendar[k].date) &&
      (r.status == Absent || r.status == Leave ==> r.sessions == []) &&
      (r.status == Present || r.status == Partial ==>
         |r.sessions| == 1 && r.sessions[0].checkOut.Some? &&
         (r.status == Present <==> NetMs(r.sessions) >= FULL_DAY_MS))
  {
    SeededOrigin(emps, calendar, draws, |calendar|);
  }

  /** How many of the first `n` calendar days are working days. */
  function WorkdayCount(calendar: seq<SeedDay>, n: nat): nat
    requires n <= |calendar|
  {
    if n == 0 then 0
    else WorkdayCount(calendar, n - 1) + (if IsWeekend(calendar[n - 1]) then 0 else 1)
  }

  /** One record per employee per working day. */
  lemma {:induction false} SeededCount(emps: seq<string>, calendar: seq<SeedDay>, draws: seq<seq<Draw>>, n: nat)
    requires DrawsFit(emps, calendar, draws) && n <= |calendar|
    ensures |SeededUpTo(emps, calendar, draws, n)| == |emps| * WorkdayCount(calendar, n)
  {
    if n > 0 {
      SeededCount(emps, calendar, draws, n - 1);
      var w := WorkdayCount(calendar, n - 1);
      var d := DayRecords(emps, calendar[n - 1], draws[n - 1]);
      assert |SeededUpTo(emps, calendar, draws, n)| == |SeededUpTo(emps, calendar, draws, n - 1)| + |d|;
      if IsWeekend(calendar[n - 1]) {
        assert WorkdayCount(calendar, n) == w && d == [];
      } else {
        DayRunIndex(emps, calendar[n - 1], draws[n - 1], |emps|);
        assert WorkdayCount(calendar, n) == w + 1 && |d| == |emps|;
        MulSucc(|emps|, w);
      }
    }
  }

  lemma MulSucc(a: nat, b: nat)
    ensures a * (b + 1) == a * b + a
  {
  }

  // ---------------------------------------------------------------------
  // The table invariants
  // ---------------------------------------------------------------------

  predicate HasKey(r: DailyRecord, emp: string, date: string)
  {
    r.employeeId == emp && r.date == date
  }

  /** No two records share (employeeId, date). */
  ghost predicate UniqueKeys(db: seq<DailyRecord>)
  {
    forall i, j :: 0 <= i < j < |db| ==> !HasKey(db[j], db[i].employeeId, db[i].date)
  }

  ghost predicate AtMostOneOpen(s: seq<Session>)
  {
    forall i, j :: 0 <= i < |s| && 0 <= j < |s| && IsOpen(s[i]) && IsOpen(s[j]) ==> i == j
  }

  ghost predicate ValidTable(db: seq<DailyRecord>)
  {
    UniqueKeys(db) && forall i :: 0 <= i < |db| ==> AtMostOneOpen(db[i].sessions)
  }

  /** The calendar's days carry distinct dates. */
  predicate DistinctDates(calendar: seq<SeedDay>)
  {
    forall k, m :: 0 <= k < m < |calendar| ==> calendar[k].date != calendar[m].date
  }

  /** A day's records have distinct employees, so distinct keys. */
  lemma DayKeysUnique(emps: seq<string>, day: SeedDay, ds: seq<Draw>)
    requires DayFits(emps, ds)
    requires Distinct(emps)
    ensures UniqueKeys(DayRecords(emps, day, ds))
  {
    DayRunIndex(emps, day, ds, |emps|);
  }

  /** Every record of `db` is dated `date`, or none is. */
  ghost predicate AllOn(db: seq<DailyRecord>, date: string)
  {
    forall i :: 0 <= i < |db| ==> db[i].date == date
  }

  ghost predicate NoneOn(db: seq<DailyRecord>, date: string)
  {
    forall i :: 0 <= i < |db| ==> db[i].date != date
  }

  /** A day's records all carry that day's date. */
  lemma DayDates(emps: seq<string>, day: SeedDay, ds: seq<Draw>)
    requires DayFits(emps, ds)
    ensures AllOn(DayRecords(emps, day, ds), day.date)
  {
    DayRunIndex(emps, day, ds, |emps|);
  }

  /** A table with unique keys, followed by records with unique keys of
      one date the table does not use, still has unique keys. */
  lemma UniqueKeysAppend(a: seq<DailyRecord>, b: seq<DailyRecord>, date: string)
    requires UniqueKeys(a) && UniqueKeys(b)
    requires NoneOn(a, date) && AllOn(b, date)
    ensures UniqueKeys(a + b)
  {
    var all := a + b;
    forall i, j | 0 <= i < j < |all| ensures !HasKey(all[j], all[i].employeeId, all[i].date) {
      if j < |a| {
        assert all[i] == a[i] && all[j] == a[j];
      } else if i < |a| {
        assert all[i] == a[i] && all[j] == b[j - |a|];
      } else {
        assert all[i] == b[i - |a|] && all[j] == b[j - |a|];
      }
    }
  }

  /** The first `n` days never use the date of a later day. */
  lemma {:induction false} SeededDatesBefore(emps: seq<string>, calendar: seq<SeedDay>, draws: seq<seq<Draw>>, n: nat, m: nat)
    requires DrawsFit(emps, calendar, draws) && n <= m < |calendar| && DistinctDates(calendar)
    ensures NoneOn(SeededUpTo(emps, calendar, draws, n), calendar[m].date)
  {
    if n > 0 {
      var prefix := SeededUpTo(emps, calendar, draws, n - 1);
      var d := DayRecords(emps, calendar[n - 1], draws[n - 1]);
      assert SeededUpTo(emps, calendar, draws, n) == prefix + d;
      SeededDatesBefore(emps, calendar, draws, n - 1, m);
      DayDates(emps, calendar[n - 1], draws[n - 1]);
      NoneOnAppend(prefix, d, calendar[m].date, calendar[n - 1].date);
    }
  }

  lemma NoneOnAppend(a: seq<DailyRecord>, b: seq<DailyRecord>, date: string, other: string)
    requires NoneOn(a, date) && AllOn(b, other) && other != date
    ensures NoneOn(a + b, date)
  {
    assert forall i :: |a| <= i < |a + b| ==> (a + b)[i] == b[i - |a|];
  }

  /** Appending a working day to a table with unique keys that does not
      use the day's date keeps the keys unique. */
  lemma DayKeysStep(prefix: seq<DailyRecord>, emps: seq<string>, day: SeedDay, ds: seq<Draw>)
    requires DayFits(emps, ds)
    requires Distinct(emps) && UniqueKeys(prefix)
    requires NoneOn(prefix, day.date)
    ensures UniqueKeys(prefix + DayRecords(emps, day, ds))
  {
    DayKeysUnique(emps, day, ds);
    DayDates(emps, day, ds);
    UniqueKeysAppend(prefix, DayRecords(emps, day, ds), day.date);
  }

  /** With distinct employee ids and distinct dates, the first `n` days
      seed no key twice. */
  lemma {:induction false} SeededKeysUnique(emps: seq<string>, calendar: seq<SeedDay>, draws: seq<seq<Draw>>, n: nat)
    requires DrawsFit(emps, calendar, draws) && n <= |calendar|
    requires Distinct(emps) && DistinctDates(calendar)
    ensures UniqueKeys(SeededUpTo(emps, calendar, draws, n))
  {
    if n > 0 {
      SeededKeysUnique(emps, calendar, draws, n - 1);
      SeededDatesBefore(emps, calendar, draws, n - 1, n - 1);
      DayKeysStep(SeededUpTo(emps, calendar, draws, n - 1), emps, calendar[n - 1], draws[n - 1]);
    }
  }

  /** Seeded records carry no open session, and with distinct employee ids
      and distinct dates their keys are distinct. */
  lemma SeededValid(emps: seq<string>, calendar: seq<SeedDay>, draws: seq<seq<Draw>>)
    requires DrawsFit(emps, calendar, draws)
    requires Distinct(emps) && DistinctDates(calendar)
    ensures ValidTable(Seeded(emps, calendar, draws))
    ensures forall r :: r in Seeded(emps, calendar, draws) ==>
      exists k :: 0 <= k < |calendar| && r.date == calendar[k].date
  {
    var all := Seeded(emps, calendar, draws);
    SeededKeysUnique(emps, calendar, draws, |calendar|);
    SeededOrigin(emps, calendar, draws, |calendar|);
    forall i | 0 <= i < |all| ensures AtMostOneOpen(all[i].sessions) {
      assert all[i] in all;
    }
  }

  // ---------------------------------------------------------------------
  // checkIn / checkOut as transitions of the table
  // ---------------------------------------------------------------------

  datatype AttendanceError = AlreadyCheckedIn | NoActiveShift | NoOpenSession

  /** The text of each thrown error. */
  function Message(e: AttendanceError): string
  {
    match e
    case AlreadyCheckedIn => "Already checked in"
    case NoActiveShift => "No active shift found"
    case NoOpenSession => "No active session to check out"
  }

  /** `db.find(r => r.employeeId === employeeId && r.date === today)`. */
  function FindRecord(db: seq<DailyRecord>, emp: string, today: string): (r: Option<nat>)
    ensures r.Some? ==> r.value < |db| && HasKey(db[r.value], emp, today) &&
                        forall k :: 0 <= k < r.value ==> !HasKey(db[k], emp, today)
    ensures r.None? <==> forall k :: 0 <= k < |db| ==> !HasKey(db[k], emp, today)
  {
    if db == [] then None
    else if HasKey(db[0], emp, today) then Some(0)
    else match FindRecord(db[1..], emp, today)
      case None => None
      case Some(i) => Some(i + 1)
  }

  /** `sessions.some(s => s.checkOut === null)`. */
  predicate HasOpen(s: seq<Session>)
  {
    exists i :: 0 <= i < |s| && IsOpen(s[i])
  }

  /** The result of one operation: what it threw, and the table after. */
  datatype Step = Step(outcome: Outcome<AttendanceError>, table: seq<DailyRecord>)

  function NewRecordId(now: nat, emp: string): string
  {
    "att_" + NatToString(now) + "_" + emp
  }

  /** `checkIn` at time `now` on day `today`. */
  function CheckInStep(db: seq<DailyRecord>, emp: string, today: string, now: nat): (s: Step)
    ensures s.outcome.Fail? ==> s.outcome.error == AlreadyCheckedIn && s.table == db
    ensures FindRecord(db, emp, today).None? ==>
      s.outcome == Pass &&
      s.table == db + [DailyRecord(NewRecordId(now, emp), emp, today, [Session(now, None)], Present, now)]
    ensures FindRecord(db, emp, today).Some? ==>
      var i := FindRecord(db, emp, today).value;
      (s.outcome == Fail(AlreadyCheckedIn) <==> HasOpen(db[i].sessions)) &&
      (s.outcome == Pass ==>
         |s.table| == |db| &&
         s.table[i] == db[i].(sessions := db[i].sessions + [Session(now, None)], lastUpdated := now) &&
         forall k :: 0 <= k < |db| && k != i ==> s.table[k] == db[k])
    ensures ValidTable(db) ==> ValidTable(s.table)
  {
    match FindRecord(db, emp, today)
    case None =>
      var created := DailyRecord(NewRecordId(now, emp), emp, today, [Session(now, None)], Present, now);
      var t := db + [created];
      assert ValidTable(db) ==> ValidTable(t) by {
        if ValidTable(db) {
          assert forall i :: 0 <= i < |db| ==> t[i] == db[i];
        }
      }
      Step(Pass, t)
    case Some(i) =>
      var r := db[i];
      if HasOpen(r.sessions) then Step(Fail(AlreadyCheckedIn), db)
      else
        var t := db[i := r.(sessions := r.sessions + [Session(now, None)], lastUpdated := now)];
        assert ValidTable(db) ==> ValidTable(t) by {
          if ValidTable(db) {
            var s := t[i].sessions;
            assert forall k :: 0 <= k < |r.sessions| ==> s[k] == r.sessions[k] && !IsOpen(s[k]);
          }
        }
        Step(Pass, t)
  }

  /** `checkOut` at time `now` on day `today`. */
  function CheckOutStep(db: seq<DailyRecord>, emp: string, today: string, now: nat): (s: Step)
    ensures FindRecord(db, emp, today).None? ==> s == Step(Fail(NoActiveShift), db)
    ensures FindRecord(db, emp, today).Some? ==>
      var i := FindRecord(db, emp, today).value;
      var ss := db[i].sessions;
      (!HasOpen(ss) ==> s == Step(Fail(NoOpenSession), db)) &&
      (HasOpen(ss) ==>
         s.outcome == Pass && |s.table| == |db| &&
         (exists j :: 0 <= j < |ss| && IsOpen(ss[j]) &&
            (forall k :: 0 <= k < j ==> !IsOpen(ss[k])) &&
            s.table[i] == db[i].(sessions := ss[j := Session(ss[j].checkIn, Some(now))], lastUpdated := now)) &&
         forall k :: 0 <= k < |db| && k != i ==> s.table[k] == db[k])
    ensures ValidTable(db) && s.outcome == Pass ==>
      !HasOpen(s.table[FindRecord(db, emp, today).value].sessions)
    ensures ValidTable(db) ==> ValidTable(s.table)
  {
    match FindRecord(db, emp, today)
    case None => Step(Fail(NoActiveShift), db)
    case Some(i) =>
      var r := db[i];
      match FindIndex(r.sessions, IsOpen)
      case None => Step(Fail(NoOpenSession), db)
      case Some(j) =>
        var closed := r.sessions[j := Session(r.sessions[j].checkIn, Some(now))];
        var t := db[i := r.(sessions := closed, lastUpdated := now)];
        assert ValidTable(db) ==> !HasOpen(closed) && ValidTable(t) by {
          if ValidTable(db) {
            assert AtMostOneOpen(r.sessions);
            assert forall k :: 0 <= k < |closed| && k != j ==> closed[k] == r.sessions[k] && !IsOpen(closed[k]);
          }
        }
        Step(Pass, t)
  }

  // ---------------------------------------------------------------------
  // The read side of the subscriptions
  // ---------------------------------------------------------------------

  function ByDateDesc(a: HRView, b: HRView): bool { LexLe(b.date, a.date) }

  lemma ByDateDescIsOrder()
    ensures Sorting.Total(ByDateDesc) && Sorting.Transitive(ByDateDesc)
  {
    forall a: HRView, b: HRView ensures ByDateDesc(a, b) || ByDateDesc(b, a) {
      LexLeTotal(a.date, b.date);
    }
    forall a: HRView, b: HRView, c: HRView | ByDateDesc(a, b) && ByDateDesc(b, c)
      ensures ByDateDesc(a, c)
    {
      LexLeTransitive(c.date, b.date, a.date);
    }
  }

  function MapViews(db: seq<DailyRecord>): (r: seq<HRView>)
    ensures |r| == |db| && forall i :: 0 <= i < |db| ==> r[i] == MapRecordToHRView(db[i])
  {
    if db == [] then [] else [MapRecordToHRView(db[0])] + MapViews(db[1..])
  }

  /** The views sorted newest date first. */
  function NewestFirst(views: seq<HRView>): (r: seq<HRView>)
    ensures multiset(r) == multiset(views)
    ensures forall i, j :: 0 <= i < j < |r| ==> LexLe(r[j].date, r[i].date)
  {
    ByDateDescIsOrder();
    Sorting.SortBySorted(views, ByDateDesc);
    Sorting.SortBy(views, ByDateDesc)
  }

  /** `subscribeToAllAttendance`: every record's view, newest first. */
  function AllAttendance(db: seq<DailyRecord>): (r: seq<HRView>)
    ensures multiset(r) == multiset(MapViews(db)) && |r| == |db|
    ensures forall i, j :: 0 <= i < j < |r| ==> LexLe(r[j].date, r[i].date)
  {
    var r := NewestFirst(MapViews(db));
    assert |r| == |multiset(r)|;
    r
  }

  /** `subscribeToUserAttendance`: the views of one employee's records,
      newest first. */
  function UserAttendance(db: seq<DailyRecord>, emp: string): (r: seq<HRView>)
    ensures multiset(r) == multiset(MapViews(OwnRecords(db, emp)))
    ensures forall v :: v in r ==> v.employeeId == emp
    ensures forall i, j :: 0 <= i < j < |r| ==> LexLe(r[j].date, r[i].date)
  {
    var own := OwnRecords(db, emp);
    var views := MapViews(own);
    var r := NewestFirst(views);
    ViewsKeepEmployee(own, emp);
    assert forall v :: v in r ==> v.employeeId == emp by {
      forall v | v in r ensures v.employeeId == emp {
        assert v in multiset(views);
      }
    }
    r
  }

  /** A view carries its record's employee. */
  lemma ViewsKeepEmployee(own: seq<DailyRecord>, emp: string)
    requires forall x :: x in own ==> x.employeeId == emp
    ensures forall v :: v in MapViews(own) ==> v.employeeId == emp
  {
    forall v | v in MapViews(own) ensures v.employeeId == emp {
      var i :| 0 <= i < |own| && MapViews(own)[i] == v;
      assert own[i] in own;
    }
  }

  /** `db.filter(r => r.employeeId === employeeId)`. */
  function OwnRecords(db: seq<DailyRecord>, emp: string): (r: seq<DailyRecord>)
    ensures forall x :: x in r <==> x in db && x.employeeId == emp
    ensures IsSubsequence(r, db)
    ensures forall x :: multiset(r)[x] == if x.employeeId == emp then multiset(db)[x] else 0
  {
    FilterSubsequence(db, (x: DailyRecord) => x.employeeId == emp);
    FilterMultiset(db, (x: DailyRecord) => x.employeeId == emp);
    Filter(db, (x: DailyRecord) => x.employeeId == emp)
  }

  // ---------------------------------------------------------------------
  // Scenarios over the transitions
  // ---------------------------------------------------------------------

  /** A second check-in without a check-out in between is refused. */
  lemma {:induction false} CheckInTwiceFails(db: seq<DailyRecord>, emp: string, today: string, t1: nat, t2: nat)
    requires CheckInStep(db, emp, today, t1).outcome == Pass
    ensures CheckInStep(CheckInStep(db, emp, today, t1).table, emp, today, t2).outcome == Fail(AlreadyCheckedIn)
  {
    var t := CheckInStep(db, emp, today, t1).table;
    var i := OpenedIndex(db, emp, today, t1);
    var ss := t[i].sessions;
    assert IsOpen(ss[|ss| - 1]);
  }

  /** After a successful check-in, the record found for the key is the one
      that received the open session. */
  lemma OpenedIndex(db: seq<DailyRecord>, emp: string, today: string, now: nat) returns (i: nat)
    requires CheckInStep(db, emp, today, now).outcome == Pass
    ensures var t := CheckInStep(db, emp, today, now).table;
      FindRecord(t, emp, today) == Some(i) && i < |t| &&
      t[i].sessions != [] && t[i].sessions[|t[i].sessions| - 1] == Session(now, None)
  {
    var t := CheckInStep(db, emp, today, now).table;
    match FindRecord(db, emp, today)
    case None =>
      i := |db|;
      assert forall k :: 0 <= k < |db| ==> t[k] == db[k];
      assert HasKey(t[i], emp, today);
    case Some(j) =>
      i := j;
      assert forall k :: 0 <= k < i ==> t[k] == db[k];
      assert HasKey(t[i], emp, today);
  }

  /** The first shift of a day: check in at `t1`, check out `d`
      milliseconds later. The table gains one record holding one closed
      session, and its view spans exactly that session. */
  lemma {:induction false} FirstShift(db: seq<DailyRecord>, emp: string, today: string, t1: nat, d: int)
    requires FindRecord(db, emp, today).None? && t1 + d >= 0
    ensures var s1 := CheckInStep(db, emp, today, t1);
      var s2 := CheckOutStep(s1.table, emp, today, t1 + d);
      var v := MapRecordToHRView(s2.table[|db|]);
      s1.outcome == Pass && s2.outcome == Pass && |s2.table| == |db| + 1 &&
      s2.table[|db|].sessions == [Session(t1, Some(t1 + d))] &&
      v.entry == Some(t1) && v.exit == Some(t1 + d) && v.workHoursMs == d &&
      v.workHours == FormatDuration(d) && v.status == Classify(d, true, Present)
  {
    var s1 := CheckInStep(db, emp, today, t1);
    var i := OpenedIndex(db, emp, today, t1);
    assert i == |db|;
    var s2 := CheckOutStep(s1.table, emp, today, t1 + d);
    assert HasOpen(s1.table[i].sessions) by {
      assert IsOpen(s1.table[i].sessions[0]);
    }
    var ss := [Session(t1, Some(t1 + d))];
    assert s2.table[i].sessions == ss;
    assert NetMs(ss) == d by {
      assert ss[..0] == [];
    }
    var v := MapRecordToHRView(s2.table[i]);
    assert v.workHoursMs == d && v.workHours == FormatDuration(d);
  }

  /** Checking in at 09:05 and out at 18:15 shows "9h 10m", Present. */
  lemma FullDayScenario(db: seq<DailyRecord>, emp: string, today: string, t1: nat)
    requires FindRecord(db, emp, today).None?
    ensures var s2 := CheckOutStep(CheckInStep(db, emp, today, t1).table, emp, today, t1 + (9 * HOUR_MS + 10 * MINUTE_MS));
      var v := MapRecordToHRView(s2.table[|db|]);
      v.workHours == "9h 10m" && v.status == Present
  {
    ShownAs(9, 10, "9h 10m");
    FirstShift(db, emp, today, t1, 9 * HOUR_MS + 10 * MINUTE_MS);
  }

  /** Checking in at 09:00 and out at 13:30 shows "4h 30m", Partial. */
  lemma HalfDayScenario(db: seq<DailyRecord>, emp: string, today: string, t1: nat)
    requires FindRecord(db, emp, today).None?
    ensures var s2 := CheckOutStep(CheckInStep(db, emp, today, t1).table, emp, today, t1 + (4 * HOUR_MS + 30 * MINUTE_MS));
      var v := MapRecordToHRView(s2.table[|db|]);
      v.workHours == "4h 30m" && v.status == Partial
  {
    ShownAs(4, 30, "4h 30m");
    FirstShift(db, emp, today, t1, 4 * HOUR_MS + 30 * MINUTE_MS);
  }

  /** How the two scenario durations are written. */
  lemma ShownAs(h: nat, m: nat, text: string)
    requires (h, m, text) == (9, 10, "9h 10m") || (h, m, text) == (4, 30, "4h 30m")
    ensures FormatDuration(h * HOUR_MS + m * MINUTE_MS) == text
  {
    if h == 9 {
      assert DurationParts(9 * HOUR_MS + 10 * MINUTE_MS) == (9, 10);
      assert NatToString(10) == "10";
    } else {
      assert DurationParts(4 * HOUR_MS + 30 * MINUTE_MS) == (4, 30);
      assert NatToString(30) == "30";
    }
  }

  /** The classification boundary: exactly 8h0m0s is Present, one second
      less is Partial, and a stored Leave survives any sessions. */
  lemma ClassificationBoundary(sessions: seq<Session>)
    requires sessions != []
    ensures Classify(FULL_DAY_MS, true, Present) == Present
    ensures Classify(FULL_DAY_MS - 1000, true, Present) == Partial
    ensures Classify(NetMs(sessions), true, Leave) == Leave
    ensures Classify(0, false, Present) == Absent
  {
  }

  // ---------------------------------------------------------------------
  // The store
  // ---------------------------------------------------------------------

  /** The roster the seeder runs over. */
  const SEED_EMPLOYEE_IDS: seq<string> :=
    ["EMP-101", "EMP-202", "EMP-303", "EMP-404", "EMP-505", "EMP-606"]

  /** The clock readings and random draws a seeding run consumes. */
  datatype SeedInput = SeedInput(calendar: seq<SeedDay>, draws: seq<seq<Draw>>)

  /** 30 days with distinct dates, one fitting draw per (day, employee). */
  predicate SeedInputOk(input: SeedInput)
  {
    |input.calendar| == 30 && DrawsFit(SEED_EMPLOYEE_IDS, input.calendar, input.draws) &&
    DistinctDates(input.calendar)
  }

  lemma SeedIdsDistinct()
    ensures Distinct(SEED_EMPLOYEE_IDS)
  {
    var ids := SEED_EMPLOYEE_IDS;
    assert forall i :: 0 <= i < |ids| ==> |ids[i]| == 7 && ids[i][4] == "123456"[i];
  }

  /** The persisted table (`attendance_db`) and the seeded flag. */
  class AttendanceStore {
    var db: seq<DailyRecord>
    var hasData: bool
    var seeded: bool

    ghost predicate Valid()
      reads this
    {
      ValidTable(db)
    }

    /** A store over what local storage holds: the table if present, and
        the seeded flag. */
    constructor (stored: Option<seq<DailyRecord>>, seededFlag: bool)
      requires stored.Some? ==> ValidTable(stored.value)
      ensures Valid()
      ensures hasData == stored.Some? && seeded == seededFlag
      ensures db == if stored.Some? then stored.value else []
    {
      db := if stored.Some? then stored.value else [];
      hasData := stored.Some?;
      seeded := seededFlag;
    }

    /** The table `getDB` hands back: what is stored, or a fresh seed when
        the table or the flag is missing. */
    ghost function Loaded(input: SeedInput): seq<DailyRecord>
      reads this
      requires SeedInputOk(input)
    {
      if hasData && seeded then db else Seeded(SEED_EMPLOYEE_IDS, input.calendar, input.draws)
    }

    /** `getDB`: seeds at most once; once both table and flag are present
        it returns the table unchanged. */
    method Load(input: SeedInput) returns (records: seq<DailyRecord>)
      requires Valid() && SeedInputOk(input)
      modifies this
      ensures Valid() && hasData && seeded
      ensures records == db && db == old(Loaded(input))
    {
      if !hasData || !seeded {
        var historical := GenerateHistoricalData(SEED_EMPLOYEE_IDS, input.calendar, input.draws);
        SeedIdsDistinct();
        SeededValid(SEED_EMPLOYEE_IDS, input.calendar, input.draws);
        db := historical;
        hasData := true;
        seeded := true;
      }
      records := db;
    }

    /** `attendanceService.checkIn`. A failure writes nothing beyond what
        loading the table wrote. */
    method CheckIn(employeeId: string, today: string, now: nat, input: SeedInput)
      returns (outcome: Outcome<AttendanceError>)
      requires Valid() && SeedInputOk(input)
      modifies this
      ensures Valid() && hasData && seeded
      ensures Step(outcome, db) == CheckInStep(old(Loaded(input)), employeeId, today, now)
    {
      var table := Load(input);
      var found := FindRecord(table, employeeId, today);
      if found.Some? {
        var i := found.value;
        var record := table[i];
        if HasOpen(record.sessions) {
          return Fail(AlreadyCheckedIn);
        }
        record := record.(sessions := record.sessions + [Session(now, None)]);
        record := record.(lastUpdated := now);
        table := table[i := record];
      } else {
        table := table + [DailyRecord(NewRecordId(now, employeeId), employeeId, today,
                                      [Session(now, None)], Present, now)];
      }
      db := table;
      outcome := Pass;
    }

    /** `attendanceService.checkOut`. */
    method CheckOut(employeeId: string, today: string, now: nat, input: SeedInput)
      returns (outcome: Outcome<AttendanceError>)
      requires Valid() && SeedInputOk(input)
      modifies this
      ensures Valid() && hasData && seeded
      ensures Step(outcome, db) == CheckOutStep(old(Loaded(input)), employeeId, today, now)
    {
      var table := Load(input);
      var found := FindRecord(table, employeeId, today);
      if found.None? {
        return Fail(NoActiveShift);
      }
      var i := found.value;
      var record := table[i];
      var activeIdx := FindIndex(record.sessions, IsOpen);
      if activeIdx.None? {
        return Fail(NoOpenSession);
      }
      var j := activeIdx.value;
      record := record.(sessions := record.sessions[j := Session(record.sessions[j].checkIn, Some(now))]);
      record := record.(lastUpdated := now);
      table := table[i := record];
      db := table;
      outcome := Pass;
    }

    /** What a subscriber to all attendance receives. */
    method AllRecords(input: SeedInput) returns (views: seq<HRView>)
      requires Valid() && SeedInputOk(input)
      modifies this
      ensures Valid() && db == old(Loaded(input))
      ensures views == AllAttendance(db)
    {
      var table := Load(input);
      views := AllAttendance(table);
    }

    /** What a subscriber to one employee's attendance receives. */
    method UserRecords(employeeId: string, input: SeedInput) returns (views: seq<HRView>)
      requires Valid() && SeedInputOk(input)
      modifies this
      ensures Valid() && db == old(Loaded(input))
      ensures views == UserAttendance(db, employeeId)
    {
      var table := Load(input);
      views := UserAttendance(table, employeeId);
    }
  }

  /** Loading twice seeds once: the second load returns the first one's
      table. */
  method LoadTwice(store: AttendanceStore, input1: SeedInput, input2: SeedInput)
    returns (first: seq<DailyRecord>, second: seq<DailyRecord>)
    requires store.Valid() && SeedInputOk(input1) && SeedInputOk(input2)
    modifies store
    ensures first == second
  {
    first := store.Load(input1);
    second := store.Load(input2);
  }
}
