/** The attendance page: the search and the advanced filters over the
    records the subscription delivers, and the analytics derived from the
    filtered list (status counts, the pie slices, the hours trend and the
    total hours). */
module AttendancePage {
  import opened Common
  import opened Text
  import opened AttendanceService

  /** The "minimum hours" box: empty, a number, or text `parseFloat` reads
      as NaN (every comparison with NaN is false). */
  datatype MinHours = NoMin | AtLeast(hours: real) | NotANumber

  /** The advanced filters; an empty date or status means "any". */
  datatype Filters = Filters(startDate: string, endDate: string, status: string, minHours: MinHours)

  const NO_FILTERS := Filters("", "", "", NoMin)

  /** Empty search text matches everything; otherwise the text occurs in
      the employee id or the status (ignoring case) or in the date. */
  predicate MatchesSearch(v: HRView, term: string)
  {
    term == "" ||
    Includes(Lower(v.employeeId), Lower(term)) ||
    Includes(v.date, term) ||
    Includes(Lower(StatusName(v.status)), Lower(term))
  }

  /** The range compares the ISO dates as strings, both ends inclusive. */
  predicate MatchesRange(v: HRView, f: Filters)
  {
    (f.startDate == "" || LexLe(f.startDate, v.date)) &&
    (f.endDate == "" || LexLe(v.date, f.endDate))
  }

  predicate MatchesStatus(v: HRView, f: Filters)
  {
    f.status == "" || StatusName(v.status) == f.status
  }

  predicate MatchesMinHours(v: HRView, f: Filters)
  {
    match f.minHours
    case NoMin => true
    case AtLeast(h) => (v.workHoursMs as real) / 3600000.0 >= h
    case NotANumber => false
  }

  predicate Matches(v: HRView, term: string, f: Filters)
  {
    MatchesSearch(v, term) && MatchesRange(v, f) && MatchesStatus(v, f) && MatchesMinHours(v, f)
  }

  /** `filteredRecords`: the records that pass the search and every filter,
      in the order delivered. */
  function FilteredRecords(records: seq<HRView>, term: string, f: Filters): (r: seq<HRView>)
    ensures forall v :: v in r <==> v in records && Matches(v, term, f)
    ensures IsSubsequence(r, records)
    ensures forall v :: multiset(r)[v] == if Matches(v, term, f) then multiset(records)[v] else 0
  {
    FilterSubsequence(records, (v: HRView) => Matches(v, term, f));
    FilterMultiset(records, (v: HRView) => Matches(v, term, f));
    Filter(records, (v: HRView) => Matches(v, term, f))
  }

  /** With no search text and no filters every record is listed. */
  lemma NoFiltersIsAll(records: seq<HRView>)
    ensures FilteredRecords(records, "", NO_FILTERS) == records
  {
    FilterAll(records, (v: HRView) => Matches(v, "", NO_FILTERS));
  }

  /** A start date after the end date lets nothing through. */
  lemma InvertedRangeIsEmpty(records: seq<HRView>, term: string, f: Filters)
    requires f.startDate != "" && f.endDate != "" && !LexLe(f.startDate, f.endDate)
    ensures FilteredRecords(records, term, f) == []
  {
    var r := FilteredRecords(records, term, f);
    if r != [] {
      assert r[0] in r;
      LexLeTransitive(f.startDate, r[0].date, f.endDate);
    }
  }

  /** A minimum-hours text that is not a number hides every record. */
  lemma NotANumberHidesAll(records: seq<HRView>, term: string, f: Filters)
    requires f.minHours == NotANumber
    ensures FilteredRecords(records, term, f) == []
  {
    FilterNone(records, (v: HRView) => Matches(v, term, f));
  }

  /** Typing a status in lower case finds the records with that status. */
  lemma SearchFindsStatus(v: HRView)
    ensures MatchesSearch(v, Lower(StatusName(v.status)))
  {
    var name := Lower(StatusName(v.status));
    LowerIdempotent(StatusName(v.status));
    assert OccursAt(name, name, 0);
    IncludesIff(name, name);
  }

  function StatusCount(records: seq<HRView>, st: DayStatus): nat
  {
    Count(records, (v: HRView) => v.status == st)
  }

  /** A status is counted exactly when some record has it. */
  lemma StatusCountPositive(records: seq<HRView>, st: DayStatus)
    ensures StatusCount(records, st) > 0 <==> exists v :: v in records && v.status == st
  {
    var r := Filter(records, (v: HRView) => v.status == st);
    if r != [] {
      assert r[0] in r;
    }
  }

  /** The four status counts add up to the number of records. */
  lemma {:induction false} StatusCountsSum(records: seq<HRView>)
    ensures StatusCount(records, Present) + StatusCount(records, Partial) +
            StatusCount(records, Absent) + StatusCount(records, Leave) == |records|
  {
    if records != [] {
      var h := records[0];
      var rest := records[1..];
      assert records == [h] + rest;
      StatusCountsSum(rest);
      FilterCons(h, rest, (v: HRView) => v.status == Present);
      FilterCons(h, rest, (v: HRView) => v.status == Partial);
      FilterCons(h, rest, (v: HRView) => v.status == Absent);
      FilterCons(h, rest, (v: HRView) => v.status == Leave);
    }
  }

  /** `statusCounts`: the reduce that bumps `acc[r.status]` for each
      record; a status nobody has gets no entry. */
  method StatusCounts(records: seq<HRView>) returns (counts: map<DayStatus, nat>)
    ensures forall st :: st in counts <==> StatusCount(records, st) > 0
    ensures forall st :: st in counts ==> counts[st] == StatusCount(records, st)
  {
    counts := map[];
    var i := 0;
    while i < |records|
      invariant 0 <= i <= |records|
      invariant forall st :: st in counts <==> StatusCount(records[..i], st) > 0
      invariant forall st :: st in counts ==> counts[st] == StatusCount(records[..i], st)
    {
      var v := records[i];
      var previous := if v.status in counts then counts[v.status] else 0;
      counts := counts[v.status := previous + 1];
      assert records[..i + 1] == records[..i] + [v];
      forall st ensures StatusCount(records[..i + 1], st) == StatusCount(records[..i], st) + (if v.status == st then 1 else 0) {
        FilterAppend(records[..i], [v], (w: HRView) => w.status == st);
      }
      i := i + 1;
    }
    assert records[..i] == records;
  }

  /** One pie slice: a status name and its count. */
  datatype PieSlice = PieSlice(name: string, value: nat)

  function Statuses(records: seq<HRView>): (r: seq<DayStatus>)
    ensures forall st :: st in r <==> exists v :: v in records && v.status == st
  {
    var r := seq(|records|, i requires 0 <= i < |records| => records[i].status);
    assert forall v :: v in records ==> v.status in r by {
      forall v | v in records ensures v.status in r {
        var i :| 0 <= i < |records| && records[i] == v;
        assert r[i] == v.status;
      }
    }
    r
  }

  /** Some record has the status. */
  predicate Occurs(records: seq<HRView>, st: DayStatus)
  {
    exists v :: v in records && v.status == st
  }

  /** One slice for each status of `order`, in that order. */
  function Slices(records: seq<HRView>, order: seq<DayStatus>): (r: seq<PieSlice>)
    ensures |r| == |order|
    ensures forall k :: 0 <= k < |order| ==> r[k] == PieSlice(StatusName(order[k]), StatusCount(records, order[k]))
  {
    if order == [] then []
    else [PieSlice(StatusName(order[0]), StatusCount(records, order[0]))] + Slices(records, order[1..])
  }

  /** `pieData`: one slice per status that occurs, in order of first
      occurrence (the key order of the counts object), with its count. */
  function PieData(records: seq<HRView>): (r: seq<PieSlice>)
    ensures forall k :: 0 <= k < |r| ==> r[k].value > 0
    ensures forall st :: Occurs(records, st) <==> PieSlice(StatusName(st), StatusCount(records, st)) in r
    ensures forall k :: 0 <= k < |r| ==>
      exists st :: Occurs(records, st) && r[k] == PieSlice(StatusName(st), StatusCount(records, st))
    ensures forall j, k :: 0 <= j < k < |r| ==> r[j].name != r[k].name
  {
    var order := Dedup(Statuses(records));
    assert forall st :: st in order <==> Occurs(records, st);
    var r := Slices(records, order);
    SlicesNamesDistinct(records, order);
    SlicesOfOccurring(records, order);
    SlicesCoverOccurring(records, order);
    r
  }

  /** Slices for statuses that occur: each has a positive count and is
      the slice of an occurring status. */
  lemma SlicesOfOccurring(records: seq<HRView>, order: seq<DayStatus>)
    requires forall st :: st in order <==> Occurs(records, st)
    ensures var r := Slices(records, order);
      (forall k :: 0 <= k < |r| ==> r[k].value > 0) &&
      (forall k :: 0 <= k < |r| ==>
         exists st :: Occurs(records, st) && r[k] == PieSlice(StatusName(st), StatusCount(records, st)))
  {
    var r := Slices(records, order);
    forall k | 0 <= k < |r|
      ensures r[k].value > 0
      ensures exists st :: Occurs(records, st) && r[k] == PieSlice(StatusName(st), StatusCount(records, st))
    {
      assert order[k] in order;
      StatusCountPositive(records, order[k]);
    }
  }

  /** Slices for exactly the statuses that occur: each of them has its
      slice, and no other status has one. */
  lemma SlicesCoverOccurring(records: seq<HRView>, order: seq<DayStatus>)
    requires forall st :: st in order <==> Occurs(records, st)
    ensures var r := Slices(records, order);
      forall st :: Occurs(records, st) <==> PieSlice(StatusName(st), StatusCount(records, st)) in r
  {
    var r := Slices(records, order);
    forall st ensures Occurs(records, st) <==> PieSlice(StatusName(st), StatusCount(records, st)) in r {
      if PieSlice(StatusName(st), StatusCount(records, st)) in r {
        var k :| 0 <= k < |r| && r[k] == PieSlice(StatusName(st), StatusCount(records, st));
        StatusNameInjective(order[k], st);
        assert order[k] in order;
      }
      if st in order {
        var k :| 0 <= k < |order| && order[k] == st;
        assert r[k] == PieSlice(StatusName(st), StatusCount(records, st));
      }
    }
  }

  /** Slices for distinct statuses have distinct names. */
  lemma SlicesNamesDistinct(records: seq<HRView>, order: seq<DayStatus>)
    requires Distinct(order)
    ensures var r := Slices(records, order);
      forall j, k :: 0 <= j < k < |r| ==> r[j].name != r[k].name
  {
    var r := Slices(records, order);
    forall j, k | 0 <= j < k < |r| ensures r[j].name != r[k].name {
      if r[j].name == r[k].name {
        StatusNameInjective(order[j], order[k]);
      }
    }
  }

  lemma StatusNameInjective(a: DayStatus, b: DayStatus)
    requires StatusName(a) == StatusName(b)
    ensures a == b
  {
  }

  function Reversed<T>(s: seq<T>): (r: seq<T>)
    ensures |r| == |s| && forall i :: 0 <= i < |s| ==> r[i] == s[|s| - 1 - i]
  {
    if s == [] then [] else Reversed(s[1..]) + [s[0]]
  }

  /** `str.split('-').slice(1).join('/')`: what follows the first dash,
      with every later dash turned into a slash; no dash gives "". */
  /** `date.split('-').slice(1).join('/')`: what follows the first dash,
      with every further dash shown as a slash; nothing when there is no
      dash. */
  function DateLabel(date: string): (r: string)
    ensures NoDash(date) ==> r == ""
    ensures forall i :: 0 <= i < |date| && date[i] == '-' && NoDash(date[..i]) ==>
      |r| == |date| - i - 1 &&
      forall k :: 0 <= k < |r| ==> r[k] == if date[i + 1 + k] == '-' then '/' else date[i + 1 + k]
    ensures NoDash(r)
  {
    match FindIndex(date, (c: char) => c == '-')
    case None => ""
    case Some(i) => DashesToSlashes(date[i + 1..])
  }

  function DashesToSlashes(s: string): (r: string)
    ensures |r| == |s| && forall i :: 0 <= i < |s| ==> r[i] == if s[i] == '-' then '/' else s[i]
  {
    seq(|s|, i requires 0 <= i < |s| => if s[i] == '-' then '/' else s[i])
  }

  predicate NoDash(s: string) { forall i :: 0 <= i < |s| ==> s[i] != '-' }

  /** An ISO date "YYYY-MM-DD" is labelled "MM/DD". */
  lemma DateLabelOfIsoDate(year: string, month: string, day: string)
    requires NoDash(year) && NoDash(month) && NoDash(day)
    ensures DateLabel(year + "-" + month + "-" + day) == month + "/" + day
  {
    var date := year + "-" + month + "-" + day;
    var i := |year|;
    assert date[..i] == year && date[i] == '-';
    var rest := date[i + 1..];
    assert rest == month + "-" + day;
    var r := DateLabel(date);
    var want := month + "/" + day;
    assert |r| == |want|;
    forall k | 0 <= k < |r| ensures r[k] == want[k] {
      assert date[i + 1 + k] == rest[k];
    }
  }

  /** One trend point: the day's label and the milliseconds worked. */
  datatype TrendPoint = TrendPoint(day: string, workHoursMs: int)

  /** `[...filtered].reverse().slice(-14)`: the last fourteen of the
      reversed list. */
  function TrendRecords(f: seq<HRView>): (r: seq<HRView>)
    ensures |r| == if |f| < 14 then |f| else 14
  {
    var rev := Reversed(f);
    if |rev| <= 14 then rev else rev[|rev| - 14..]
  }

  /** That is the first fourteen records taken in reverse: for a list that
      comes newest first, the fourteen newest days, oldest first. */
  lemma TrendIsFirstFourteenReversed(f: seq<HRView>)
    ensures TrendRecords(f) == Reversed(f[..if |f| < 14 then |f| else 14])
  {
    var n := if |f| < 14 then |f| else 14;
    var r := TrendRecords(f);
    var e := Reversed(f[..n]);
    forall i | 0 <= i < n ensures r[i] == e[i] {
      assert r[i] == Reversed(f)[|f| - n + i];
    }
  }

  lemma TrendOldestFirst(f: seq<HRView>)
    requires forall i, j :: 0 <= i < j < |f| ==> LexLe(f[j].date, f[i].date)
    ensures var t := TrendRecords(f);
      forall i, j :: 0 <= i < j < |t| ==> LexLe(t[i].date, t[j].date)
  {
    TrendIsFirstFourteenReversed(f);
  }

  function TrendData(f: seq<HRView>): (r: seq<TrendPoint>)
    ensures |r| == |TrendRecords(f)|
    ensures forall i :: 0 <= i < |r| ==>
      r[i] == TrendPoint(DateLabel(TrendRecords(f)[i].date), TrendRecords(f)[i].workHoursMs)
  {
    var t := TrendRecords(f);
    seq(|t|, i requires 0 <= i < |t| => TrendPoint(DateLabel(t[i].date), t[i].workHoursMs))
  }

  /** `totalHoursMs`: the milliseconds worked over the filtered records. */
  function TotalMs(f: seq<HRView>): int
  {
    if f == [] then 0 else f[0].workHoursMs + TotalMs(f[1..])
  }

  lemma {:induction false} TotalMsNonNegative(f: seq<HRView>)
    requires forall v :: v in f ==> v.workHoursMs >= 0
    ensures TotalMs(f) >= 0
  {
    if f != [] {
      assert f[0] in f;
      assert forall v :: v in f[1..] ==> v in f;
      TotalMsNonNegative(f[1..]);
    }
  }

  /** The part of `analyticsData` that is integer arithmetic: the total
      hours text, the pie and the trend. */
  datatype Analytics = Analytics(totalHours: string, pie: seq<PieSlice>, trend: seq<TrendPoint>)

  /** `analyticsData`: nothing for an empty list. */
  function AnalyticsData(f: seq<HRView>): (r: Option<Analytics>)
    ensures r.None? <==> f == []
    ensures r.Some? ==> r.value.totalHours == FormatDuration(TotalMs(f)) &&
                        r.value.pie == PieData(f) && r.value.trend == TrendData(f)
  {
    if f == [] then None
    else Some(Analytics(FormatDuration(TotalMs(f)), PieData(f), TrendData(f)))
  }

  /** The sum of the slices' values. */
  function SliceTotal(slices: seq<PieSlice>): nat
  {
    if slices == [] then 0 else slices[0].value + SliceTotal(slices[1..])
  }

  /** The counts of those of the four statuses that `order` holds. */
  function CountOf(records: seq<HRView>, order: seq<DayStatus>): nat
  {
    (if Present in order then StatusCount(records, Present) else 0) +
    (if Partial in order then StatusCount(records, Partial) else 0) +
    (if Absent in order then StatusCount(records, Absent) else 0) +
    (if Leave in order then StatusCount(records, Leave) else 0)
  }

  /** Slices for distinct statuses add up to those statuses' counts. */
  lemma {:induction false} SlicesTotal(records: seq<HRView>, order: seq<DayStatus>)
    requires Distinct(order)
    ensures SliceTotal(Slices(records, order)) == CountOf(records, order)
  {
    if order != [] {
      var rest := order[1..];
      assert Distinct(rest) by {
        forall i, j | 0 <= i < j < |rest| ensures rest[i] != rest[j] {
          assert rest[i] == order[i + 1] && rest[j] == order[j + 1];
        }
      }
      assert order[0] !in rest by {
        forall k | 0 <= k < |rest| ensures rest[k] != order[0] {
          assert rest[k] == order[k + 1];
        }
      }
      SlicesTotal(records, rest);
      assert Slices(records, order)[1..] == Slices(records, rest);
      assert forall st :: st in order <==> st == order[0] || st in rest;
    }
  }

  /** The pie's slice values add up to the number of filtered records. */
  lemma PieCoversAll(f: seq<HRView>)
    ensures SliceTotal(PieData(f)) == |f|
  {
    var order := Dedup(Statuses(f));
    assert PieData(f) == Slices(f, order);
    SlicesTotal(f, order);
    StatusCountsSum(f);
    StatusCountPositive(f, Present);
    StatusCountPositive(f, Partial);
    StatusCountPositive(f, Absent);
    StatusCountPositive(f, Leave);
  }
}
