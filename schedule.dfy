/**
 * The fetch schedule of the `__main__` loop of main.py: starting at
 * 2000-01-01 and while the current date is not after the end date (the
 * date of `datetime.now()`), label the current month `%Y-%m`, call
 * `fetch_and_store_data(symbol, month)` for each symbol in list order, then
 * add 31 days. The stride is a parameter so that the calendar-month stride
 * the loop evidently intends can be run through the same loop and compared.
 */
module Schedule {
  import opened Wrappers
  import opened Calendar
  import opened MonthLabels

  /** `datetime(2000, 1, 1)`: the first date of the loop. */
  const StartDate: Date := Date(2000, 1, 1)

  /** How the loop advances `current_date`. */
  datatype Stride =
    | ThirtyOneDays  // `current_date += timedelta(days=31)`, as written
    | OneMonth       // to the first day of the next calendar month

  /** One call `fetch_and_store_data(symbol, month)`. */
  datatype FetchCall = FetchCall(symbol: string, month: string)

  /** The dates the loop visits, and whether the last advance overflowed past year 9999. */
  datatype Trace = Trace(dates: seq<Date>, overflowed: bool)

  /**
   * One advance of `current_date`. It always moves to a later month, and it
   * fails (Python raises OverflowError) only from December 9999.
   */
  function Advance(stride: Stride, d: Date): (r: Option<Date>)
    requires InRange(d)
    ensures r.Some? ==> InRange(r.value) && DateLess(d, r.value) && MonthIndex(d) < MonthIndex(r.value)
    ensures r.None? <==> d.year == MaxYear && d.month == 12
  {
    match stride
    case ThirtyOneDays =>
      ThirtyOneDaysMonthStep(d);
      AddDaysAdvances(d, 31);
      AddTimedelta(d, 31)
    case OneMonth =>
      var n := FirstOfNextMonth(d);
      if n.year > MaxYear then None else Some(n)
  }

  /**
   * The dates the `while current_date <= end_date` loop visits from `d`:
   * `d` first if it is not after the end, and only dates not after the end.
   */
  function Visits(stride: Stride, d: Date, end: Date): (t: Trace)
    requires InRange(d) && InRange(end)
    ensures AllInRange(t.dates)
    ensures t.dates == [] <==> !DateLessEq(d, end)
    ensures t.dates != [] ==> t.dates[0] == d
    ensures forall i :: 0 <= i < |t.dates| ==> DateLessEq(t.dates[i], end)
    ensures t.overflowed ==> t.dates != []
    decreases MonthIndex(end) - MonthIndex(d)
  {
    if !DateLessEq(d, end) then Trace([], false)
    else match Advance(stride, d)
      case None => Trace([d], true)
      case Some(n) =>
        var t := Visits(stride, n, end);
        Trace([d] + t.dates, t.overflowed)
  }

  predicate AllInRange(ds: seq<Date>) {
    forall i :: 0 <= i < |ds| ==> InRange(ds[i])
  }

  /** The calls of one pass of the outer loop: every symbol, in list order, with the month's label. */
  function MonthCalls(d: Date, symbols: seq<string>): (cs: seq<FetchCall>)
    requires InRange(d)
    ensures |cs| == |symbols|
    ensures forall j :: 0 <= j < |symbols| ==> cs[j] == FetchCall(symbols[j], MonthLabel(d))
  {
    seq(|symbols|, j requires 0 <= j < |symbols| => FetchCall(symbols[j], MonthLabel(d)))
  }

  /** The calls of a run of passes: month-major, symbol-minor. */
  function CallsFor(ds: seq<Date>, symbols: seq<string>): seq<FetchCall>
    requires AllInRange(ds)
  {
    if ds == [] then [] else MonthCalls(ds[0], symbols) + CallsFor(ds[1..], symbols)
  }

  /** Every call the loop makes, for end date `end`. */
  function Schedule(stride: Stride, symbols: seq<string>, end: Date): seq<FetchCall>
    requires InRange(end)
  {
    CallsFor(Visits(stride, StartDate, end).dates, symbols)
  }

  /**
   * The `__main__` loop. It records the calls it makes to
   * `fetch_and_store_data` and reports whether it stopped because adding
   * to the date overflowed. Its result is the schedule `Visits` describes.
   */
  method PlanFetches(stride: Stride, symbols: seq<string>, endDate: Date)
    returns (calls: seq<FetchCall>, overflowed: bool)
    requires InRange(endDate)
    ensures calls == Schedule(stride, symbols, endDate)
    ensures overflowed == Visits(stride, StartDate, endDate).overflowed
  {
    var current := StartDate;
    calls := [];
    overflowed := false;
    ghost var all := Visits(stride, StartDate, endDate);
    ghost var done: seq<Date> := [];
    while DateLessEq(current, endDate)
      invariant InRange(current) && AllInRange(done)
      invariant all.dates == done + Visits(stride, current, endDate).dates
      invariant all.overflowed == Visits(stride, current, endDate).overflowed
      invariant calls == CallsFor(done, symbols)
      decreases MonthIndex(endDate) - MonthIndex(current)
    {
      var pass := MonthPass(current, symbols);
      calls := calls + pass;
      CallsForAppend(done, current, symbols);
      MonthIndexMonotone(current, endDate);
      var next := Advance(stride, current);
      if next.None? {
        VisitsAfterLast(stride, done, current, endDate);
        done := done + [current];
        overflowed := true;
        break;
      }
      VisitsAfterNext(stride, done, current, next.value, endDate);
      done := done + [current];
      current := next.value;
    }
    assert all.dates == done;
  }

  /** A last pass of the loop: the advance overflowed, so `current` ends the visited dates. */
  lemma VisitsAfterLast(stride: Stride, done: seq<Date>, current: Date, end: Date)
    requires InRange(current) && InRange(end) && DateLessEq(current, end)
    requires Advance(stride, current).None?
    ensures done + Visits(stride, current, end).dates == done + [current]
    ensures Visits(stride, current, end).overflowed
  {
    VisitsUnfold(stride, current, end);
  }

  /** Another pass of the loop: the visited dates so far gain `current`, and the rest start at `next`. */
  lemma VisitsAfterNext(stride: Stride, done: seq<Date>, current: Date, next: Date, end: Date)
    requires InRange(current) && InRange(next) && InRange(end) && DateLessEq(current, end)
    requires Advance(stride, current) == Some(next)
    ensures done + Visits(stride, current, end).dates == (done + [current]) + Visits(stride, next, end).dates
    ensures Visits(stride, current, end).overflowed == Visits(stride, next, end).overflowed
  {
    VisitsUnfold(stride, current, end);
    var rest := Visits(stride, next, end).dates;
    assert done + ([current] + rest) == (done + [current]) + rest;
  }

  method MonthPass(current: Date, symbols: seq<string>) returns (calls: seq<FetchCall>)
    requires InRange(current)
    ensures calls == MonthCalls(current, symbols)
  {
    var month := MonthLabel(current);
    calls := [];
    for i := 0 to |symbols|
      invariant calls == MonthCalls(current, symbols)[..i]
    {
      calls := calls + [FetchCall(symbols[i], month)];
    }
  }

  lemma VisitsUnfold(stride: Stride, d: Date, end: Date)
    requires InRange(d) && InRange(end) && DateLessEq(d, end)
    ensures Advance(stride, d).None? ==> Visits(stride, d, end) == Trace([d], true)
    ensures Advance(stride, d).Some? ==>
            Visits(stride, d, end)
            == Trace([d] + Visits(stride, Advance(stride, d).value, end).dates,
                     Visits(stride, Advance(stride, d).value, end).overflowed)
  {
  }

  // ---------------------------------------------------------------------
  // The calls, month by month

  lemma {:induction false} CallsForAppend(ds: seq<Date>, d: Date, symbols: seq<string>)
    requires AllInRange(ds) && InRange(d)
    ensures AllInRange(ds + [d])
    ensures CallsFor(ds + [d], symbols) == CallsFor(ds, symbols) + MonthCalls(d, symbols)
  {
    if ds != [] {
      var all := ds + [d];
      assert all[0] == ds[0] && all[1..] == ds[1..] + [d];
      CallsForAppend(ds[1..], d, symbols);
      var h, t, m := MonthCalls(ds[0], symbols), CallsFor(ds[1..], symbols), MonthCalls(d, symbols);
      calc {
        CallsFor(all, symbols);
        h + CallsFor(ds[1..] + [d], symbols);
        h + (t + m);
        (h + t) + m;
      }
    } else {
      assert ds + [d] == [d];
      assert [d][1..] == [];
    }
  }

  /**
   * Month-major, symbol-minor: pass `i` of the outer loop makes calls
   * `i * |symbols|` to `i * |symbols| + |symbols| - 1`, one per symbol in
   * list order, all with the label of the `i`-th date.
   */
  lemma {:induction false} CallsForIndex(ds: seq<Date>, symbols: seq<string>, i: int, j: int)
    requires AllInRange(ds)
    requires 0 <= i < |ds| && 0 <= j < |symbols|
    ensures |CallsFor(ds, symbols)| == |ds| * |symbols|
    ensures 0 <= i * |symbols| + j < |CallsFor(ds, symbols)|
    ensures CallsFor(ds, symbols)[i * |symbols| + j] == FetchCall(symbols[j], MonthLabel(ds[i]))
  {
    var n := |symbols|;
    CallsForLength(ds, symbols);
    if i > 0 {
      CallsForIndex(ds[1..], symbols, i - 1, j);
      assert i * n + j == n + ((i - 1) * n + j);
    }
  }

  lemma {:induction false} CallsForLength(ds: seq<Date>, symbols: seq<string>)
    requires AllInRange(ds)
    ensures |CallsFor(ds, symbols)| == |ds| * |symbols|
  {
    if ds != [] {
      CallsForLength(ds[1..], symbols);
      assert |ds| * |symbols| == |symbols| + (|ds| - 1) * |symbols|;
    }
  }

  /** A call is in the run exactly when it pairs a listed symbol with the label of a visited date. */
  lemma {:induction false} CallsForMember(ds: seq<Date>, symbols: seq<string>, c: FetchCall)
    requires AllInRange(ds)
    ensures c in CallsFor(ds, symbols) <==>
            exists i, j :: 0 <= i < |ds| && 0 <= j < |symbols| && c == FetchCall(symbols[j], MonthLabel(ds[i]))
  {
    if ds != [] {
      CallsForMember(ds[1..], symbols, c);
      if c in MonthCalls(ds[0], symbols) {
        var j :| 0 <= j < |symbols| && MonthCalls(ds[0], symbols)[j] == c;
        assert c == FetchCall(symbols[j], MonthLabel(ds[0]));
      }
      if exists i, j :: 0 <= i < |ds| && 0 <= j < |symbols| && c == FetchCall(symbols[j], MonthLabel(ds[i])) {
        var i, j :| 0 <= i < |ds| && 0 <= j < |symbols| && c == FetchCall(symbols[j], MonthLabel(ds[i]));
        if i == 0 {
          assert MonthCalls(ds[0], symbols)[j] == c;
        } else {
          assert ds[1..][i - 1] == ds[i];
        }
      }
    }
  }

  predicate NoDuplicates<T(==)>(s: seq<T>) {
    forall p, q :: 0 <= p < q < |s| ==> s[p] != s[q]
  }

  predicate DistinctMonths(ds: seq<Date>) {
    forall p, q :: 0 <= p < q < |ds| ==> MonthIndex(ds[p]) != MonthIndex(ds[q])
  }

  /** Distinct symbols over distinct months: no (symbol, month) pair is requested twice. */
  lemma {:induction false} CallsForNoDuplicates(ds: seq<Date>, symbols: seq<string>)
    requires AllInRange(ds) && DistinctMonths(ds) && NoDuplicates(symbols)
    ensures NoDuplicates(CallsFor(ds, symbols))
  {
    if ds != [] {
      var head, tail := MonthCalls(ds[0], symbols), CallsFor(ds[1..], symbols);
      CallsForNoDuplicates(ds[1..], symbols);
      forall p, q | 0 <= p < |head| && 0 <= q < |tail|
        ensures head[p] != tail[q]
      {
        LaterMonthsDiffer(ds, symbols, tail[q]);
      }
      var s := head + tail;
      forall p, q | 0 <= p < q < |s| ensures s[p] != s[q] {
        if q < |head| {
        } else if p >= |head| {
          assert s[p] == tail[p - |head|] && s[q] == tail[q - |head|];
        } else {
          assert s[q] == tail[q - |head|];
        }
      }
    }
  }

  /** The calls of the later passes never carry the first pass's month. */
  lemma LaterMonthsDiffer(ds: seq<Date>, symbols: seq<string>, c: FetchCall)
    requires AllInRange(ds) && DistinctMonths(ds) && ds != []
    requires c in CallsFor(ds[1..], symbols)
    ensures c.month != MonthLabel(ds[0])
  {
    CallsForMember(ds[1..], symbols, c);
    var i, j :| 0 <= i < |ds[1..]| && 0 <= j < |symbols| && c == FetchCall(symbols[j], MonthLabel(ds[1..][i]));
    assert ds[1..][i] == ds[i + 1];
    LabelInjective(ds[0], ds[i + 1]);
  }

  // ---------------------------------------------------------------------
  // The dates the loop visits

  /** Each visited date after the first is one advance of the one before. */
  lemma {:induction false} VisitsSteps(stride: Stride, d: Date, end: Date)
    requires InRange(d) && InRange(end)
    ensures Chained(stride, Visits(stride, d, end).dates)
    decreases MonthIndex(end) - MonthIndex(d)
  {
    var a := Advance(stride, d);
    if DateLessEq(d, end) && a.Some? {
      VisitsSteps(stride, a.value, end);
      ChainedCons(stride, d, Visits(stride, a.value, end).dates);
    }
  }

  /** Each date of `ds` after the first is one advance of the one before. */
  predicate Chained(stride: Stride, ds: seq<Date>)
    requires AllInRange(ds)
  {
    forall i :: 0 <= i < |ds| - 1 ==> Advance(stride, ds[i]) == Some(ds[i + 1])
  }

  lemma ChainedCons(stride: Stride, d: Date, ds: seq<Date>)
    requires InRange(d) && AllInRange(ds) && Chained(stride, ds)
    requires ds != [] ==> Advance(stride, d) == Some(ds[0])
    ensures AllInRange([d] + ds) && Chained(stride, [d] + ds)
  {
    var all := [d] + ds;
    forall i | 0 <= i < |all| - 1
      ensures Advance(stride, all[i]) == Some(all[i + 1])
    {
      if i > 0 {
        assert all[i] == ds[i - 1] && all[i + 1] == ds[i];
      }
    }
  }

  /**
   * The loop stops exactly when it must: after an advance that overflowed,
   * or when the next date is after the end date.
   */
  lemma {:induction false} VisitsStop(stride: Stride, d: Date, end: Date)
    requires InRange(d) && InRange(end)
    ensures Stops(stride, Visits(stride, d, end), end)
    decreases MonthIndex(end) - MonthIndex(d)
  {
    if DateLessEq(d, end) {
      VisitsUnfold(stride, d, end);
      var a := Advance(stride, d);
      if a.Some? {
        var t := Visits(stride, a.value, end);
        VisitsStop(stride, a.value, end);
        StopsCons(stride, d, a.value, end, t);
      }
    }
  }

  /** A trace stops properly: after its last date the loop must end. */
  predicate Stops(stride: Stride, t: Trace, end: Date)
    requires AllInRange(t.dates)
  {
    t.dates != [] ==> StopsAfter(stride, t.dates[|t.dates| - 1], end, t.overflowed)
  }

  /** Putting one more date in front of a trace that stops keeps the same last date. */
  lemma StopsCons(stride: Stride, d: Date, n: Date, end: Date, t: Trace)
    requires InRange(d) && InRange(n) && InRange(end) && AllInRange(t.dates)
    requires Advance(stride, d) == Some(n)
    requires t.dates == [] <==> !DateLessEq(n, end)
    requires t.overflowed ==> t.dates != []
    requires Stops(stride, t, end)
    ensures AllInRange([d] + t.dates) && Stops(stride, Trace([d] + t.dates, t.overflowed), end)
  {
    var all := [d] + t.dates;
    if t.dates == [] {
      assert all[|all| - 1] == d;
      assert DateLess(end, n);
    } else {
      assert all[|all| - 1] == t.dates[|t.dates| - 1];
    }
  }

  /** After visiting `last` the loop ends: by overflow, or because the next date is after `end`. */
  predicate StopsAfter(stride: Stride, last: Date, end: Date, overflowed: bool)
    requires InRange(last)
  {
    var n := Advance(stride, last);
    if overflowed then n.None? else n.Some? && DateLess(end, n.value)
  }

  /** The months of the visited dates strictly increase, and so do their labels as strings. */
  lemma VisitsIncreasing(stride: Stride, d: Date, end: Date, p: int, q: int)
    requires InRange(d) && InRange(end)
    requires 0 <= p < q < |Visits(stride, d, end).dates|
    ensures var ds := Visits(stride, d, end).dates;
            && MonthIndex(ds[p]) < MonthIndex(ds[q])
            && LexLess(MonthLabel(ds[p]), MonthLabel(ds[q]))
  {
    var ds := Visits(stride, d, end).dates;
    VisitsSteps(stride, d, end);
    MonthsIncrease(stride, ds, p, q);
    LabelOrder(ds[p], ds[q]);
  }

  lemma {:induction false} MonthsIncrease(stride: Stride, ds: seq<Date>, p: int, q: int)
    requires AllInRange(ds)
    requires Chained(stride, ds)
    requires 0 <= p < q < |ds|
    ensures MonthIndex(ds[p]) < MonthIndex(ds[q])
    decreases q - p
  {
    if p + 1 < q {
      MonthsIncrease(stride, ds, p + 1, q);
    }
  }

  lemma VisitsDistinctMonths(stride: Stride, d: Date, end: Date)
    requires InRange(d) && InRange(end)
    ensures DistinctMonths(Visits(stride, d, end).dates)
  {
    var ds := Visits(stride, d, end).dates;
    forall p, q | 0 <= p < q < |ds|
      ensures MonthIndex(ds[p]) != MonthIndex(ds[q])
    {
      VisitsIncreasing(stride, d, end, p, q);
    }
  }

  /** With the 31-day stride, each pass moves one or two calendar months on: months are skipped, never repeated. */
  lemma ThirtyOneDaysStepsOneOrTwoMonths(d: Date, end: Date, i: int)
    requires InRange(d) && InRange(end)
    requires 0 <= i < |Visits(ThirtyOneDays, d, end).dates| - 1
    ensures var ds := Visits(ThirtyOneDays, d, end).dates;
            1 <= MonthIndex(ds[i + 1]) - MonthIndex(ds[i]) <= 2
  {
    var ds := Visits(ThirtyOneDays, d, end).dates;
    VisitsSteps(ThirtyOneDays, d, end);
    assert Advance(ThirtyOneDays, ds[i]) == Some(ds[i + 1]);
    ThirtyOneDaysMonthStep(ds[i]);
  }

  /**
   * With the 31-day stride the `i`-th visited date is the date `31 * i`
   * days after the first; every visited date is not after the end date and
   * the next multiple of 31 days would be, so the loop visits exactly the
   * dates `31 * i` days after the first that are not after the end.
   */
  lemma ThirtyOneDaysVisitsExactly(d: Date, end: Date)
    requires InRange(d) && InRange(end)
    ensures var ds := Visits(ThirtyOneDays, d, end).dates;
            && (forall i :: 0 <= i < |ds| ==> Ordinal(ds[i]) == Ordinal(d) + 31 * i)
            && (ds != [] ==> Ordinal(d) + 31 * (|ds| - 1) <= Ordinal(end))
            && Ordinal(end) < Ordinal(d) + 31 * |ds|
  {
    var ds := Visits(ThirtyOneDays, d, end).dates;
    VisitsSteps(ThirtyOneDays, d, end);
    VisitsStop(ThirtyOneDays, d, end);
    ThirtyOneDaysOrdinals(d, ds, |ds|);
    if ds == [] {
      OrdinalMonotone(end, d);
    } else {
      var last := ds[|ds| - 1];
      OrdinalMonotone(last, end);
      var n := AddDays(last, 31);
      AddDaysOrdinal(last, 31);
      assert Ordinal(n) == Ordinal(d) + 31 * |ds|;
      assert DateLess(end, n);
      OrdinalMonotone(end, n);
    }
  }

  lemma {:induction false} ThirtyOneDaysOrdinals(d: Date, ds: seq<Date>, k: int)
    requires AllInRange(ds) && 0 <= k <= |ds|
    requires ds != [] ==> ds[0] == d
    requires Chained(ThirtyOneDays, ds)
    ensures forall i :: 0 <= i < k ==> Ordinal(ds[i]) == Ordinal(d) + 31 * i
  {
    if k > 1 {
      ThirtyOneDaysOrdinals(d, ds, k - 1);
      assert Advance(ThirtyOneDays, ds[k - 2]) == Some(ds[k - 1]);
      AddDaysOrdinal(ds[k - 2], 31);
    }
  }

  /**
   * With the calendar-month stride from the first of a month, the `i`-th
   * visited date is the first of the `i`-th month after, and the loop visits
   * exactly the months up to and including the month of the end date.
   */
  lemma OneMonthVisitsExactly(d: Date, end: Date)
    requires InRange(d) && InRange(end) && d.day == 1
    ensures var ds := Visits(OneMonth, d, end).dates;
            && (forall i :: 0 <= i < |ds| ==> MonthIndex(ds[i]) == MonthIndex(d) + i && ds[i].day == 1)
            && |ds| == if MonthIndex(d) <= MonthIndex(end) then MonthIndex(end) - MonthIndex(d) + 1 else 0
  {
    var ds := Visits(OneMonth, d, end).dates;
    VisitsSteps(OneMonth, d, end);
    VisitsStop(OneMonth, d, end);
    OneMonthIndices(d, ds, |ds|);
    if ds != [] {
      var last := ds[|ds| - 1];
      assert DateLessEq(last, end);
      assert MonthIndex(last) == MonthIndex(d) + |ds| - 1;
    }
  }

  lemma {:induction false} OneMonthIndices(d: Date, ds: seq<Date>, k: int)
    requires AllInRange(ds) && 0 <= k <= |ds| && d.day == 1
    requires ds != [] ==> ds[0] == d
    requires Chained(OneMonth, ds)
    ensures forall i :: 0 <= i < k ==> MonthIndex(ds[i]) == MonthIndex(d) + i && ds[i].day == 1
  {
    if k > 1 {
      OneMonthIndices(d, ds, k - 1);
      assert Advance(OneMonth, ds[k - 2]) == Some(ds[k - 1]);
    }
  }

  // ---------------------------------------------------------------------
  // Properties of the schedule

  /** The first pass requests "2000-01" for the first symbol; an end date before 2000-01-01 requests nothing. */
  lemma ScheduleStart(stride: Stride, symbols: seq<string>, end: Date)
    requires InRange(end)
    ensures !DateLessEq(StartDate, end) ==> Schedule(stride, symbols, end) == []
    ensures DateLessEq(StartDate, end) && symbols != [] ==>
            Schedule(stride, symbols, end)[0] == FetchCall(symbols[0], "2000-01")
  {
    var ds := Visits(stride, StartDate, end).dates;
    if ds != [] && symbols != [] {
      CallsForIndex(ds, symbols, 0, 0);
      FirstLabel();
    }
  }

  /**
   * Every call carries a `%Y-%m` label of a month from 2000-01 up to the
   * month of the end date, and a listed symbol.
   */
  lemma ScheduleLabels(stride: Stride, symbols: seq<string>, end: Date, c: FetchCall)
    requires InRange(end) && c in Schedule(stride, symbols, end)
    ensures IsMonthLabel(c.month) && c.symbol in symbols
    ensures var ym := ParseLabel(c.month).value;
            MonthIndex(StartDate) <= ym.0 * 12 + ym.1 - 1 <= MonthIndex(end)
  {
    var ds := Visits(stride, StartDate, end).dates;
    CallsForMember(ds, symbols, c);
    var i, j :| 0 <= i < |ds| && 0 <= j < |symbols| && c == FetchCall(symbols[j], MonthLabel(ds[i]));
    var x := ds[i];
    LabelRoundTrip(x);
    assert ParseLabel(c.month).value == (x.year, x.month);
    MonthIndexMonotone(x, end);
    if i > 0 {
      VisitsSteps(stride, StartDate, end);
      MonthsIncrease(stride, ds, 0, i);
    }
    assert MonthIndex(StartDate) <= MonthIndex(x) <= MonthIndex(end);
  }

  /** Pass `i`, symbol `j`: the schedule is month-major and symbol-minor. */
  lemma ScheduleMonthMajor(stride: Stride, symbols: seq<string>, end: Date, i: int, j: int)
    requires InRange(end)
    requires 0 <= i < |Visits(stride, StartDate, end).dates| && 0 <= j < |symbols|
    ensures var ds := Visits(stride, StartDate, end).dates;
            && |Schedule(stride, symbols, end)| == |ds| * |symbols|
            && 0 <= i * |symbols| + j < |Schedule(stride, symbols, end)|
            && Schedule(stride, symbols, end)[i * |symbols| + j] == FetchCall(symbols[j], MonthLabel(ds[i]))
  {
    CallsForIndex(Visits(stride, StartDate, end).dates, symbols, i, j);
  }

  /** When the symbols are distinct, no (symbol, month) pair is requested twice. */
  lemma ScheduleNoDuplicates(stride: Stride, symbols: seq<string>, end: Date)
    requires InRange(end) && NoDuplicates(symbols)
    ensures NoDuplicates(Schedule(stride, symbols, end))
  {
    VisitsDistinctMonths(stride, StartDate, end);
    CallsForNoDuplicates(Visits(stride, StartDate, end).dates, symbols);
  }

  /**
   * As written, the loop never requests June 2004: 2004-05-31 is visited and
   * 31 days later is 2004-07-01. Once the end date reaches July 2004, the
   * months on both sides of the gap are requested.
   */
  lemma ThirtyOneDaysSkipsJune2004(symbols: seq<string>, end: Date)
    requires InRange(end)
    ensures forall c :: c in Schedule(ThirtyOneDays, symbols, end) ==> c.month != "2004-06"
    ensures DateLessEq(Date(2004, 7, 1), end) && symbols != [] ==>
            FetchCall(symbols[0], "2004-05") in Schedule(ThirtyOneDays, symbols, end)
            && FetchCall(symbols[0], "2004-07") in Schedule(ThirtyOneDays, symbols, end)
  {
    var ds := Visits(ThirtyOneDays, StartDate, end).dates;
    ThirtyOneDaysVisitsExactly(StartDate, end);
    forall c | c in Schedule(ThirtyOneDays, symbols, end) ensures c.month != "2004-06" {
      NoJuneCall(ds, symbols, c);
    }
    if DateLessEq(Date(2004, 7, 1), end) && symbols != [] {
      BothSidesOfJune(ds, symbols, end);
    }
  }

  lemma NoJuneCall(ds: seq<Date>, symbols: seq<string>, c: FetchCall)
    requires AllInRange(ds) && c in CallsFor(ds, symbols)
    requires forall i :: 0 <= i < |ds| ==> Ordinal(ds[i]) == Ordinal(StartDate) + 31 * i
    ensures c.month != "2004-06"
  {
    CallsForMember(ds, symbols, c);
    var i, j :| 0 <= i < |ds| && 0 <= j < |symbols| && c == FetchCall(symbols[j], MonthLabel(ds[i]));
    NotJune2004(ds[i], i);
  }

  lemma BothSidesOfJune(ds: seq<Date>, symbols: seq<string>, end: Date)
    requires AllInRange(ds) && InRange(end) && symbols != []
    requires forall i :: 0 <= i < |ds| ==> Ordinal(ds[i]) == Ordinal(StartDate) + 31 * i
    requires Ordinal(end) < Ordinal(StartDate) + 31 * |ds|
    requires DateLessEq(Date(2004, 7, 1), end)
    ensures FetchCall(symbols[0], "2004-05") in CallsFor(ds, symbols)
    ensures FetchCall(symbols[0], "2004-07") in CallsFor(ds, symbols)
  {
    var may31, july1 := Date(2004, 5, 31), Date(2004, 7, 1);
    AroundJune2004();
    OrdinalMonotone(july1, end);
    OrdinalInjective(july1, end);
    assert 53 < |ds|;
    OrdinalInjective(ds[52], may31);
    OrdinalInjective(ds[53], july1);
    VisitedCall(ds, symbols, 52, 0);
    VisitedCall(ds, symbols, 53, 0);
  }

  /** The dates on both sides of the June 2004 gap, and their labels. */
  lemma AroundJune2004()
    ensures Ordinal(Date(2004, 5, 31)) == Ordinal(StartDate) + 31 * 52
    ensures Ordinal(Date(2004, 7, 1)) == Ordinal(StartDate) + 31 * 53
    ensures MonthLabel(Date(2004, 5, 31)) == "2004-05"
    ensures MonthLabel(Date(2004, 7, 1)) == "2004-07"
  {
  }

  lemma VisitedCall(ds: seq<Date>, symbols: seq<string>, i: int, j: int)
    requires AllInRange(ds) && 0 <= i < |ds| && 0 <= j < |symbols|
    ensures FetchCall(symbols[j], MonthLabel(ds[i])) in CallsFor(ds, symbols)
  {
    CallsForMember(ds, symbols, FetchCall(symbols[j], MonthLabel(ds[i])));
  }

  /** No date 31 * i days after 2000-01-01 lies in June 2004. */
  lemma NotJune2004(x: Date, i: int)
    requires InRange(x) && Ordinal(x) == Ordinal(StartDate) + 31 * i
    ensures MonthLabel(x) != "2004-06"
  {
    var june := Date(2004, 6, 1);
    assert MonthLabel(june) == "2004-06";
    LabelInjective(x, june);
    June2004Ordinals(x);
  }

  /** June 2004 is the 1614th to the 1643rd day from 2000-01-01 on. */
  lemma June2004Ordinals(x: Date)
    requires ValidDate(x)
    ensures x.year == 2004 && x.month == 6 ==>
            Ordinal(StartDate) + 1613 <= Ordinal(x) <= Ordinal(StartDate) + 1642
  {
    assert Ordinal(StartDate) == 730120;
    assert DaysBeforeYear(2004) + DaysBeforeMonth(2004, 6) == 731732;
  }

  /**
   * With the calendar-month stride every month from 2000-01 to the month of
   * the end date is requested for every symbol, and (by ScheduleNoDuplicates)
   * only once.
   */
  lemma OneMonthCoversEveryMonth(symbols: seq<string>, end: Date, x: Date, s: string)
    requires InRange(end) && InRange(x) && s in symbols
    requires DateLessEq(StartDate, x) && DateLessEq(x, end)
    ensures FetchCall(s, MonthLabel(x)) in Schedule(OneMonth, symbols, end)
  {
    var ds := Visits(OneMonth, StartDate, end).dates;
    OneMonthVisitsExactly(StartDate, end);
    var i := MonthIndex(x) - MonthIndex(StartDate);
    assert 0 <= i < |ds|;
    LabelInjective(ds[i], x);
    var j :| 0 <= j < |symbols| && symbols[j] == s;
    CallsForMember(ds, symbols, FetchCall(s, MonthLabel(x)));
  }
}
