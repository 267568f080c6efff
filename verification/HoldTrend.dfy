/**
  The daily hold trend of frontend/src/hold-history/useHoldHistoryDuckDB.ts, its SQL
  aggregates read as folds over the rows.  Days are day numbers; None is NULL, and a NULL
  comparison selects nothing.
*/
module HoldTrend {
  import opened Options

  datatype Row = Row(
    holdType: Option<string>,
    holdDay: Option<int>,
    releaseDay: Option<int>,
    rnHoldDay: Option<int>,
    isFutureHold: Option<int>,
    futureHoldFlag: Option<int>,
    rnFutureReason: Option<int>,
    qty: Option<real>)

  /** Other is no column of the result: it is what neither type column counts. */
  datatype Series = All | Quality | NonQuality | Other

  datatype Measure = Hold | NewHold | Release | FutureHold | Repeat

  predicate Selects(s: Series, r: Row) {
    match s
    case All => true
    case Quality => r.holdType == Some("quality")
    case NonQuality => r.holdType == Some("non-quality")
    case Other => r.holdType != Some("quality") && r.holdType != Some("non-quality")
  }

  predicate Counts(m: Measure, r: Row, d: int) {
    match m
    case Hold =>
      r.holdDay.Some? && r.holdDay.value <= d && (r.releaseDay.None? || r.releaseDay.value > d)
    case NewHold => r.holdDay == Some(d) && r.rnHoldDay == Some(1)
    case Release => r.releaseDay == Some(d)
    case FutureHold => r.holdDay == Some(d) && r.isFutureHold == Some(1) && r.futureHoldFlag == Some(1)
    case Repeat => r.holdDay == Some(d) && r.rnFutureReason.Some? && r.rnFutureReason.value > 1
  }

  /** SUM skips NULL quantities. */
  function Amount(r: Row): real {
    if r.qty.Some? then r.qty.value else 0.0
  }

  function Part(r: Row, s: Series, m: Measure, d: int): real {
    if Selects(s, r) && Counts(m, r, d) then Amount(r) else 0.0
  }

  /** SUM(CASE WHEN ... THEN QTY ELSE 0 END) on day d. */
  function Total(rows: seq<Row>, s: Series, m: Measure, d: int): real {
    if rows == [] then 0.0 else Part(rows[0], s, m, d) + Total(rows[1..], s, m, d)
  }

  datatype Figures = Figures(hold: real, newHold: real, release: real, futureHold: real, repeatHold: real)

  datatype Day = Day(date: int, quality: Figures, nonQuality: Figures, all: Figures)

  function FiguresOf(rows: seq<Row>, s: Series, d: int): Figures {
    Figures(Total(rows, s, Hold, d), Total(rows, s, NewHold, d), Total(rows, s, Release, d),
            Total(rows, s, FutureHold, d),
            if s == NonQuality then 0.0 else Total(rows, Quality, Repeat, d))
  }

  function DayOf(rows: seq<Row>, d: int): Day {
    Day(d, FiguresOf(rows, Quality, d), FiguresOf(rows, NonQuality, d), FiguresOf(rows, All, d))
  }

  /** The cross join of the date series with the table: no rows, no days. */
  function QueryTrend(rows: seq<Row>, start: int, end: int): (days: seq<Day>)
    ensures |days| == if rows == [] || end < start then 0 else end - start + 1
    ensures forall i :: 0 <= i < |days| ==> days[i] == DayOf(rows, start + i)
  {
    if rows == [] || end < start then [] else seq(end - start + 1, (i: nat) => DayOf(rows, start + i))
  }

  function Of(day: Day, s: Series): Figures
    requires s != Other
  {
    match s case Quality => day.quality case NonQuality => day.nonQuality case All => day.all
  }

  // ---------------------------------------------------------------------------
  // Flow balance
  // ---------------------------------------------------------------------------

  /** What a row adds to the stock on day d beyond what flowed in and out that day. */
  function Residual(r: Row, s: Series, d: int): real {
    Part(r, s, Hold, d) - Part(r, s, Hold, d - 1) - Part(r, s, NewHold, d) + Part(r, s, Release, d)
  }

  /** The row enters the stock as its day's first hold and leaves it no earlier. */
  predicate Balanced(r: Row) {
    || Amount(r) == 0.0
    || match r.holdDay
       case None => r.releaseDay.None?
       case Some(h) => r.rnHoldDay == Some(1) && (r.releaseDay.None? || h <= r.releaseDay.value)
  }

  /** The flow balance of one row on all days, exactly. */
  lemma {:induction false} RowBalancesExactlyWhen(r: Row)
    ensures (forall d :: Residual(r, All, d) == 0.0) <==> Balanced(r)
  {
    if !Balanced(r) {
      var d := if r.holdDay.None? || (r.releaseDay.Some? && r.releaseDay.value < r.holdDay.value)
               then r.releaseDay.value else r.holdDay.value;
      assert Residual(r, All, d) != 0.0;
    }
  }

  lemma {:induction false} StockFollowsFlow(rows: seq<Row>, s: Series, d: int)
    requires forall i :: 0 <= i < |rows| ==> Selects(s, rows[i]) ==> Balanced(rows[i])
    ensures Total(rows, s, Hold, d)
            == Total(rows, s, Hold, d - 1) + Total(rows, s, NewHold, d) - Total(rows, s, Release, d)
  {
    if rows != [] {
      var r := rows[0];
      if Selects(s, r) {
        RowBalancesExactlyWhen(r);
        assert Residual(r, All, d) == 0.0;
        assert Residual(r, s, d) == Residual(r, All, d);
      }
      StockFollowsFlow(rows[1..], s, d);
    }
  }

  function NetFlow(days: seq<Day>, s: Series): real
    requires s != Other
  {
    if days == [] then 0.0
    else NetFlow(days[..|days| - 1], s) + Of(days[|days| - 1], s).newHold - Of(days[|days| - 1], s).release
  }

  /** Over any stretch of the trend the stock moves by exactly what flowed in and out, for each series. */
  lemma {:induction false} TrendTelescopes(rows: seq<Row>, start: int, end: int, s: Series, i: nat, j: nat)
    requires s != Other
    requires forall k :: 0 <= k < |rows| ==> Selects(s, rows[k]) ==> Balanced(rows[k])
    requires i <= j < |QueryTrend(rows, start, end)|
    ensures var days := QueryTrend(rows, start, end);
            Of(days[j], s).hold == Of(days[i], s).hold + NetFlow(days[i + 1..j + 1], s)
    decreases j
  {
    var days := QueryTrend(rows, start, end);
    if i < j {
      TrendTelescopes(rows, start, end, s, i, j - 1);
      StockFollowsFlow(rows, s, start + j);
      assert days[i + 1..j + 1][..j - i - 1] == days[i + 1..j];
    } else {
      assert days[i + 1..j + 1] == [];
    }
  }

  // ---------------------------------------------------------------------------
  // Each event once
  // ---------------------------------------------------------------------------

  /** The day a row's event falls on, if it has that event. */
  function EventDay(m: Measure, r: Row): Option<int>
    requires m != Hold
  {
    match m
    case NewHold => if r.rnHoldDay == Some(1) then r.holdDay else None
    case Release => r.releaseDay
    case FutureHold => if r.isFutureHold == Some(1) && r.futureHoldFlag == Some(1) then r.holdDay else None
    case Repeat => if r.rnFutureReason.Some? && r.rnFutureReason.value > 1 then r.holdDay else None
  }

  /** The figure summed over n days from `start`. */
  function OverDays(rows: seq<Row>, s: Series, m: Measure, start: int, n: nat): real {
    if n == 0 then 0.0 else OverDays(rows, s, m, start, n - 1) + Total(rows, s, m, start + n - 1)
  }

  /** The quantities of the rows whose event falls on one of these days. */
  function EventsWithin(rows: seq<Row>, s: Series, m: Measure, start: int, n: nat): real
    requires m != Hold
  {
    if rows == [] then 0.0
    else
      (match EventDay(m, rows[0])
       case Some(d) => if Selects(s, rows[0]) && start <= d < start + n then Amount(rows[0]) else 0.0
       case None => 0.0)
      + EventsWithin(rows[1..], s, m, start, n)
  }

  lemma {:induction false} OneMoreDay(rows: seq<Row>, s: Series, m: Measure, start: int, n: nat)
    requires m != Hold
    ensures EventsWithin(rows, s, m, start, n + 1)
            == EventsWithin(rows, s, m, start, n) + Total(rows, s, m, start + n)
  {
    if rows != [] {
      OneMoreDay(rows[1..], s, m, start, n);
    }
  }

  lemma {:induction false} NoDays(rows: seq<Row>, s: Series, m: Measure, start: int)
    requires m != Hold
    ensures EventsWithin(rows, s, m, start, 0) == 0.0
  {
    if rows != [] {
      NoDays(rows[1..], s, m, start);
    }
  }

  /** Summed over any range of days, every new hold, release, future hold and repeat in it is counted exactly once. */
  lemma {:induction false} EachEventOnce(rows: seq<Row>, s: Series, m: Measure, start: int, n: nat)
    requires m != Hold
    ensures OverDays(rows, s, m, start, n) == EventsWithin(rows, s, m, start, n)
  {
    if n == 0 {
      NoDays(rows, s, m, start);
    } else {
      EachEventOnce(rows, s, m, start, n - 1);
      OneMoreDay(rows, s, m, start, n - 1);
    }
  }

  /** The column a measure is shown in. */
  function Shown(f: Figures, m: Measure): real {
    match m
    case Hold => f.hold
    case NewHold => f.newHold
    case Release => f.release
    case FutureHold => f.futureHold
    case Repeat => f.repeatHold
  }

  function SumOfDays(days: seq<Day>, s: Series, m: Measure): real
    requires s != Other
  {
    if days == [] then 0.0
    else SumOfDays(days[..|days| - 1], s, m) + Shown(Of(days[|days| - 1], s), m)
  }

  lemma {:induction false} FirstDaysSum(rows: seq<Row>, start: int, end: int, s: Series, m: Measure, n: nat)
    requires s != Other && n <= |QueryTrend(rows, start, end)|
    requires m == NewHold || m == Release || m == FutureHold || (m == Repeat && s == Quality)
    ensures SumOfDays(QueryTrend(rows, start, end)[..n], s, m) == OverDays(rows, s, m, start, n)
  {
    if n > 0 {
      var days := QueryTrend(rows, start, end);
      FirstDaysSum(rows, start, end, s, m, n - 1);
      assert days[..n][..n - 1] == days[..n - 1] && days[..n][n - 1] == DayOf(rows, start + n - 1);
    }
  }

  /** The days of a trend show, each exactly once, the events from its first day to its last. */
  lemma {:induction false} TrendShowsEachOnce(rows: seq<Row>, start: int, end: int, s: Series, m: Measure)
    requires s != Other && start <= end
    requires m == NewHold || m == Release || m == FutureHold || (m == Repeat && s == Quality)
    ensures SumOfDays(QueryTrend(rows, start, end), s, m) == EventsWithin(rows, s, m, start, end - start + 1)
  {
    var days := QueryTrend(rows, start, end);
    FirstDaysSum(rows, start, end, s, m, |days|);
    assert days[..|days|] == days;
    if rows != [] {
      EachEventOnce(rows, s, m, start, end - start + 1);
    }
  }

  // ---------------------------------------------------------------------------
  // The columns of the result
  // ---------------------------------------------------------------------------

  function OfType(rows: seq<Row>, holdType: string): seq<Row> {
    if rows == [] then []
    else (if rows[0].holdType == Some(holdType) then [rows[0]] else []) + OfType(rows[1..], holdType)
  }

  /** The quantities held on or before day d and not released by then. */
  function Stock(rows: seq<Row>, d: int): real {
    if rows == [] then 0.0
    else
      var r := rows[0];
      (if r.qty.Some? && r.holdDay.Some? && r.holdDay.value <= d && !(r.releaseDay.Some? && r.releaseDay.value <= d)
       then r.qty.value else 0.0)
      + Stock(rows[1..], d)
  }

  /** The quantities of the rows with that event on day d. */
  function EventsOn(rows: seq<Row>, m: Measure, d: int): real
    requires m != Hold
  {
    if rows == [] then 0.0
    else
      (if rows[0].qty.Some? && EventDay(m, rows[0]) == Some(d) then rows[0].qty.value else 0.0)
      + EventsOn(rows[1..], m, d)
  }

  ghost predicate FiguresCount(f: Figures, rows: seq<Row>, repeats: seq<Row>, d: int) {
    && f.hold == Stock(rows, d)
    && f.newHold == EventsOn(rows, NewHold, d)
    && f.release == EventsOn(rows, Release, d)
    && f.futureHold == EventsOn(rows, FutureHold, d)
    && f.repeatHold == EventsOn(repeats, Repeat, d)
  }

  lemma {:induction false} AllCounts(rows: seq<Row>, m: Measure, d: int)
    ensures Total(rows, All, m, d) == if m == Hold then Stock(rows, d) else EventsOn(rows, m, d)
  {
    if rows != [] {
      AllCounts(rows[1..], m, d);
    }
  }

  lemma {:induction false} TypeCounts(rows: seq<Row>, s: Series, holdType: string, m: Measure, d: int)
    requires (s == Quality && holdType == "quality") || (s == NonQuality && holdType == "non-quality")
    ensures Total(rows, s, m, d) == Total(OfType(rows, holdType), All, m, d)
  {
    if rows != [] {
      TypeCounts(rows[1..], s, holdType, m, d);
      if rows[0].holdType == Some(holdType) {
        assert OfType(rows, holdType)[1..] == OfType(rows[1..], holdType);
      } else {
        assert OfType(rows, holdType) == OfType(rows[1..], holdType);
      }
    }
  }

  /** The five totals of some rows, each by its own count. */
  lemma {:induction false} AllCount(rows: seq<Row>, d: int)
    ensures Total(rows, All, Hold, d) == Stock(rows, d)
    ensures forall m :: m != Hold ==> Total(rows, All, m, d) == EventsOn(rows, m, d)
  {
    AllCounts(rows, Hold, d);
    forall m | m != Hold
      ensures Total(rows, All, m, d) == EventsOn(rows, m, d)
    {
      AllCounts(rows, m, d);
    }
  }

  lemma {:induction false} TypedFigures(rows: seq<Row>, s: Series, holdType: string, d: int)
    requires (s == Quality && holdType == "quality") || (s == NonQuality && holdType == "non-quality")
    ensures FiguresCount(FiguresOf(rows, s, d), OfType(rows, holdType),
                         if s == NonQuality then [] else OfType(rows, "quality"), d)
  {
    AllCount(OfType(rows, holdType), d);
    TypeCounts(rows, s, holdType, Hold, d);
    TypeCounts(rows, s, holdType, NewHold, d);
    TypeCounts(rows, s, holdType, Release, d);
    TypeCounts(rows, s, holdType, FutureHold, d);
    TypeCounts(rows, s, holdType, Repeat, d);
  }

  lemma {:induction false} AllFigures(rows: seq<Row>, d: int)
    ensures FiguresCount(FiguresOf(rows, All, d), rows, OfType(rows, "quality"), d)
  {
    AllCount(rows, d);
    AllCount(OfType(rows, "quality"), d);
    TypeCounts(rows, Quality, "quality", Repeat, d);
  }

  /**
    Every day of the trend: its date, and in every series the stock and the events of that
    day, counted over the rows of the type the series is named for, or over all; repeats are
    those of quality holds, and zero for the others.
  */
  lemma {:induction false} DayCounts(rows: seq<Row>, start: int, end: int, i: nat)
    requires i < |QueryTrend(rows, start, end)|
    ensures var day, d := QueryTrend(rows, start, end)[i], start + i;
            && day.date == d && start <= d <= end
            && FiguresCount(day.quality, OfType(rows, "quality"), OfType(rows, "quality"), d)
            && FiguresCount(day.nonQuality, OfType(rows, "non-quality"), [], d)
            && FiguresCount(day.all, rows, OfType(rows, "quality"), d)
  {
    TypedFigures(rows, Quality, "quality", start + i);
    TypedFigures(rows, NonQuality, "non-quality", start + i);
    AllFigures(rows, start + i);
  }

  // ---------------------------------------------------------------------------
  // The three series
  // ---------------------------------------------------------------------------

  /** On every day the all series is the two typed ones plus the rows of no known type. */
  lemma {:induction false} AllIsTheSum(rows: seq<Row>, m: Measure, d: int)
    ensures Total(rows, All, m, d)
            == Total(rows, Quality, m, d) + Total(rows, NonQuality, m, d) + Total(rows, Other, m, d)
  {
    if rows != [] {
      AllIsTheSum(rows[1..], m, d);
    }
  }

  lemma {:induction false} NoOtherRows(rows: seq<Row>, m: Measure, d: int)
    requires forall i :: 0 <= i < |rows| ==> !Selects(Other, rows[i])
    ensures Total(rows, Other, m, d) == 0.0
  {
    if rows != [] {
      NoOtherRows(rows[1..], m, d);
    }
  }

  /**
    With only the two known types, every figure of the all series is the sum of the typed ones,
    the repeat figure included.
  */
  lemma {:induction false} TrendAddsUp(rows: seq<Row>, start: int, end: int, i: nat)
    requires forall k :: 0 <= k < |rows| ==> !Selects(Other, rows[k])
    requires i < |QueryTrend(rows, start, end)|
    ensures var day := QueryTrend(rows, start, end)[i];
            && day.all.hold == day.quality.hold + day.nonQuality.hold
            && day.all.newHold == day.quality.newHold + day.nonQuality.newHold
            && day.all.release == day.quality.release + day.nonQuality.release
            && day.all.futureHold == day.quality.futureHold + day.nonQuality.futureHold
            && day.all.repeatHold == day.quality.repeatHold + day.nonQuality.repeatHold
  {
    AddsUp(rows, Hold, start + i);
    AddsUp(rows, NewHold, start + i);
    AddsUp(rows, Release, start + i);
    AddsUp(rows, FutureHold, start + i);
  }

  lemma {:induction false} AddsUp(rows: seq<Row>, m: Measure, d: int)
    requires forall k :: 0 <= k < |rows| ==> !Selects(Other, rows[k])
    ensures Total(rows, All, m, d) == Total(rows, Quality, m, d) + Total(rows, NonQuality, m, d)
  {
    AllIsTheSum(rows, m, d);
    NoOtherRows(rows, m, d);
  }
}
