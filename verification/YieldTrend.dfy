/**
  The multi-station yield trend of
  frontend/src/yield-alert-center/useYieldAlertDuckDB.ts, over exact reals.

  The two grouped queries arrive as rows: transactions and reason-filtered scrap per date
  bucket and station.  A station may be null (None).
*/
module YieldTrend {
  import opened Options

  datatype TxRow = TxRow(bucket: string, dept: Option<string>, tx: real)
  datatype ScrapRow = ScrapRow(bucket: string, dept: Option<string>, sc: real)

  /** One station's day: its transactions and the scrap looked up for it. */
  datatype Station = Station(tx: real, sc: real)

  /** What one station adds to its day. */
  datatype Part = Part(rate: real, sc: real, tx: real)

  datatype DayAgg = DayAgg(fpy: real, totalSc: real, totalTx: real)

  const YIELD_FLOOR := 0.000001
  const DENOM_FLOOR := 0.000000001

  function StationYield(s: Station): real {
    if s.tx > 0.0 then
      var y := (s.tx - s.sc) / s.tx;
      if y > YIELD_FLOOR then y else YIELD_FLOOR
    else 1.0
  }

  function PartOf(s: Station): Part {
    Part(StationYield(s), s.sc, s.tx)
  }

  function AddPart(d: DayAgg, p: Part): DayAgg {
    DayAgg(d.fpy * p.rate, d.totalSc + p.sc, d.totalTx + p.tx)
  }

  function Aggregate(parts: seq<Part>): DayAgg {
    if parts == [] then DayAgg(1.0, 0.0, 0.0)
    else AddPart(Aggregate(parts[..|parts| - 1]), parts[|parts| - 1])
  }

  function Parts(stations: seq<Station>): seq<Part> {
    if stations == [] then []
    else Parts(stations[..|stations| - 1]) + [PartOf(stations[|stations| - 1])]
  }

  /** Derived input quantity, before rounding. */
  function InputQty(d: DayAgg): real {
    var denom := 1.0 - d.fpy;
    if denom > DENOM_FLOOR then d.totalSc / denom else d.totalTx
  }

  // ---------------------------------------------------------------------------
  // The two loops of queryTrend
  // ---------------------------------------------------------------------------

  /** A template literal prints a null station as "null". */
  function ScrapName(dept: Option<string>): string {
    match dept case None => "null" case Some(d) => d
  }

  /** The transaction side replaces a null station by the empty string. */
  function TxName(dept: Option<string>): string {
    match dept case None => "" case Some(d) => d
  }

  function ScrapKey(bucket: string, dept: Option<string>): string {
    bucket + "::" + ScrapName(dept)
  }

  function TxKey(bucket: string, dept: Option<string>): string {
    bucket + "::" + TxName(dept)
  }

  function ScrapMap(rows: seq<ScrapRow>): map<string, real> {
    if rows == [] then map[]
    else
      var r := rows[|rows| - 1];
      ScrapMap(rows[..|rows| - 1])[ScrapKey(r.bucket, r.dept) := r.sc]
  }

  function StationOf(r: TxRow, scrap: map<string, real>): Station {
    var key := TxKey(r.bucket, r.dept);
    Station(r.tx, if key in scrap then scrap[key] else 0.0)
  }

  /** The stations of one bucket, in row order. */
  function StationsOn(rows: seq<TxRow>, scrap: map<string, real>, bucket: string): seq<Station> {
    if rows == [] then []
    else
      var r := rows[|rows| - 1];
      var before := StationsOn(rows[..|rows| - 1], scrap, bucket);
      if r.bucket == bucket then before + [StationOf(r, scrap)] else before
  }

  /** The last row printing that key; -1 when there is none. */
  function LastWith(rows: seq<ScrapRow>, key: string): (i: int)
    ensures -1 <= i < |rows|
    ensures i >= 0 ==> ScrapKey(rows[i].bucket, rows[i].dept) == key
    ensures forall j :: i < j < |rows| ==> ScrapKey(rows[j].bucket, rows[j].dept) != key
  {
    if rows == [] then -1
    else
      var n := |rows| - 1;
      if ScrapKey(rows[n].bucket, rows[n].dept) == key then n else LastWith(rows[..n], key)
  }

  lemma {:induction false} LastRowWins(rows: seq<ScrapRow>, key: string)
    ensures key in ScrapMap(rows) <==> LastWith(rows, key) >= 0
    ensures key in ScrapMap(rows) ==> ScrapMap(rows)[key] == rows[LastWith(rows, key)].sc
  {
    if rows != [] {
      LastRowWins(rows[..|rows| - 1], key);
    }
  }

  /** The table has the keys some row prints and no other, each with the scrap of the last such row. */
  method BuildScrapMap(rows: seq<ScrapRow>) returns (scrap: map<string, real>)
    ensures scrap == ScrapMap(rows)
    ensures forall key :: key in scrap <==> LastWith(rows, key) >= 0
    ensures forall key :: key in scrap ==> scrap[key] == rows[LastWith(rows, key)].sc
  {
    scrap := map[];
    for n := 0 to |rows|
      invariant scrap == ScrapMap(rows[..n])
    {
      assert rows[..n + 1][..n] == rows[..n];
      scrap := scrap[ScrapKey(rows[n].bucket, rows[n].dept) := rows[n].sc];
    }
    assert rows[..|rows|] == rows;
    forall key
      ensures key in scrap <==> LastWith(rows, key) >= 0
      ensures key in scrap ==> scrap[key] == rows[LastWith(rows, key)].sc
    {
      LastRowWins(rows, key);
    }
  }

  lemma {:induction false} PartsSnoc(stations: seq<Station>, s: Station)
    ensures Parts(stations + [s]) == Parts(stations) + [PartOf(s)]
    ensures Aggregate(Parts(stations + [s])) == AddPart(Aggregate(Parts(stations)), PartOf(s))
  {
    assert (stations + [s])[..|stations|] == stations;
    assert (Parts(stations) + [PartOf(s)])[..|Parts(stations)|] == Parts(stations);
  }

  lemma {:induction false} NextRow(rows: seq<TxRow>, n: nat, scrap: map<string, real>)
    requires n < |rows|
    ensures forall b :: b != rows[n].bucket ==> StationsOn(rows[..n + 1], scrap, b) == StationsOn(rows[..n], scrap, b)
    ensures Aggregate(Parts(StationsOn(rows[..n + 1], scrap, rows[n].bucket))) ==
            AddPart(Aggregate(Parts(StationsOn(rows[..n], scrap, rows[n].bucket))), PartOf(StationOf(rows[n], scrap)))
    ensures StationsOn(rows[..n + 1], scrap, rows[n].bucket) != []
  {
    assert rows[..n + 1][..n] == rows[..n];
    var before := StationsOn(rows[..n], scrap, rows[n].bucket);
    PartsSnoc(before, StationOf(rows[n], scrap));
  }

  /** After n rows, a bucket has an entry when it occurred, and it is its stations' aggregate. */
  ghost predicate DayOk(days: map<string, DayAgg>, rows: seq<TxRow>, n: nat, scrap: map<string, real>, b: string)
    requires n <= |rows|
  {
    && (b in days <==> exists i :: 0 <= i < n && rows[i].bucket == b)
    && (if b in days then days[b] == Aggregate(Parts(StationsOn(rows[..n], scrap, b)))
        else StationsOn(rows[..n], scrap, b) == [])
  }

  function AddedDay(days: map<string, DayAgg>, r: TxRow, scrap: map<string, real>): map<string, DayAgg> {
    var d := if r.bucket in days then days[r.bucket] else DayAgg(1.0, 0.0, 0.0);
    days[r.bucket := AddPart(d, PartOf(StationOf(r, scrap)))]
  }

  lemma {:induction false} NextDay(days: map<string, DayAgg>, rows: seq<TxRow>, n: nat, scrap: map<string, real>,
        b: string, days': map<string, DayAgg>)
    requires n < |rows| && DayOk(days, rows, n, scrap, b) && days' == AddedDay(days, rows[n], scrap)
    ensures DayOk(days', rows, n + 1, scrap, b)
  {
    NextRow(rows, n, scrap);
  }

  /** Every bucket that occurs gets the aggregate of exactly its own stations. */
  method AggregateDays(rows: seq<TxRow>, scrap: map<string, real>) returns (days: map<string, DayAgg>)
    ensures forall b :: b in days <==> exists i :: 0 <= i < |rows| && rows[i].bucket == b
    ensures forall b :: b in days ==> days[b] == Aggregate(Parts(StationsOn(rows, scrap, b)))
  {
    days := map[];
    for n := 0 to |rows|
      invariant forall b :: DayOk(days, rows, n, scrap, b)
    {
      var r := rows[n];
      var d := if r.bucket in days then days[r.bucket] else DayAgg(1.0, 0.0, 0.0);
      ghost var before := days;
      days := days[r.bucket := AddPart(d, PartOf(StationOf(r, scrap)))];
      ghost var m := n + 1;
      forall b
        ensures DayOk(days, rows, m, scrap, b)
      {
        assert DayOk(before, rows, n, scrap, b);
        NextDay(before, rows, n, scrap, b, days);
      }
    }
    assert rows[..|rows|] == rows;
    forall b {:trigger b in days} {:trigger days[b]}
      ensures b in days <==> exists i :: 0 <= i < |rows| && rows[i].bucket == b
      ensures b in days ==> days[b] == Aggregate(Parts(StationsOn(rows, scrap, b)))
    {
      assert DayOk(days, rows, |rows|, scrap, b);
    }
  }

  // ---------------------------------------------------------------------------
  // Bounds
  // ---------------------------------------------------------------------------

  /**
    A station whose yield is not clamped, whose scrap is not a net reversal, and which has no
    scrap without transactions.
  */
  predicate Regular(s: Station) {
    s.tx >= 0.0 && 0.0 <= s.sc <= (1.0 - YIELD_FLOOR) * s.tx
  }

  ghost predicate AllRegular(stations: seq<Station>) {
    forall i :: 0 <= i < |stations| ==> Regular(stations[i])
  }

  // Real arithmetic, one product at a time.

  lemma {:induction false} DivideBack(a: real, b: real)
    requires b != 0.0
    ensures a / b * b == a
  {
  }

  lemma {:induction false} MulLess(a: real, b: real, c: real)
    requires a < b && c > 0.0
    ensures a * c < b * c
  {
  }

  lemma {:induction false} MulAtMost(a: real, b: real, c: real)
    requires a <= b && c >= 0.0
    ensures a * c <= b * c && c * a <= c * b
  {
  }

  lemma {:induction false} NonNegative(a: real, b: real)
    requires a >= 0.0 && b >= 0.0
    ensures a * b >= 0.0
  {
  }

  lemma {:induction false} LossDistributes(m: real, f: real, y: real, loss: real)
    requires loss == 1.0 - y
    ensures m * (1.0 - f * y) == m * (1.0 - f) + m * (f * loss)
  {
    assert f * y == f - f * loss;
  }

  lemma {:induction false} SumDistributes(a: real, b: real, c: real)
    ensures (a + b) * c == a * c + b * c
  {
  }

  lemma {:induction false} LowerStep(f: real, y: real, loss: real, least: real, tx: real, sc: real, more: real,
        product: real)
    requires 0.0 < f <= 1.0 && loss == 1.0 - y && 0.0 <= loss <= 1.0 && 0.0 <= least <= tx
    requires least * (1.0 - f) <= sc && more == tx * loss && product == f * y
    ensures least * (1.0 - product) <= sc + more
  {
    LossDistributes(least, f, y, loss);
    LossOrdered(f, loss, least, tx);
  }

  lemma {:induction false} LossOrdered(f: real, loss: real, least: real, tx: real)
    requires 0.0 < f <= 1.0 && 0.0 <= loss && 0.0 <= least <= tx
    ensures least * (f * loss) <= tx * loss
  {
    MulAtMost(f, 1.0, loss);
    MulAtMost(f * loss, loss, least);
    MulAtMost(least, tx, loss);
  }

  lemma {:induction false} UpperStep(f: real, y: real, loss: real, total: real, tx: real, sc: real, more: real,
        product: real)
    requires 0.0 < f <= 1.0 && loss == 1.0 - y && 0.0 <= loss <= 1.0 && 0.0 <= tx && 0.0 <= total
    requires sc <= total * (1.0 - f) && more == tx * loss && product == f * y
    ensures sc + more <= (total + tx) * (1.0 - product)
  {
    LossDistributes(total, f, y, loss);
    NonNegative(f, loss);
    NonNegative(total, f * loss);
    MulAtMost(f, 1.0, y);
    assert product <= y;
    MulAtMost(loss, 1.0 - product, tx);
    SumDistributes(total, tx, 1.0 - product);
  }

  lemma {:induction false} PassStep(f: real, y: real)
    requires 0.0 < f <= 1.0 && 0.0 < y <= 1.0
    ensures 0.0 < f * y <= 1.0 && f * y <= f && f * y <= y
  {
    MulLess(0.0, f, y);
    MulAtMost(y, 1.0, f);
    MulAtMost(f, 1.0, y);
  }

  lemma {:induction false} RegularRatio(tx: real, sc: real, y: real)
    requires tx > 0.0 && 0.0 <= sc <= (1.0 - YIELD_FLOOR) * tx
    requires y * tx == tx - sc
    ensures YIELD_FLOOR <= y <= 1.0 && sc == tx * (1.0 - y)
  {
    if y < YIELD_FLOOR {
      MulLess(y, YIELD_FLOOR, tx);
    }
    if y > 1.0 {
      MulLess(1.0, y, tx);
    }
  }

  /** A contribution whose scrap is tx times the share the yield loses. */
  ghost predicate Sound(p: Part) {
    p.tx >= 0.0 && 0.0 < p.rate <= 1.0 && p.sc == p.tx * (1.0 - p.rate)
  }

  ghost predicate AllSound(parts: seq<Part>) {
    forall i :: 0 <= i < |parts| ==> Sound(parts[i])
  }

  /** A regular station's yield is the unclamped ratio. */
  lemma {:induction false} RegularIsSound(s: Station)
    requires Regular(s)
    ensures Sound(PartOf(s))
  {
    if s.tx > 0.0 {
      DivideBack(s.tx - s.sc, s.tx);
      RegularRatio(s.tx, s.sc, (s.tx - s.sc) / s.tx);
    }
  }

  lemma {:induction false} PartsAre(stations: seq<Station>)
    ensures |Parts(stations)| == |stations|
    ensures forall i :: 0 <= i < |stations| ==> Parts(stations)[i] == PartOf(stations[i])
  {
    if stations != [] {
      PartsAre(stations[..|stations| - 1]);
    }
  }

  lemma {:induction false} RegularAreSound(stations: seq<Station>)
    requires AllRegular(stations)
    ensures AllSound(Parts(stations))
  {
    PartsAre(stations);
    forall i | 0 <= i < |stations|
      ensures Sound(Parts(stations)[i])
    {
      RegularIsSound(stations[i]);
    }
  }

  lemma {:induction false} PassIsAShare(parts: seq<Part>)
    requires AllSound(parts)
    ensures 0.0 < Aggregate(parts).fpy <= 1.0
  {
    if parts != [] {
      var n := |parts| - 1;
      PassIsAShare(parts[..n]);
      PassStep(Aggregate(parts[..n]).fpy, parts[n].rate);
    }
  }

  lemma {:induction false} ShareAtMost(f: real, y: real)
    requires 0.0 <= f && y <= 1.0
    ensures f * y <= f
  {
    assert f * (1.0 - y) >= 0.0;
  }

  lemma {:induction false} PassShrinks(f: real, y: real, product: real)
    requires 0.0 < f <= 1.0 && 0.0 < y <= 1.0 && product == f * y
    ensures product <= f && product <= y
  {
    ShareAtMost(f, y);
    ShareAtMost(y, f);
    assert y * f == f * y;
  }

  lemma {:induction false} PassAtMostEach(parts: seq<Part>, i: nat)
    requires AllSound(parts) && i < |parts|
    ensures Aggregate(parts).fpy <= parts[i].rate
  {
    var n := |parts| - 1;
    PassIsAShare(parts[..n]);
    assert Sound(parts[n]);
    PassShrinks(Aggregate(parts[..n]).fpy, parts[n].rate, Aggregate(parts).fpy);
    if i < n {
      PassAtMostEach(parts[..n], i);
      assert parts[..n][i] == parts[i];
    } else {
      assert i == n;
    }
  }

  /** First-pass yield lies in (0, 1] and is at most every station's yield. */
  lemma {:induction false} FpyBounds(stations: seq<Station>)
    requires AllRegular(stations)
    ensures 0.0 < Aggregate(Parts(stations)).fpy <= 1.0
    ensures forall i :: 0 <= i < |stations| ==> Aggregate(Parts(stations)).fpy <= StationYield(stations[i])
  {
    RegularAreSound(stations);
    PartsAre(stations);
    PassIsAShare(Parts(stations));
    forall i | 0 <= i < |stations|
      ensures Aggregate(Parts(stations)).fpy <= StationYield(stations[i])
    {
      PassAtMostEach(Parts(stations), i);
    }
  }

  /** Scrap lies between `least` and the total tx, each times 1 - FPY. */
  ghost predicate Bracketed(d: DayAgg, least: real) {
    least * (1.0 - d.fpy) <= d.totalSc <= d.totalTx * (1.0 - d.fpy) && d.totalTx >= 0.0
  }

  lemma {:induction false} LowerBracket(d: DayAgg, p: Part, least: real)
    requires 0.0 < d.fpy <= 1.0 && Sound(p) && 0.0 <= least <= p.tx
    requires least * (1.0 - d.fpy) <= d.totalSc
    ensures least * (1.0 - AddPart(d, p).fpy) <= AddPart(d, p).totalSc
  {
    LowerStep(d.fpy, p.rate, 1.0 - p.rate, least, p.tx, d.totalSc, p.sc, d.fpy * p.rate);
  }

  lemma {:induction false} UpperBracket(d: DayAgg, p: Part)
    requires 0.0 < d.fpy <= 1.0 && Sound(p) && d.totalTx >= 0.0
    requires d.totalSc <= d.totalTx * (1.0 - d.fpy)
    ensures AddPart(d, p).totalSc <= AddPart(d, p).totalTx * (1.0 - AddPart(d, p).fpy)
  {
    UpperStep(d.fpy, p.rate, 1.0 - p.rate, d.totalTx, p.tx, d.totalSc, p.sc, d.fpy * p.rate);
  }

  lemma {:induction false} BracketStep(d: DayAgg, p: Part, least: real)
    requires 0.0 < d.fpy <= 1.0 && Sound(p) && 0.0 <= least <= p.tx && Bracketed(d, least)
    ensures Bracketed(AddPart(d, p), least)
  {
    LowerBracket(d, p, least);
    UpperBracket(d, p);
  }

  /** The product inequality, weighted by the stations' transactions. */
  lemma {:induction false} ScrapBracketed(parts: seq<Part>, least: real)
    requires AllSound(parts) && least >= 0.0
    requires forall i :: 0 <= i < |parts| ==> least <= parts[i].tx
    ensures Bracketed(Aggregate(parts), least)
  {
    if parts != [] {
      var n := |parts| - 1;
      ScrapBracketed(parts[..n], least);
      PassIsAShare(parts[..n]);
      BracketStep(Aggregate(parts[..n]), parts[n], least);
    }
  }

  lemma {:induction false} QuotientBracketed(lo: real, x: real, hi: real, denom: real)
    requires denom > 0.0 && lo * denom <= x <= hi * denom
    ensures lo <= x / denom <= hi
  {
    DivideBack(x, denom);
    if x / denom < lo {
      MulLess(x / denom, lo, denom);
    }
    if x / denom > hi {
      MulLess(hi, x / denom, denom);
    }
  }

  lemma {:induction false} LeastBelowTotal(parts: seq<Part>, least: real)
    requires parts != [] && least >= 0.0
    requires forall i :: 0 <= i < |parts| ==> least <= parts[i].tx
    ensures least <= Aggregate(parts).totalTx
  {
    var n := |parts| - 1;
    if n > 0 {
      LeastBelowTotal(parts[..n], least);
    }
  }

  lemma {:induction false} InputOfBracketed(d: DayAgg, least: real)
    requires Bracketed(d, least) && least <= d.totalTx
    ensures least <= InputQty(d) <= d.totalTx
  {
    if 1.0 - d.fpy > DENOM_FLOOR {
      QuotientBracketed(least, d.totalSc, d.totalTx, 1.0 - d.fpy);
    }
  }

  /**
    Where less than all but 1e-9 passes, the input times the share lost is the day's scrap;
    otherwise the input is what the stations moved.
  */
  lemma {:induction false} InputLosesTheScrap(d: DayAgg)
    ensures if d.fpy < 0.999999999 then InputQty(d) * (1.0 - d.fpy) == d.totalSc else InputQty(d) == d.totalTx
  {
    if d.fpy < 0.999999999 {
      DivideBack(d.totalSc, 1.0 - d.fpy);
    }
  }

  /**
    Over regular stations the derived input quantity lies between any lower bound of the
    stations' transactions and their sum.
  */
  lemma {:induction false} InputQtyBounds(stations: seq<Station>, least: real)
    requires stations != [] && AllRegular(stations) && least >= 0.0
    requires forall i :: 0 <= i < |stations| ==> least <= stations[i].tx
    ensures least <= InputQty(Aggregate(Parts(stations))) <= Aggregate(Parts(stations)).totalTx
  {
    var parts := Parts(stations);
    RegularAreSound(stations);
    PartsAre(stations);
    ScrapBracketed(parts, least);
    LeastBelowTotal(parts, least);
    InputOfBracketed(Aggregate(parts), least);
  }

  lemma {:induction false} AggregateOne(p: Part)
    ensures Aggregate([p]) == DayAgg(p.rate, p.sc, p.tx)
  {
    assert [p][..0] == [];
    assert 1.0 * p.rate == p.rate;
    assert Aggregate([p]) == AddPart(DayAgg(1.0, 0.0, 0.0), p);
  }

  lemma {:induction false} UnclampedInput(tx: real, sc: real, y: real)
    requires tx > 0.0 && y * tx == tx - sc
    ensures InputQty(DayAgg(y, sc, tx)) == tx
  {
    assert sc == tx * (1.0 - y);
    if 1.0 - y > DENOM_FLOOR {
      QuotientBracketed(tx, sc, tx, 1.0 - y);
    }
  }

  lemma {:induction false} ClampedInput(tx: real, sc: real)
    requires tx > 0.0 && sc > (1.0 - YIELD_FLOOR) * tx
    ensures InputQty(DayAgg(YIELD_FLOOR, sc, tx)) > tx
  {
    DivideBack(sc, 1.0 - YIELD_FLOOR);
    assert InputQty(DayAgg(YIELD_FLOOR, sc, tx)) == sc / (1.0 - YIELD_FLOOR);
  }

  /** For one station with transactions, the input is its tx exactly when the yield is not clamped. */
  lemma {:induction false} SingleStationInput(s: Station)
    requires s.tx > 0.0
    ensures InputQty(Aggregate([PartOf(s)])) == s.tx <==> s.sc <= 0.999999 * s.tx
  {
    AggregateOne(PartOf(s));
    var ratio := (s.tx - s.sc) / s.tx;
    DivideBack(s.tx - s.sc, s.tx);
    if s.sc <= (1.0 - YIELD_FLOOR) * s.tx {
      if ratio < YIELD_FLOOR {
        MulLess(ratio, YIELD_FLOOR, s.tx);
      }
      UnclampedInput(s.tx, s.sc, ratio);
    } else {
      if ratio > YIELD_FLOOR {
        MulLess(YIELD_FLOOR, ratio, s.tx);
      }
      ClampedInput(s.tx, s.sc);
      assert PartOf(s) == Part(YIELD_FLOOR, s.sc, s.tx);
    }
  }

  // ---------------------------------------------------------------------------
  // Row order
  // ---------------------------------------------------------------------------

  lemma {:induction false} ProductsCommute(f: real, x: real, y: real)
    ensures f * x * y == f * y * x
  {
  }

  lemma {:induction false} PartsCommute(d: DayAgg, p: Part, q: Part)
    ensures AddPart(AddPart(d, p), q) == AddPart(AddPart(d, q), p)
  {
    ProductsCommute(d.fpy, p.rate, q.rate);
  }

  lemma {:induction false} TakeOut(parts: seq<Part>, i: nat)
    requires i < |parts|
    ensures Aggregate(parts) == AddPart(Aggregate(parts[..i] + parts[i + 1..]), parts[i])
  {
    var n := |parts| - 1;
    var rest := parts[..i] + parts[i + 1..];
    if i < n {
      TakeOut(parts[..n], i);
      assert parts[..n][..i] + parts[..n][i + 1..] == rest[..|rest| - 1];
      assert rest[|rest| - 1] == parts[n];
      PartsCommute(Aggregate(rest[..|rest| - 1]), parts[i], parts[n]);
    } else {
      assert rest == parts[..n];
    }
  }

  lemma {:induction false} RemoveBoth<T>(a: seq<T>, b: seq<T>) returns (i: nat)
    requires multiset(a) == multiset(b) && a != []
    ensures i < |b| && b[i] == a[|a| - 1]
    ensures multiset(a[..|a| - 1]) == multiset(b[..i] + b[i + 1..])
  {
    var n := |a| - 1;
    assert a == a[..n] + [a[n]];
    assert a[n] in multiset(b);
    i :| 0 <= i < |b| && b[i] == a[n];
    assert b == b[..i] + [b[i]] + b[i + 1..];
    assert multiset(a[..n]) == multiset(a) - multiset{a[n]};
    assert multiset(b[..i] + b[i + 1..]) == multiset(b) - multiset{b[i]};
  }

  /** The day's aggregate does not depend on the order of its stations. */
  lemma {:induction false} OrderDoesNotMatter(a: seq<Part>, b: seq<Part>)
    requires multiset(a) == multiset(b)
    ensures Aggregate(a) == Aggregate(b)
    decreases |a|
  {
    if a == [] {
      assert |multiset(b)| == 0;
    } else {
      var i := RemoveBoth(a, b);
      OrderDoesNotMatter(a[..|a| - 1], b[..i] + b[i + 1..]);
      TakeOut(b, i);
    }
  }

  /** What one row adds to a bucket, as a multiset. */
  ghost function Share(r: TxRow, scrap: map<string, real>, bucket: string): multiset<Part> {
    if r.bucket == bucket then multiset{PartOf(StationOf(r, scrap))} else multiset{}
  }

  ghost function Gather(rows: seq<TxRow>, f: TxRow -> multiset<Part>): multiset<Part> {
    if rows == [] then multiset{}
    else Gather(rows[..|rows| - 1], f) + f(rows[|rows| - 1])
  }

  lemma {:induction false} GatherIsParts(rows: seq<TxRow>, scrap: map<string, real>, bucket: string)
    ensures Gather(rows, r => Share(r, scrap, bucket)) == multiset(Parts(StationsOn(rows, scrap, bucket)))
  {
    if rows != [] {
      var n := |rows| - 1;
      GatherIsParts(rows[..n], scrap, bucket);
      if rows[n].bucket == bucket {
        PartsSnoc(StationsOn(rows[..n], scrap, bucket), StationOf(rows[n], scrap));
      }
    }
  }

  lemma {:induction false} GatherWithout(rows: seq<TxRow>, f: TxRow -> multiset<Part>, i: nat)
    requires i < |rows|
    ensures Gather(rows, f) == Gather(rows[..i] + rows[i + 1..], f) + f(rows[i])
  {
    var n := |rows| - 1;
    var rest := rows[..i] + rows[i + 1..];
    if i < n {
      GatherWithout(rows[..n], f, i);
      assert rows[..n][..i] + rows[..n][i + 1..] == rest[..|rest| - 1];
      assert rest[|rest| - 1] == rows[n];
    } else {
      assert rest == rows[..n];
    }
  }

  lemma {:induction false} GatherIgnoresOrder(a: seq<TxRow>, b: seq<TxRow>, f: TxRow -> multiset<Part>)
    requires multiset(a) == multiset(b)
    ensures Gather(a, f) == Gather(b, f)
    decreases |a|
  {
    if a == [] {
      assert |multiset(b)| == 0;
    } else {
      var i := RemoveBoth(a, b);
      GatherIgnoresOrder(a[..|a| - 1], b[..i] + b[i + 1..], f);
      GatherWithout(b, f, i);
    }
  }

  lemma {:induction false} TxOrderDoesNotMatter(a: seq<TxRow>, b: seq<TxRow>, scrap: map<string, real>, bucket: string)
    requires multiset(a) == multiset(b)
    ensures Aggregate(Parts(StationsOn(a, scrap, bucket))) == Aggregate(Parts(StationsOn(b, scrap, bucket)))
  {
    GatherIgnoresOrder(a, b, r => Share(r, scrap, bucket));
    GatherIsParts(a, scrap, bucket);
    GatherIsParts(b, scrap, bucket);
    OrderDoesNotMatter(Parts(StationsOn(a, scrap, bucket)), Parts(StationsOn(b, scrap, bucket)));
  }

  function KeyOf(r: ScrapRow): string {
    ScrapKey(r.bucket, r.dept)
  }

  /** Rows with one key carry one amount. */
  ghost predicate OneScrapPerKey(rows: seq<ScrapRow>) {
    forall r, r' :: r in rows && r' in rows && KeyOf(r) == KeyOf(r') ==> r.sc == r'.sc
  }

  lemma {:induction false} HasARow(rows: seq<ScrapRow>, key: string)
    ensures key in ScrapMap(rows) <==> exists r :: r in rows && KeyOf(r) == key
    ensures key in ScrapMap(rows) ==> exists r :: r in rows && KeyOf(r) == key && ScrapMap(rows)[key] == r.sc
  {
    LastRowWins(rows, key);
    var i := LastWith(rows, key);
    if i >= 0 {
      assert rows[i] in rows && KeyOf(rows[i]) == key;
    }
  }

  lemma {:induction false} ScrapOrderDoesNotMatter(a: seq<ScrapRow>, b: seq<ScrapRow>)
    requires multiset(a) == multiset(b) && OneScrapPerKey(a)
    ensures ScrapMap(a) == ScrapMap(b)
  {
    assert forall r :: r in a <==> r in multiset(a);
    assert forall r :: r in b <==> r in multiset(b);
    forall key
      ensures key in ScrapMap(a) <==> key in ScrapMap(b)
      ensures key in ScrapMap(a) ==> ScrapMap(a)[key] == ScrapMap(b)[key]
    {
      HasARow(a, key);
      HasARow(b, key);
    }
  }

  lemma {:induction false} MovedLast(rows: seq<ScrapRow>, r: ScrapRow) returns (moved: seq<ScrapRow>)
    requires r in rows
    ensures multiset(rows) == multiset(moved)
    ensures KeyOf(r) in ScrapMap(moved) && ScrapMap(moved)[KeyOf(r)] == r.sc
  {
    var i :| 0 <= i < |rows| && rows[i] == r;
    moved := rows[..i] + rows[i + 1..] + [r];
    assert rows == rows[..i] + [r] + rows[i + 1..];
    assert moved[..|moved| - 1] == rows[..i] + rows[i + 1..];
  }

  /** The lookup table is the same for every order of the scrap rows exactly if rows with one key carry one amount. */
  lemma {:induction false} ScrapOrderDoesNotMatterExactlyWhen(rows: seq<ScrapRow>)
    ensures (forall b :: multiset(rows) == multiset(b) ==> ScrapMap(rows) == ScrapMap(b)) <==> OneScrapPerKey(rows)
  {
    if OneScrapPerKey(rows) {
      forall b | multiset(rows) == multiset(b)
        ensures ScrapMap(rows) == ScrapMap(b)
      {
        ScrapOrderDoesNotMatter(rows, b);
      }
    } else {
      var r, r' :| r in rows && r' in rows && KeyOf(r) == KeyOf(r') && r.sc != r'.sc;
      var first := MovedLast(rows, r);
      var second := MovedLast(rows, r');
    }
  }

  /** Every bucket's aggregate is the same for every order of both queries' rows. */
  lemma {:induction false} RowOrderDoesNotMatter(a: seq<TxRow>, b: seq<TxRow>, scrapA: seq<ScrapRow>,
        scrapB: seq<ScrapRow>, bucket: string)
    requires multiset(a) == multiset(b)
    requires multiset(scrapA) == multiset(scrapB) && OneScrapPerKey(scrapA)
    ensures Aggregate(Parts(StationsOn(a, ScrapMap(scrapA), bucket)))
         == Aggregate(Parts(StationsOn(b, ScrapMap(scrapB), bucket)))
  {
    ScrapOrderDoesNotMatter(scrapA, scrapB);
    TxOrderDoesNotMatter(a, b, ScrapMap(scrapA), bucket);
  }

  // ---------------------------------------------------------------------------
  // The condition is exact
  // ---------------------------------------------------------------------------

  ghost predicate BelowAll(stations: seq<Station>, least: real) {
    forall i :: 0 <= i < |stations| ==> least <= stations[i].tx
  }

  /** The day's input is neither below every lower bound of its transactions nor above their sum. */
  ghost predicate InBounds(stations: seq<Station>) {
    var d := Aggregate(Parts(stations));
    InputQty(d) <= d.totalTx && forall least :: BelowAll(stations, least) ==> least <= InputQty(d)
  }

  lemma {:induction false} RegularDayInBounds(stations: seq<Station>)
    requires stations != [] && AllRegular(stations)
    ensures InBounds(stations)
  {
    InputQtyBounds(stations, 0.0);
    forall least | BelowAll(stations, least)
      ensures least <= InputQty(Aggregate(Parts(stations)))
    {
      if least > 0.0 {
        InputQtyBounds(stations, least);
      }
    }
  }

  lemma {:induction false} PartsOfOne(s: Station)
    ensures Parts([s]) == [PartOf(s)] && Aggregate(Parts([s])) == DayAgg(StationYield(s), s.sc, s.tx)
  {
    assert [s][..0] == [];
    AggregateOne(PartOf(s));
  }

  /** A companion that loses the share `loss` of its transactions. */
  function Companion(tx: real, loss: real): Station {
    Station(tx, tx * loss)
  }

  lemma {:induction false} CompanionPart(tx: real, loss: real)
    requires tx > 0.0 && 0.0 <= loss <= 0.5
    ensures Regular(Companion(tx, loss)) && PartOf(Companion(tx, loss)) == Part(1.0 - loss, tx * loss, tx)
  {
    MulAtMost(loss, 1.0 - YIELD_FLOOR, tx);
    NonNegative(tx, loss);
    DivideUnique(tx - tx * loss, tx, 1.0 - loss);
  }

  lemma {:induction false} DivideUnique(a: real, b: real, q: real)
    requires b != 0.0 && a == q * b
    ensures a / b == q
  {
  }

  lemma {:induction false} ScaledInput(d: DayAgg, scale: real)
    requires scale > 0.0 && (1.0 - d.fpy) * scale == 1.0 && 1.0 - d.fpy > DENOM_FLOOR
    ensures InputQty(d) == d.totalSc * scale
  {
    DivideUnique(d.totalSc, 1.0 - d.fpy, d.totalSc * scale);
  }

  /** A station without transactions beside one companion: its scrap is scaled up by what the companion loses. */
  lemma {:induction false} IdleBesideCompanion(s: Station, tx: real, loss: real, scale: real)
    requires s.tx <= 0.0 && tx > 0.0 && 0.25 <= loss <= 0.5 && loss * scale == 1.0
    ensures AllRegular([Companion(tx, loss)])
    ensures var d := Aggregate(Parts([Companion(tx, loss)] + [s]));
            InputQty(d) == tx + s.sc * scale && d.totalTx == tx + s.tx
  {
    CompanionPart(tx, loss);
    PartsOfOne(Companion(tx, loss));
    PartsSnoc([Companion(tx, loss)], s);
    var d := DayAgg(1.0 - loss, tx * loss + s.sc, tx + s.tx);
    assert Aggregate(Parts([Companion(tx, loss)] + [s])) == d;
    ScaledInput(d, scale);
    SumDistributes(tx * loss, s.sc, scale);
    assert tx * loss * scale == tx * (loss * scale);
  }

  lemma {:induction false} IdleBreaksBounds(s: Station) returns (others: seq<Station>)
    requires s.tx <= 0.0 && !Regular(s)
    ensures AllRegular(others) && !InBounds(others + [s])
  {
    if 2.0 * s.sc > s.tx {
      others := [Companion(1.0, 0.5)];
      IdleBesideCompanion(s, 1.0, 0.5, 2.0);
    } else {
      others := [Companion(-s.sc, 0.25)];
      IdleBesideCompanion(s, -s.sc, 0.25, 4.0);
      assert BelowAll(others + [s], s.tx);
    }
  }

  lemma {:induction false} ClampedBreaksBounds(s: Station)
    requires s.tx > 0.0 && s.sc > (1.0 - YIELD_FLOOR) * s.tx
    ensures !InBounds([s])
  {
    var ratio := (s.tx - s.sc) / s.tx;
    DivideBack(s.tx - s.sc, s.tx);
    if ratio > YIELD_FLOOR {
      MulLess(YIELD_FLOOR, ratio, s.tx);
    }
    PartsOfOne(s);
    ClampedInput(s.tx, s.sc);
  }

  function Companions(n: nat, tx: real): seq<Station> {
    if n == 0 then [] else Companions(n - 1, tx) + [Companion(tx, 0.5)]
  }

  lemma {:induction false} CompanionsAreRegular(n: nat, tx: real)
    requires tx > 0.0
    ensures AllRegular(Companions(n, tx))
  {
    if n > 0 {
      CompanionsAreRegular(n - 1, tx);
      CompanionPart(tx, 0.5);
    }
  }

  function HalfPower(n: nat): real {
    if n == 0 then 1.0 else HalfPower(n - 1) * 0.5
  }

  lemma {:induction false} HalfPowerBound(n: nat)
    ensures HalfPower(n) > 0.0 && HalfPower(n) * (n + 1) as real <= 1.0
  {
    if n > 0 {
      HalfPowerBound(n - 1);
      HalfShare(HalfPower(n - 1), n);
    }
  }

  function Multiple(n: nat, x: real): real {
    if n == 0 then 0.0 else Multiple(n - 1, x) + x
  }

  lemma {:induction false} MultipleIsProduct(n: nat, x: real)
    ensures Multiple(n, x) == n as real * x
  {
    if n > 0 {
      MultipleIsProduct(n - 1, x);
      SumDistributes((n - 1) as real, 1.0, x);
    }
  }

  /** What n companions of half yield pass on, and what they scrap. */
  lemma {:induction false} CompanionsAggregate(n: nat, tx: real, each: real)
    requires tx > 0.0 && each == tx * 0.5
    ensures Aggregate(Parts(Companions(n, tx))) == DayAgg(HalfPower(n), Multiple(n, each), Multiple(n, tx))
  {
    if n > 0 {
      CompanionsAggregate(n - 1, tx, each);
      CompanionPart(tx, 0.5);
      PartsSnoc(Companions(n - 1, tx), Companion(tx, 0.5));
    }
  }

  lemma {:induction false} HalfShare(f: real, n: nat)
    requires f > 0.0 && n > 0 && f * n as real <= 1.0
    ensures f * 0.5 > 0.0 && f * 0.5 * (n + 1) as real <= 1.0
  {
    MulAtMost((n + 1) as real, n as real * 2.0, f * 0.5);
  }

  lemma {:induction false} SmallProduct(f: real, y: real, n: nat)
    requires f > 0.0 && f * (n + 1) as real <= 1.0 && 2.0 * y <= n as real
    ensures f * y <= 0.5
  {
    MulAtMost(2.0 * y, (n + 1) as real, f);
  }

  lemma {:induction false} NegativeInput(d: DayAgg)
    requires d.fpy <= 0.5 && d.totalSc < 0.0
    ensures InputQty(d) < 0.0
  {
    QuotientBracketed(d.totalSc / (1.0 - d.fpy), d.totalSc, d.totalSc / (1.0 - d.fpy), 1.0 - d.fpy);
  }

  lemma {:induction false} EqualShares(x: real, n: nat) returns (each: real)
    requires x > 0.0 && n > 0
    ensures each > 0.0 && n as real * each == x
  {
    each := x / n as real;
    DivideBack(x, n as real);
  }

  /** A net reversal beside enough small companions of half yield makes the input negative. */
  lemma {:induction false} ReversalBreaksBounds(s: Station) returns (others: seq<Station>)
    requires s.tx > 0.0 && s.sc < 0.0
    ensures AllRegular(others) && !InBounds(others + [s])
  {
    var y := StationYield(s);
    var n: nat := (2.0 * y).Floor + 1;
    var each := EqualShares(-s.sc * 0.5, n);
    var tx := 2.0 * each;
    others := Companions(n, tx);
    CompanionsAreRegular(n, tx);
    CompanionsAggregate(n, tx, each);
    PartsSnoc(others, s);
    MultipleIsProduct(n, each);
    HalfPowerBound(n);
    SmallProduct(HalfPower(n), y, n);
    NegativeInput(Aggregate(Parts(others + [s])));
    assert BelowAll(others + [s], 0.0);
  }

  /**
    A station keeps every day of regular companions within the bounds exactly if it is
    regular itself: for a net reversal, for scrap without transactions, for negative
    transactions and for a clamped yield there is a regular day that it pushes out.
  */
  lemma {:induction false} BoundsHoldExactlyWhen(s: Station)
    ensures (forall others :: AllRegular(others) ==> InBounds(others + [s])) <==> Regular(s)
  {
    if Regular(s) {
      forall others | AllRegular(others)
        ensures InBounds(others + [s])
      {
        RegularDayInBounds(others + [s]);
      }
    } else if s.tx <= 0.0 {
      var others := IdleBreaksBounds(s);
    } else if s.sc < 0.0 {
      var others := ReversalBreaksBounds(s);
    } else {
      ClampedBreaksBounds(s);
      assert [] + [s] == [s] && AllRegular([]);
    }
  }

  // Two days with round numbers.

  lemma {:induction false} ReversalBreaksLowerBound()
    ensures InputQty(Aggregate([PartOf(Station(100.0, -10.0)), PartOf(Station(100.0, 50.0))])) < 100.0
  {
    assert PartOf(Station(100.0, -10.0)) == Part(1.1, -10.0, 100.0);
    assert PartOf(Station(100.0, 50.0)) == Part(0.5, 50.0, 100.0);
    AggregateTwo(Part(1.1, -10.0, 100.0), Part(0.5, 50.0, 100.0));
    assert InputQty(DayAgg(0.55, 40.0, 200.0)) < 100.0;
  }

  lemma {:induction false} IdleStationBreaksUpperBound()
    ensures InputQty(Aggregate([PartOf(Station(0.0, 5.0)), PartOf(Station(100.0, 10.0))])) > 100.0
  {
    assert PartOf(Station(0.0, 5.0)) == Part(1.0, 5.0, 0.0);
    assert PartOf(Station(100.0, 10.0)) == Part(0.9, 10.0, 100.0);
    AggregateTwo(Part(1.0, 5.0, 0.0), Part(0.9, 10.0, 100.0));
    assert InputQty(DayAgg(0.9, 15.0, 100.0)) > 100.0;
  }

  lemma {:induction false} AggregateTwo(p: Part, q: Part)
    ensures Aggregate([p, q]) == DayAgg(p.rate * q.rate, p.sc + q.sc, p.tx + q.tx)
  {
    AggregateOne(p);
    assert [p, q][..1] == [p];
    assert Aggregate([p, q]) == AddPart(Aggregate([p]), q);
  }

  // ---------------------------------------------------------------------------
  // The scrap lookup
  // ---------------------------------------------------------------------------

  lemma {:induction false} KeysMatch(bucket: string, name: string, bucket': string, name': string)
    requires |bucket| == |bucket'|
    ensures bucket + "::" + name == bucket' + "::" + name' <==> bucket == bucket' && name == name'
  {
    var k, k' := bucket + "::" + name, bucket' + "::" + name';
    assert k[..|bucket|] == bucket && k'[..|bucket'|] == bucket';
    assert k[|bucket| + 2..] == name && k'[|bucket'| + 2..] == name';
  }

  /** All buckets are printed to one length, as dates are. */
  ghost predicate OneLength(rows: seq<ScrapRow>, length: nat) {
    forall i :: 0 <= i < |rows| ==> |rows[i].bucket| == length
  }

  /** The last row of the bucket whose station prints as `name`; -1 when there is none. */
  function LastPrinted(rows: seq<ScrapRow>, bucket: string, name: string): (i: int)
    ensures -1 <= i < |rows|
  {
    if rows == [] then -1
    else
      var n := |rows| - 1;
      if rows[n].bucket == bucket && ScrapName(rows[n].dept) == name then n else LastPrinted(rows[..n], bucket, name)
  }

  /** The last row of that bucket and station; the grouped query has one at most. */
  function OwnRow(rows: seq<ScrapRow>, bucket: string, dept: Option<string>): (i: int)
    ensures -1 <= i < |rows|
  {
    if rows == [] then -1
    else
      var n := |rows| - 1;
      if rows[n].bucket == bucket && rows[n].dept == dept then n else OwnRow(rows[..n], bucket, dept)
  }

  function ScrapAt(rows: seq<ScrapRow>, i: int): real
    requires -1 <= i < |rows|
  {
    if i == -1 then 0.0 else rows[i].sc
  }

  /** What a station should be charged with. */
  function OwnScrap(rows: seq<ScrapRow>, bucket: string, dept: Option<string>): real {
    ScrapAt(rows, OwnRow(rows, bucket, dept))
  }

  lemma {:induction false} LookupFindsLastPrinted(rows: seq<ScrapRow>, length: nat, bucket: string,
        dept: Option<string>)
    requires OneLength(rows, length) && |bucket| == length
    ensures TxKey(bucket, dept) in ScrapMap(rows) <==> LastPrinted(rows, bucket, TxName(dept)) >= 0
    ensures TxKey(bucket, dept) in ScrapMap(rows) ==>
              ScrapMap(rows)[TxKey(bucket, dept)] == ScrapAt(rows, LastPrinted(rows, bucket, TxName(dept)))
  {
    if rows != [] {
      var n := |rows| - 1;
      LookupFindsLastPrinted(rows[..n], length, bucket, dept);
      KeysMatch(bucket, TxName(dept), rows[n].bucket, ScrapName(rows[n].dept));
    }
  }

  /**
    On every scrap table a station is charged with the last row of its bucket whose printed
    name is the one asked for: null prints as "null" and is asked for as "".
  */
  lemma {:induction false} StationGetsLastPrinted(rows: seq<ScrapRow>, length: nat, r: TxRow)
    requires OneLength(rows, length) && |r.bucket| == length
    ensures StationOf(r, ScrapMap(rows)) == Station(r.tx, ScrapAt(rows, LastPrinted(rows, r.bucket, TxName(r.dept))))
  {
    LookupFindsLastPrinted(rows, length, r.bucket, r.dept);
  }

  lemma {:induction false} PrintedIsOwn(rows: seq<ScrapRow>, bucket: string, name: string)
    requires name != "null"
    ensures LastPrinted(rows, bucket, name) == OwnRow(rows, bucket, Some(name))
  {
    if rows != [] {
      PrintedIsOwn(rows[..|rows| - 1], bucket, name);
    }
  }

  lemma {:induction false} NullPrintsTwice(rows: seq<ScrapRow>, bucket: string)
    ensures var own, other := OwnRow(rows, bucket, Some("null")), OwnRow(rows, bucket, None);
            LastPrinted(rows, bucket, "null") == if other < own then own else other
  {
    if rows != [] {
      NullPrintsTwice(rows[..|rows| - 1], bucket);
    }
  }

  /** Every named station but one called "null" is charged with its own scrap, whatever null rows the table holds. */
  lemma {:induction false} NamedStationGetsItsScrap(rows: seq<ScrapRow>, length: nat, r: TxRow)
    requires OneLength(rows, length) && |r.bucket| == length
    requires r.dept.Some? && r.dept != Some("null")
    ensures StationOf(r, ScrapMap(rows)) == Station(r.tx, OwnScrap(rows, r.bucket, r.dept))
  {
    StationGetsLastPrinted(rows, length, r);
    PrintedIsOwn(rows, r.bucket, r.dept.value);
  }

  /**
    A null station is charged with the scrap of the station named "", and so with its own
    exactly when the two amounts are the same.
  */
  lemma {:induction false} NullStationGetsItsScrapExactlyWhen(rows: seq<ScrapRow>, length: nat, r: TxRow)
    requires OneLength(rows, length) && |r.bucket| == length && r.dept.None?
    ensures StationOf(r, ScrapMap(rows)) == Station(r.tx, OwnScrap(rows, r.bucket, Some("")))
    ensures StationOf(r, ScrapMap(rows)) == Station(r.tx, OwnScrap(rows, r.bucket, None))
            <==> OwnScrap(rows, r.bucket, Some("")) == OwnScrap(rows, r.bucket, None)
  {
    StationGetsLastPrinted(rows, length, r);
    PrintedIsOwn(rows, r.bucket, "");
  }

  /**
    A station named "null" is charged with its own scrap exactly when its row comes after the
    null station's row of that bucket, or the two amounts are the same.
  */
  lemma {:induction false} StationNamedNullGetsItsScrapExactlyWhen(rows: seq<ScrapRow>, length: nat, r: TxRow)
    requires OneLength(rows, length) && |r.bucket| == length && r.dept == Some("null")
    ensures StationOf(r, ScrapMap(rows)) == Station(r.tx, OwnScrap(rows, r.bucket, r.dept))
            <==> OwnRow(rows, r.bucket, None) < OwnRow(rows, r.bucket, r.dept)
                 || OwnScrap(rows, r.bucket, None) == OwnScrap(rows, r.bucket, r.dept)
  {
    StationGetsLastPrinted(rows, length, r);
    NullPrintsTwice(rows, r.bucket);
  }

  /** On tables without null stations, the only ones the server sends, every station is charged with its own scrap. */
  lemma {:induction false} WithoutNullsAllGetTheirs(rows: seq<ScrapRow>, length: nat, r: TxRow)
    requires OneLength(rows, length) && |r.bucket| == length
    requires r.dept.Some? && forall i :: 0 <= i < |rows| ==> rows[i].dept.Some?
    ensures StationOf(r, ScrapMap(rows)) == Station(r.tx, OwnScrap(rows, r.bucket, r.dept))
  {
    NoSuchRow(rows, r.bucket, None);
    if r.dept == Some("null") {
      StationNamedNullGetsItsScrapExactlyWhen(rows, length, r);
    } else {
      NamedStationGetsItsScrap(rows, length, r);
    }
  }

  /** On every table without a station named "" in the bucket, a null station's scrap is lost, however much it is. */
  lemma {:induction false} NullStationLosesItsScrap(rows: seq<ScrapRow>, length: nat, r: TxRow)
    requires OneLength(rows, length) && |r.bucket| == length && r.dept.None?
    requires forall i :: 0 <= i < |rows| ==> rows[i].bucket != r.bucket || rows[i].dept != Some("")
    ensures StationOf(r, ScrapMap(rows)) == Station(r.tx, 0.0)
  {
    NullStationGetsItsScrapExactlyWhen(rows, length, r);
    NoSuchRow(rows, r.bucket, Some(""));
  }

  lemma {:induction false} NoSuchRow(rows: seq<ScrapRow>, bucket: string, dept: Option<string>)
    requires forall i :: 0 <= i < |rows| ==> rows[i].bucket != bucket || rows[i].dept != dept
    ensures OwnRow(rows, bucket, dept) == -1
  {
    if rows != [] {
      NoSuchRow(rows[..|rows| - 1], bucket, dept);
    }
  }

  // ---------------------------------------------------------------------------
  // Rounding
  // ---------------------------------------------------------------------------

  /** `Math.round(x * 10000) / 10000` */
  function Round4(x: real): real {
    (x * 10000.0 + 0.5).Floor as real / 10000.0
  }

  /** The result has four decimals and is within half of the last one. */
  lemma {:induction false} Round4Near(x: real)
    ensures x - 0.00005 < Round4(x) <= x + 0.00005
    ensures (Round4(x) * 10000.0).Floor as real == Round4(x) * 10000.0
  {
    var n := (x * 10000.0 + 0.5).Floor;
    assert n as real <= x * 10000.0 + 0.5 < n as real + 1.0;
    assert Round4(x) * 10000.0 == n as real;
  }

  lemma {:induction false} Round4Monotone(x: real, y: real)
    requires x <= y
    ensures Round4(x) <= Round4(y)
  {
    var a, b := x * 10000.0 + 0.5, y * 10000.0 + 0.5;
    assert a.Floor <= b.Floor;
  }

  /** The reported quantity lies between the rounded bounds. */
  lemma {:induction false} ReportedQtyBounds(stations: seq<Station>, least: real)
    requires stations != [] && AllRegular(stations) && least >= 0.0
    requires forall i :: 0 <= i < |stations| ==> least <= stations[i].tx
    ensures Round4(least) <= Round4(InputQty(Aggregate(Parts(stations)))) <= Round4(Aggregate(Parts(stations)).totalTx)
  {
    InputQtyBounds(stations, least);
    Round4Monotone(least, InputQty(Aggregate(Parts(stations))));
    Round4Monotone(InputQty(Aggregate(Parts(stations))), Aggregate(Parts(stations)).totalTx);
  }
}
