/**
  The cache benchmark's two ways to count rows (scripts/run_cache_benchmarks.py): a scan that
  filters the frame column by column, and an inverted index whose buckets are intersected.
  A missing query key and an empty one are the same to both; a missing cell is None.
*/
module IndexedQuery {
  import opened Options

  datatype Column = Workcenter | Package | Type | Status

  const COLUMNS: seq<Column> := [Workcenter, Package, Type, Status]

  datatype Row = Row(cells: map<Column, string>)

  type Table = seq<Row>

  type Query = map<Column, string>

  type Index = map<Column, map<string, set<nat>>>

  function Key(q: Query, c: Column): string {
    if c in q then q[c] else ""
  }

  predicate Holds(r: Row, c: Column, value: string) {
    c in r.cells && r.cells[c] == value
  }

  /** The rows of the bucket `value`: groupby leaves missing cells out. */
  function Bucket(table: Table, c: Column, value: string): set<nat> {
    set i: nat | i < |table| && Holds(table[i], c, value)
  }

  function Values(table: Table, c: Column): set<string> {
    set i: nat | i < |table| && c in table[i].cells :: table[i].cells[c]
  }

  function BuildIndex(table: Table): Index {
    map c: Column | c in {Workcenter, Package, Type, Status} ::
      map value | value in Values(table, c) :: Bucket(table, c, value)
  }

  /** A bucket exists exactly for the values some row holds, and is never empty. */
  lemma {:induction false} BucketsAreTheValues(table: Table, c: Column, value: string)
    ensures value in BuildIndex(table)[c] <==> Bucket(table, c, value) != {}
    ensures value in BuildIndex(table)[c] ==> BuildIndex(table)[c][value] == Bucket(table, c, value)
  {
    if i: nat :| i in Bucket(table, c, value) {
      assert table[i].cells[c] in Values(table, c);
    }
    if value in Values(table, c) {
      var i: nat :| i < |table| && c in table[i].cells && table[i].cells[c] == value;
      assert i in Bucket(table, c, value);
    }
  }

  /** The rows a scan keeps: empty keys do not filter. */
  function Scanned(table: Table, q: Query): set<nat> {
    set i: nat | i < |table| && forall c: Column :: Key(q, c) != "" ==> Holds(table[i], c, Key(q, c))
  }

  /** The rows in every bucket: an empty key asks for rows that hold the empty string. */
  function Indexed(table: Table, q: Query): set<nat> {
    set i: nat | i < |table| && forall c: Column :: Holds(table[i], c, Key(q, c))
  }

  // ---------------------------------------------------------------------------
  // The scan
  // ---------------------------------------------------------------------------

  /** frame[frame[c] == value] on the positions still in the frame. */
  function Filter(table: Table, subset: seq<nat>, c: Column, value: string): seq<nat> {
    if subset == [] then []
    else
      var last := |subset| - 1;
      Filter(table, subset[..last], c, value)
      + if subset[last] < |table| && Holds(table[subset[last]], c, value) then [subset[last]] else []
  }

  /** `subset` lists exactly `rows`, in increasing order. */
  ghost predicate Lists(subset: seq<nat>, rows: set<nat>) {
    && (forall i, k :: 0 <= i < k < |subset| ==> subset[i] < subset[k])
    && (forall k :: k in rows <==> k in subset)
  }

  lemma {:induction false} FilterLists(table: Table, subset: seq<nat>, rows: set<nat>, c: Column, value: string)
    requires Lists(subset, rows)
    ensures Lists(Filter(table, subset, c, value), rows * Bucket(table, c, value))
  {
    if subset != [] {
      var last := |subset| - 1;
      var x := subset[last];
      assert subset == subset[..last] + [x];
      FilterLists(table, subset[..last], rows - {x}, c, value);
      var rest := Filter(table, subset[..last], c, value);
      forall i | 0 <= i < |rest| ensures rest[i] < x {
        assert rest[i] in (rows - {x}) * Bucket(table, c, value);
      }
    }
  }

  lemma {:induction false} LengthIsCardinality(s: seq<nat>, rows: set<nat>)
    requires Lists(s, rows)
    ensures |s| == |rows|
  {
    if s == [] {
      assert rows == {};
    } else {
      var last := |s| - 1;
      assert s == s[..last] + [s[last]];
      LengthIsCardinality(s[..last], rows - {s[last]});
    }
  }

  function AllRows(n: nat): (rows: set<nat>)
    ensures forall k: nat :: k in rows <==> k < n
  {
    if n == 0 then {} else AllRows(n - 1) + {n - 1}
  }

  /** One `if` of the scan: an empty key leaves the frame as it is. */
  function Narrowed(table: Table, q: Query, c: Column, rows: set<nat>): set<nat> {
    if Key(q, c) != "" then rows * Bucket(table, c, Key(q, c)) else rows
  }

  lemma {:induction false} ScanNarrows(table: Table, q: Query)
    ensures var w := Narrowed(table, q, Workcenter, AllRows(|table|));
            Narrowed(table, q, Status, Narrowed(table, q, Type, Narrowed(table, q, Package, w))) == Scanned(table, q)
  {
    var w := Narrowed(table, q, Workcenter, AllRows(|table|));
    var last := Narrowed(table, q, Status, Narrowed(table, q, Type, Narrowed(table, q, Package, w)));
    forall i | i in last ensures i in Scanned(table, q) {
      forall c: Column | Key(q, c) != "" ensures Holds(table[i], c, Key(q, c)) {
        match c
        case Workcenter =>
        case Package =>
        case Type =>
        case Status =>
      }
    }
  }

  method BaselineQuery(table: Table, q: Query) returns (count: nat)
    ensures count == |Scanned(table, q)|
  {
    var subset: seq<nat> := seq(|table|, i requires 0 <= i < |table| => i);
    ghost var all := AllRows(|table|);
    assert Lists(subset, all) by {
      forall k: nat | k < |table| ensures k in subset {
        assert subset[k] == k;
      }
    }
    if Key(q, Workcenter) != "" {
      FilterLists(table, subset, all, Workcenter, Key(q, Workcenter));
      subset := Filter(table, subset, Workcenter, Key(q, Workcenter));
    }
    ghost var w := Narrowed(table, q, Workcenter, all);
    if Key(q, Package) != "" {
      FilterLists(table, subset, w, Package, Key(q, Package));
      subset := Filter(table, subset, Package, Key(q, Package));
    }
    ghost var p := Narrowed(table, q, Package, w);
    if Key(q, Type) != "" {
      FilterLists(table, subset, p, Type, Key(q, Type));
      subset := Filter(table, subset, Type, Key(q, Type));
    }
    ghost var t := Narrowed(table, q, Type, p);
    if Key(q, Status) != "" {
      FilterLists(table, subset, t, Status, Key(q, Status));
      subset := Filter(table, subset, Status, Key(q, Status));
    }
    ScanNarrows(table, q);
    LengthIsCardinality(subset, Narrowed(table, q, Status, t));
    count := |subset|;
  }

  // ---------------------------------------------------------------------------
  // The index
  // ---------------------------------------------------------------------------

  /** The rows in the first n buckets of the query. */
  function InBuckets(table: Table, q: Query, n: nat): set<nat>
    requires n <= |COLUMNS|
  {
    set i: nat | i < |table| && forall k :: 0 <= k < n ==> Holds(table[i], COLUMNS[k], Key(q, COLUMNS[k]))
  }

  lemma {:induction false} AllBuckets(table: Table, q: Query, n: nat)
    requires n <= |COLUMNS|
    ensures Indexed(table, q) <= InBuckets(table, q, n)
    ensures n == |COLUMNS| ==> Indexed(table, q) == InBuckets(table, q, n)
  {
    if n == |COLUMNS| {
      assert COLUMNS[0] == Workcenter && COLUMNS[1] == Package && COLUMNS[2] == Type && COLUMNS[3] == Status;
      forall i | i in InBuckets(table, q, n) ensures i in Indexed(table, q) {
        forall c: Column ensures Holds(table[i], c, Key(q, c)) {
          match c
          case Workcenter => assert Holds(table[i], COLUMNS[0], Key(q, COLUMNS[0]));
          case Package => assert Holds(table[i], COLUMNS[1], Key(q, COLUMNS[1]));
          case Type => assert Holds(table[i], COLUMNS[2], Key(q, COLUMNS[2]));
          case Status => assert Holds(table[i], COLUMNS[3], Key(q, COLUMNS[3]));
        }
      }
    }
  }

  lemma {:induction false} NextBucket(table: Table, q: Query, n: nat)
    requires n < |COLUMNS|
    ensures InBuckets(table, q, n + 1) == InBuckets(table, q, n) * Bucket(table, COLUMNS[n], Key(q, COLUMNS[n]))
  {
  }

  /** Both early exits included. */
  method IndexQuery(table: Table, indexes: Index, q: Query) returns (count: nat)
    requires indexes == BuildIndex(table)
    ensures count == |Indexed(table, q)|
  {
    var selected: Option<set<nat>> := None;
    for n := 0 to |COLUMNS|
      invariant selected == if n == 0 then None else Some(InBuckets(table, q, n))
    {
      var c := COLUMNS[n];
      BucketsAreTheValues(table, c, Key(q, c));
      NextBucket(table, q, n);
      AllBuckets(table, q, n + 1);
      if Key(q, c) !in indexes[c] {
        assert Indexed(table, q) == {};
        return 0;
      }
      var current := indexes[c][Key(q, c)];
      match selected
      case None =>
        assert InBuckets(table, q, 1) == current;
        selected := Some(current);
      case Some(rows) =>
        selected := Some(rows * current);
        if rows * current == {} {
          assert Indexed(table, q) == {};
          return 0;
        }
    }
    AllBuckets(table, q, |COLUMNS|);
    count := |selected.value|;
  }

  // ---------------------------------------------------------------------------
  // The index against the scan
  // ---------------------------------------------------------------------------

  /** Every row the scan keeps holds the empty string wherever the query is empty. */
  predicate EmptyKeysMeetEmptyCells(table: Table, q: Query) {
    forall i: nat, c: Column :: i in Scanned(table, q) && (c !in q || q[c] == "") ==> Holds(table[i], c, "")
  }

  lemma {:induction false} AgreeingRowsMeet(table: Table, q: Query)
    requires Scanned(table, q) == Indexed(table, q)
    ensures EmptyKeysMeetEmptyCells(table, q)
  {
    forall i: nat, c: Column | i in Scanned(table, q) && (c !in q || q[c] == "")
      ensures Holds(table[i], c, "")
    {
      assert i in Indexed(table, q) && Key(q, c) == "";
      assert Holds(table[i], c, Key(q, c));
    }
  }

  lemma {:induction false} MeetingRowsAgree(table: Table, q: Query)
    requires EmptyKeysMeetEmptyCells(table, q)
    ensures Scanned(table, q) == Indexed(table, q)
  {
    forall i: nat | i in Scanned(table, q) ensures i in Indexed(table, q) {
      forall c: Column ensures Holds(table[i], c, Key(q, c)) {
        if Key(q, c) == "" {
          assert Holds(table[i], c, "");
        }
      }
    }
  }

  lemma {:induction false} IndexAgreesExactlyWhen(table: Table, q: Query)
    ensures |Indexed(table, q)| <= |Scanned(table, q)|
    ensures |Indexed(table, q)| == |Scanned(table, q)| <==> EmptyKeysMeetEmptyCells(table, q)
  {
    IndexIsWithinScan(table, q);
    if |Indexed(table, q)| == |Scanned(table, q)| {
      AgreeingRowsMeet(table, q);
    }
    if EmptyKeysMeetEmptyCells(table, q) {
      MeetingRowsAgree(table, q);
    }
  }

  lemma {:induction false} IndexIsWithinScan(table: Table, q: Query)
    ensures |Indexed(table, q)| <= |Scanned(table, q)|
    ensures |Indexed(table, q)| == |Scanned(table, q)| ==> Scanned(table, q) == Indexed(table, q)
  {
    var indexed, scanned := Indexed(table, q), Scanned(table, q);
    assert indexed <= scanned;
    assert scanned == indexed + (scanned - indexed) && |scanned| == |indexed| + |scanned - indexed|;
    if |indexed| == |scanned| {
      assert scanned - indexed == {};
    }
  }

  /** With all four keys given the index refines the scan on every table. */
  lemma {:induction false} IndexRefinesScan(table: Table, q: Query)
    requires forall c: Column :: c in q && q[c] != ""
    ensures |Indexed(table, q)| == |Scanned(table, q)|
  {
    IndexAgreesExactlyWhen(table, q);
  }
}
