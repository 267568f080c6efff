/**
  The CSV printer of frontend/src/hold-overview/csvExport.ts and a reader that follows
  section 2 (rules 2 and 4 to 7) of RFC 4180 with line feeds between records.

  A row maps keys to the text `String(value)` of their values; a key whose value is null
  or undefined is a missing key.
*/
module CsvExport {
  import opened Options
  import opened JsText

  const COMMA := ','
  const QUOTE := '"'
  const LF := '\n'
  const CR := '\r'

  const CSV_HEADERS: seq<string> := [
    "Lot ID", "Work Order", "Qty", "Product", "Package", "Work Center", "Hold Reason", "Spec",
    "Age", "Hold Time", "Hold Duration (Hours)", "Hold By", "Dept", "Hold Comment",
    "Future Hold Comment"
  ]

  const CSV_KEYS: seq<string> := [
    "lotId", "workorder", "qty", "product", "package", "workcenter", "holdReason", "spec",
    "age", "holdTime", "holdDurationHours", "holdBy", "dept", "holdComment",
    "futureHoldComment"
  ]

  type Row = map<string, string>

  function Cell(row: Row, key: string): string {
    if key in row then row[key] else ""
  }

  function DoubleQuotes(s: string): string {
    if s == "" then ""
    else (if s[0] == QUOTE then [QUOTE, QUOTE] else [s[0]]) + DoubleQuotes(s[1..])
  }

  predicate NeedsQuotes(s: string) {
    COMMA in s || QUOTE in s || LF in s
  }

  /** `_toCsvField` */
  function ToCsvField(s: string): string {
    if NeedsQuotes(s) then [QUOTE] + DoubleQuotes(s) + [QUOTE] else s
  }

  function Fields(row: Row, keys: seq<string>): seq<string> {
    if keys == [] then [] else [Cell(row, keys[0])] + Fields(row, keys[1..])
  }

  function Escaped(fields: seq<string>): seq<string> {
    if fields == [] then [] else [ToCsvField(fields[0])] + Escaped(fields[1..])
  }

  function DataLines(rows: seq<Row>): seq<string> {
    if rows == [] then [] else [Join(Escaped(Fields(rows[0], CSV_KEYS)), COMMA)] + DataLines(rows[1..])
  }

  /** `_buildCsv` */
  function BuildCsv(rows: seq<Row>): string {
    var headerLine := Join(CSV_HEADERS, COMMA);
    if rows == [] then headerLine else Join([headerLine] + DataLines(rows), LF)
  }

  /** The table the text stands for: the header, then every row's cells in key order. */
  function Table(rows: seq<Row>): seq<seq<string>> {
    [CSV_HEADERS] + RowFields(rows)
  }

  function RowFields(rows: seq<Row>): seq<seq<string>> {
    if rows == [] then [] else [Fields(rows[0], CSV_KEYS)] + RowFields(rows[1..])
  }

  // ---------------------------------------------------------------------------
  // The reader
  // ---------------------------------------------------------------------------

  /** A value read and the text that follows it. */
  datatype Read<T> = Read(value: T, rest: string)

  /** The inside of a quoted field, after its opening quote (rule 7 for doubled quotes). */
  function ReadQuoted(t: string): (r: Option<Read<string>>)
    ensures r.Some? ==> |r.value.rest| < |t|
  {
    if t == "" then None
    else if t[0] != QUOTE then
      match ReadQuoted(t[1..])
      case None => None
      case Some(r) => Some(Read([t[0]] + r.value, r.rest))
    else if |t| > 1 && t[1] == QUOTE then
      match ReadQuoted(t[2..])
      case None => None
      case Some(r) => Some(Read([QUOTE] + r.value, r.rest))
    else Some(Read("", t[1..]))
  }

  /** An unquoted field: text data up to a comma, a line feed or the end. */
  function ReadPlain(strict: bool, t: string): (r: Option<Read<string>>)
    ensures r.Some? ==> |r.value.rest| <= |t|
  {
    if t == "" || t[0] == COMMA || t[0] == LF then Some(Read("", t))
    else if t[0] == QUOTE || (strict && t[0] == CR) then None
    else
      match ReadPlain(strict, t[1..])
      case None => None
      case Some(r) => Some(Read([t[0]] + r.value, r.rest))
  }

  function ReadField(strict: bool, t: string): (r: Option<Read<string>>)
    ensures r.Some? ==> |r.value.rest| <= |t|
  {
    if t != "" && t[0] == QUOTE then ReadQuoted(t[1..]) else ReadPlain(strict, t)
  }

  function ReadRecord(strict: bool, t: string): (r: Option<Read<seq<string>>>)
    ensures r.Some? ==> |r.value.rest| <= |t|
    decreases |t|
  {
    match ReadField(strict, t)
    case None => None
    case Some(f) =>
      if f.rest == "" || f.rest[0] != COMMA then Some(Read([f.value], f.rest))
      else
        match ReadRecord(strict, f.rest[1..])
        case None => None
        case Some(more) => Some(Read([f.value] + more.value, more.rest))
  }

  function ReadFile(strict: bool, t: string): Option<seq<seq<string>>>
    decreases |t|
  {
    match ReadRecord(strict, t)
    case None => None
    case Some(r) =>
      if r.rest == "" || r.rest == [LF] then Some([r.value])
      else if r.rest[0] != LF then None
      else
        match ReadFile(strict, r.rest[1..])
        case None => None
        case Some(more) => Some([r.value] + more)
  }

  // ---------------------------------------------------------------------------
  // Round trip
  // ---------------------------------------------------------------------------

  /** Where a field may end. */
  predicate AtBreak(rest: string) {
    rest == "" || rest[0] == COMMA || rest[0] == LF
  }

  /** For the strict reader a carriage return is text data only inside quotes. */
  predicate Writable(strict: bool, field: string) {
    !strict || CR !in field || COMMA in field || QUOTE in field || LF in field
  }

  /** A field is changed by printing exactly if it holds a comma, a quote or a line feed. */
  lemma {:induction false} PrintedAsItIsExactlyWhen(field: string)
    ensures ToCsvField(field) == field <==> COMMA !in field && QUOTE !in field && LF !in field
  {
    DoublingLengthens(field);
  }

  lemma {:induction false} DoublingLengthens(s: string)
    ensures |DoubleQuotes(s)| >= |s|
  {
    if s != "" {
      DoublingLengthens(s[1..]);
    }
  }

  lemma {:induction false} QuotedReadsBack(s: string, rest: string)
    requires rest == "" || rest[0] != QUOTE
    ensures ReadQuoted(DoubleQuotes(s) + [QUOTE] + rest) == Some(Read(s, rest))
  {
    var t := DoubleQuotes(s) + [QUOTE] + rest;
    if s == "" {
      assert t == [QUOTE] + rest;
    } else {
      var tail := DoubleQuotes(s[1..]) + [QUOTE] + rest;
      QuotedReadsBack(s[1..], rest);
      assert [s[0]] + s[1..] == s;
      if s[0] == QUOTE {
        assert t == [QUOTE, QUOTE] + tail;
        assert t[2..] == tail;
      } else {
        assert t == [s[0]] + tail;
        assert t[1..] == tail;
      }
    }
  }

  lemma {:induction false} PlainReadsBack(strict: bool, s: string, rest: string)
    requires !NeedsQuotes(s) && AtBreak(rest)
    ensures ReadPlain(strict, s + rest) == if strict && CR in s then None else Some(Read(s, rest))
  {
    if s == "" {
      assert s + rest == rest;
    } else {
      var t := s + rest;
      assert t[0] == s[0] && s[0] in s && t[1..] == s[1..] + rest;
      PlainReadsBack(strict, s[1..], rest);
      assert [s[0]] + s[1..] == s;
      assert s[0] != CR ==> (CR in s <==> CR in s[1..]);
    }
  }

  lemma {:induction false} PlainFieldReadsBack(strict: bool, field: string, rest: string)
    requires !NeedsQuotes(field) && AtBreak(rest)
    ensures ReadField(strict, field + rest) == if strict && CR in field then None else Some(Read(field, rest))
  {
    PlainReadsBack(strict, field, rest);
    if field != "" {
      assert (field + rest)[0] == field[0] && field[0] in field;
    } else {
      assert field + rest == rest;
    }
  }

  lemma {:induction false} QuotedFieldReadsBack(strict: bool, field: string, rest: string)
    requires AtBreak(rest)
    ensures ReadField(strict, [QUOTE] + DoubleQuotes(field) + [QUOTE] + rest) == Some(Read(field, rest))
  {
    QuotedReadsBack(field, rest);
    Regroup([QUOTE], DoubleQuotes(field), [QUOTE], rest);
    QuoteOpens(strict, DoubleQuotes(field) + [QUOTE] + rest);
  }

  lemma {:induction false} Regroup(a: string, b: string, c: string, d: string)
    ensures a + b + c + d == a + (b + c + d)
  {
  }

  lemma {:induction false} QuoteOpens(strict: bool, inner: string)
    ensures ReadField(strict, [QUOTE] + inner) == ReadQuoted(inner)
  {
    assert ([QUOTE] + inner)[1..] == inner;
  }

  /** One field is read back from its printed form exactly when it is writable. */
  lemma {:induction false} FieldReadsBack(strict: bool, field: string, rest: string)
    requires AtBreak(rest)
    ensures ReadField(strict, ToCsvField(field) + rest) ==
            if Writable(strict, field) then Some(Read(field, rest)) else None
  {
    if NeedsQuotes(field) {
      QuotedFieldReadsBack(strict, field, rest);
    } else {
      PlainFieldReadsBack(strict, field, rest);
    }
  }

  predicate AllWritable(strict: bool, fields: seq<string>) {
    fields == [] || (Writable(strict, fields[0]) && AllWritable(strict, fields[1..]))
  }

  lemma {:induction false} JoinCons(first: string, others: seq<string>, sep: char, rest: string)
    requires others != []
    ensures Join([first] + others, sep) + rest == first + ([sep] + (Join(others, sep) + rest))
  {
    assert ([first] + others)[1..] == others;
  }

  lemma {:induction false} RecordReadsBack(strict: bool, fields: seq<string>, rest: string)
    requires fields != [] && (rest == "" || rest[0] == LF)
    ensures ReadRecord(strict, Join(Escaped(fields), COMMA) + rest) ==
            if AllWritable(strict, fields) then Some(Read(fields, rest)) else None
  {
    var first := ToCsvField(fields[0]);
    var others := Escaped(fields[1..]);
    assert Escaped(fields) == [first] + others;
    if |fields| == 1 {
      assert Escaped(fields) == [first];
      FieldReadsBack(strict, fields[0], rest);
      assert fields == [fields[0]];
    } else {
      var tail := Join(others, COMMA) + rest;
      JoinCons(first, others, COMMA, rest);
      FieldReadsBack(strict, fields[0], [COMMA] + tail);
      RecordReadsBack(strict, fields[1..], rest);
      FirstThenRest(strict, first + ([COMMA] + tail), fields[0], tail);
      assert [fields[0]] + fields[1..] == fields;
    }
  }

  /** A field followed by a comma: the record goes on with the text after it. */
  lemma {:induction false} FirstThenRest(strict: bool, t: string, value: string, tail: string)
    ensures ReadField(strict, t) == None ==> ReadRecord(strict, t) == None
    ensures ReadField(strict, t) == Some(Read(value, [COMMA] + tail)) ==>
              ReadRecord(strict, t) ==
                match ReadRecord(strict, tail)
                case None => None
                case Some(more) => Some(Read([value] + more.value, more.rest))
  {
    assert ([COMMA] + tail)[1..] == tail;
  }

  predicate RowWritable(strict: bool, row: Row) {
    AllWritable(strict, Fields(row, CSV_KEYS))
  }

  predicate RowsWritable(strict: bool, rows: seq<Row>) {
    rows == [] || (RowWritable(strict, rows[0]) && RowsWritable(strict, rows[1..]))
  }

  /** Records written one after another, after the line feed that precedes them. */
  lemma {:induction false} LinesReadBack(strict: bool, record: seq<string>, rows: seq<Row>)
    requires record != [] && AllWritable(strict, record)
    ensures ReadFile(strict, Join([Join(Escaped(record), COMMA)] + DataLines(rows), LF)) ==
            if RowsWritable(strict, rows) then Some([record] + RowFields(rows)) else None
    decreases |rows|
  {
    var line := Join(Escaped(record), COMMA);
    if rows == [] {
      RecordReadsBack(strict, record, "");
      assert line + "" == line;
      assert [line] + DataLines(rows) == [line];
      assert [record] + RowFields(rows) == [record];
    } else {
      var next := Fields(rows[0], CSV_KEYS);
      var tail := Join(DataLines(rows), LF);
      assert next != [];
      assert ([line] + DataLines(rows))[1..] == DataLines(rows);
      RecordReadsBack(strict, record, [LF] + tail);
      assert line + [LF] + tail == line + ([LF] + tail);
      assert ([LF] + tail)[1..] == tail;
      LineIsNotEmpty(rows);
      if AllWritable(strict, next) {
        LinesReadBack(strict, next, rows[1..]);
        assert [record] + ([next] + RowFields(rows[1..])) == [record] + RowFields(rows);
      } else {
        NextLineFails(strict, rows);
      }
    }
  }

  /** Fifteen fields need fourteen commas, so no line is empty. */
  lemma {:induction false} LineIsNotEmpty(rows: seq<Row>)
    requires rows != []
    ensures Join(DataLines(rows), LF) != ""
  {
    var fields := Fields(rows[0], CSV_KEYS);
    assert |CSV_KEYS| > 1;
    assert Fields(rows[0], CSV_KEYS[1..]) != [];
    assert |fields| > 1;
    var line := Join(Escaped(fields), COMMA);
    assert |Escaped(fields)| > 1;
    assert line != "";
  }

  lemma {:induction false} NextLineFails(strict: bool, rows: seq<Row>)
    requires rows != [] && !RowWritable(strict, rows[0])
    ensures ReadFile(strict, Join(DataLines(rows), LF)) == None
  {
    var fields := Fields(rows[0], CSV_KEYS);
    assert fields != [];
    var line := Join(Escaped(fields), COMMA);
    if |rows| == 1 {
      RecordReadsBack(strict, fields, "");
      assert line + "" == line;
      assert DataLines(rows) == [line];
    } else {
      var tail := Join(DataLines(rows[1..]), LF);
      assert DataLines(rows)[1..] == DataLines(rows[1..]);
      RecordReadsBack(strict, fields, [LF] + tail);
      assert line + [LF] + tail == line + ([LF] + tail);
    }
  }

  ghost predicate PlainField(s: string) {
    forall i :: 0 <= i < |s| ==> s[i] != COMMA && s[i] != QUOTE && s[i] != LF && s[i] != CR
  }

  lemma {:induction false} PlainRecord(strict: bool, fields: seq<string>)
    requires forall i :: 0 <= i < |fields| ==> PlainField(fields[i])
    ensures Escaped(fields) == fields && AllWritable(strict, fields)
  {
    if fields != [] {
      assert PlainField(fields[0]);
      PlainRecord(strict, fields[1..]);
    }
  }

  lemma {:induction false} FirstHeadersArePlain()
    ensures forall i :: 0 <= i < 8 ==> PlainField(CSV_HEADERS[i])
  {
  }

  lemma {:induction false} LastHeadersArePlain()
    ensures forall i :: 8 <= i < 15 ==> PlainField(CSV_HEADERS[i])
  {
  }

  lemma {:induction false} HeaderIsPlain(strict: bool)
    ensures Escaped(CSV_HEADERS) == CSV_HEADERS && AllWritable(strict, CSV_HEADERS)
  {
    FirstHeadersArePlain();
    LastHeadersArePlain();
    PlainRecord(strict, CSV_HEADERS);
  }

  /**
    The RFC reader (`strict`) recovers the header and every cell from the printed text
    exactly when every cell holding a carriage return also holds a comma, a quote or a line
    feed; otherwise it rejects the text.  A reader that also takes a bare carriage return
    as text recovers everything.
  */
  lemma {:induction false} CsvRoundTrip(strict: bool, rows: seq<Row>)
    ensures ReadFile(strict, BuildCsv(rows)) ==
            if RowsWritable(strict, rows) then Some(Table(rows)) else None
  {
    HeaderIsPlain(strict);
    LinesReadBack(strict, CSV_HEADERS, rows);
    var headerLine := Join(CSV_HEADERS, COMMA);
    assert rows == [] ==> [headerLine] + DataLines(rows) == [headerLine];
  }

  lemma {:induction false} FieldsAreCells(row: Row, keys: seq<string>, j: nat)
    requires j < |keys|
    ensures |Fields(row, keys)| == |keys| && Fields(row, keys)[j] == Cell(row, keys[j])
  {
    if |keys| > 1 {
      FieldsAreCells(row, keys[1..], if j > 0 then j - 1 else 0);
    }
  }

  lemma {:induction false} RowFieldsAt(rows: seq<Row>, n: nat)
    requires n < |rows|
    ensures |RowFields(rows)| == |rows| && RowFields(rows)[n] == Fields(rows[n], CSV_KEYS)
  {
    if |rows| > 1 {
      RowFieldsAt(rows[1..], if n > 0 then n - 1 else 0);
    }
  }

  /** In column j the n-th row shows the value of `key`, under that header, and nothing where the key is missing. */
  ghost predicate Shows(rows: seq<Row>, n: nat, j: nat, header: string, key: string)
    requires n < |rows|
  {
    && |Table(rows)| == |rows| + 1 && j < |Table(rows)[0]| && j < |Table(rows)[n + 1]|
    && Table(rows)[0][j] == header
    && Table(rows)[n + 1][j] == if key in rows[n] then rows[n][key] else ""
  }

  lemma {:induction false} ColumnShows(rows: seq<Row>, n: nat, j: nat, header: string, key: string)
    requires n < |rows| && j < 15 && CSV_HEADERS[j] == header && CSV_KEYS[j] == key
    ensures Shows(rows, n, j, header, key)
  {
    RowFieldsAt(rows, n);
    FieldsAreCells(rows[n], CSV_KEYS, j);
  }

  lemma {:induction false} FirstColumns(rows: seq<Row>, n: nat)
    requires n < |rows|
    ensures Shows(rows, n, 0, "Lot ID", "lotId")
    ensures Shows(rows, n, 1, "Work Order", "workorder")
    ensures Shows(rows, n, 2, "Qty", "qty")
    ensures Shows(rows, n, 3, "Product", "product")
    ensures Shows(rows, n, 4, "Package", "package")
  {
    ColumnShows(rows, n, 0, "Lot ID", "lotId");
    ColumnShows(rows, n, 1, "Work Order", "workorder");
    ColumnShows(rows, n, 2, "Qty", "qty");
    ColumnShows(rows, n, 3, "Product", "product");
    ColumnShows(rows, n, 4, "Package", "package");
  }

  lemma {:induction false} MiddleColumns(rows: seq<Row>, n: nat)
    requires n < |rows|
    ensures Shows(rows, n, 5, "Work Center", "workcenter")
    ensures Shows(rows, n, 6, "Hold Reason", "holdReason")
    ensures Shows(rows, n, 7, "Spec", "spec")
    ensures Shows(rows, n, 8, "Age", "age")
    ensures Shows(rows, n, 9, "Hold Time", "holdTime")
  {
    ColumnShows(rows, n, 5, "Work Center", "workcenter");
    ColumnShows(rows, n, 6, "Hold Reason", "holdReason");
    ColumnShows(rows, n, 7, "Spec", "spec");
    ColumnShows(rows, n, 8, "Age", "age");
    ColumnShows(rows, n, 9, "Hold Time", "holdTime");
  }

  lemma {:induction false} LastColumns(rows: seq<Row>, n: nat)
    requires n < |rows|
    ensures Shows(rows, n, 10, "Hold Duration (Hours)", "holdDurationHours")
    ensures Shows(rows, n, 11, "Hold By", "holdBy")
    ensures Shows(rows, n, 12, "Dept", "dept")
    ensures Shows(rows, n, 13, "Hold Comment", "holdComment")
    ensures Shows(rows, n, 14, "Future Hold Comment", "futureHoldComment")
  {
    ColumnShows(rows, n, 10, "Hold Duration (Hours)", "holdDurationHours");
    ColumnShows(rows, n, 11, "Hold By", "holdBy");
    ColumnShows(rows, n, 12, "Dept", "dept");
    ColumnShows(rows, n, 13, "Hold Comment", "holdComment");
    ColumnShows(rows, n, 14, "Future Hold Comment", "futureHoldComment");
  }

  /** The table the reader recovers has these fifteen columns, in this order. */
  lemma {:induction false} ColumnsShowTheirKeys(rows: seq<Row>, n: nat)
    requires n < |rows|
    ensures |Table(rows)[0]| == 15
    ensures Shows(rows, n, 0, "Lot ID", "lotId")
    ensures Shows(rows, n, 1, "Work Order", "workorder")
    ensures Shows(rows, n, 2, "Qty", "qty")
    ensures Shows(rows, n, 3, "Product", "product")
    ensures Shows(rows, n, 4, "Package", "package")
    ensures Shows(rows, n, 5, "Work Center", "workcenter")
    ensures Shows(rows, n, 6, "Hold Reason", "holdReason")
    ensures Shows(rows, n, 7, "Spec", "spec")
    ensures Shows(rows, n, 8, "Age", "age")
    ensures Shows(rows, n, 9, "Hold Time", "holdTime")
    ensures Shows(rows, n, 10, "Hold Duration (Hours)", "holdDurationHours")
    ensures Shows(rows, n, 11, "Hold By", "holdBy")
    ensures Shows(rows, n, 12, "Dept", "dept")
    ensures Shows(rows, n, 13, "Hold Comment", "holdComment")
    ensures Shows(rows, n, 14, "Future Hold Comment", "futureHoldComment")
  {
    FirstColumns(rows, n);
    MiddleColumns(rows, n);
    LastColumns(rows, n);
  }

  lemma {:induction false} LenientTakesAll(rows: seq<Row>)
    ensures RowsWritable(false, rows)
  {
    if rows != [] {
      LenientFields(Fields(rows[0], CSV_KEYS));
      LenientTakesAll(rows[1..]);
    }
  }

  lemma {:induction false} LenientFields(fields: seq<string>)
    ensures AllWritable(false, fields)
  {
    if fields != [] {
      LenientFields(fields[1..]);
    }
  }

  /** Different cells always print differently, carriage returns included. */
  lemma {:induction false} PrintingIsInjective(a: seq<Row>, b: seq<Row>)
    ensures BuildCsv(a) == BuildCsv(b) ==> RowFields(a) == RowFields(b)
  {
    LenientTakesAll(a);
    LenientTakesAll(b);
    CsvRoundTrip(false, a);
    CsvRoundTrip(false, b);
    assert Table(a)[1..] == RowFields(a) && Table(b)[1..] == RowFields(b);
  }
}
