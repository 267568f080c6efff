/**
  The streaming reader of frontend/src/shared-composables/useTraceProgress.ts: the NDJSON
  line splitter and the fold that collects each domain's records.

  Input is text already decoded, cut into pieces in any way; `parse` stands for
  JSON.parse and fails on malformed lines.
*/
module TraceStream {
  import opened Options
  import opened JsText

  const NEWLINE := '\n'

  /** What one line contributes: nothing when blank or malformed. */
  function ParseLine<J>(line: string, parse: string -> Option<J>): seq<J> {
    var trimmed := Trim(line);
    if trimmed == "" || parse(trimmed).None? then [] else [parse(trimmed).value]
  }

  function ParseLines<J>(lines: seq<string>, parse: string -> Option<J>): seq<J> {
    if lines == [] then [] else ParseLine(lines[0], parse) + ParseLines(lines[1..], parse)
  }

  function Concat(chunks: seq<string>): string {
    if chunks == [] then "" else chunks[0] + Concat(chunks[1..])
  }

  lemma {:induction false} ConcatSnoc(chunks: seq<string>, last: string)
    ensures Concat(chunks + [last]) == Concat(chunks) + last
  {
    if chunks == [] {
      assert chunks + [last] == [last];
    } else {
      assert (chunks + [last])[1..] == chunks[1..] + [last];
      ConcatSnoc(chunks[1..], last);
    }
  }

  lemma {:induction false} ParseLinesParts<J>(a: seq<string>, b: seq<string>, parse: string -> Option<J>)
    ensures ParseLines(a + b, parse) == ParseLines(a, parse) + ParseLines(b, parse)
  {
    if a == [] {
      assert a + b == b;
    } else {
      assert (a + b)[1..] == a[1..] + b;
      ParseLinesParts(a[1..], b, parse);
    }
  }

  /** More text only continues the last piece. */
  lemma {:induction false} SplitContinues(a: string, b: string, sep: char)
    ensures var pieces := Split(a, sep);
            Split(a + b, sep) == pieces[..|pieces| - 1] + Split(pieces[|pieces| - 1] + b, sep)
  {
    if a == [] {
      assert a + b == b;
      assert [] + b == b;
    } else {
      SplitContinues(a[1..], b, sep);
      assert (a + b)[0] == a[0] && (a + b)[1..] == a[1..] + b;
      ContinueStep(a, b, sep);
    }
  }

  /** The step of SplitContinues: `rest` and `more` split the texts after the first character. */
  lemma {:induction false} ContinueStep(a: string, b: string, sep: char)
    requires a != [] && (a + b)[0] == a[0] && (a + b)[1..] == a[1..] + b
    requires var rest := Split(a[1..], sep);
             Split(a[1..] + b, sep) == rest[..|rest| - 1] + Split(rest[|rest| - 1] + b, sep)
    ensures var pieces := Split(a, sep);
            Split(a + b, sep) == pieces[..|pieces| - 1] + Split(pieces[|pieces| - 1] + b, sep)
  {
    var rest := Split(a[1..], sep);
    var more := Split(rest[|rest| - 1] + b, sep);
    var joined := rest[..|rest| - 1] + more;
    assert Split(a[1..] + b, sep) == joined;
    if a[0] == sep {
      assert Split(a + b, sep) == [[]] + joined;
      SplitAtSep(Split(a, sep), rest, more);
    } else if |rest| == 1 {
      assert rest == [rest[0]] && joined == more;
      assert Split(a + b, sep) == [[a[0]] + more[0]] + more[1..];
      OnePiece(a, b, sep, rest[0]);
    } else {
      assert Split(a, sep) == [[a[0]] + rest[0]] + rest[1..];
      assert Split(a + b, sep) == [[a[0]] + joined[0]] + joined[1..];
      SplitLater(a[0], rest, more);
    }
  }

  lemma {:induction false} SplitAtSep(pieces: seq<string>, rest: seq<string>, tail: seq<string>)
    requires |rest| >= 1 && pieces == [[]] + rest
    ensures pieces[|pieces| - 1] == rest[|rest| - 1]
    ensures pieces[..|pieces| - 1] + tail == [[]] + (rest[..|rest| - 1] + tail)
  {
    assert pieces[..|pieces| - 1] == [[]] + rest[..|rest| - 1];
  }

  lemma {:induction false} OnePiece(a: string, b: string, sep: char, rest: string)
    requires a != [] && a[0] != sep && Split(a[1..], sep) == [rest]
    ensures Split(a, sep) == [[a[0]] + rest]
    ensures var more := Split(rest + b, sep);
            Split(([a[0]] + rest) + b, sep) == [[a[0]] + more[0]] + more[1..]
  {
    var whole := ([a[0]] + rest) + b;
    assert whole[0] == a[0] && whole[1..] == rest + b;
  }

  /** One read: the last piece is replaced by the pieces it makes with the new chunk. */
  lemma {:induction false} ReadContinues(text: string, complete: seq<string>, buffer: string, chunk: string)
    requires Split(text, NEWLINE) == complete + [buffer]
    ensures var lines := Split(buffer + chunk, NEWLINE);
            Split(text + chunk, NEWLINE) == complete + lines[..|lines| - 1] + [lines[|lines| - 1]]
  {
    SplitContinues(text, chunk, NEWLINE);
    Regroup(Split(text, NEWLINE), complete, buffer, Split(buffer + chunk, NEWLINE));
  }

  lemma {:induction false} Regroup(pieces: seq<string>, complete: seq<string>, buffer: string, lines: seq<string>)
    requires pieces == complete + [buffer] && |lines| >= 1
    ensures pieces[|pieces| - 1] == buffer
    ensures pieces[..|pieces| - 1] + lines == complete + lines[..|lines| - 1] + [lines[|lines| - 1]]
  {
  }

  lemma {:induction false} ReadChunk(chunks: seq<string>, n: nat)
    requires n < |chunks|
    ensures Concat(chunks[..n + 1]) == Concat(chunks[..n]) + chunks[n]
  {
    assert chunks[..n + 1] == chunks[..n] + [chunks[n]];
    ConcatSnoc(chunks[..n], chunks[n]);
  }

  lemma {:induction false} SplitLater(c: char, rest: seq<string>, tail: seq<string>)
    requires |rest| > 1
    ensures var joined := rest[..|rest| - 1] + tail;
            var pieces := [[c] + rest[0]] + rest[1..];
            [[c] + joined[0]] + joined[1..] == pieces[..|pieces| - 1] + tail
    ensures ([[c] + rest[0]] + rest[1..])[|rest| - 1] == rest[|rest| - 1]
  {
  }

  /** The `for` loop over complete lines. */
  method ConsumeLines<J>(lines: seq<string>, parse: string -> Option<J>) returns (out: seq<J>)
    ensures out == ParseLines(lines, parse)
  {
    out := [];
    for k := 0 to |lines|
      invariant out == ParseLines(lines[..k], parse)
    {
      assert lines[..k + 1] == lines[..k] + [lines[k]];
      ParseLinesParts(lines[..k], [lines[k]], parse);
      var trimmed := Trim(lines[k]);
      if trimmed != "" {
        var parsed := parse(trimmed);
        if parsed.Some? {
          out := out + [parsed.value];
        }
      }
    }
    assert lines[..|lines|] == lines;
  }

  /**
    `consumeNDJSONStream`: whatever the cuts, the callback receives what splitting the
    whole text on newlines gives, blank and malformed lines dropped, an unterminated last
    line included.
  */
  method ConsumeStream<J>(chunks: seq<string>, parse: string -> Option<J>) returns (out: seq<J>)
    ensures out == ParseLines(Split(Concat(chunks), NEWLINE), parse)
  {
    out := [];
    var buffer := "";
    ghost var text, complete: seq<string> := "", [];
    for n := 0 to |chunks|
      invariant text == Concat(chunks[..n])
      invariant Split(text, NEWLINE) == complete + [buffer]
      invariant out == ParseLines(complete, parse)
    {
      ReadChunk(chunks, n);
      ReadContinues(text, complete, buffer, chunks[n]);
      var lines := Split(buffer + chunks[n], NEWLINE);
      buffer := lines[|lines| - 1];
      lines := lines[..|lines| - 1];
      var parsed := ConsumeLines(lines, parse);
      ParseLinesParts(complete, lines, parse);
      out := out + parsed;
      text, complete := text + chunks[n], complete + lines;
    }
    assert chunks[..|chunks|] == chunks;
    ParseLinesParts(complete, [buffer], parse);
    if Trim(buffer) != "" {
      var parsed := parse(Trim(buffer));
      if parsed.Some? {
        out := out + [parsed.value];
      }
    }
  }

  // ---------------------------------------------------------------------------
  // Round trip with a line-per-record writer
  // ---------------------------------------------------------------------------

  /** A record's text that survives the trip: one trimmed line the parser reads back. */
  ghost predicate Readable<J(!new)>(record: J, text: string, parse: string -> Option<J>) {
    NEWLINE !in text && text != "" && Trim(text) == text && parse(text) == Some(record)
  }

  function Written<J>(records: seq<J>, write: J -> string): seq<string> {
    if records == [] then [] else [write(records[0])] + Written(records[1..], write)
  }

  lemma {:induction false} SplitPlain(s: string, sep: char)
    requires sep !in s
    ensures Split(s, sep) == [s]
  {
    if s != [] {
      SplitPlain(s[1..], sep);
      assert s[0] in s && [s[0]] + s[1..] == s;
    }
  }

  lemma {:induction false} SplitFirst(s: string, rest: string, sep: char)
    requires sep !in s
    ensures Split(s + [sep] + rest, sep) == [s] + Split(rest, sep)
  {
    var whole := s + [sep] + rest;
    if s == [] {
      assert whole[0] == sep && whole[1..] == rest;
    } else {
      assert whole[0] == s[0] && whole[1..] == s[1..] + [sep] + rest;
      SplitFirst(s[1..], rest, sep);
      assert s[0] in s && [s[0]] + s[1..] == s;
      assert ([s[1..]] + Split(rest, sep))[1..] == Split(rest, sep);
    }
  }

  lemma {:induction false} SplitOfJoin(pieces: seq<string>, sep: char)
    requires |pieces| >= 1 && forall i :: 0 <= i < |pieces| ==> sep !in pieces[i]
    ensures Split(Join(pieces, sep), sep) == pieces
  {
    if |pieces| == 1 {
      SplitPlain(pieces[0], sep);
    } else {
      SplitFirst(pieces[0], Join(pieces[1..], sep), sep);
      SplitOfJoin(pieces[1..], sep);
    }
  }

  lemma {:induction false} ReadBack<J(!new)>(records: seq<J>, write: J -> string, parse: string -> Option<J>)
    requires forall r :: r in records ==> Readable(r, write(r), parse)
    ensures ParseLines(Written(records, write), parse) == records
    ensures |Written(records, write)| == |records|
    ensures forall i :: 0 <= i < |records| ==> NEWLINE !in Written(records, write)[i]
  {
    if records != [] {
      assert records[0] in records && Readable(records[0], write(records[0]), parse);
      assert forall r :: r in records[1..] ==> r in records;
      ReadBack(records[1..], write, parse);
    }
  }

  /** The lines of a text with a record per line; a final newline leaves an empty last line. */
  function Lines<J>(records: seq<J>, write: J -> string, final: bool): seq<string> {
    Written(records, write) + if final then [""] else []
  }

  lemma {:induction false} LinesReadBack<J(!new)>(records: seq<J>, write: J -> string, parse: string -> Option<J>,
        final: bool)
    requires forall r :: r in records ==> Readable(r, write(r), parse)
    ensures ParseLines(Lines(records, write, final), parse) == records
    ensures forall i :: 0 <= i < |Lines(records, write, final)| ==> NEWLINE !in Lines(records, write, final)[i]
  {
    ReadBack(records, write, parse);
    var tail := if final then [""] else [];
    assert ParseLine("", parse) == [] && ParseLines<J>([""], parse) == [];
    ParseLinesParts(Written(records, write), tail, parse);
  }

  /**
    One line per record, with or without a final newline, cut into any chunks, is read
    back as exactly the records.
  */
  lemma {:induction false} StreamRoundTrip<J(!new)>(records: seq<J>, write: J -> string, parse: string -> Option<J>,
        chunks: seq<string>, final: bool)
    requires forall r :: r in records ==> Readable(r, write(r), parse)
    requires Concat(chunks) == Join(Lines(records, write, final), NEWLINE)
    ensures ParseLines(Split(Concat(chunks), NEWLINE), parse) == records
  {
    LinesReadBack(records, write, parse, final);
    var lines := Lines(records, write, final);
    if lines == [] {
      assert Split("", NEWLINE) == [""] && ParseLine("", parse) == [];
      assert ParseLines([""], parse) == ParseLine("", parse) + ParseLines([], parse);
    } else {
      SplitOfJoin(lines, NEWLINE);
    }
  }

  /** Text with no white space at its ends. */
  predicate Trimmed(text: string) {
    text == "" || (!IsSpace(text[0]) && !IsSpace(text[|text| - 1]))
  }

  /** The line is such a text in white space, and the text is what the parser reads as the record, or blank or malformed. */
  ghost predicate Gives<J(!new)>(line: string, record: Option<J>, parse: string -> Option<J>) {
    exists before, text, after ::
      && line == before + text + after && AllSpace(before) && AllSpace(after) && Trimmed(text)
      && if record.Some? then text != "" && parse(text) == record else text == "" || parse(text).None?
  }

  /** The records that are there, in order. */
  function Present<J>(records: seq<Option<J>>): seq<J> {
    if records == [] then []
    else (if records[0].Some? then [records[0].value] else []) + Present(records[1..])
  }

  lemma {:induction false} LineGives<J(!new)>(line: string, record: Option<J>, parse: string -> Option<J>)
    requires Gives(line, record, parse)
    ensures ParseLine(line, parse) == if record.Some? then [record.value] else []
  {
    var before, text, after :|
      && line == before + text + after && AllSpace(before) && AllSpace(after) && Trimmed(text)
      && if record.Some? then text != "" && parse(text) == record else text == "" || parse(text).None?;
    TrimPadded(before, text, after);
  }

  lemma {:induction false} LinesGive<J(!new)>(lines: seq<string>, records: seq<Option<J>>, parse: string -> Option<J>)
    requires |records| == |lines| && forall i :: 0 <= i < |lines| ==> Gives(lines[i], records[i], parse)
    ensures ParseLines(lines, parse) == Present(records)
  {
    if lines != [] {
      LineGives(lines[0], records[0], parse);
      LinesGive(lines[1..], records[1..], parse);
    }
  }

  /**
    White space around the records, carriage returns before the newlines included, and blank
    and malformed lines between them, however the text is cut, change nothing: exactly the
    records are read, in order.
  */
  lemma {:induction false} StreamSkipsNoise<J(!new)>(lines: seq<string>, records: seq<Option<J>>,
        parse: string -> Option<J>, chunks: seq<string>)
    requires lines != [] && |records| == |lines|
    requires forall i :: 0 <= i < |lines| ==> NEWLINE !in lines[i] && Gives(lines[i], records[i], parse)
    requires Concat(chunks) == Join(lines, NEWLINE)
    ensures ParseLines(Split(Concat(chunks), NEWLINE), parse) == Present(records)
  {
    SplitOfJoin(lines, NEWLINE);
    LinesGive(lines, records, parse);
  }

  // ---------------------------------------------------------------------------
  // The collecting fold
  // ---------------------------------------------------------------------------

  /** A domain's records so far, with the total and quality data its start announced. */
  datatype DomainResult<R> = DomainResult(data: seq<R>, count: nat, total: R, quality: Option<R>)

  type Results<R> = map<string, DomainResult<R>>

  /** The object being filled; None is null or a field not there yet. */
  datatype Streamed<R> = Streamed(
    results: Results<R>,
    aggregation: Option<R>,
    quality: Option<R>,
    domainQuality: map<string, R>,
    queryId: Option<string>,
    traceQueryId: Option<string>,
    error: Option<string>,
    failedDomains: seq<string>)

  /** What a full result holds: the fields it names replace those of the object. */
  datatype Replacement<R> = Replacement(
    results: Option<Results<R>>,
    aggregation: Option<Option<R>>,
    quality: Option<Option<R>>,
    domainQuality: Option<map<string, R>>,
    queryId: Option<Option<string>>,
    traceQueryId: Option<Option<string>>,
    error: Option<Option<string>>,
    failedDomains: Option<seq<string>>)

  /** Stream messages; R is any JSON value, None a missing or falsy one where the code tests for that. */
  datatype Message<R> =
    | Meta(queryId: Option<string>, traceQueryId: Option<string>)
    | DomainStart(domain: string, total: R, quality: Option<R>)
    | Records(domain: string, data: seq<R>)
    | Aggregation(value: R)
    | QualityMeta(quality: Option<R>, perDomain: Option<map<string, R>>)
    | Warning(code: string, failed: seq<string>)
    | FullResult(fields: Replacement<R>)
    | Other

  function Or<T>(replacement: Option<T>, current: T): T {
    if replacement.Some? then replacement.value else current
  }

  function EmptyStream<R>(): Streamed<R> {
    Streamed(map[], None, None, map[], None, None, None, [])
  }

  class StreamedResult<R> {
    var results: Results<R>
    var aggregation: Option<R>
    var quality: Option<R>
    var domainQuality: map<string, R>
    var queryId: Option<string>
    var traceQueryId: Option<string>
    var error: Option<string>
    var failedDomains: seq<string>
    var totalRecords: nat

    ghost function Value(): Streamed<R>
      reads this
    {
      Streamed(results, aggregation, quality, domainQuality, queryId, traceQueryId, error, failedDomains)
    }

    constructor ()
      ensures Value() == EmptyStream() && totalRecords == 0
    {
      results, aggregation, quality, domainQuality := map[], None, None, map[];
      queryId, traceQueryId, error, failedDomains := None, None, None, [];
      totalRecords := 0;
    }

    method OnChunk(m: Message<R>)
      modifies this
      ensures Value() == Collect(old(Value()), m)
      ensures totalRecords == old(totalRecords) +
                (if m.Records? && m.domain in old(results) then |m.data| else 0)
    {
      match m
      case Meta(query, trace) =>
        if query.Some? {
          queryId := query;
        }
        if trace.Some? {
          traceQueryId := trace;
        }
      case DomainStart(domain, total, domainMeta) =>
        results := results[domain := DomainResult([], 0, total, domainMeta)];
        if domainMeta.Some? {
          domainQuality := domainQuality[domain := domainMeta.value];
        }
      case Records(domain, data) =>
        if domain in results {
          var longer := results[domain].data + data;
          results := results[domain := results[domain].(data := longer, count := |longer|)];
          totalRecords := totalRecords + |data|;
        }
      case Aggregation(value) =>
        aggregation := Some(value);
      case QualityMeta(meta, perDomain) =>
        quality := meta;
        if perDomain.Some? {
          domainQuality := perDomain.value;
        }
      case Warning(code, failed) =>
        error, failedDomains := Some(code), failed;
      case FullResult(f) =>
        results, aggregation := Or(f.results, results), Or(f.aggregation, aggregation);
        quality, domainQuality := Or(f.quality, quality), Or(f.domainQuality, domainQuality);
        queryId, traceQueryId := Or(f.queryId, queryId), Or(f.traceQueryId, traceQueryId);
        error, failedDomains := Or(f.error, error), Or(f.failedDomains, failedDomains);
      case Other =>
    }
  }

  function CollectResults<R>(results: Results<R>, m: Message<R>): Results<R> {
    match m
    case DomainStart(domain, total, quality) => results[domain := DomainResult([], 0, total, quality)]
    case Records(domain, data) =>
      if domain !in results then results
      else
        var longer := results[domain].data + data;
        results[domain := results[domain].(data := longer, count := |longer|)]
    case FullResult(f) => Or(f.results, results)
    case _ => results
  }

  function Collect<R>(s: Streamed<R>, m: Message<R>): Streamed<R> {
    var next := s.(results := CollectResults(s.results, m));
    match m
    case Meta(query, trace) =>
      next.(queryId := if query.Some? then query else s.queryId,
            traceQueryId := if trace.Some? then trace else s.traceQueryId)
    case DomainStart(domain, _, quality) =>
      if quality.Some? then next.(domainQuality := s.domainQuality[domain := quality.value]) else next
    case Aggregation(value) => next.(aggregation := Some(value))
    case QualityMeta(quality, perDomain) => next.(quality := quality, domainQuality := Or(perDomain, s.domainQuality))
    case Warning(code, failed) => next.(error := Some(code), failedDomains := failed)
    case FullResult(f) =>
      next.(aggregation := Or(f.aggregation, s.aggregation), quality := Or(f.quality, s.quality),
            domainQuality := Or(f.domainQuality, s.domainQuality), queryId := Or(f.queryId, s.queryId),
            traceQueryId := Or(f.traceQueryId, s.traceQueryId), error := Or(f.error, s.error),
            failedDomains := Or(f.failedDomains, s.failedDomains))
    case _ => next
  }

  function CollectAll<R>(results: Results<R>, messages: seq<Message<R>>): Results<R> {
    if messages == [] then results
    else CollectResults(CollectAll(results, messages[..|messages| - 1]), messages[|messages| - 1])
  }

  function StreamAll<R>(messages: seq<Message<R>>): Streamed<R> {
    if messages == [] then EmptyStream()
    else Collect(StreamAll(messages[..|messages| - 1]), messages[|messages| - 1])
  }

  lemma {:induction false} ResultsOfStream<R>(messages: seq<Message<R>>)
    ensures StreamAll(messages).results == CollectAll(map[], messages)
  {
    if messages != [] {
      ResultsOfStream(messages[..|messages| - 1]);
    }
  }

  // ---------------------------------------------------------------------------
  // The other fields, stream by stream
  // ---------------------------------------------------------------------------

  /** The last message that gives a value decides; before there is one, nothing is set. */
  function Latest<R, T>(messages: seq<Message<R>>, given: Message<R> -> Option<T>, unset: T): T {
    if messages == [] then unset
    else if given(messages[|messages| - 1]).Some? then given(messages[|messages| - 1]).value
    else Latest(messages[..|messages| - 1], given, unset)
  }

  /** So it is the value of that message, wherever it stands, and of none if none gives one. */
  lemma {:induction false} LatestIsTheLast<R, T>(messages: seq<Message<R>>, given: Message<R> -> Option<T>, unset: T,
        k: int)
    requires -1 <= k < |messages| && (k >= 0 ==> given(messages[k]).Some?)
    requires forall i :: k < i < |messages| ==> given(messages[i]).None?
    ensures Latest(messages, given, unset) == if k >= 0 then given(messages[k]).value else unset
  {
    if k < |messages| - 1 {
      LatestIsTheLast(messages[..|messages| - 1], given, unset, k);
    }
  }

  /** A meta message names its query id only if it has one; a full result may also clear it. */
  function GivesQueryId<R>(m: Message<R>): Option<Option<string>> {
    match m
    case Meta(id, _) => if id.Some? then Some(id) else None
    case FullResult(f) => f.queryId
    case _ => None
  }

  function GivesTraceQueryId<R>(m: Message<R>): Option<Option<string>> {
    match m
    case Meta(_, id) => if id.Some? then Some(id) else None
    case FullResult(f) => f.traceQueryId
    case _ => None
  }

  function GivesAggregation<R>(m: Message<R>): Option<Option<R>> {
    match m
    case Aggregation(value) => Some(Some(value))
    case FullResult(f) => f.aggregation
    case _ => None
  }

  function GivesQuality<R>(m: Message<R>): Option<Option<R>> {
    match m
    case QualityMeta(quality, _) => Some(quality)
    case FullResult(f) => f.quality
    case _ => None
  }

  function GivesError<R>(m: Message<R>): Option<Option<string>> {
    match m
    case Warning(code, _) => Some(Some(code))
    case FullResult(f) => f.error
    case _ => None
  }

  function GivesFailedDomains<R>(m: Message<R>): Option<seq<string>> {
    match m
    case Warning(_, failed) => Some(failed)
    case FullResult(f) => f.failedDomains
    case _ => None
  }

  /** A map of quality data decides about every domain, those it does not mention included. */
  function GivesDomainQuality<R>(m: Message<R>, domain: string): Option<Option<R>> {
    match m
    case DomainStart(d, _, quality) => if d == domain && quality.Some? then Some(quality) else None
    case QualityMeta(_, Some(all)) => Some(if domain in all then Some(all[domain]) else None)
    case FullResult(f) =>
      (match f.domainQuality
       case Some(all) => Some(if domain in all then Some(all[domain]) else None)
       case None => None)
    case _ => None
  }

  lemma {:induction false} OneMessageSets<R>(s: Streamed<R>, m: Message<R>)
    ensures var next := Collect(s, m);
            && next.queryId == Or(GivesQueryId(m), s.queryId)
            && next.traceQueryId == Or(GivesTraceQueryId(m), s.traceQueryId)
            && next.aggregation == Or(GivesAggregation(m), s.aggregation)
            && next.quality == Or(GivesQuality(m), s.quality)
            && next.error == Or(GivesError(m), s.error)
            && next.failedDomains == Or(GivesFailedDomains(m), s.failedDomains)
  {
  }

  /** For every stream, each field is what the last message that sets it gave. */
  lemma {:induction false} FieldsAreTheLatest<R(!new)>(messages: seq<Message<R>>)
    ensures var s := StreamAll(messages);
            && s.queryId == Latest(messages, GivesQueryId, None)
            && s.traceQueryId == Latest(messages, GivesTraceQueryId, None)
            && s.aggregation == Latest(messages, GivesAggregation, None)
            && s.quality == Latest(messages, GivesQuality, None)
            && s.error == Latest(messages, GivesError, None)
            && s.failedDomains == Latest(messages, GivesFailedDomains, [])
  {
    if messages != [] {
      var n := |messages| - 1;
      FieldsAreTheLatest(messages[..n]);
      OneMessageSets(StreamAll(messages[..n]), messages[n]);
    }
  }

  lemma {:induction false} DomainQualityIsTheLatest<R(!new)>(messages: seq<Message<R>>, domain: string)
    ensures var all := StreamAll(messages).domainQuality;
            (if domain in all then Some(all[domain]) else None)
            == Latest(messages, m => GivesDomainQuality(m, domain), None)
  {
    if messages != [] {
      DomainQualityIsTheLatest(messages[..|messages| - 1], domain);
    }
  }

  // ---------------------------------------------------------------------------
  // Each domain's records, stream by stream
  // ---------------------------------------------------------------------------

  predicate Starts<R>(m: Message<R>, domain: string) {
    m.DomainStart? && m.domain == domain
  }

  /** A full result that brings results of its own. */
  predicate Replaces<R>(m: Message<R>) {
    m.FullResult? && m.fields.results.Some?
  }

  /** The index after the last start of the domain; 0 when it never starts. */
  function LastStart<R>(messages: seq<Message<R>>, domain: string): (i: nat)
    ensures i <= |messages| && (i > 0 ==> Starts(messages[i - 1], domain))
    ensures i == 0 ==> forall k :: 0 <= k < |messages| ==> !Starts(messages[k], domain)
  {
    if messages == [] then 0
    else if Starts(messages[|messages| - 1], domain) then |messages|
    else LastStart(messages[..|messages| - 1], domain)
  }

  /** The index after the last full result with results; 0 when there is none. */
  function LastReplacement<R>(messages: seq<Message<R>>): (i: nat)
    ensures i <= |messages| && (i > 0 ==> Replaces(messages[i - 1]))
    ensures forall k :: i <= k < |messages| ==> !Replaces(messages[k])
  {
    if messages == [] then 0
    else if Replaces(messages[|messages| - 1]) then |messages|
    else LastReplacement(messages[..|messages| - 1])
  }

  predicate Mentions<R>(messages: seq<Message<R>>, domain: string) {
    exists k :: 0 <= k < |messages| && messages[k].Records? && messages[k].domain == domain
  }

  /** All records the messages carry for the domain, in order. */
  function Carried<R>(messages: seq<Message<R>>, domain: string): seq<R> {
    if messages == [] then []
    else
      var m := messages[|messages| - 1];
      Carried(messages[..|messages| - 1], domain) + if m.Records? && m.domain == domain then m.data else []
  }

  /** `r` with the records of the messages added, and counted if there was any such message. */
  function Extended<R>(r: DomainResult<R>, messages: seq<Message<R>>, domain: string): DomainResult<R> {
    var longer := r.data + Carried(messages, domain);
    r.(data := longer, count := if Mentions(messages, domain) then |longer| else r.count)
  }

  /** `r` after one more message that does not start the domain. */
  function Pushed<R>(r: DomainResult<R>, m: Message<R>, domain: string): DomainResult<R> {
    if m.Records? && m.domain == domain then
      var longer := r.data + m.data;
      r.(data := longer, count := |longer|)
    else r
  }

  lemma {:induction false} MentionsSnoc<R(!new)>(pre: seq<Message<R>>, m: Message<R>, domain: string)
    ensures Mentions(pre + [m], domain) <==> Mentions(pre, domain) || (m.Records? && m.domain == domain)
  {
    var messages := pre + [m];
    if k :| 0 <= k < |pre| && pre[k].Records? && pre[k].domain == domain {
      assert messages[k] == pre[k];
    }
    if m.Records? && m.domain == domain {
      assert messages[|pre|] == m;
    }
  }

  lemma {:induction false} CarriedSnoc<R(!new)>(pre: seq<Message<R>>, m: Message<R>, domain: string)
    ensures Carried(pre + [m], domain)
            == Carried(pre, domain) + if m.Records? && m.domain == domain then m.data else []
  {
    assert (pre + [m])[..|pre|] == pre;
  }

  lemma {:induction false} ExtendedSnoc<R(!new)>(r: DomainResult<R>, pre: seq<Message<R>>, m: Message<R>,
        domain: string)
    ensures Extended(r, pre + [m], domain) == Pushed(Extended(r, pre, domain), m, domain)
  {
    MentionsSnoc(pre, m, domain);
    CarriedSnoc(pre, m, domain);
    var more := if m.Records? && m.domain == domain then m.data else [];
    assert r.data + (Carried(pre, domain) + more) == (r.data + Carried(pre, domain)) + more;
  }

  function Look<R>(results: Results<R>, domain: string): Option<DomainResult<R>> {
    if domain in results then Some(results[domain]) else None
  }

  /**
    What a domain should hold after messages none of which replaces the results: every record
    sent for it since its last start, in order and counted, with that start's total and
    quality; if it was not started, what it held before and every record; else nothing.
  */
  function Expected<R>(base: Results<R>, messages: seq<Message<R>>, domain: string): Option<DomainResult<R>> {
    var s := LastStart(messages, domain);
    if s > 0 then
      var announced := DomainResult([], 0, messages[s - 1].total, messages[s - 1].quality);
      Some(Extended(announced, messages[s..], domain))
    else if domain in base then Some(Extended(base[domain], messages, domain))
    else None
  }

  lemma {:induction false} ExpectedSnoc<R(!new)>(base: Results<R>, pre: seq<Message<R>>, m: Message<R>, domain: string)
    requires !Starts(m, domain)
    ensures Expected(base, pre + [m], domain)
            == match Expected(base, pre, domain) case Some(r) => Some(Pushed(r, m, domain)) case None => None
  {
    var messages, s := pre + [m], LastStart(pre, domain);
    assert messages[..|pre|] == pre && LastStart(messages, domain) == s;
    if s > 0 {
      assert messages[s - 1] == pre[s - 1] && messages[s..] == pre[s..] + [m];
      ExtendedSnoc(DomainResult([], 0, pre[s - 1].total, pre[s - 1].quality), pre[s..], m, domain);
    } else if domain in base {
      ExtendedSnoc(base[domain], pre, m, domain);
    }
  }

  lemma {:induction false} ExpectedStart<R(!new)>(base: Results<R>, pre: seq<Message<R>>, m: Message<R>, domain: string)
    requires Starts(m, domain)
    ensures Expected(base, pre + [m], domain) == Some(DomainResult([], 0, m.total, m.quality))
  {
    var messages := pre + [m];
    assert LastStart(messages, domain) == |messages| && messages[|pre|] == m;
    assert messages[|messages|..] == [];
    var announced := DomainResult([], 0, m.total, m.quality);
    assert announced.data + Carried([], domain) == announced.data;
    assert Extended(announced, [], domain) == announced;
  }

  lemma {:induction false} CollectsOne<R>(results: Results<R>, m: Message<R>, domain: string)
    requires !Replaces(m)
    ensures Look(CollectResults(results, m), domain)
            == if Starts(m, domain) then Some(DomainResult([], 0, m.total, m.quality))
               else match Look(results, domain) case Some(r) => Some(Pushed(r, m, domain)) case None => None
  {
  }

  lemma {:induction false} DomainCollectsFrom<R(!new)>(base: Results<R>, messages: seq<Message<R>>, domain: string)
    requires forall k :: 0 <= k < |messages| ==> !Replaces(messages[k])
    ensures Look(CollectAll(base, messages), domain) == Expected(base, messages, domain)
  {
    if messages == [] {
      if domain in base {
        assert base[domain].data + [] == base[domain].data;
      }
    } else {
      var n := |messages| - 1;
      var pre, m := messages[..n], messages[n];
      assert messages == pre + [m];
      DomainCollectsFrom(base, pre, domain);
      CollectsOne(CollectAll(base, pre), m, domain);
      if Starts(m, domain) {
        ExpectedStart(base, pre, m, domain);
      } else {
        ExpectedSnoc(base, pre, m, domain);
      }
    }
  }

  /** The results the last replacement brought, or none. */
  function Base<R>(messages: seq<Message<R>>): Results<R> {
    var k := LastReplacement(messages);
    if k == 0 then map[] else messages[k - 1].fields.results.value
  }

  lemma {:induction false} CollectsOneMore<R>(base: Results<R>, messages: seq<Message<R>>, k: nat)
    requires k < |messages|
    ensures CollectAll(base, messages[k..]) ==
            CollectResults(CollectAll(base, messages[..|messages| - 1][k..]), messages[|messages| - 1])
  {
    var tail := messages[k..];
    assert tail[..|tail| - 1] == messages[..|messages| - 1][k..];
  }

  lemma {:induction false} CollectsFromBase<R>(messages: seq<Message<R>>)
    ensures CollectAll(map[], messages) == CollectAll(Base(messages), messages[LastReplacement(messages)..])
  {
    if messages != [] {
      var n := |messages| - 1;
      if Replaces(messages[n]) {
        assert messages[n + 1..] == [];
      } else {
        CollectsFromBase(messages[..n]);
        CollectsOneMore(Base(messages), messages, LastReplacement(messages[..n]));
      }
    }
  }

  /**
    For every stream and domain: only what follows the last full result that brought results
    counts, on top of what that brought.
  */
  lemma {:induction false} DomainCollects<R(!new)>(messages: seq<Message<R>>, domain: string)
    ensures Look(StreamAll(messages).results, domain)
            == Expected(Base(messages), messages[LastReplacement(messages)..], domain)
  {
    ResultsOfStream(messages);
    CollectsFromBase(messages);
    DomainCollectsFrom(Base(messages), messages[LastReplacement(messages)..], domain);
  }
}
