/**
  The chunk fan-out of src/mes_dashboard/core/base_chunked_duckdb_job.py: chunks of
  batches go into one shared table or into one file per batch, sequentially or from a
  thread pool in any interleaving.
*/
module ChunkFanOut {
  // ---------------------------------------------------------------------------
  // File names
  // ---------------------------------------------------------------------------

  function Digit(d: nat): char
    requires d < 10
  {
    '0' + d as char
  }

  function Decimal(n: nat): string {
    if n < 10 then [Digit(n)] else Decimal(n / 10) + [Digit(n % 10)]
  }

  function Zeros(n: nat): string {
    if n == 0 then "" else "0" + Zeros(n - 1)
  }

  /** The format `:04d`: at least four digits. */
  function Pad4(n: nat): string {
    var s := Decimal(n);
    if |s| < 4 then Zeros(4 - |s|) + s else s
  }

  function ChunkFile(chunk: nat, batch: nat): string {
    "chunk-" + Pad4(chunk) + "-" + Pad4(batch) + ".parquet"
  }

  /** Reads a digit string back. */
  ghost function Value(s: string): int {
    if s == "" then 0 else Value(s[..|s| - 1]) * 10 + (s[|s| - 1] as int - '0' as int)
  }

  ghost predicate AllDigits(s: string) {
    forall i :: 0 <= i < |s| ==> '0' <= s[i] <= '9'
  }

  lemma {:induction false} DecimalReadsBack(n: nat)
    ensures Value(Decimal(n)) == n && AllDigits(Decimal(n))
  {
    if n < 10 {
      assert Decimal(n)[..0] == "";
    } else {
      DecimalReadsBack(n / 10);
      assert Decimal(n)[..|Decimal(n)| - 1] == Decimal(n / 10);
    }
  }

  lemma {:induction false} LeadingZeros(k: nat, s: string)
    requires AllDigits(s)
    ensures Value(Zeros(k) + s) == Value(s) && AllDigits(Zeros(k) + s)
  {
    if s == "" {
      assert Zeros(k) + s == Zeros(k);
      if k > 0 {
        LeadingZeros(k - 1, "");
        ZerosSnoc(k - 1);
        assert Zeros(k - 1) + "" == Zeros(k - 1);
        assert Zeros(k)[..|Zeros(k)| - 1] == Zeros(k - 1);
      }
    } else {
      var t := Zeros(k) + s;
      LeadingZeros(k, s[..|s| - 1]);
      assert t[..|t| - 1] == Zeros(k) + s[..|s| - 1];
    }
  }

  lemma {:induction false} ZerosSnoc(k: nat)
    ensures "0" + Zeros(k) == Zeros(k) + "0"
  {
    if k > 0 {
      ZerosSnoc(k - 1);
    }
  }

  lemma {:induction false} Pad4ReadsBack(n: nat)
    ensures Value(Pad4(n)) == n && AllDigits(Pad4(n))
  {
    DecimalReadsBack(n);
    if |Decimal(n)| < 4 {
      LeadingZeros(4 - |Decimal(n)|, Decimal(n));
    }
  }

  lemma {:induction false} FirstDash(a: string, x: string, b: string, y: string)
    requires AllDigits(a) && AllDigits(b) && a + "-" + x == b + "-" + y
    ensures a == b && x == y
  {
    var s := a + "-" + x;
    assert s[|a|] == '-' && s[|b|] == '-';
    assert forall i :: 0 <= i < |a| ==> s[i] == a[i];
    assert forall i :: 0 <= i < |b| ==> s[i] == b[i];
    assert s[..|a|] == a && s[..|b|] == b;
    assert s[|a| + 1..] == x && s[|b| + 1..] == y;
  }

  lemma {:induction false} ChunkFileParts(chunk: nat, batch: nat)
    ensures ChunkFile(chunk, batch)[6..] == Pad4(chunk) + "-" + (Pad4(batch) + ".parquet")
  {
    AfterPrefix("chunk-", Pad4(chunk), "-", Pad4(batch), ".parquet");
  }

  lemma {:induction false} AfterPrefix(a: string, b: string, c: string, d: string, e: string)
    ensures (a + b + c + d + e)[|a|..] == b + c + (d + e)
  {
  }

  lemma {:induction false} NoLeadingZero(n: nat)
    ensures |Decimal(n)| >= 1 && (n > 0 ==> Decimal(n)[0] != '0')
  {
    if n >= 10 {
      NoLeadingZero(n / 10);
    }
  }

  lemma {:induction false} ZerosLength(k: nat)
    ensures |Zeros(k)| == k
  {
    if k > 0 {
      ZerosLength(k - 1);
    }
  }

  lemma {:induction false} DecimalLength(n: nat)
    ensures n < 10 ==> |Decimal(n)| == 1
    ensures 10 <= n < 100 ==> |Decimal(n)| == 2
    ensures 100 <= n < 1000 ==> |Decimal(n)| == 3
    ensures 1000 <= n < 10000 ==> |Decimal(n)| == 4
    ensures n >= 10000 ==> |Decimal(n)| > 4
  {
    if n >= 10 {
      DecimalLength(n / 10);
    }
  }

  /** The decimal digits of the number, four of them or as many as a larger number needs. */
  ghost predicate Spells(s: string, n: nat) {
    && AllDigits(s) && Value(s) == n && |s| >= 4
    && (n < 10000 ==> |s| == 4) && (n >= 10000 ==> s[0] != '0')
  }

  lemma {:induction false} Pad4Spells(n: nat)
    ensures Spells(Pad4(n), n)
  {
    Pad4ReadsBack(n);
    DecimalLength(n);
    NoLeadingZero(n);
    if n < 1000 {
      ZerosLength(4 - |Decimal(n)|);
    }
  }

  /** The name spells the two numbers, each in four digits, or in as many as a larger one needs. */
  lemma {:induction false} ChunkFileSpells(chunk: nat, batch: nat) returns (c: string, b: string)
    ensures ChunkFile(chunk, batch) == "chunk-" + c + "-" + b + ".parquet" && Spells(c, chunk) && Spells(b, batch)
  {
    c, b := Pad4(chunk), Pad4(batch);
    Pad4Spells(chunk);
    Pad4Spells(batch);
  }

  /** No two batches share a file, whatever the numbers, above 9999 too. */
  lemma {:induction false} ChunkFileIsInjective(chunk: nat, batch: nat, chunk': nat, batch': nat)
    requires ChunkFile(chunk, batch) == ChunkFile(chunk', batch')
    ensures chunk == chunk' && batch == batch'
  {
    ChunkFileParts(chunk, batch);
    ChunkFileParts(chunk', batch');
    Pad4ReadsBack(chunk);
    Pad4ReadsBack(chunk');
    Pad4ReadsBack(batch);
    Pad4ReadsBack(batch');
    FirstDash(Pad4(chunk), Pad4(batch) + ".parquet", Pad4(chunk'), Pad4(batch') + ".parquet");
    var p, p' := Pad4(batch), Pad4(batch');
    assert (p + ".parquet")[..|p|] == p && (p' + ".parquet")[..|p'|] == p';
  }

  // ---------------------------------------------------------------------------
  // What has been written
  // ---------------------------------------------------------------------------

  /** A batch is a sequence of rows; a chunk's query yields a sequence of batches. */
  type Batch<R> = seq<R>
  type Chunks<R> = seq<seq<Batch<R>>>

  /** All rows of the first `n` batches of a chunk. */
  function RowsOf<R>(batches: seq<Batch<R>>, n: nat): multiset<R>
    requires n <= |batches|
  {
    if n == 0 then multiset{} else RowsOf(batches, n - 1) + multiset(batches[n - 1])
  }

  /** `done[c]` batches of chunk c have been written. */
  ghost predicate Progress<R>(chunks: Chunks<R>, done: seq<nat>) {
    |done| == |chunks| && forall c :: 0 <= c < |chunks| ==> done[c] <= |chunks[c]|
  }

  /** The rows of everything written in chunks 0 .. k - 1. */
  ghost function RowsUpTo<R>(chunks: Chunks<R>, done: seq<nat>, k: nat): multiset<R>
    requires Progress(chunks, done) && k <= |chunks|
  {
    if k == 0 then multiset{} else RowsUpTo(chunks, done, k - 1) + RowsOf(chunks[k - 1], done[k - 1])
  }

  ghost function Complete<R>(chunks: Chunks<R>): (done: seq<nat>)
    ensures Progress(chunks, done)
  {
    seq(|chunks|, c requires 0 <= c < |chunks| => |chunks[c]|)
  }

  /** Exactly the written batches have files, each under its own name. */
  ghost predicate FilesMatch<R(!new)>(chunks: Chunks<R>, done: seq<nat>, files: map<string, Batch<R>>)
    requires Progress(chunks, done)
  {
    && (forall c: nat, b: nat :: c < |chunks| && b < done[c] ==>
          ChunkFile(c, b) in files && files[ChunkFile(c, b)] == chunks[c][b])
    && (forall name :: name in files ==> Accounted(done, name))
  }

  ghost predicate Accounted(done: seq<nat>, name: string) {
    exists c: nat, b: nat :: c < |done| && b < done[c] && name == ChunkFile(c, b)
  }

  lemma {:induction false} FilesAreDetermined<R(!new)>(chunks: Chunks<R>, done: seq<nat>,
        a: map<string, Batch<R>>, b: map<string, Batch<R>>)
    requires Progress(chunks, done) && FilesMatch(chunks, done, a) && FilesMatch(chunks, done, b)
    ensures a == b
  {
    FilesAgree(chunks, done, a, b);
    FilesAgree(chunks, done, b, a);
  }

  lemma {:induction false} FilesAgree<R(!new)>(chunks: Chunks<R>, done: seq<nat>, a: map<string, Batch<R>>,
        b: map<string, Batch<R>>)
    requires Progress(chunks, done) && FilesMatch(chunks, done, a) && FilesMatch(chunks, done, b)
    ensures forall name :: name in a ==> name in b && a[name] == b[name]
  {
    forall name | name in a
      ensures name in b && a[name] == b[name]
    {
      assert Accounted(done, name);
      var c: nat, n: nat :| c < |done| && n < done[c] && name == ChunkFile(c, n);
    }
  }

  /** Writing the next batch of chunk c. */
  lemma {:induction false} FilesGrow<R(!new)>(chunks: Chunks<R>, done: seq<nat>, files: map<string, Batch<R>>, c: nat)
    requires Progress(chunks, done) && FilesMatch(chunks, done, files)
    requires c < |chunks| && done[c] < |chunks[c]|
    ensures Progress(chunks, done[c := done[c] + 1])
    ensures FilesMatch(chunks, done[c := done[c] + 1], files[ChunkFile(c, done[c]) := chunks[c][done[c]]])
  {
    var done' := done[c := done[c] + 1];
    var files' := files[ChunkFile(c, done[c]) := chunks[c][done[c]]];
    forall i: nat, b: nat | i < |chunks| && b < done'[i]
      ensures ChunkFile(i, b) in files' && files'[ChunkFile(i, b)] == chunks[i][b]
    {
      if i != c || b != done[c] {
        if ChunkFile(i, b) == ChunkFile(c, done[c]) {
          ChunkFileIsInjective(i, b, c, done[c]);
        }
      }
    }
    forall name | name in files'
      ensures Accounted(done', name)
    {
      if name == ChunkFile(c, done[c]) {
        assert done[c] < done'[c];
      } else {
        assert Accounted(done, name);
        var i: nat, b: nat :| i < |done| && b < done[i] && name == ChunkFile(i, b);
        assert b < done'[i];
      }
    }
  }

  /** `done'` is `done` with one more batch of chunk c. */
  ghost predicate OneMore<R>(chunks: Chunks<R>, done: seq<nat>, done': seq<nat>, c: nat) {
    && Progress(chunks, done) && Progress(chunks, done')
    && c < |chunks| && done'[c] == done[c] + 1
    && forall i :: 0 <= i < |chunks| && i != c ==> done'[i] == done[i]
  }

  lemma {:induction false} RowsUnchanged<R>(chunks: Chunks<R>, done: seq<nat>, done': seq<nat>, c: nat, k: nat)
    requires OneMore(chunks, done, done', c) && k <= c
    ensures RowsUpTo(chunks, done', k) == RowsUpTo(chunks, done, k)
  {
    if k > 0 {
      RowsUnchanged(chunks, done, done', c, k - 1);
    }
  }

  lemma {:induction false} RowsGrow<R>(chunks: Chunks<R>, done: seq<nat>, done': seq<nat>, c: nat, k: nat)
    requires OneMore(chunks, done, done', c) && c < k <= |chunks|
    ensures RowsUpTo(chunks, done', k) == RowsUpTo(chunks, done, k) + multiset(chunks[c][done[c]])
  {
    if k - 1 == c {
      RowsUnchanged(chunks, done, done', c, c);
      assert RowsOf(chunks[c], done'[c]) == RowsOf(chunks[c], done[c]) + multiset(chunks[c][done[c]]);
    } else {
      RowsGrow(chunks, done, done', c, k - 1);
    }
  }

  /** The pieces one after the other. */
  function Flat<T>(pieces: seq<seq<T>>): seq<T> {
    if pieces == [] then [] else Flat(pieces[..|pieces| - 1]) + pieces[|pieces| - 1]
  }

  lemma {:induction false} FlatAppends<T>(a: seq<seq<T>>, b: seq<seq<T>>)
    ensures Flat(a + b) == Flat(a) + Flat(b)
  {
    if b == [] {
      assert a + b == a;
    } else {
      assert (a + b)[..|a + b| - 1] == a + b[..|b| - 1];
      FlatAppends(a, b[..|b| - 1]);
    }
  }

  lemma {:induction false} RowsOfIsFlat<R>(batches: seq<Batch<R>>, n: nat)
    requires n <= |batches|
    ensures RowsOf(batches, n) == multiset(Flat(batches[..n]))
  {
    if n > 0 {
      RowsOfIsFlat(batches, n - 1);
      assert batches[..n][..n - 1] == batches[..n - 1];
    }
  }

  /** What complete chunks amount to is every row of every batch, as often as it occurs. */
  lemma {:induction false} CompleteIsEveryRow<R>(chunks: Chunks<R>, k: nat)
    requires k <= |chunks|
    ensures RowsUpTo(chunks, Complete(chunks), k) == multiset(Flat(Flat(chunks[..k])))
  {
    if k > 0 {
      CompleteIsEveryRow(chunks, k - 1);
      RowsOfIsFlat(chunks[k - 1], |chunks[k - 1]|);
      assert chunks[k - 1][..|chunks[k - 1]|] == chunks[k - 1];
      assert chunks[..k][..k - 1] == chunks[..k - 1];
      FlatAppends(Flat(chunks[..k - 1]), chunks[k - 1]);
    }
  }

  lemma {:induction false} CompleteRows<R>(chunks: Chunks<R>)
    ensures RowsUpTo(chunks, Complete(chunks), |chunks|) == multiset(Flat(Flat(chunks)))
  {
    CompleteIsEveryRow(chunks, |chunks|);
    assert chunks[..|chunks|] == chunks;
  }

  // ---------------------------------------------------------------------------
  // The sequential branches
  // ---------------------------------------------------------------------------

  /** `_fan_out_reduction` with one worker: INSERT every batch of every chunk. */
  method ReduceSequentially<R>(chunks: Chunks<R>) returns (raw: multiset<R>)
    ensures raw == RowsUpTo(chunks, Complete(chunks), |chunks|) == multiset(Flat(Flat(chunks)))
  {
    raw := multiset{};
    ghost var all := Complete(chunks);
    for c := 0 to |chunks|
      invariant raw == RowsUpTo(chunks, all, c)
    {
      for b := 0 to |chunks[c]|
        invariant raw == RowsUpTo(chunks, all, c) + RowsOf(chunks[c], b)
      {
        raw := raw + multiset(chunks[c][b]);
      }
    }
    CompleteRows(chunks);
  }

  /** `_fan_out_append` with one worker: one file per batch. */
  method AppendSequentially<R(!new)>(chunks: Chunks<R>) returns (files: map<string, Batch<R>>)
    ensures FilesMatch(chunks, Complete(chunks), files)
  {
    files := map[];
    ghost var done: seq<nat> := seq(|chunks|, _ => 0);
    for c := 0 to |chunks|
      invariant Progress(chunks, done) && FilesMatch(chunks, done, files)
      invariant forall i :: 0 <= i < |chunks| ==> done[i] == if i < c then |chunks[i]| else 0
    {
      for b := 0 to |chunks[c]|
        invariant Progress(chunks, done) && FilesMatch(chunks, done, files)
        invariant forall i :: 0 <= i < |chunks| ==> done[i] == if i < c then |chunks[i]| else if i == c then b else 0
      {
        FilesGrow(chunks, done, files, c);
        files := files[ChunkFile(c, b) := chunks[c][b]];
        done := done[c := b + 1];
      }
    }
    assert done == Complete(chunks);
  }

  // ---------------------------------------------------------------------------
  // The parallel branches
  // ---------------------------------------------------------------------------

  /** Both sinks at once: the shared table, and the files of the chunk directory. */
  datatype Pool<R> = Pool(done: seq<nat>, raw: multiset<R>, files: map<string, Batch<R>>)

  /** One worker writes the next batch of its chunk. */
  function WriteNext<R>(chunks: Chunks<R>, p: Pool<R>, c: nat): Pool<R>
    requires c < |chunks| && c < |p.done| && p.done[c] < |chunks[c]|
  {
    var b := p.done[c];
    Pool(p.done[c := b + 1], p.raw + multiset(chunks[c][b]), p.files[ChunkFile(c, b) := chunks[c][b]])
  }

  /** A schedule names, step by step, the chunk whose worker writes its next batch. */
  ghost predicate Runs<R(!new)>(chunks: Chunks<R>, p: Pool<R>, schedule: seq<nat>, last: Pool<R>)
    decreases |schedule|
  {
    if schedule == [] then p == last
    else
      && schedule[0] < |chunks| && schedule[0] < |p.done|
      && p.done[schedule[0]] < |chunks[schedule[0]]|
      && Runs(chunks, WriteNext(chunks, p, schedule[0]), schedule[1..], last)
  }

  function EmptyPool<R>(chunks: Chunks<R>): Pool<R> {
    Pool(seq(|chunks|, _ => 0), multiset{}, map[])
  }

  ghost predicate PoolOk<R(!new)>(chunks: Chunks<R>, p: Pool<R>) {
    && Progress(chunks, p.done)
    && p.raw == RowsUpTo(chunks, p.done, |chunks|)
    && FilesMatch(chunks, p.done, p.files)
  }

  lemma {:induction false} NothingWritten<R>(chunks: Chunks<R>, k: nat)
    requires k <= |chunks|
    ensures RowsUpTo(chunks, seq(|chunks|, _ => 0), k) == multiset{}
  {
    if k > 0 {
      NothingWritten(chunks, k - 1);
    }
  }

  lemma {:induction false} WriteKeepsFiles<R(!new)>(chunks: Chunks<R>, p: Pool<R>, c: nat, p': Pool<R>)
    requires PoolOk(chunks, p) && c < |chunks| && p.done[c] < |chunks[c]| && p' == WriteNext(chunks, p, c)
    ensures Progress(chunks, p'.done) && FilesMatch(chunks, p'.done, p'.files)
  {
    FilesGrow(chunks, p.done, p.files, c);
  }

  lemma {:induction false} WriteKeepsRows<R(!new)>(chunks: Chunks<R>, p: Pool<R>, c: nat, p': Pool<R>)
    requires PoolOk(chunks, p) && c < |chunks| && p.done[c] < |chunks[c]| && p' == WriteNext(chunks, p, c)
    ensures Progress(chunks, p'.done) && p'.raw == RowsUpTo(chunks, p'.done, |chunks|)
  {
    RawGrows(chunks, p.done, c);
  }

  lemma {:induction false} RawGrows<R>(chunks: Chunks<R>, done: seq<nat>, c: nat)
    requires Progress(chunks, done) && c < |chunks| && done[c] < |chunks[c]|
    ensures var done' := done[c := done[c] + 1];
            Progress(chunks, done') &&
            RowsUpTo(chunks, done', |chunks|) == RowsUpTo(chunks, done, |chunks|) + multiset(chunks[c][done[c]])
  {
    RowsGrow(chunks, done, done[c := done[c] + 1], c, |chunks|);
  }

  /** Every worker has written all batches of its chunk. */
  ghost predicate AllWritten<R(!new)>(chunks: Chunks<R>, p: Pool<R>) {
    |p.done| == |chunks| && forall c :: 0 <= c < |chunks| ==> p.done[c] == |chunks[c]|
  }

  /** At every point of every interleaving the table and the directory hold exactly the batches written so far. */
  lemma {:induction false} PoolStaysOk<R(!new)>(chunks: Chunks<R>, p: Pool<R>, schedule: seq<nat>, last: Pool<R>)
    ensures PoolOk(chunks, p) && Runs(chunks, p, schedule, last) ==> PoolOk(chunks, last)
    decreases |schedule|
  {
    if PoolOk(chunks, p) && Runs(chunks, p, schedule, last) && schedule != [] {
      var p' := WriteNext(chunks, p, schedule[0]);
      WriteKeepsFiles(chunks, p, schedule[0], p');
      WriteKeepsRows(chunks, p, schedule[0], p');
      PoolStaysOk(chunks, p', schedule[1..], last);
    }
  }

  lemma {:induction false} EmptyIsOk<R(!new)>(chunks: Chunks<R>)
    ensures PoolOk(chunks, EmptyPool(chunks))
  {
    NothingWritten(chunks, |chunks|);
  }

  lemma {:induction false} WrittenIsComplete<R(!new)>(chunks: Chunks<R>, last: Pool<R>, files: map<string, Batch<R>>)
    requires PoolOk(chunks, last) && AllWritten(chunks, last) && FilesMatch(chunks, Complete(chunks), files)
    ensures last.raw == RowsUpTo(chunks, Complete(chunks), |chunks|) && last.files == files
  {
    assert last.done == Complete(chunks);
    FilesAreDetermined(chunks, Complete(chunks), last.files, files);
  }

  /**
    Fan-out equals sequential: every complete interleaving leaves in the table the rows the
    sequential branch leaves, and the same files with the same contents.
  */
  lemma {:induction false} FanOutEqualsSequential<R(!new)>(chunks: Chunks<R>, schedule: seq<nat>,
        last: Pool<R>, files: map<string, Batch<R>>)
    requires Runs(chunks, EmptyPool(chunks), schedule, last) && AllWritten(chunks, last)
    requires FilesMatch(chunks, Complete(chunks), files)
    ensures last.raw == RowsUpTo(chunks, Complete(chunks), |chunks|) == multiset(Flat(Flat(chunks)))
    ensures last.files == files
  {
    CompleteRows(chunks);
    EmptyIsOk(chunks);
    PoolStaysOk(chunks, EmptyPool(chunks), schedule, last);
    WrittenIsComplete(chunks, last, files);
  }
}
