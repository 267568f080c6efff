/**
  The template method `run` of src/mes_dashboard/core/base_chunked_duckdb_job.py as a
  state machine over the main thread and its chunk workers.  Every hook may raise, every
  chunk may fail at any point, and the clean-up itself may fail to delete.

  A thread pool's `with` block waits for every submitted chunk before it lets an exception
  through; the sequential branch stops at the first chunk that fails.
*/
module JobLifecycle {
  datatype Chunk = Waiting | Running | Done | Failed

  datatype Phase =
    | Begun
    | PreQueried
    | Reported5
    | InSlot
    | Fetching
    | LeavingSlot
    | OutOfSlot
    | Reported15
    | Aggregated
    | Reported90
    | Reported100
    | Unwinding
    | CleanedDb
    | Ended

  /** The heavy-query slot: whether it was granted, and how often it was taken and given back. */
  datatype Slot = Slot(acquired: bool, grants: nat, releases: nat)

  /**
    `pathKnown`: job_duckdb_path is set.  `dbFile`, `dir`: the temp database and the chunk
    directory exist on disk.  `deleteFailed`: some deletion of the clean-up failed.
  */
  datatype Temp = Temp(pathKnown: bool, dbFile: bool, dir: bool, deleteFailed: bool)

  /** `raising`: an exception is on its way out.  `aggregating`: post_aggregate was entered. */
  datatype Job = Job(
    reduction: bool,
    parallel: bool,
    phase: Phase,
    chunks: seq<Chunk>,
    raising: bool,
    aggregating: bool,
    progress: seq<int>,
    slot: Slot,
    temp: Temp)

  /** `ok` is false when the hook called in that step raises. */
  datatype Action =
    | PreQuery(ok: bool)
    | Report(ok: bool)
    | EnterSlot(granted: bool)
    | Prepare(ok: bool)
    | StartChunk(c: nat)
    | WriteBatch(c: nat)
    | EndChunk(c: nat, ok: bool)
    | Join
    | LeaveSlot
    | Aggregate(ok: bool)
    | Finally(deleted: bool)

  const BRACKETS: seq<int> := [5, 15, 90, 100]

  function Start(reduction: bool, parallel: bool, chunkCount: nat): Job {
    Job(reduction, parallel, Begun, seq(chunkCount, _ => Waiting), false, false, [],
        Slot(false, 0, 0), Temp(false, false, false, false))
  }

  predicate AllEnded(j: Job) {
    forall c :: 0 <= c < |j.chunks| ==> j.chunks[c] == Done || j.chunks[c] == Failed
  }

  predicate AllDone(j: Job) {
    forall c :: 0 <= c < |j.chunks| ==> j.chunks[c] == Done
  }

  predicate AnyFailed(j: Job) {
    exists c :: 0 <= c < |j.chunks| && j.chunks[c] == Failed
  }

  predicate NoneRunning(j: Job) {
    forall c :: 0 <= c < |j.chunks| ==> j.chunks[c] != Running
  }

  predicate Reports(p: Phase) {
    p == PreQueried || p == OutOfSlot || p == Aggregated || p == Reported90
  }

  /** The bracket reported in a phase, and the phase that follows. */
  function Bracket(p: Phase): int {
    match p
    case PreQueried => 5
    case OutOfSlot => 15
    case Aggregated => 90
    case _ => 100
  }

  function AfterReport(p: Phase): Phase {
    match p
    case PreQueried => Reported5
    case OutOfSlot => Reported15
    case Aggregated => Reported90
    case _ => Reported100
  }

  predicate Enabled(j: Job, a: Action) {
    match a
    case PreQuery(_) => j.phase == Begun
    case Report(_) => Reports(j.phase)
    case EnterSlot(_) => j.phase == Reported5
    case Prepare(_) => j.phase == InSlot
    case StartChunk(c) =>
      && j.phase == Fetching && c < |j.chunks| && j.chunks[c] == Waiting
      && (j.parallel || forall i :: 0 <= i < c ==> j.chunks[i] == Done)
    case WriteBatch(c) => j.phase == Fetching && c < |j.chunks| && j.chunks[c] == Running
    case EndChunk(c, _) => j.phase == Fetching && c < |j.chunks| && j.chunks[c] == Running
    case Join => j.phase == Fetching && (AllEnded(j) || (!j.parallel && NoneRunning(j) && AnyFailed(j)))
    case LeaveSlot => j.phase == LeavingSlot
    case Aggregate(_) => j.phase == Reported15
    case Finally(_) => j.phase == Reported100 || j.phase == Unwinding || j.phase == CleanedDb
  }

  /** The exception leaves the try block at once, or the slot's `with` block first. */
  function Raise(j: Job, to: Phase): Job {
    j.(phase := to, raising := true)
  }

  function Cleaned(t: Temp, deleted: bool): Temp {
    if t.pathKnown then t.(dbFile := t.dbFile && !deleted, deleteFailed := t.deleteFailed || !deleted) else t
  }

  function Next(j: Job, a: Action): Job
    requires Enabled(j, a)
  {
    match a
    case PreQuery(ok) => if ok then j.(phase := PreQueried) else Raise(j, Unwinding)
    case Report(ok) =>
      if ok then j.(phase := AfterReport(j.phase), progress := j.progress + [Bracket(j.phase)])
      else Raise(j, Unwinding)
    case EnterSlot(granted) =>
      j.(phase := InSlot, slot := Slot(granted, j.slot.grants + (if granted then 1 else 0), j.slot.releases))
    case Prepare(ok) =>
      if !ok then Raise(j, LeavingSlot)
      else j.(phase := Fetching, temp := if j.reduction then j.temp.(pathKnown := true) else j.temp.(dir := true))
    case StartChunk(c) => j.(chunks := j.chunks[c := Running])
    case WriteBatch(c) => if j.reduction then j.(temp := j.temp.(dbFile := true)) else j
    case EndChunk(c, ok) => j.(chunks := j.chunks[c := if ok then Done else Failed])
    case Join => if AnyFailed(j) then Raise(j, LeavingSlot) else j.(phase := LeavingSlot)
    case LeaveSlot =>
      j.(phase := if j.raising then Unwinding else OutOfSlot,
         slot := j.slot.(releases := j.slot.releases + (if j.slot.acquired then 1 else 0)))
    case Aggregate(ok) =>
      j.(phase := if ok then Aggregated else Unwinding, raising := !ok, aggregating := true,
         temp := j.temp.(dbFile := j.temp.dbFile || j.temp.pathKnown))
    case Finally(deleted) =>
      if j.phase != CleanedDb then j.(phase := CleanedDb, temp := Cleaned(j.temp, deleted))
      else if j.reduction then j.(phase := Ended)
      else
        j.(phase := Ended,
           temp := j.temp.(dir := j.temp.dir && !deleted, deleteFailed := j.temp.deleteFailed || !deleted))
  }

  predicate Reaches(j: Job, run: seq<Action>, last: Job)
    decreases |run|
  {
    if run == [] then j == last
    else Enabled(j, run[0]) && Reaches(Next(j, run[0]), run[1..], last)
  }

  // ---------------------------------------------------------------------------
  // The invariant
  // ---------------------------------------------------------------------------

  /** How far the straight path has come; the exits keep what was reached. */
  function Rank(p: Phase): int {
    match p
    case Begun => 0 case PreQueried => 1 case Reported5 => 2 case InSlot => 3 case Fetching => 4
    case LeavingSlot => 5 case OutOfSlot => 6 case Reported15 => 7 case Aggregated => 8
    case Reported90 => 9 case Reported100 => 10
    case Unwinding => 11 case CleanedDb => 12 case Ended => 13
  }

  predicate IsExit(p: Phase) {
    p == Unwinding || p == CleanedDb || p == Ended
  }

  /** The number of brackets reported when the straight path stands at p. */
  function BracketsAt(p: Phase): nat {
    if Rank(p) < 2 then 0 else if Rank(p) < 7 then 1 else if Rank(p) < 9 then 2
    else if p == Reported90 then 3 else 4
  }

  predicate RaisingOk(j: Job) {
    && (Rank(j.phase) < 5 || 6 <= Rank(j.phase) < 11 ==> !j.raising)
    && (j.phase == Unwinding ==> j.raising)
  }

  predicate ProgressOk(j: Job) {
    && j.progress <= BRACKETS
    && (!IsExit(j.phase) ==> |j.progress| == BracketsAt(j.phase))
    && (IsExit(j.phase) ==> (|j.progress| == 4 <==> !j.raising))
  }

  predicate SlotOk(j: Job) {
    && j.slot.grants == (if j.slot.acquired then 1 else 0)
    && (Rank(j.phase) < 3 ==> !j.slot.acquired)
    && (Rank(j.phase) < 6 ==> j.slot.releases == 0)
    && (Rank(j.phase) >= 6 ==> j.slot.releases == j.slot.grants)
  }

  /** Workers run only while fetching; past it without an exception, all are done. */
  predicate WorkersOk(j: Job) {
    && (Rank(j.phase) < 4 ==> forall c :: 0 <= c < |j.chunks| ==> j.chunks[c] == Waiting)
    && (Rank(j.phase) > 4 ==> NoneRunning(j))
    && (Rank(j.phase) >= 5 && !j.raising ==> AllDone(j))
    && (j.aggregating ==> AllDone(j) && Rank(j.phase) >= 8)
  }

  predicate FilesOk(j: Job) {
    && (j.temp.pathKnown ==> j.reduction)
    && (j.temp.dbFile ==> j.temp.pathKnown)
    && (j.temp.dir ==> !j.reduction)
    && (j.reduction && j.phase == Fetching ==> j.temp.pathKnown)
  }

  /** What the clean-up steps leave behind, they failed to delete. */
  predicate GoneOk(j: Job) {
    && (j.phase == CleanedDb || j.phase == Ended ==> j.temp.dbFile ==> j.temp.deleteFailed)
    && (j.phase == Ended ==> j.temp.dir ==> j.temp.deleteFailed)
  }

  predicate Inv(j: Job) {
    RaisingOk(j) && ProgressOk(j) && SlotOk(j) && WorkersOk(j) && FilesOk(j) && GoneOk(j)
  }

  lemma {:induction false} StepKeepsRaising(j: Job, a: Action, k: Job)
    requires RaisingOk(j) && Enabled(j, a) && k == Next(j, a)
    ensures RaisingOk(k)
  {
  }

  lemma {:induction false} StepKeepsProgress(j: Job, a: Action, k: Job)
    requires RaisingOk(j) && ProgressOk(j) && Enabled(j, a) && k == Next(j, a)
    ensures ProgressOk(k)
  {
  }

  lemma {:induction false} StepKeepsSlot(j: Job, a: Action, k: Job)
    requires SlotOk(j) && Enabled(j, a) && k == Next(j, a)
    ensures SlotOk(k)
  {
  }

  predicate TouchesChunks(a: Action) {
    a.StartChunk? || a.EndChunk? || a.Join?
  }

  lemma {:induction false} ChunkStepKeepsWorkers(j: Job, a: Action, k: Job)
    requires RaisingOk(j) && WorkersOk(j) && Enabled(j, a) && k == Next(j, a) && TouchesChunks(a)
    ensures WorkersOk(k)
  {
    if a.Join? && !AnyFailed(j) {
      assert forall c :: 0 <= c < |j.chunks| ==> j.chunks[c] != Failed;
    }
  }

  predicate OnThePath(a: Action) {
    a.PreQuery? || a.Report? || a.EnterSlot? || a.Prepare? || a.Aggregate?
  }

  lemma {:induction false} PathStepKeepsWorkers(j: Job, a: Action, k: Job)
    requires RaisingOk(j) && WorkersOk(j) && Enabled(j, a) && k == Next(j, a) && OnThePath(a)
    ensures WorkersOk(k)
  {
    assert k.chunks == j.chunks;
  }

  lemma {:induction false} OtherStepKeepsWorkers(j: Job, a: Action, k: Job)
    requires RaisingOk(j) && WorkersOk(j) && Enabled(j, a) && k == Next(j, a) && !TouchesChunks(a)
    ensures WorkersOk(k)
  {
    if OnThePath(a) {
      PathStepKeepsWorkers(j, a, k);
    } else {
      assert k.chunks == j.chunks;
    }
  }

  lemma {:induction false} StepKeepsFiles(j: Job, a: Action, k: Job)
    requires FilesOk(j) && Enabled(j, a) && k == Next(j, a)
    ensures FilesOk(k)
  {
  }

  lemma {:induction false} StepKeepsGone(j: Job, a: Action, k: Job)
    requires FilesOk(j) && GoneOk(j) && Enabled(j, a) && k == Next(j, a)
    ensures GoneOk(k)
  {
  }

  lemma {:induction false} RunKeepsInv(j: Job, run: seq<Action>, last: Job)
    requires Inv(j) && Reaches(j, run, last)
    ensures Inv(last)
    decreases |run|
  {
    if run != [] {
      var next := Next(j, run[0]);
      StepKeepsRaising(j, run[0], next);
      StepKeepsProgress(j, run[0], next);
      StepKeepsSlot(j, run[0], next);
      if TouchesChunks(run[0]) {
        ChunkStepKeepsWorkers(j, run[0], next);
      } else {
        OtherStepKeepsWorkers(j, run[0], next);
      }
      StepKeepsFiles(j, run[0], next);
      StepKeepsGone(j, run[0], next);
      RunKeepsInv(next, run[1..], last);
    }
  }

  /**
    In every run, whatever fails: aggregation has started only when every chunk is done;
    the reports are a prefix of 5, 15, 90, 100, all four exactly when the job ends without
    an exception; a granted slot is released exactly once and not before the workers are
    through; a temp file is gone at the end unless its deletion failed.
  */
  lemma {:induction false} JobSafety(reduction: bool, parallel: bool, chunkCount: nat, run: seq<Action>, j: Job)
    requires Reaches(Start(reduction, parallel, chunkCount), run, j)
    ensures j.aggregating ==> AllDone(j)
    ensures j.progress <= BRACKETS
    ensures j.phase == Ended ==> (j.progress == BRACKETS <==> !j.raising)
    ensures j.slot.releases <= j.slot.grants <= 1 && (j.phase == Ended ==> j.slot.releases == j.slot.grants)
    ensures j.slot.releases > 0 ==> NoneRunning(j)
    ensures j.phase == Ended && !j.temp.deleteFailed ==> !j.temp.dbFile && !j.temp.dir
  {
    RunKeepsInv(Start(reduction, parallel, chunkCount), run, j);
  }

  // ---------------------------------------------------------------------------
  // What the run did and what the job shows
  // ---------------------------------------------------------------------------

  /** The action raises. */
  predicate Fails(a: Action) {
    (a.PreQuery? || a.Report? || a.Prepare? || a.EndChunk? || a.Aggregate?) && !a.ok
  }

  predicate Raised(run: seq<Action>) {
    exists a :: a in run && Fails(a)
  }

  predicate Wrote(run: seq<Action>) {
    exists a :: a in run && a.WriteBatch?
  }

  predicate EnteredSlot(run: seq<Action>) {
    EnterSlot(true) in run || EnterSlot(false) in run
  }

  predicate EnteredAggregation(run: seq<Action>) {
    Aggregate(true) in run || Aggregate(false) in run
  }

  /** Every chunk stands as its own actions left it. */
  ghost predicate ChunksRecorded(run: seq<Action>, j: Job) {
    && (forall c: nat :: c < |j.chunks| ==> ChunkRecorded(run, j.chunks[c], c))
    && (forall c: nat, ok :: EndChunk(c, ok) in run ==> c < |j.chunks|)
  }

  ghost predicate ChunkRecorded(run: seq<Action>, s: Chunk, c: nat) {
    && (s != Waiting <==> StartChunk(c) in run)
    && (s == Done <==> EndChunk(c, true) in run)
    && (s == Failed <==> EndChunk(c, false) in run)
  }

  /** An exception is on its way out, or waits in a failed chunk, exactly if something raised. */
  ghost predicate RaisingRecorded(run: seq<Action>, j: Job) {
    j.raising || AnyFailed(j) <==> Raised(run)
  }

  ghost predicate ProgressRecorded(run: seq<Action>, j: Job) {
    && |j.progress| == multiset(run)[Report(true)]
    && (|j.progress| >= 2 ==> AllDone(j))
  }

  /** Which steps of the straight path lie behind the job. */
  ghost predicate PathRecorded(run: seq<Action>, j: Job) {
    && (|j.progress| >= 1 || 1 <= Rank(j.phase) < 11 ==> PreQuery(true) in run)
    && (|j.progress| >= 3 || 8 <= Rank(j.phase) < 11 ==> Aggregate(true) in run)
    && (j.aggregating <==> EnteredAggregation(run))
  }

  ghost predicate SlotCounted(run: seq<Action>, j: Job) {
    && j.slot.grants == multiset(run)[EnterSlot(true)]
    && j.slot.releases == (if j.slot.acquired then multiset(run)[LeaveSlot] else 0)
    && (Rank(j.phase) < 6 ==> LeaveSlot !in run)
  }

  ghost predicate SlotEntered(run: seq<Action>, j: Job) {
    && (Rank(j.phase) < 3 ==> !EnteredSlot(run))
    && (3 <= Rank(j.phase) < 11 ==> EnteredSlot(run))
  }

  ghost predicate PathKnown(run: seq<Action>, j: Job) {
    && (j.temp.pathKnown <==> j.reduction && Prepare(true) in run)
    && (Rank(j.phase) < 4 ==> Prepare(true) !in run)
    && (4 <= Rank(j.phase) < 11 && !j.raising ==> Prepare(true) in run)
  }

  ghost predicate FilesRecorded(run: seq<Action>, j: Job) {
    && (Rank(j.phase) < 12 ==> (j.temp.dbFile <==> j.reduction && (Wrote(run) || EnteredAggregation(run))))
    && (Rank(j.phase) < 13 ==> (j.temp.dir <==> !j.reduction && Prepare(true) in run))
    && (j.temp.deleteFailed ==> Finally(false) in run)
  }

  lemma {:induction false} OneMoreAction(run: seq<Action>, a: Action)
    ensures forall x :: x in run + [a] <==> x in run || x == a
    ensures Raised(run + [a]) <==> Raised(run) || Fails(a)
    ensures Wrote(run + [a]) <==> Wrote(run) || a.WriteBatch?
    ensures multiset(run + [a]) == multiset(run) + multiset{a}
  {
    assert forall x :: x in run + [a] <==> x in run || x == a;
  }

  lemma {:induction false} StepRecordsChunks(run: seq<Action>, j: Job, a: Action, k: Job)
    requires ChunksRecorded(run, j) && Enabled(j, a) && k == Next(j, a)
    ensures ChunksRecorded(run + [a], k)
  {
    OneMoreAction(run, a);
    assert |k.chunks| == |j.chunks|;
    forall c: nat | c < |k.chunks| ensures ChunkRecorded(run + [a], k.chunks[c], c) {
      assert ChunkRecorded(run, j.chunks[c], c);
      ChunkMoves(j, a, k, c);
    }
  }

  /** What a step does to chunk c: only its own start and end move it. */
  lemma {:induction false} ChunkMoves(j: Job, a: Action, k: Job, c: nat)
    requires Enabled(j, a) && k == Next(j, a) && c < |j.chunks| == |k.chunks|
    ensures a == StartChunk(c) ==> j.chunks[c] == Waiting && k.chunks[c] == Running
    ensures forall ok :: a == EndChunk(c, ok) ==> j.chunks[c] == Running && k.chunks[c] == if ok then Done else Failed
    ensures a != StartChunk(c) && a != EndChunk(c, true) && a != EndChunk(c, false) ==> k.chunks[c] == j.chunks[c]
  {
  }

  lemma {:induction false} StepRecordsRaising(run: seq<Action>, j: Job, a: Action, k: Job)
    requires RaisingOk(j) && WorkersOk(j) && RaisingRecorded(run, j) && Enabled(j, a) && k == Next(j, a)
    ensures RaisingRecorded(run + [a], k)
  {
    OneMoreAction(run, a);
    if a.EndChunk? {
      EndMayFail(j, a.c, a.ok, k);
    } else if a.StartChunk? {
      StartFailsNothing(j, a.c, k);
    } else {
      assert k.chunks == j.chunks;
      RaisingMoves(j, a, k);
    }
  }

  lemma {:induction false} EndMayFail(j: Job, c: nat, ok: bool, k: Job)
    requires Enabled(j, EndChunk(c, ok)) && k == Next(j, EndChunk(c, ok))
    ensures k.raising == j.raising && (AnyFailed(k) <==> AnyFailed(j) || !ok)
  {
    assert k.chunks[c] == if ok then Done else Failed;
    if i :| 0 <= i < |j.chunks| && j.chunks[i] == Failed {
      assert k.chunks[i] == Failed;
    }
  }

  lemma {:induction false} StartFailsNothing(j: Job, c: nat, k: Job)
    requires Enabled(j, StartChunk(c)) && k == Next(j, StartChunk(c))
    ensures k.raising == j.raising && (AnyFailed(k) <==> AnyFailed(j))
  {
    if i :| 0 <= i < |j.chunks| && j.chunks[i] == Failed {
      assert k.chunks[i] == Failed;
    }
  }

  lemma {:induction false} RaisingMoves(j: Job, a: Action, k: Job)
    requires RaisingOk(j) && Enabled(j, a) && k == Next(j, a) && !a.EndChunk? && !a.StartChunk?
    ensures k.raising <==> j.raising || Fails(a) || (a.Join? && AnyFailed(j))
  {
  }

  lemma {:induction false} StepRecordsProgress(run: seq<Action>, j: Job, a: Action, k: Job)
    requires RaisingOk(j) && ProgressOk(j) && WorkersOk(j) && ProgressRecorded(run, j)
    requires Enabled(j, a) && k == Next(j, a)
    ensures ProgressRecorded(run + [a], k)
  {
    OneMoreAction(run, a);
    if TouchesChunks(a) {
      assert |j.progress| == 1;
    } else {
      assert k.chunks == j.chunks;
    }
  }

  lemma {:induction false} StepRecordsPath(run: seq<Action>, j: Job, a: Action, k: Job)
    requires ProgressOk(j) && PathRecorded(run, j) && Enabled(j, a) && k == Next(j, a)
    ensures PathRecorded(run + [a], k)
  {
    PhaseMoves(j, a, k);
    ReportsMove(j, a, k);
    PathRecordedBy(run, j, a, k);
  }

  lemma {:induction false} ReportsMove(j: Job, a: Action, k: Job)
    requires ProgressOk(j) && Enabled(j, a) && k == Next(j, a)
    ensures k.progress == j.progress || (1 <= Rank(j.phase) < 11 && (|k.progress| >= 3 ==> 8 <= Rank(j.phase)))
    ensures k.aggregating <==> j.aggregating || a == Aggregate(true) || a == Aggregate(false)
  {
  }

  lemma {:induction false} PathRecordedBy(run: seq<Action>, j: Job, a: Action, k: Job)
    requires PathRecorded(run, j) && Rank(j.phase) <= Rank(k.phase)
    requires Rank(j.phase) < 1 <= Rank(k.phase) < 11 ==> a == PreQuery(true)
    requires Rank(j.phase) < 8 <= Rank(k.phase) < 11 ==> a == Aggregate(true)
    requires k.progress == j.progress || (1 <= Rank(j.phase) < 11 && (|k.progress| >= 3 ==> 8 <= Rank(j.phase)))
    requires k.aggregating <==> j.aggregating || a == Aggregate(true) || a == Aggregate(false)
    ensures PathRecorded(run + [a], k)
  {
    OneMoreAction(run, a);
  }

  lemma {:induction false} StepCountsSlot(run: seq<Action>, j: Job, a: Action, k: Job)
    requires SlotOk(j) && SlotCounted(run, j) && Enabled(j, a) && k == Next(j, a)
    ensures SlotCounted(run + [a], k)
  {
    OneMoreAction(run, a);
    if a.LeaveSlot? {
      assert multiset(run + [a])[LeaveSlot] == 1;
    } else {
      StepMovesSlot(j, a, k);
    }
  }

  lemma {:induction false} StepMovesSlot(j: Job, a: Action, k: Job)
    requires Enabled(j, a) && k == Next(j, a) && !a.LeaveSlot?
    ensures k.slot == if a.EnterSlot? then Slot(a.granted, j.slot.grants + (if a.granted then 1 else 0), j.slot.releases)
                      else j.slot
    ensures Rank(k.phase) < 6 ==> Rank(j.phase) < 6
  {
  }

  /** The steps that bring a job onto and along the straight path. */
  lemma {:induction false} PhaseMoves(j: Job, a: Action, k: Job)
    requires Enabled(j, a) && k == Next(j, a)
    ensures Rank(j.phase) <= Rank(k.phase)
    ensures Rank(j.phase) < 1 <= Rank(k.phase) < 11 ==> a == PreQuery(true)
    ensures Rank(j.phase) < 3 <= Rank(k.phase) < 11 ==> a == EnterSlot(true) || a == EnterSlot(false)
    ensures Rank(j.phase) < 8 <= Rank(k.phase) < 11 ==> a == Aggregate(true)
    ensures a.EnterSlot? ==> Rank(k.phase) == 3
    ensures a.Prepare? ==> Rank(k.phase) >= 4
    ensures Rank(j.phase) < 4 <= Rank(k.phase) < 11 && a != Prepare(true) ==> k.raising
  {
    if OnThePath(a) {
      PathStepAdvances(j, a, k);
    } else {
      OtherStepMoves(j, a, k);
    }
  }

  lemma {:induction false} OtherStepMoves(j: Job, a: Action, k: Job)
    requires Enabled(j, a) && k == Next(j, a) && !OnThePath(a)
    ensures Rank(j.phase) <= Rank(k.phase)
    ensures Rank(j.phase) >= 4
  {
  }

  lemma {:induction false} StepEntersSlot(run: seq<Action>, j: Job, a: Action, k: Job)
    requires SlotEntered(run, j) && Enabled(j, a) && k == Next(j, a)
    ensures SlotEntered(run + [a], k)
  {
    PhaseMoves(j, a, k);
    SlotEnteredBy(run, j, a, k);
  }

  lemma {:induction false} SlotEnteredBy(run: seq<Action>, j: Job, a: Action, k: Job)
    requires SlotEntered(run, j) && Rank(j.phase) <= Rank(k.phase)
    requires Rank(j.phase) < 3 <= Rank(k.phase) < 11 ==> a == EnterSlot(true) || a == EnterSlot(false)
    requires a.EnterSlot? ==> Rank(k.phase) == 3
    ensures SlotEntered(run + [a], k)
  {
    OneMoreAction(run, a);
  }

  lemma {:induction false} StepKnowsPath(run: seq<Action>, j: Job, a: Action, k: Job)
    requires RaisingOk(j) && PathKnown(run, j) && Enabled(j, a) && k == Next(j, a)
    ensures PathKnown(run + [a], k)
  {
    PhaseMoves(j, a, k);
    FilesMove(j, a, k);
    PathKnownBy(run, j, a, k);
  }

  /** What a step does to the temp files. */
  lemma {:induction false} FilesMove(j: Job, a: Action, k: Job)
    requires Enabled(j, a) && k == Next(j, a)
    ensures k.reduction == j.reduction
    ensures k.temp.pathKnown <==> j.temp.pathKnown || (j.reduction && a == Prepare(true))
    ensures Rank(k.phase) < 12 ==> (k.temp.dbFile <==> j.temp.dbFile || (j.reduction && a.WriteBatch?)
                                                       || (j.temp.pathKnown && a.Aggregate?))
    ensures Rank(k.phase) < 13 ==> (k.temp.dir <==> j.temp.dir || (!j.reduction && a == Prepare(true)))
    ensures k.temp.deleteFailed ==> j.temp.deleteFailed || a == Finally(false)
    ensures a.Aggregate? ==> Rank(j.phase) == 7
  {
    if a.Prepare? || a.WriteBatch? || a.Aggregate? || a.Finally? {
      FileStepMoves(j, a, k);
    } else {
      assert k.temp == j.temp && k.reduction == j.reduction;
    }
  }

  lemma {:induction false} FileStepMoves(j: Job, a: Action, k: Job)
    requires Enabled(j, a) && k == Next(j, a) && (a.Prepare? || a.WriteBatch? || a.Aggregate? || a.Finally?)
    ensures k.reduction == j.reduction
    ensures k.temp.pathKnown <==> j.temp.pathKnown || (j.reduction && a == Prepare(true))
    ensures Rank(k.phase) < 12 ==> (k.temp.dbFile <==> j.temp.dbFile || (j.reduction && a.WriteBatch?)
                                                       || (j.temp.pathKnown && a.Aggregate?))
    ensures Rank(k.phase) < 13 ==> (k.temp.dir <==> j.temp.dir || (!j.reduction && a == Prepare(true)))
    ensures k.temp.deleteFailed ==> j.temp.deleteFailed || a == Finally(false)
    ensures a.Aggregate? ==> Rank(j.phase) == 7
  {
  }

  lemma {:induction false} PathKnownBy(run: seq<Action>, j: Job, a: Action, k: Job)
    requires RaisingOk(j) && PathKnown(run, j) && Rank(j.phase) <= Rank(k.phase) && k.reduction == j.reduction
    requires k.temp.pathKnown <==> j.temp.pathKnown || (j.reduction && a == Prepare(true))
    requires a.Prepare? ==> Rank(k.phase) >= 4
    requires Rank(j.phase) < 4 <= Rank(k.phase) < 11 && a != Prepare(true) ==> k.raising
    requires j.raising && Rank(k.phase) < 11 ==> k.raising
    ensures PathKnown(run + [a], k)
  {
    OneMoreAction(run, a);
  }

  lemma {:induction false} StepRecordsFiles(run: seq<Action>, j: Job, a: Action, k: Job)
    requires RaisingOk(j) && PathKnown(run, j) && FilesRecorded(run, j) && Enabled(j, a) && k == Next(j, a)
    ensures FilesRecorded(run + [a], k)
  {
    PhaseMoves(j, a, k);
    FilesMove(j, a, k);
    FilesRecordedBy(run, j, a, k);
  }

  lemma {:induction false} FilesRecordedBy(run: seq<Action>, j: Job, a: Action, k: Job)
    requires FilesRecorded(run, j) && Rank(j.phase) <= Rank(k.phase) && k.reduction == j.reduction
    requires Rank(k.phase) < 12 ==> (k.temp.dbFile <==> j.temp.dbFile || (j.reduction && a.WriteBatch?)
                                                        || (j.temp.pathKnown && a.Aggregate?))
    requires Rank(k.phase) < 13 ==> (k.temp.dir <==> j.temp.dir || (!j.reduction && a == Prepare(true)))
    requires k.temp.deleteFailed ==> j.temp.deleteFailed || a == Finally(false)
    requires a.Aggregate? ==> (j.temp.pathKnown <==> j.reduction)
    ensures FilesRecorded(run + [a], k)
  {
    OneMoreAction(run, a);
  }

  ghost predicate Recorded(run: seq<Action>, j: Job) {
    && ChunksRecorded(run, j) && RaisingRecorded(run, j) && ProgressRecorded(run, j) && PathRecorded(run, j)
    && SlotCounted(run, j) && SlotEntered(run, j) && PathKnown(run, j) && FilesRecorded(run, j)
  }

  lemma {:induction false} StepRecords(run: seq<Action>, j: Job, a: Action)
    requires Inv(j) && Recorded(run, j) && Enabled(j, a)
    ensures Inv(Next(j, a)) && Recorded(run + [a], Next(j, a))
  {
    var k := Next(j, a);
    assert Reaches(k, [a][1..], k);
    RunKeepsInv(j, [a], k);
    StepRecordsChunks(run, j, a, k);
    StepRecordsRaising(run, j, a, k);
    StepRecordsProgress(run, j, a, k);
    StepRecordsPath(run, j, a, k);
    StepCountsSlot(run, j, a, k);
    StepEntersSlot(run, j, a, k);
    StepKnowsPath(run, j, a, k);
    StepRecordsFiles(run, j, a, k);
  }

  lemma {:induction false} RunRecords(done: seq<Action>, j: Job, run: seq<Action>, last: Job, all: seq<Action>)
    requires Inv(j) && Recorded(done, j) && Reaches(j, run, last) && all == done + run
    ensures Inv(last) && Recorded(all, last)
    decreases |run|
  {
    if run == [] {
      assert all == done;
    } else {
      StepRecords(done, j, run[0]);
      assert all == done + [run[0]] + run[1..];
      RunRecords(done + [run[0]], Next(j, run[0]), run[1..], last, all);
    }
  }

  lemma {:induction false} RunIsRecorded(reduction: bool, parallel: bool, chunkCount: nat, run: seq<Action>, j: Job)
    requires Reaches(Start(reduction, parallel, chunkCount), run, j)
    ensures Inv(j) && Recorded(run, j) && |j.chunks| == chunkCount && j.reduction == reduction
  {
    RunRecords([], Start(reduction, parallel, chunkCount), run, j, run);
    RunKeepsParallel(Start(reduction, parallel, chunkCount), run, j);
  }

  /**
    What a run's own actions say of the job.  A chunk that raised keeps the job from
    aggregating and from reporting more than 5; aggregation, and any report after the first,
    comes only when every chunk has ended without raising; the job ends with an exception
    exactly if some hook or chunk raised.
  */
  lemma {:induction false} OutcomeFollowsRun(reduction: bool, parallel: bool, chunkCount: nat, run: seq<Action>, j: Job)
    requires Reaches(Start(reduction, parallel, chunkCount), run, j)
    ensures (exists c :: EndChunk(c, false) in run) ==> !j.aggregating && |j.progress| <= 1
    ensures j.aggregating || |j.progress| >= 2 ==> forall c: nat :: c < chunkCount ==> EndChunk(c, true) in run
    ensures j.phase == Ended ==> (j.raising <==> Raised(run))
    ensures |j.progress| == multiset(run)[Report(true)]
    ensures |j.progress| >= 1 ==> PreQuery(true) in run
    ensures |j.progress| >= 3 ==> Aggregate(true) in run
    ensures j.aggregating <==> EnteredAggregation(run)
  {
    RunIsRecorded(reduction, parallel, chunkCount, run, j);
    DoneByRun(run, j);
    EndedRaising(run, j);
  }

  lemma {:induction false} DoneByRun(run: seq<Action>, j: Job)
    requires ChunksRecorded(run, j)
    ensures AllDone(j) ==> forall c: nat :: c < |j.chunks| ==> EndChunk(c, true) in run
    ensures (exists c: nat :: EndChunk(c, false) in run) ==> !AllDone(j)
  {
    if c: nat :| EndChunk(c, false) in run {
      assert ChunkRecorded(run, j.chunks[c], c);
    }
    forall c: nat | AllDone(j) && c < |j.chunks| ensures EndChunk(c, true) in run {
      assert ChunkRecorded(run, j.chunks[c], c);
    }
  }

  lemma {:induction false} EndedRaising(run: seq<Action>, j: Job)
    requires WorkersOk(j) && RaisingRecorded(run, j)
    ensures j.phase == Ended ==> (j.raising <==> Raised(run))
  {
    if j.phase == Ended && !j.raising {
      assert AllDone(j);
    }
  }

  /**
    The slot and the files by the run's actions: a slot is taken and given back as often as
    granted and left, chunks run only in between; the temp database exists once something
    was written or aggregated, the chunk directory once it was made, until the clean-up;
    and what is left at the end, a failed deletion left.
  */
  lemma {:induction false} ResourcesFollowRun(reduction: bool, parallel: bool, chunkCount: nat, run: seq<Action>, j: Job)
    requires Reaches(Start(reduction, parallel, chunkCount), run, j)
    ensures j.slot.grants == multiset(run)[EnterSlot(true)]
    ensures j.slot.releases == if EnterSlot(true) in run then multiset(run)[LeaveSlot] else 0
    ensures !NoneRunning(j) ==> EnteredSlot(run) && LeaveSlot !in run
    ensures j.phase != CleanedDb && j.phase != Ended ==>
              (j.temp.dbFile <==> reduction && (Wrote(run) || EnteredAggregation(run)))
    ensures j.phase != Ended ==> (j.temp.dir <==> !reduction && Prepare(true) in run)
    ensures j.phase == Ended && Finally(false) !in run ==> !j.temp.dbFile && !j.temp.dir
  {
    RunIsRecorded(reduction, parallel, chunkCount, run, j);
  }

  /** Without a pool the chunks run one after the other, each after all before it have ended without raising. */
  predicate InOrder(j: Job) {
    forall i, c :: 0 <= i < c < |j.chunks| && j.chunks[c] != Waiting ==> j.chunks[i] == Done
  }

  lemma {:induction false} RunKeepsOrder(j: Job, run: seq<Action>, last: Job)
    requires !j.parallel && InOrder(j) && Reaches(j, run, last)
    ensures InOrder(last)
    decreases |run|
  {
    if run != [] {
      StepKeepsOrder(j, run[0], Next(j, run[0]));
      RunKeepsOrder(Next(j, run[0]), run[1..], last);
    }
  }

  lemma {:induction false} StepKeepsOrder(j: Job, a: Action, k: Job)
    requires !j.parallel && InOrder(j) && Enabled(j, a) && k == Next(j, a)
    ensures !k.parallel && InOrder(k)
  {
    if !TouchesChunks(a) {
      assert k.chunks == j.chunks;
    }
  }

  /** The sequential branch: whenever a chunk has started, every chunk before it had ended without raising. */
  lemma {:induction false} SequentialInOrder(reduction: bool, chunkCount: nat, run: seq<Action>, j: Job, i: nat, c: nat)
    requires Reaches(Start(reduction, false, chunkCount), run, j)
    requires i < c && StartChunk(c) in run && c < chunkCount
    ensures EndChunk(i, true) in run
  {
    RunKeepsOrder(Start(reduction, false, chunkCount), run, j);
    RunIsRecorded(reduction, false, chunkCount, run, j);
    assert ChunkRecorded(run, j.chunks[c], c) && ChunkRecorded(run, j.chunks[i], i);
  }

  /** A clean-up step never runs beside a worker that is still writing. */
  lemma {:induction false} CleanUpAfterWorkers(reduction: bool, parallel: bool, chunkCount: nat,
        run: seq<Action>, j: Job, deleted: bool)
    requires Reaches(Start(reduction, parallel, chunkCount), run, j) && Enabled(j, Finally(deleted))
    ensures NoneRunning(j) && forall c :: !Enabled(j, WriteBatch(c)) && !Enabled(j, StartChunk(c))
  {
    RunKeepsInv(Start(reduction, parallel, chunkCount), run, j);
  }

  /** No reachable state but the end is stuck. */
  lemma {:induction false} NeverStuck(reduction: bool, parallel: bool, chunkCount: nat, run: seq<Action>, j: Job)
    requires Reaches(Start(reduction, parallel, chunkCount), run, j) && j.phase != Ended
    ensures exists a :: Enabled(j, a)
  {
    RunKeepsInv(Start(reduction, parallel, chunkCount), run, j);
    match j.phase
    case Begun => assert Enabled(j, PreQuery(true));
    case PreQueried | OutOfSlot | Aggregated | Reported90 => assert Enabled(j, Report(true));
    case Reported5 => assert Enabled(j, EnterSlot(true));
    case InSlot => assert Enabled(j, Prepare(true));
    case Fetching => FetchingNotStuck(j, 0);
    case LeavingSlot => assert Enabled(j, LeaveSlot);
    case Reported15 => assert Enabled(j, Aggregate(true));
    case Reported100 | Unwinding | CleanedDb => assert Enabled(j, Finally(true));
  }

  /** Walks to the first chunk that is not done. */
  lemma {:induction false} FetchingNotStuck(j: Job, c: nat)
    requires j.phase == Fetching && c <= |j.chunks|
    requires forall i :: 0 <= i < c ==> j.chunks[i] == Done
    ensures exists a :: Enabled(j, a)
    decreases |j.chunks| - c
  {
    if c == |j.chunks| {
      assert Enabled(j, Join);
    } else if j.chunks[c] == Done {
      FetchingNotStuck(j, c + 1);
    } else if j.chunks[c] == Waiting {
      assert Enabled(j, StartChunk(c));
    } else if j.chunks[c] == Running {
      assert Enabled(j, EndChunk(c, true));
    } else if NoneRunning(j) {
      if j.parallel && !AllEnded(j) {
        var i :| 0 <= i < |j.chunks| && j.chunks[i] != Done && j.chunks[i] != Failed;
        assert Enabled(j, StartChunk(i));
      } else {
        assert Enabled(j, Join);
      }
    } else {
      var i :| 0 <= i < |j.chunks| && j.chunks[i] == Running;
      assert Enabled(j, EndChunk(i, true));
    }
  }

  // ---------------------------------------------------------------------------
  // Every job ends
  // ---------------------------------------------------------------------------

  /** Steps the chunks still have ahead of them, batch writes aside. */
  function Ahead(chunks: seq<Chunk>): nat {
    if chunks == [] then 0
    else (if chunks[0] == Waiting then 2 else if chunks[0] == Running then 1 else 0) + Ahead(chunks[1..])
  }

  lemma {:induction false} AheadOfOne(chunks: seq<Chunk>, c: nat, to: Chunk)
    requires c < |chunks|
    ensures Ahead(chunks[c := to]) - Ahead([to]) == Ahead(chunks) - Ahead([chunks[c]])
  {
    if c == 0 {
      assert chunks[c := to][1..] == chunks[1..];
    } else {
      AheadOfOne(chunks[1..], c - 1, to);
      assert chunks[c := to][1..] == chunks[1..][c - 1 := to];
    }
  }

  function Reached(j: Job): int {
    Rank(j.phase) - Ahead(j.chunks)
  }

  lemma {:induction false} PathStepAdvances(j: Job, a: Action, k: Job)
    requires Enabled(j, a) && k == Next(j, a) && OnThePath(a)
    ensures k.chunks == j.chunks && Rank(k.phase) > Rank(j.phase)
  {
  }

  lemma {:induction false} ExitStepAdvances(j: Job, a: Action, k: Job)
    requires Enabled(j, a) && k == Next(j, a) && (a.Join? || a.LeaveSlot? || a.Finally?)
    ensures k.chunks == j.chunks && Rank(k.phase) > Rank(j.phase)
  {
  }

  lemma {:induction false} StepAdvances(j: Job, a: Action)
    requires Enabled(j, a)
    ensures Reached(Next(j, a)) >= Reached(j) + if a.WriteBatch? then 0 else 1
  {
    match a
    case StartChunk(c) => AheadOfOne(j.chunks, c, Running);
    case EndChunk(c, ok) => AheadOfOne(j.chunks, c, if ok then Done else Failed);
    case WriteBatch(_) =>
    case Join | LeaveSlot | Finally(_) => ExitStepAdvances(j, a, Next(j, a));
    case _ => PathStepAdvances(j, a, Next(j, a));
  }

  function StepsWithoutWrites(run: seq<Action>): nat {
    if run == [] then 0 else (if run[0].WriteBatch? then 0 else 1) + StepsWithoutWrites(run[1..])
  }

  lemma {:induction false} RunAdvances(j: Job, run: seq<Action>, last: Job)
    requires Reaches(j, run, last)
    ensures StepsWithoutWrites(run) <= Reached(last) - Reached(j)
    decreases |run|
  {
    if run != [] {
      StepAdvances(j, run[0]);
      RunAdvances(Next(j, run[0]), run[1..], last);
    }
  }

  lemma {:induction false} AheadAtStart(n: nat)
    ensures Ahead(seq(n, _ => Waiting)) == 2 * n
  {
    if n > 0 {
      assert seq(n, _ => Waiting)[1..] == seq(n - 1, _ => Waiting);
      AheadAtStart(n - 1);
    }
  }

  /**
    No run has more than 13 + 2 * chunks steps besides batch writes; as no state but the end
    is stuck, every job whose queries yield finitely many batches ends.
  */
  lemma {:induction false} JobEnds(reduction: bool, parallel: bool, chunkCount: nat, run: seq<Action>, j: Job)
    requires Reaches(Start(reduction, parallel, chunkCount), run, j)
    ensures StepsWithoutWrites(run) <= 13 + 2 * chunkCount
  {
    RunAdvances(Start(reduction, parallel, chunkCount), run, j);
    AheadAtStart(chunkCount);
  }

  predicate NoneStarted(j: Job) {
    forall c :: 0 <= c < |j.chunks| ==> j.chunks[c] == Waiting
  }

  /** A parallel job past its fetch has run every chunk to its end, or never came to fetch. */
  predicate PoolDrained(j: Job) {
    j.parallel && Rank(j.phase) > 4 ==> AllEnded(j) || NoneStarted(j)
  }

  lemma {:induction false} StepKeepsDrained(j: Job, a: Action, k: Job)
    requires WorkersOk(j) && PoolDrained(j) && Enabled(j, a) && k == Next(j, a)
    ensures PoolDrained(k)
  {
    if !TouchesChunks(a) {
      assert k.chunks == j.chunks;
    }
  }

  lemma {:induction false} RunKeepsDrained(j: Job, run: seq<Action>, last: Job)
    requires Inv(j) && PoolDrained(j) && Reaches(j, run, last)
    ensures PoolDrained(last)
    decreases |run|
  {
    if run != [] {
      RunKeepsInv(j, [run[0]], Next(j, run[0]));
      StepKeepsDrained(j, run[0], Next(j, run[0]));
      RunKeepsDrained(Next(j, run[0]), run[1..], last);
    }
  }

  /**
    In the parallel branch a failed chunk stops no other: in every run the slot is given back,
    and whatever follows done, only when every chunk has ended, unless none was ever started.
  */
  lemma {:induction false} PoolWaitsForAll(reduction: bool, chunkCount: nat, run: seq<Action>, j: Job)
    requires Reaches(Start(reduction, true, chunkCount), run, j)
    ensures j.slot.releases > 0 || j.aggregating || IsExit(j.phase) ==> AllEnded(j) || NoneStarted(j)
  {
    RunKeepsInv(Start(reduction, true, chunkCount), run, j);
    RunKeepsDrained(Start(reduction, true, chunkCount), run, j);
    RunKeepsParallel(Start(reduction, true, chunkCount), run, j);
  }

  lemma {:induction false} RunKeepsParallel(j: Job, run: seq<Action>, last: Job)
    requires Reaches(j, run, last)
    ensures last.parallel == j.parallel && last.reduction == j.reduction && |last.chunks| == |j.chunks|
    decreases |run|
  {
    if run != [] {
      RunKeepsParallel(Next(j, run[0]), run[1..], last);
    }
  }
}
