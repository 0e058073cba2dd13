/**
 The staged pipeline over one run directory, as steps: what a stage keeps on disk, where a call can be
 cut short, and what each part of a call makes of the stages.
 */
module PipelineSteps {
  import opened Wrappers
  import opened ResultChain

  datatype StageState = Pending | Running | Succeeded | Failed | Interrupted

  datatype StageStatus = StageStatus(
    state: StageState, attempt: nat, inputDigest: Option<Digest>, resultSha256: Option<Digest>)
  {
    /** `fields_match_state`, on the fields modelled. */
    predicate FieldsMatchState() {
      match state
      case Pending => attempt == 0 && inputDigest == None && resultSha256 == None
      case Succeeded => attempt >= 1 && inputDigest.Some? && resultSha256.Some?
      case _ => attempt >= 1 && inputDigest.Some? && resultSha256 == None
    }
  }

  /** The files of one stage: status.json (pending when absent), input.json and result.json. */
  datatype StageFiles = StageFiles(status: StageStatus, input: Option<InputRecord>, result: Option<StageResult>)

  const NO_FILES := StageFiles(StageStatus(Pending, 0, None, None), None, None)

  /** What happens at a step: it goes on, an exception or an interruption is raised, or the process dies. */
  datatype Fault = Proceed | Raise | Interrupt | Crash

  /**
   How a call ends: it returns, or one of the errors of the pipeline names the stage. It is aborted when
   the process dies, and when an exception leaves the call that none of these errors stands for.
   */
  datatype Outcome = Returned | StageFailed(stage: nat) | RunInterrupted(stage: nat) | PinnedResolveInvalid | Aborted

  /** The result is what an executor made of results committed before it, whatever became of those since. */
  ghost predicate Genuine(w: World, request: string, k: nat, result: StageResult) {
    exists chain :: IsChain(w, request, chain) && |chain| == k + 1 && chain[k] == result
  }

  /** A stage marked succeeded has an input and a result that carry the digests of its status. */
  ghost predicate Committed(w: World, request: string, k: nat, f: StageFiles) {
    && f.input.Some? && f.result.Some?
    && var input, result := f.input.value, f.result.value;
    && input.digest == w.inputDigest(input.document)
    && f.status.inputDigest == Some(input.digest)
    && f.status.resultSha256 == Some(w.resultDigest(result))
    && result.stage == k && result.inputDigest == input.digest && result.version == input.document.version
    && input.document.stage == k && input.document.request == request
    && (input.document.upstream == None <==> k == 0)
  }

  ghost predicate Sound(w: World, request: string, k: nat, f: StageFiles) {
    && f.status.FieldsMatchState()
    && (f.status.state == Succeeded ==> Committed(w, request, k, f) && Genuine(w, request, k, f.result.value))
  }

  /** `_load_committed_result`: every check on the stored input and result of a stage. */
  function LoadCommittedResult(w: World, k: nat, f: StageFiles): Option<StageResult> {
    if f.status.state != Succeeded || f.status.inputDigest == None || f.status.resultSha256 == None then None
    else if f.input == None || f.result == None then None
    else
      var input, result := f.input.value, f.result.value;
      if input.digest != w.inputDigest(input.document) || input.digest != f.status.inputDigest.value
         || input.document.stage != k then None
      else if w.resultDigest(result) != f.status.resultSha256.value then None
      else if result.stage != k || result.inputDigest != input.digest || result.version != input.document.version
      then None
      else Some(result)
  }

  /** `_load_reusable`. */
  function LoadReusable(w: World, k: nat, f: StageFiles, prepared: InputRecord): Option<StageResult> {
    if f.status.state != Succeeded || f.status.inputDigest != Some(prepared.digest) then None
    else
      var result := LoadCommittedResult(w, k, f);
      if result == None || f.input != Some(prepared) then None
      else if result.value.inputDigest != prepared.digest || result.value.version != prepared.document.version then None
      else result
  }

  /** Nothing differs but at stage `k`. */
  ghost predicate SameBut<T>(a: seq<T>, b: seq<T>, k: nat) {
    |a| == |b| && forall j :: 0 <= j < |a| && j != k ==> a[j] == b[j]
  }

  /** The stages below hold the results of this chain. */
  ghost predicate Stands(w: World, request: string, stages: seq<StageFiles>, chain: seq<StageResult>) {
    && |chain| <= |stages|
    && IsChain(w, request, chain)
    && forall i :: 0 <= i < |chain| ==> stages[i].status.state == Succeeded && stages[i].result == Some(chain[i])
  }

  /** A sound stage is reusable exactly when the input it was committed under is the one prepared. */
  lemma ReusableWhenSameInput(w: World, request: string, k: nat, f: StageFiles, prepared: InputRecord)
    requires Injective(w) && Sound(w, request, k, f)
    requires prepared.digest == w.inputDigest(prepared.document)
    ensures LoadReusable(w, k, f, prepared)
         == if f.status.state == Succeeded && f.input == Some(prepared) then f.result else None
  {
  }

  /** The result found reusable is the one that executing the stage would commit. */
  lemma ReusedIsClean(w: World, request: string, k: nat, f: StageFiles, chain: seq<StageResult>, i: Implementation)
    requires Injective(w) && Sound(w, request, k, f) && f.status.state == Succeeded
    requires IsChain(w, request, chain) && |chain| == k
    requires f.input.value.document == InputAfter(w, request, chain, i)
    ensures f.result == Some(ResultAfter(w, request, chain, i))
  {
    var stored :| IsChain(w, request, stored) && |stored| == k + 1 && stored[k] == f.result.value;
    ReuseAgrees(w, request, stored, chain, i);
  }

  /** The files of a stage that was just committed after `chain`. */
  function SucceededFiles(w: World, request: string, chain: seq<StageResult>, i: Implementation, attempt: nat):
    StageFiles
  {
    var document := InputAfter(w, request, chain, i);
    var result := ResultAfter(w, request, chain, i);
    StageFiles(StageStatus(Succeeded, attempt, Some(w.inputDigest(document)), Some(w.resultDigest(result))),
               Some(InputRecord(w.inputDigest(document), document)), Some(result))
  }

  lemma NewlyCommitted(w: World, request: string, chain: seq<StageResult>, i: Implementation, attempt: nat)
    requires Injective(w) && IsChain(w, request, chain) && attempt >= 1
    ensures Sound(w, request, |chain|, SucceededFiles(w, request, chain, i, attempt))
  {
    ChainGrows(w, request, chain, i);
    var grown := chain + [ResultAfter(w, request, chain, i)];
    assert |grown| == |chain| + 1 && grown[|chain|] == ResultAfter(w, request, chain, i);
  }

  /** Every step from `from` up to `to` goes on. */
  ghost predicate AllProceed(faults: nat -> Fault, from: nat, to: nat) {
    forall n :: from <= n < to ==> faults(n) == Proceed
  }

  /** The steps of an execution that returns. */
  const EXECUTION_STEPS: nat := 7

  /** Of the `n` steps from step `c` on the first `t` go on, and the next one, if there is one, does not. */
  ghost predicate ComesTo(faults: nat -> Fault, c: nat, n: nat, t: nat) {
    && t <= n && (forall m :: c <= m < c + t ==> faults(m) == Proceed)
    && (t < n ==> faults(c + t) != Proceed)
  }

  ghost function StepsDone(faults: nat -> Fault, c: nat, n: nat): (t: nat)
    ensures ComesTo(faults, c, n, t)
    decreases n
  {
    if n == 0 || faults(c) != Proceed then 0 else 1 + StepsDone(faults, c + 1, n - 1)
  }

  /** How far the `try` block of an execution that starts at step `c` comes. */
  ghost function Progress(faults: nat -> Fault, c: nat): (t: nat)
    ensures ComesTo(faults, c, EXECUTION_STEPS, t)
  {
    StepsDone(faults, c, EXECUTION_STEPS)
  }

  lemma ProgressIs(faults: nat -> Fault, c: nat, t: nat)
    requires ComesTo(faults, c, EXECUTION_STEPS, t)
    ensures Progress(faults, c) == t
  {
    var fault := faults(c + Progress(faults, c));
  }

  /** It comes as far as the write of its status as succeeded. */
  ghost predicate StatusWritten(faults: nat -> Fault, c: nat) {
    Progress(faults, c) >= 5
  }

  /** The execution returns its result: an interruption does not count once `committed` is set. */
  ghost predicate ReachesReturn(faults: nat -> Fault, c: nat) {
    var t := Progress(faults, c);
    t == EXECUTION_STEPS || (t == 6 && faults(c + t) == Interrupt)
  }

  /** The execution ends with an exception, or with an interruption before `committed` is set. */
  ghost predicate Fails(faults: nat -> Fault, c: nat) {
    var t := Progress(faults, c);
    t < EXECUTION_STEPS && (faults(c + t) == Raise || (faults(c + t) == Interrupt && t < 6))
  }

  /** A handler of `_execute_stage` writes that failure. */
  ghost predicate FailureIsWritten(faults: nat -> Fault, c: nat) {
    Fails(faults, c) && faults(c + Progress(faults, c) + 1) == Proceed
  }

  /** It writes it over a status that said succeeded. */
  ghost predicate Downgraded(faults: nat -> Fault, c: nat) {
    StatusWritten(faults, c) && FailureIsWritten(faults, c)
  }

  /** How the execution of stage `k` ends: a failure is reported unless another fault comes upon its write. */
  ghost function ExecutionOutcome(faults: nat -> Fault, c: nat, k: nat): Outcome {
    var t := Progress(faults, c);
    if ReachesReturn(faults, c) then Returned
    else if !FailureIsWritten(faults, c) || faults(c + t + 2) != Proceed then Aborted
    else if faults(c + t) == Raise then StageFailed(k)
    else RunInterrupted(k)
  }

  /** The steps that it takes. */
  ghost function StepsTaken(faults: nat -> Fault, c: nat): (n: nat)
    ensures n > Progress(faults, c) || n == EXECUTION_STEPS
  {
    var t := Progress(faults, c);
    if t == EXECUTION_STEPS then t
    else t + if FailureIsWritten(faults, c) then 3 else if Fails(faults, c) then 2 else 1
  }

  /** The steps that it takes to reconcile the first `k` stages: two around the write for each that is left running. */
  function ReconcileSteps(stages: seq<StageFiles>, k: nat): nat
    requires k <= |stages|
  {
    if k == 0 then 0 else ReconcileSteps(stages, k - 1) + (if stages[k - 1].status.state == Running then 2 else 0)
  }

  lemma ReconcileStepsGrow(stages: seq<StageFiles>, k: nat)
    requires k <= |stages|
    ensures ReconcileSteps(stages, k) <= ReconcileSteps(stages, |stages|)
    decreases |stages| - k
  {
    if k < |stages| {
      ReconcileStepsGrow(stages, k + 1);
    }
  }

  /** The step at which the stage loop of a call starts. */
  function LoopStart(stages: seq<StageFiles>, clock: nat): nat {
    clock + ReconcileSteps(stages, |stages|)
  }

  /** A call that starts at step `clock` writes the status of a new resolve result as succeeded. */
  ghost predicate ResolveWritten(faults: nat -> Fault, before: seq<StageFiles>, clock: nat) {
    && before != [] && before[0].status.state != Succeeded
    && AllProceed(faults, clock, LoopStart(before, clock))
    && StatusWritten(faults, LoopStart(before, clock))
  }

  /** And writes a failure over it before it ends. */
  ghost predicate ResolveLost(faults: nat -> Fault, before: seq<StageFiles>, clock: nat) {
    ResolveWritten(faults, before, clock) && Downgraded(faults, LoopStart(before, clock))
  }

  lemma NoneRunning(stages: seq<StageFiles>, k: nat)
    requires k <= |stages| && forall j :: 0 <= j < k ==> stages[j].status.state != Running
    ensures ReconcileSteps(stages, k) == 0
  {
  }

  /** A run at one moment: the steps taken, the files of every stage and the results ever committed. */
  datatype Moment = Moment(clock: nat, stages: seq<StageFiles>, committed: seq<seq<StageResult>>)
  {
    predicate WellFormed() {
      |stages| == |committed| == STAGE_COUNT
    }
  }

  /**
   The files of a stage when `t` steps of its execution are done: its status is written as running, then
   its input, its result and its status as succeeded.
   */
  function Written(before: StageFiles, files: StageFiles, t: nat): StageFiles {
    StageFiles(
      if t < 1 then before.status
      else if t < 5 then files.status.(state := Running, resultSha256 := None) else files.status,
      if t < 2 then before.input else files.input,
      if t < 4 then before.result else files.result)
  }

  /** The status that a failure is recorded with, in place of `status`. */
  function FailedStatus(status: StageStatus, fault: Fault): StageStatus {
    status.(state := if fault == Interrupt then Interrupted else Failed, resultSha256 := None)
  }

  /** The files that an execution from step `c` leaves, where an undisturbed one would leave `files`. */
  ghost function FilesLeft(faults: nat -> Fault, c: nat, before: StageFiles, files: StageFiles): StageFiles {
    var t := Progress(faults, c);
    if !FailureIsWritten(faults, c) then Written(before, files, t)
    else Written(before, files, t).(status := FailedStatus(files.status, faults(c + t)))
  }

  /** The results committed for a stage after that execution. */
  ghost function CommittedAfter(faults: nat -> Fault, c: nat, result: StageResult, was: seq<StageResult>):
    seq<StageResult>
  {
    if StatusWritten(faults, c) then was + [result] else was
  }

  /**
   What remains of an execution from step `c` on that does not return: a failure or interruption is
   recorded, with the new attempt and the prepared digest, whenever its write goes through, and reported
   unless a fault comes right after. The stage is left running exactly when the process dies between
   the write of that status and the next, or a fault comes before the write of the failure.
   */
  lemma FailureIsRecorded(faults: nat -> Fault, c: nat, k: nat, before: StageFiles, files: StageFiles)
    requires before.status.state != Running && files.status.state == Succeeded && !ReachesReturn(faults, c)
    ensures var t := Progress(faults, c);
      var fault, next := faults(c + t), faults(c + t + 1);
      var status, outcome := FilesLeft(faults, c, before, files).status, ExecutionOutcome(faults, c, k);
      && t < EXECUTION_STEPS
      && (fault == Raise && next == Proceed ==>
            && status == StageStatus(Failed, files.status.attempt, files.status.inputDigest, None)
            && outcome == if faults(c + t + 2) == Proceed then StageFailed(k) else Aborted)
      && (fault == Interrupt && next == Proceed ==>
            && status == StageStatus(Interrupted, files.status.attempt, files.status.inputDigest, None)
            && outcome == if faults(c + t + 2) == Proceed then RunInterrupted(k) else Aborted)
      && (fault == Crash || next != Proceed ==> outcome == Aborted)
      && (status.state == Running <==> 1 <= t < 5 && (fault == Crash || next != Proceed))
  {
  }

  /** How a part of the `try` block that takes `n` steps ends when it comes to step `t`. */
  ghost predicate Ends(faults: nat -> Fault, c: nat, n: nat, t: nat, clock: nat, fault: Fault) {
    && ComesTo(faults, c, n, t)
    && if t < n then clock == c + t + 1 && fault == faults(c + t) else clock == c + n && fault == Proceed
  }

  /** The first half of the `try` block, up to the end of the executor: the stage is running, with its new input. */
  ghost predicate Begun(faults: nat -> Fault, k: nat, files: StageFiles, a: Moment, b: Moment, t: nat, fault: Fault)
    requires a.WellFormed() && b.WellFormed() && k < STAGE_COUNT
  {
    && Ends(faults, a.clock, 4, t, b.clock, fault) && b.committed == a.committed
    && SameBut(a.stages, b.stages, k) && b.stages[k] == Written(a.stages[k], files, if t < 4 then t else 3)
  }

  /** The second half, of a stage that was `before`: the result is written, then the status that refers to it. */
  ghost predicate Finished(faults: nat -> Fault, k: nat, before: StageFiles, files: StageFiles,
                           a: Moment, b: Moment, t: nat, fault: Fault)
    requires a.WellFormed() && b.WellFormed() && k < STAGE_COUNT && files.result.Some?
  {
    && Ends(faults, a.clock, 3, t, b.clock, fault)
    && SameBut(a.stages, b.stages, k) && b.stages[k] == Written(before, files, 4 + t)
    && SameBut(a.committed, b.committed, k)
    && b.committed[k] == if t == 0 then a.committed[k] else a.committed[k] + [files.result.value]
  }

  lemma OnlyResultWritten(faults: nat -> Fault, k: nat, before: StageFiles, files: StageFiles, a: Moment, b: Moment)
    requires a.WellFormed() && k < STAGE_COUNT && files.result.Some? && faults(a.clock) != Proceed
    requires a.stages[k] == Written(before, files, 3)
    requires b == Moment(a.clock + 1, a.stages[k := a.stages[k].(result := files.result)], a.committed)
    ensures Finished(faults, k, before, files, a, b, 0, faults(a.clock))
  {
  }

  lemma AllWritten(faults: nat -> Fault, k: nat, before: StageFiles, files: StageFiles,
                   a: Moment, result: Moment, b: Moment, t: nat, fault: Fault)
    requires a.WellFormed() && b.WellFormed() && k < STAGE_COUNT && files.result.Some? && faults(a.clock) == Proceed
    requires SameBut(a.stages, result.stages, k) && result.committed == a.committed && result.clock == a.clock + 1
    requires b.stages == result.stages[k := files]
    requires b.committed == result.committed[k := result.committed[k] + [files.result.value]]
    requires Ends(faults, result.clock, 2, t, b.clock, fault)
    ensures Finished(faults, k, before, files, a, b, t + 1, fault)
  {
  }

  /** What the `try` block of an execution has done when it ends. */
  ghost predicate Tried(faults: nat -> Fault, k: nat, files: StageFiles, a: Moment, b: Moment, t: nat, fault: Fault)
    requires a.WellFormed() && b.WellFormed() && k < STAGE_COUNT && files.result.Some?
  {
    && Ends(faults, a.clock, EXECUTION_STEPS, t, b.clock, fault)
    && SameBut(a.stages, b.stages, k) && b.stages[k] == Written(a.stages[k], files, t)
    && SameBut(a.committed, b.committed, k)
    && b.committed[k] == if t < 5 then a.committed[k] else a.committed[k] + [files.result.value]
  }

  lemma NotBegun(faults: nat -> Fault, k: nat, files: StageFiles, a: Moment, b: Moment, t: nat, fault: Fault)
    requires a.WellFormed() && b.WellFormed() && k < STAGE_COUNT && files.result.Some? && fault != Proceed
    requires Begun(faults, k, files, a, b, t, fault)
    ensures Tried(faults, k, files, a, b, t, fault)
  {
  }

  lemma BegunAndFinished(faults: nat -> Fault, k: nat, files: StageFiles, a: Moment, b: Moment, c: Moment,
                         t: nat, fault: Fault)
    requires a.WellFormed() && b.WellFormed() && c.WellFormed() && k < STAGE_COUNT && files.result.Some?
    requires Begun(faults, k, files, a, b, 4, Proceed)
    requires Finished(faults, k, a.stages[k], files, b, c, t, fault)
    ensures Tried(faults, k, files, a, c, 4 + t, fault)
  {
  }

  /**
   An execution of the stage after `chain`, with its handlers: the schedule of faults determines what it
   leaves and how it ends.
   */
  ghost predicate StageExecuted(w: World, request: string, faults: nat -> Fault, chain: seq<StageResult>,
                                i: Implementation, a: Moment, b: Moment, outcome: Outcome)
    requires a.WellFormed() && b.WellFormed() && |chain| < STAGE_COUNT
  {
    var k, c := |chain|, a.clock;
    var files := SucceededFiles(w, request, chain, i, a.stages[k].status.attempt + 1);
    && outcome == ExecutionOutcome(faults, c, k)
    && b.clock == c + StepsTaken(faults, c)
    && SameBut(a.stages, b.stages, k) && b.stages[k] == FilesLeft(faults, c, a.stages[k], files)
    && SameBut(a.committed, b.committed, k)
    && b.committed[k] == CommittedAfter(faults, c, files.result.value, a.committed[k])
  }

  /** `_write_failure_status`: one write, with a step before it and one after. */
  ghost function FailureWritten(faults: nat -> Fault, k: nat, status: StageStatus, b: Moment): (c: Moment)
    requires b.WellFormed() && k < STAGE_COUNT
  {
    if faults(b.clock) != Proceed then b.(clock := b.clock + 1)
    else b.(clock := b.clock + 2, stages := b.stages[k := b.stages[k].(status := status)])
  }

  /** Without a failure the handlers write nothing. */
  lemma NotHandled(w: World, request: string, faults: nat -> Fault, chain: seq<StageResult>, i: Implementation,
                   a: Moment, b: Moment, t: nat, fault: Fault)
    requires a.WellFormed() && b.WellFormed() && |chain| < STAGE_COUNT
    requires var files := SucceededFiles(w, request, chain, i, a.stages[|chain|].status.attempt + 1);
      Tried(faults, |chain|, files, a, b, t, fault)
    requires fault in {Proceed, Crash} || (fault == Interrupt && t >= 6)
    ensures StageExecuted(w, request, faults, chain, i, a, b, if fault == Crash then Aborted else Returned)
  {
    ProgressIs(faults, a.clock, t);
  }

  /** The failure is written over whatever the status said. */
  lemma Handled(w: World, request: string, faults: nat -> Fault, chain: seq<StageResult>, i: Implementation,
                a: Moment, b: Moment, c: Moment, t: nat, fault: Fault)
    requires a.WellFormed() && b.WellFormed() && c.WellFormed() && |chain| < STAGE_COUNT
    requires var files := SucceededFiles(w, request, chain, i, a.stages[|chain|].status.attempt + 1);
      && Tried(faults, |chain|, files, a, b, t, fault)
      && c == FailureWritten(faults, |chain|, FailedStatus(files.status, fault), b)
    requires fault == Raise || (fault == Interrupt && t < 6)
    ensures var done := faults(b.clock) == Proceed && faults(b.clock + 1) == Proceed;
      var failure := if fault == Raise then StageFailed(|chain|) else RunInterrupted(|chain|);
      StageExecuted(w, request, faults, chain, i, a, c, if done then failure else Aborted)
  {
    ProgressIs(faults, a.clock, t);
  }

  /** A stage with a committed result that may be taken: resolve whenever it has one, others under the same input. */
  predicate IsReusable(w: World, document: InputDocument, f: StageFiles) {
    && f.status.state == Succeeded
    && (document.stage == 0 || f.input == Some(InputRecord(w.inputDigest(document), document)))
  }

  /**
   In the round that starts at step `c` the stage is executed: its result is not reusable, or an
   exception hits the reading of its files, which for resolve makes the call refuse it instead.
   */
  ghost predicate IsExecuted(w: World, faults: nat -> Fault, c: nat, document: InputDocument, f: StageFiles) {
    !IsReusable(w, document, f) || (document.stage > 0 && faults(c) == Raise)
  }

  /** The step at which it is, after that of reading the files if there is something to read. */
  function ExecutionStart(w: World, c: nat, document: InputDocument, f: StageFiles): nat {
    if IsReusable(w, document, f) then c + 1 else c
  }

  /** A stage is left alone or executed once. */
  ghost predicate Progressed(w: World, faults: nat -> Fault, c: nat, document: InputDocument,
                             before: StageFiles, after: StageFiles)
  {
    if IsExecuted(w, faults, c, document, before) then
      && after.status.attempt == before.status.attempt + 1
      && after.input == Some(InputRecord(w.inputDigest(document), document))
    else after == before
  }

  /** What one round of the stage loop makes of the stage after `chain`. */
  ghost predicate StageStep(w: World, request: string, faults: nat -> Fault, chain: seq<StageResult>, i: Implementation,
                            a: Moment, b: Moment)
    requires a.WellFormed() && b.WellFormed() && |chain| < STAGE_COUNT
  {
    match b
    case Moment(clock, stages, committed) =>
      var k, document := |chain|, InputAfter(w, request, chain, i);
      if IsExecuted(w, faults, a.clock, document, a.stages[k]) then
        var c := ExecutionStart(w, a.clock, document, a.stages[k]);
        var files := SucceededFiles(w, request, chain, i, a.stages[k].status.attempt + 1);
        && stages[k] == FilesLeft(faults, c, a.stages[k], files)
        && committed[k] == CommittedAfter(faults, c, files.result.value, a.committed[k])
        && (StatusWritten(faults, c) ==> clock > c + 5)
      else stages[k] == a.stages[k] && committed[k] == a.committed[k]
  }

  /** How the round ends. A resolve whose reading meets an exception is refused. */
  ghost function RoundOutcome(w: World, faults: nat -> Fault, document: InputDocument, c: nat, f: StageFiles): Outcome {
    if IsExecuted(w, faults, c, document, f) then
      ExecutionOutcome(faults, ExecutionStart(w, c, document, f), document.stage)
    else match faults(c)
      case Proceed => Returned
      case Raise => PinnedResolveInvalid
      case _ => Aborted
  }

  /** The steps of a round that returns. */
  ghost function RoundSteps(w: World, faults: nat -> Fault, c: nat, document: InputDocument, f: StageFiles): nat {
    if IsExecuted(w, faults, c, document, f) then ExecutionStart(w, c, document, f) - c + EXECUTION_STEPS else 1
  }

  /** A round that returns: the stage holds the clean result, or the one that resolve was pinned to. */
  ghost predicate Done(w: World, request: string, faults: nat -> Fault, c: nat, chain: seq<StageResult>,
                       i: Implementation, before: StageFiles, after: StageFiles)
  {
    && after.status.state == Succeeded && after.result.Some?
    && IsChain(w, request, chain + [after.result.value])
    && (chain == [] && before.status.state == Succeeded ==> after == before)
    && (chain != [] || before.status.state != Succeeded ==> after.result.value == ResultAfter(w, request, chain, i))
    && (chain != [] ==> Progressed(w, faults, c, InputAfter(w, request, chain, i), before, after))
  }

  lemma PinnedIsChain(w: World, request: string, f: StageFiles)
    requires Sound(w, request, 0, f) && f.status.state == Succeeded
    ensures IsChain(w, request, [f.result.value])
  {
    var chain :| IsChain(w, request, chain) && |chain| == 1 && chain[0] == f.result.value;
    assert chain == [f.result.value];
  }

  /** One round of the stage loop, for the stage after `chain`. */
  ghost predicate Round(w: World, request: string, faults: nat -> Fault, chain: seq<StageResult>, i: Implementation,
                        a: Moment, b: Moment, outcome: Outcome)
    requires a.WellFormed() && b.WellFormed() && |chain| < STAGE_COUNT
  {
    match b
    case Moment(clock, stages, committed) =>
      var k, document := |chain|, InputAfter(w, request, chain, i);
      && SameBut(a.stages, stages, k) && SameBut(a.committed, committed, k) && clock >= a.clock
      && a.stages[k].status.attempt <= stages[k].status.attempt
      && StageStep(w, request, faults, chain, i, a, b)
      && outcome == RoundOutcome(w, faults, document, a.clock, a.stages[k])
      && (outcome == Returned ==>
            && clock == a.clock + RoundSteps(w, faults, a.clock, document, a.stages[k])
            && Done(w, request, faults, a.clock, chain, i, a.stages[k], stages[k]))
  }

  lemma PinnedRound(w: World, request: string, faults: nat -> Fault, i: Implementation, a: Moment, outcome: Outcome)
    requires a.WellFormed() && Sound(w, request, 0, a.stages[0]) && a.stages[0].status.state == Succeeded
    requires outcome == match faults(a.clock)
                        case Proceed => Returned
                        case Raise => PinnedResolveInvalid
                        case _ => Aborted
    ensures Round(w, request, faults, [], i, a, a.(clock := a.clock + 1), outcome)
  {
    PinnedIsChain(w, request, a.stages[0]);
    assert [] + [a.stages[0].result.value] == [a.stages[0].result.value];
  }

  /** A reusable result was read, or the reading was cut short. */
  lemma ReadRound(w: World, request: string, faults: nat -> Fault, chain: seq<StageResult>, i: Implementation,
                  a: Moment, outcome: Outcome)
    requires a.WellFormed() && |chain| < STAGE_COUNT && IsChain(w, request, chain) && chain != []
    requires IsReusable(w, InputAfter(w, request, chain, i), a.stages[|chain|]) && faults(a.clock) != Raise
    requires a.stages[|chain|].result == Some(ResultAfter(w, request, chain, i))
    requires outcome == if faults(a.clock) == Proceed then Returned else Aborted
    ensures Round(w, request, faults, chain, i, a, a.(clock := a.clock + 1), outcome)
  {
    ChainGrows(w, request, chain, i);
  }

  lemma AttemptsGrow(faults: nat -> Fault, c: nat, before: StageFiles, files: StageFiles)
    requires files.status.attempt == before.status.attempt + 1
    ensures before.status.attempt <= FilesLeft(faults, c, before, files).status.attempt
  {
  }

  lemma ExecutionReturns(w: World, request: string, faults: nat -> Fault, chain: seq<StageResult>, i: Implementation,
                         a: Moment, b: Moment)
    requires a.WellFormed() && b.WellFormed() && |chain| < STAGE_COUNT
    requires StageExecuted(w, request, faults, chain, i, a, b, Returned)
    ensures b.clock == a.clock + EXECUTION_STEPS
    ensures b.stages[|chain|] == SucceededFiles(w, request, chain, i, a.stages[|chain|].status.attempt + 1)
  {
  }

  lemma ExecutedRound(w: World, request: string, faults: nat -> Fault, chain: seq<StageResult>, i: Implementation,
                      a: Moment, began: Moment, b: Moment, outcome: Outcome)
    requires a.WellFormed() && b.WellFormed() && |chain| < STAGE_COUNT && IsChain(w, request, chain)
    requires IsExecuted(w, faults, a.clock, InputAfter(w, request, chain, i), a.stages[|chain|])
    requires began == a.(clock := ExecutionStart(w, a.clock, InputAfter(w, request, chain, i), a.stages[|chain|]))
    requires StageExecuted(w, request, faults, chain, i, began, b, outcome)
    ensures Round(w, request, faults, chain, i, a, b, outcome)
  {
    var files := SucceededFiles(w, request, chain, i, a.stages[|chain|].status.attempt + 1);
    AttemptsGrow(faults, began.clock, a.stages[|chain|], files);
    if outcome == Returned {
      ExecutionReturns(w, request, faults, chain, i, began, b);
      ChainGrows(w, request, chain, i);
    }
  }

  /** Attempts only grow, and a committed resolve stage never changes again. */
  ghost predicate NeverBack(before: seq<StageFiles>, after: seq<StageFiles>) {
    && |before| == |after| == STAGE_COUNT
    && (forall k :: 0 <= k < STAGE_COUNT ==> before[k].status.attempt <= after[k].status.attempt)
    && (before[0].status.state == Succeeded ==> after[0] == before[0])
  }

  lemma NeverBackTwice(before: seq<StageFiles>, between: seq<StageFiles>, after: seq<StageFiles>)
    requires NeverBack(before, between) && NeverBack(between, after)
    ensures NeverBack(before, after)
  {
  }

  /** Stages that a dead process left running are marked interrupted. */
  function Reconciled(f: StageFiles): StageFiles {
    if f.status.state == Running then f.(status := f.status.(state := Interrupted)) else f
  }

  /** The first `k` stages are reconciled. */
  ghost predicate ReconciledBelow(before: seq<StageFiles>, after: seq<StageFiles>, k: nat) {
    && |before| == |after|
    && forall j :: 0 <= j < |after| ==> after[j] == if j < k then Reconciled(before[j]) else before[j]
  }

  /** The step before the write for stage `k` or the step after it does not go on, and ends the call. */
  ghost predicate CutReconciling(faults: nat -> Fault, a: Moment, b: Moment, k: nat)
    requires k < |a.stages|
  {
    var c := a.clock + ReconcileSteps(a.stages, k);
    && a.stages[k].status.state == Running && b.committed == a.committed
    && AllProceed(faults, a.clock, c)
    && if faults(c) != Proceed then b.clock == c + 1 && ReconciledBelow(a.stages, b.stages, k)
       else faults(c + 1) != Proceed && b.clock == c + 2 && ReconciledBelow(a.stages, b.stages, k + 1)
  }

  /** Reconciling is done, and the stage loop starts. */
  function AllReconciled(a: Moment): Moment {
    Moment(LoopStart(a.stages, a.clock), seq(|a.stages|, k requires 0 <= k < |a.stages| => Reconciled(a.stages[k])),
           a.committed)
  }

  /** What reconciling one stage makes of a run. */
  ghost predicate StageReconciled(faults: nat -> Fault, a: Moment, b: Moment, k: nat, fault: Fault)
    requires k < |a.stages|
  {
    if a.stages[k].status.state != Running then b == a && fault == Proceed
    else if faults(a.clock) != Proceed then b == a.(clock := a.clock + 1) && fault == faults(a.clock)
    else
      && b == a.(clock := a.clock + 2, stages := a.stages[k := Reconciled(a.stages[k])])
      && fault == faults(a.clock + 1)
  }

  ghost predicate ReconciledUpto(faults: nat -> Fault, a: Moment, b: Moment, k: nat)
    requires k <= |a.stages|
  {
    && b.clock == a.clock + ReconcileSteps(a.stages, k) && b.committed == a.committed
    && AllProceed(faults, a.clock, b.clock) && ReconciledBelow(a.stages, b.stages, k)
  }

  lemma ReconcileGoesOn(faults: nat -> Fault, start: Moment, a: Moment, b: Moment, k: nat, fault: Fault)
    requires start.WellFormed() && k < STAGE_COUNT && ReconciledUpto(faults, start, a, k)
    requires StageReconciled(faults, a, b, k, fault)
    ensures fault == Proceed ==> ReconciledUpto(faults, start, b, k + 1)
    ensures fault == Proceed && k + 1 == STAGE_COUNT ==> b == AllReconciled(start)
    ensures fault != Proceed ==>
      CutReconciling(faults, start, b, k) && !AllProceed(faults, start.clock, LoopStart(start.stages, start.clock))
  {
    ReconcileStepsGrow(start.stages, k + 1);
  }

  lemma ReconcilingIsNoStepBack(before: seq<StageFiles>, after: seq<StageFiles>, k: nat)
    requires |before| == STAGE_COUNT && ReconciledBelow(before, after, k)
    ensures NeverBack(before, after)
  {
  }

  /** The step at which the round after `chain` starts, when the loop starts at step `c` with these stages. */
  ghost function RoundStart(w: World, request: string, faults: nat -> Fault, c: nat, stages: seq<StageFiles>,
                            implementations: seq<Implementation>, chain: seq<StageResult>): (n: nat)
    requires |chain| <= |stages| && |chain| <= |implementations|
    ensures n >= c
  {
    if chain == [] then c
    else
      var k, below := |chain| - 1, chain[..|chain| - 1];
      var before := RoundStart(w, request, faults, c, stages, implementations, below);
      before + RoundSteps(w, faults, before, InputAfter(w, request, below, implementations[k]), stages[k])
  }

  /** The rounds that made `chain` return, when the loop starts at step `c` with these stages. */
  ghost predicate RoundsReturn(w: World, request: string, faults: nat -> Fault, c: nat, stages: seq<StageFiles>,
                               implementations: seq<Implementation>, chain: seq<StageResult>)
    requires |chain| <= |stages| && |chain| <= |implementations|
  {
    chain == [] ||
    var k, below := |chain| - 1, chain[..|chain| - 1];
    && RoundsReturn(w, request, faults, c, stages, implementations, below)
    && RoundOutcome(w, faults, InputAfter(w, request, below, implementations[k]),
                    RoundStart(w, request, faults, c, stages, implementations, below), stages[k]) == Returned
  }

  /** Progress of the stages that hold `chain`, the pinned resolve left aside. */
  ghost predicate OnlyStaleBelow(w: World, request: string, faults: nat -> Fault, c: nat,
                                 before: seq<StageFiles>, after: seq<StageFiles>,
                                 implementations: seq<Implementation>, chain: seq<StageResult>)
  {
    && |chain| <= |before| && |chain| <= |after| && |chain| <= |implementations|
    && forall j :: 1 <= j < |chain| ==>
         ProgressedAfter(w, request, faults, c, before, after, implementations, chain[..j])
  }

  /** Progress of the stage after `chain`. */
  ghost predicate ProgressedAfter(w: World, request: string, faults: nat -> Fault, c: nat,
                                  before: seq<StageFiles>, after: seq<StageFiles>,
                                  implementations: seq<Implementation>, chain: seq<StageResult>)
    requires |chain| < |before| && |chain| < |after| && |chain| < |implementations|
  {
    Progressed(w, faults, RoundStart(w, request, faults, c, before, implementations, chain),
               InputAfter(w, request, chain, implementations[|chain|]), before[|chain|], after[|chain|])
  }

  /** The stages up to `until` have succeeded with the results of a clean run. */
  ghost predicate HoldsCleanRun(
    w: World, request: string, stages: seq<StageFiles>, implementations: seq<Implementation>, until: nat)
  {
    && until < |implementations| && until < |stages|
    && (forall k :: 0 <= k <= until ==> stages[k].status.state == Succeeded && stages[k].result.Some?)
    && forall k :: 0 <= k <= until ==>
         stages[k].result.value == CleanRun(w, request, implementations, stages[0].result.value, until)[k]
  }

  /**
   Executed are exactly the stages whose committed input is not that of the clean run, and those whose
   files an exception kept from being read.
   */
  ghost predicate OnlyStaleExecuted(w: World, request: string, faults: nat -> Fault, c: nat,
                                    before: seq<StageFiles>, after: seq<StageFiles>,
                                    implementations: seq<Implementation>, until: nat)
  {
    && until < |before| && until < |after| && until < |implementations| && after[0].result.Some?
    && OnlyStaleBelow(w, request, faults, c, before, after, implementations,
                      CleanRun(w, request, implementations, after[0].result.value, until))
  }

  lemma StandsGrows(w: World, request: string, before: seq<StageFiles>, after: seq<StageFiles>, chain: seq<StageResult>)
    requires Stands(w, request, before, chain) && |chain| < |before| && SameBut(before, after, |chain|)
    requires after[|chain|].status.state == Succeeded && after[|chain|].result.Some?
    requires IsChain(w, request, chain + [after[|chain|].result.value])
    ensures Stands(w, request, after, chain + [after[|chain|].result.value])
  {
  }

  lemma StaleGrows(w: World, request: string, faults: nat -> Fault, c: nat, start: seq<StageFiles>,
                   before: seq<StageFiles>, after: seq<StageFiles>, implementations: seq<Implementation>,
                   chain: seq<StageResult>)
    requires OnlyStaleBelow(w, request, faults, c, start, before, implementations, chain)
    requires |chain| < |before| && SameBut(before, after, |chain|)
    requires |chain| < |start| && |chain| < |implementations| && after[|chain|].result.Some?
    requires chain != [] ==> ProgressedAfter(w, request, faults, c, start, after, implementations, chain)
    ensures OnlyStaleBelow(w, request, faults, c, start, after, implementations, chain + [after[|chain|].result.value])
  {
    var grown := chain + [after[|chain|].result.value];
    forall j | 1 <= j < |grown|
      ensures ProgressedAfter(w, request, faults, c, start, after, implementations, grown[..j])
    {
      assert grown[..j] == chain[..j];
      assert chain[..|chain|] == chain;
      if j < |chain| {
        assert ProgressedAfter(w, request, faults, c, start, before, implementations, chain[..j]);
      }
    }
  }

  /** `chain` is the run from scratch that goes on from its first result. */
  ghost predicate IsClean(w: World, request: string, implementations: seq<Implementation>, chain: seq<StageResult>) {
    && |chain| <= |implementations|
    && (chain != [] ==> chain == CleanRun(w, request, implementations, chain[0], |chain| - 1))
  }

  lemma CleanGrows(w: World, request: string, implementations: seq<Implementation>, chain: seq<StageResult>,
                   r: StageResult)
    requires IsClean(w, request, implementations, chain) && |chain| < |implementations|
    requires chain != [] ==> r == ResultAfter(w, request, chain, implementations[|chain|])
    ensures IsClean(w, request, implementations, chain + [r])
  {
    if chain != [] {
      assert (chain + [r])[0] == chain[0];
    }
  }

  /** The stage loop has come as far as `chain`. */
  ghost predicate RunUpto(w: World, request: string, faults: nat -> Fault, c: nat, start: seq<StageFiles>,
                          now: seq<StageFiles>, implementations: seq<Implementation>, chain: seq<StageResult>)
  {
    && |start| == |now| == |implementations| == STAGE_COUNT && |chain| <= STAGE_COUNT
    && Stands(w, request, now, chain)
    && IsClean(w, request, implementations, chain)
    && NeverBack(start, now)
    && (forall j :: |chain| <= j < STAGE_COUNT ==> now[j] == start[j])
    && OnlyStaleBelow(w, request, faults, c, start, now, implementations, chain)
  }

  /**
   In between at most one result was committed for stage `k`. If it was lost again, the call says that
   this stage failed or was interrupted, or was aborted: it does not return.
   */
  ghost predicate CommitAccounted(a: Moment, b: Moment, k: nat, outcome: Outcome)
    requires a.WellFormed() && b.WellFormed() && k < STAGE_COUNT
  {
    var was, now := a.committed[k], b.committed[k];
    || now == was
    || (|now| == |was| + 1 && was <= now
        && ((b.stages[k].status.state == Succeeded && b.stages[k].result == Some(now[|was|]))
            || outcome in {StageFailed(k), RunInterrupted(k), Aborted}))
  }

  ghost predicate NothingLostSilently(a: Moment, b: Moment, outcome: Outcome)
    requires a.WellFormed() && b.WellFormed()
  {
    forall k :: 0 <= k < STAGE_COUNT ==> CommitAccounted(a, b, k, outcome)
  }

  /** What the stages below have committed is accounted for, and the others have committed nothing. */
  ghost predicate CommittedUpto(a: Moment, b: Moment, n: nat)
    requires a.WellFormed() && b.WellFormed()
  {
    && NothingLostSilently(a, b, Returned)
    && forall k :: n <= k < STAGE_COUNT ==> b.committed[k] == a.committed[k] && b.stages[k] == a.stages[k]
  }

  lemma RoundIsAccounted(w: World, request: string, faults: nat -> Fault, chain: seq<StageResult>, i: Implementation,
                         a: Moment, b: Moment, outcome: Outcome)
    requires a.WellFormed() && b.WellFormed() && |chain| < STAGE_COUNT
    requires Round(w, request, faults, chain, i, a, b, outcome)
    ensures CommitAccounted(a, b, |chain|, outcome)
  {
  }

  lemma AccountGrows(start: Moment, a: Moment, b: Moment, k: nat, outcome: Outcome)
    requires start.WellFormed() && a.WellFormed() && b.WellFormed() && k < STAGE_COUNT
    requires CommittedUpto(start, a, k) && CommitAccounted(a, b, k, outcome)
    requires SameBut(a.stages, b.stages, k) && SameBut(a.committed, b.committed, k)
    ensures NothingLostSilently(start, b, outcome)
    ensures outcome == Returned ==> CommittedUpto(start, b, k + 1)
  {
    forall j | 0 <= j < STAGE_COUNT
      ensures CommitAccounted(start, b, j, outcome)
    {
      assert CommitAccounted(start, a, j, Returned);
    }
  }

  /** The same, and what it has made of the resolve stage. */
  ghost predicate LoopUpto(w: World, request: string, faults: nat -> Fault, implementations: seq<Implementation>,
                           chain: seq<StageResult>, start: Moment, now: Moment)
  {
    && start.WellFormed() && now.WellFormed()
    && RunUpto(w, request, faults, start.clock, start.stages, now.stages, implementations, chain)
    && now.clock == RoundStart(w, request, faults, start.clock, start.stages, implementations, chain)
    && RoundsReturn(w, request, faults, start.clock, start.stages, implementations, chain)
    && CommittedUpto(start, now, |chain|)
    && if chain == [] then now == start else ResolveRound(w, request, faults, implementations[0], start, now)
  }

  /** Resolve has been used or made in this call, and was not lost again. */
  ghost predicate ResolveRound(w: World, request: string, faults: nat -> Fault, i: Implementation,
                               start: Moment, now: Moment)
    requires start.WellFormed() && now.WellFormed()
  {
    && StageStep(w, request, faults, [], i, start, now)
    && (start.stages[0].status.state != Succeeded ==> !Downgraded(faults, start.clock))
  }

  /** The round of a stage, from step `c` on, does not return: neither does its execution, or its files are not read. */
  ghost predicate RoundCut(w: World, request: string, faults: nat -> Fault, chain: seq<StageResult>,
                           i: Implementation, c: nat, before: StageFiles, after: StageFiles, outcome: Outcome)
  {
    var document := InputAfter(w, request, chain, i);
    if IsExecuted(w, faults, c, document, before) then
      var start := ExecutionStart(w, c, document, before);
      && outcome == ExecutionOutcome(faults, start, |chain|) != Returned
      && after == FilesLeft(faults, start, before, SucceededFiles(w, request, chain, i, before.status.attempt + 1))
    else
      && faults(c) != Proceed && after == before
      && outcome == if faults(c) == Raise then PinnedResolveInvalid else Aborted
  }

  /** The loop is left in the round after `chain`: the rounds before it have returned, and this one does not. */
  ghost predicate LeftAfter(w: World, request: string, faults: nat -> Fault, implementations: seq<Implementation>,
                            chain: seq<StageResult>, start: Moment, now: Moment, outcome: Outcome)
    requires start.WellFormed() && now.WellFormed() && |chain| < STAGE_COUNT == |implementations|
  {
    && Stands(w, request, now.stages, chain) && IsClean(w, request, implementations, chain)
    && RoundsReturn(w, request, faults, start.clock, start.stages, implementations, chain)
    && RoundCut(w, request, faults, chain, implementations[|chain|],
                RoundStart(w, request, faults, start.clock, start.stages, implementations, chain),
                start.stages[|chain|], now.stages[|chain|], outcome)
    && forall j :: |chain| < j < STAGE_COUNT ==> now.stages[j] == start.stages[j]
  }

  lemma RoundIsCut(w: World, request: string, faults: nat -> Fault, chain: seq<StageResult>, i: Implementation,
                   a: Moment, b: Moment, outcome: Outcome)
    requires a.WellFormed() && b.WellFormed() && |chain| < STAGE_COUNT && outcome != Returned
    requires Round(w, request, faults, chain, i, a, b, outcome)
    ensures RoundCut(w, request, faults, chain, i, a.clock, a.stages[|chain|], b.stages[|chain|], outcome)
    ensures SameBut(a.stages, b.stages, |chain|)
  {
  }

  lemma LastRound(w: World, request: string, faults: nat -> Fault, implementations: seq<Implementation>,
                  chain: seq<StageResult>, start: Moment, before: Moment, now: Moment, outcome: Outcome)
    requires LoopUpto(w, request, faults, implementations, chain, start, before) && |chain| < STAGE_COUNT
    requires now.WellFormed() && SameBut(before.stages, now.stages, |chain|)
    requires RoundCut(w, request, faults, chain, implementations[|chain|], before.clock,
                      before.stages[|chain|], now.stages[|chain|], outcome)
    ensures LeftAfter(w, request, faults, implementations, chain, start, now, outcome)
  {
    assert before.clock == RoundStart(w, request, faults, start.clock, start.stages, implementations, chain);
    assert before.stages[|chain|] == start.stages[|chain|];
    assert Stands(w, request, now.stages, chain);
  }

  ghost predicate LoopCut(w: World, request: string, faults: nat -> Fault, implementations: seq<Implementation>,
                          until: nat, start: Moment, now: Moment, outcome: Outcome)
    requires start.WellFormed() && now.WellFormed() && until < STAGE_COUNT == |implementations|
  {
    exists chain ::
      |chain| <= until && LeftAfter(w, request, faults, implementations, chain, start, now, outcome)
  }

  /** What holds whenever the loop is left, in the round of stage `k` or after it. */
  ghost predicate LoopLeft(w: World, request: string, faults: nat -> Fault, implementations: seq<Implementation>,
                           k: nat, start: Moment, now: Moment, outcome: Outcome)
    requires start.WellFormed() && now.WellFormed() && implementations != []
  {
    match now
    case Moment(clock, stages, committed) =>
      && NeverBack(start.stages, stages) && clock >= start.clock && NothingLostSilently(start, now, outcome)
      && (forall j :: k < j < STAGE_COUNT ==> stages[j] == start.stages[j])
      && StageStep(w, request, faults, [], implementations[0], start, now)
      && (start.stages[0].status.state != Succeeded && Downgraded(faults, start.clock) ==>
            outcome == ExecutionOutcome(faults, start.clock, 0))
      && ((forall n :: faults(n) == Proceed) ==> outcome == Returned)
  }

  lemma ClockGrows(w: World, request: string, faults: nat -> Fault, c: nat, stages: seq<StageFiles>,
                   implementations: seq<Implementation>, chain: seq<StageResult>, r: StageResult)
    requires |chain| < |stages| && |chain| < |implementations|
    ensures var now := RoundStart(w, request, faults, c, stages, implementations, chain);
      var document := InputAfter(w, request, chain, implementations[|chain|]);
      && RoundStart(w, request, faults, c, stages, implementations, chain + [r])
         == now + RoundSteps(w, faults, now, document, stages[|chain|])
      && (RoundsReturn(w, request, faults, c, stages, implementations, chain + [r]) <==>
            && RoundsReturn(w, request, faults, c, stages, implementations, chain)
            && RoundOutcome(w, faults, document, now, stages[|chain|]) == Returned)
  {
    assert (chain + [r])[..|chain|] == chain;
  }

  /** What holds after any round, the last one included. */
  lemma RoundTaken(w: World, request: string, faults: nat -> Fault, implementations: seq<Implementation>,
                   chain: seq<StageResult>, start: Moment, before: Moment, after: Moment, outcome: Outcome)
    requires LoopUpto(w, request, faults, implementations, chain, start, before) && |chain| < STAGE_COUNT
    requires after.WellFormed() && Round(w, request, faults, chain, implementations[|chain|], before, after, outcome)
    ensures LoopLeft(w, request, faults, implementations, |chain|, start, after, outcome)
  {
    RoundIsAccounted(w, request, faults, chain, implementations[|chain|], before, after, outcome);
    AccountGrows(start, before, after, |chain|, outcome);
  }

  lemma LoopEnds(w: World, request: string, faults: nat -> Fault, implementations: seq<Implementation>,
                 chain: seq<StageResult>, start: Moment, now: Moment)
    requires LoopUpto(w, request, faults, implementations, chain, start, now) && chain != []
    ensures LoopLeft(w, request, faults, implementations, |chain| - 1, start, now, Returned)
  {
  }

  lemma DoneIsProgress(w: World, request: string, faults: nat -> Fault, c: nat, start: seq<StageFiles>,
                       before: seq<StageFiles>, after: seq<StageFiles>, implementations: seq<Implementation>,
                       chain: seq<StageResult>)
    requires chain != [] && |chain| < |start| && |chain| < |before| && |chain| < |after| && |chain| < |implementations|
    requires before[|chain|] == start[|chain|]
    requires Done(w, request, faults, RoundStart(w, request, faults, c, start, implementations, chain), chain,
                  implementations[|chain|], before[|chain|], after[|chain|])
    ensures ProgressedAfter(w, request, faults, c, start, after, implementations, chain)
  {
  }

  lemma RunGrows(w: World, request: string, faults: nat -> Fault, c: nat, start: seq<StageFiles>,
                 before: seq<StageFiles>, after: seq<StageFiles>, implementations: seq<Implementation>,
                 chain: seq<StageResult>)
    requires RunUpto(w, request, faults, c, start, before, implementations, chain) && |chain| < STAGE_COUNT
    requires SameBut(before, after, |chain|) && NeverBack(start, after)
    requires Done(w, request, faults, RoundStart(w, request, faults, c, start, implementations, chain), chain,
                  implementations[|chain|], before[|chain|], after[|chain|])
    ensures RunUpto(w, request, faults, c, start, after, implementations, chain + [after[|chain|].result.value])
  {
    if chain != [] {
      DoneIsProgress(w, request, faults, c, start, before, after, implementations, chain);
    }
    StandsGrows(w, request, before, after, chain);
    StaleGrows(w, request, faults, c, start, before, after, implementations, chain);
    CleanGrows(w, request, implementations, chain, after[|chain|].result.value);
  }

  /** A resolve result that was used or made, and not lost, in the rounds up to one that returned. */
  lemma ResolveGoesOn(w: World, request: string, faults: nat -> Fault, implementations: seq<Implementation>,
                      k: nat, start: Moment, now: Moment)
    requires start.WellFormed() && now.WellFormed() && implementations != []
    requires LoopLeft(w, request, faults, implementations, k, start, now, Returned)
    ensures ResolveRound(w, request, faults, implementations[0], start, now)
  {
  }

  /** What holds after a round that returned: the loop goes on. */
  lemma RoundDone(w: World, request: string, faults: nat -> Fault, implementations: seq<Implementation>,
                  chain: seq<StageResult>, start: Moment, before: Moment, after: Moment)
    requires LoopUpto(w, request, faults, implementations, chain, start, before) && |chain| < STAGE_COUNT
    requires after.WellFormed() && Round(w, request, faults, chain, implementations[|chain|], before, after, Returned)
    ensures after.stages[|chain|].result.Some?
    ensures LoopUpto(w, request, faults, implementations, chain + [after.stages[|chain|].result.value], start, after)
  {
    RoundTaken(w, request, faults, implementations, chain, start, before, after, Returned);
    ResolveGoesOn(w, request, faults, implementations, |chain|, start, after);
    RoundIsAccounted(w, request, faults, chain, implementations[|chain|], before, after, Returned);
    AccountGrows(start, before, after, |chain|, Returned);
    LoopGrows(w, request, faults, implementations, chain, start, before, after);
  }

  lemma LoopGrows(w: World, request: string, faults: nat -> Fault, implementations: seq<Implementation>,
                  chain: seq<StageResult>, start: Moment, before: Moment, after: Moment)
    requires LoopUpto(w, request, faults, implementations, chain, start, before) && |chain| < STAGE_COUNT
    requires after.WellFormed() && SameBut(before.stages, after.stages, |chain|)
    requires NeverBack(start.stages, after.stages) && CommittedUpto(start, after, |chain| + 1)
    requires ResolveRound(w, request, faults, implementations[0], start, after)
    requires var document := InputAfter(w, request, chain, implementations[|chain|]);
      && after.clock == before.clock + RoundSteps(w, faults, before.clock, document, before.stages[|chain|])
      && RoundOutcome(w, faults, document, before.clock, before.stages[|chain|]) == Returned
    requires Done(w, request, faults, before.clock, chain, implementations[|chain|],
                  before.stages[|chain|], after.stages[|chain|])
    ensures LoopUpto(w, request, faults, implementations, chain + [after.stages[|chain|].result.value], start, after)
  {
    var r := after.stages[|chain|].result.value;
    RunGrows(w, request, faults, start.clock, start.stages, before.stages, after.stages, implementations, chain);
    ClockGrows(w, request, faults, start.clock, start.stages, implementations, chain, r);
  }

  lemma HeldAndOnlyStale(w: World, request: string, faults: nat -> Fault, c: nat,
                         before: seq<StageFiles>, after: seq<StageFiles>,
                         implementations: seq<Implementation>, chain: seq<StageResult>, until: nat)
    requires Stands(w, request, after, chain) && |chain| == until + 1 <= |implementations|
    requires chain == CleanRun(w, request, implementations, chain[0], until)
    requires OnlyStaleBelow(w, request, faults, c, before, after, implementations, chain)
    ensures HoldsCleanRun(w, request, after, implementations, until)
    ensures OnlyStaleExecuted(w, request, faults, c, before, after, implementations, until)
  {
    assert after[0].result.value == chain[0];
  }

  lemma AccountBeforeReconciling(a: Moment, reconciled: Moment, b: Moment, outcome: Outcome)
    requires a.WellFormed() && reconciled.WellFormed() && b.WellFormed() && reconciled.committed == a.committed
    requires NothingLostSilently(reconciled, b, outcome)
    ensures NothingLostSilently(a, b, outcome)
  {
    forall k | 0 <= k < STAGE_COUNT
      ensures CommitAccounted(a, b, k, outcome)
    {
      assert CommitAccounted(reconciled, b, k, outcome);
    }
  }

  lemma {:induction false} SameRoundStart(w: World, request: string, faults: nat -> Fault, c: nat,
                                          before: seq<StageFiles>, reconciled: seq<StageFiles>,
                                          implementations: seq<Implementation>, chain: seq<StageResult>)
    requires ReconciledBelow(before, reconciled, |before|)
    requires |chain| <= |before| && |chain| <= |implementations|
    ensures RoundStart(w, request, faults, c, before, implementations, chain)
         == RoundStart(w, request, faults, c, reconciled, implementations, chain)
    ensures RoundsReturn(w, request, faults, c, before, implementations, chain)
         == RoundsReturn(w, request, faults, c, reconciled, implementations, chain)
  {
    if chain != [] {
      SameRoundStart(w, request, faults, c, before, reconciled, implementations, chain[..|chain| - 1]);
    }
  }

  /** Marking a stage interrupted changes nothing about what has to be executed. */
  lemma StaleBeforeReconciling(w: World, request: string, faults: nat -> Fault, c: nat,
                               before: seq<StageFiles>, reconciled: seq<StageFiles>, after: seq<StageFiles>,
                               implementations: seq<Implementation>, until: nat)
    requires ReconciledBelow(before, reconciled, |before|)
    requires OnlyStaleExecuted(w, request, faults, c, reconciled, after, implementations, until)
    ensures OnlyStaleExecuted(w, request, faults, c, before, after, implementations, until)
  {
    var clean := CleanRun(w, request, implementations, after[0].result.value, until);
    forall j | 1 <= j < |clean|
      ensures ProgressedAfter(w, request, faults, c, before, after, implementations, clean[..j])
    {
      assert ProgressedAfter(w, request, faults, c, reconciled, after, implementations, clean[..j]);
      SameRoundStart(w, request, faults, c, before, reconciled, implementations, clean[..j]);
    }
  }

  /** The results committed for resolve in a call, and whether the stage still has one at its end. */
  ghost predicate ResolveKept(w: World, request: string, faults: nat -> Fault, i: Implementation,
                              a: Moment, b: Moment, outcome: Outcome)
    requires a.WellFormed() && b.WellFormed()
  {
    var result := ResultAfter(w, request, [], i);
    var lost := ResolveLost(faults, a.stages, a.clock);
    if a.stages[0].status.state != Succeeded && ResolveWritten(faults, a.stages, a.clock) then
      && b.committed[0] == a.committed[0] + [result] && b.clock > LoopStart(a.stages, a.clock) + 5
      && (b.stages[0].status.state == Succeeded <==> !lost)
      && b.stages[0].result == Some(result)
      && (lost ==> outcome == ExecutionOutcome(faults, LoopStart(a.stages, a.clock), 0))
    else
      && b.committed[0] == a.committed[0]
      && (b.stages[0].status.state == Succeeded <==> a.stages[0].status.state == Succeeded)
  }

  /** A call that does not return ends while reconciling, or in the round after some chain. */
  ghost predicate CallCut(w: World, request: string, faults: nat -> Fault, implementations: seq<Implementation>,
                          until: nat, a: Moment, b: Moment, outcome: Outcome)
    requires a.WellFormed() && b.WellFormed() && until < STAGE_COUNT == |implementations|
  {
    if AllProceed(faults, a.clock, LoopStart(a.stages, a.clock)) then
      LoopCut(w, request, faults, implementations, until, AllReconciled(a), b, outcome)
    else
      outcome == Aborted && exists k :: 0 <= k < STAGE_COUNT && CutReconciling(faults, a, b, k)
  }

  /** The call returns: the stages hold a clean run, and those that were stale or unreadable were executed. */
  ghost predicate CallReturns(w: World, request: string, faults: nat -> Fault, implementations: seq<Implementation>,
                              until: nat, a: Moment, b: Moment)
  {
    && HoldsCleanRun(w, request, b.stages, implementations, until)
    && OnlyStaleExecuted(w, request, faults, LoopStart(a.stages, a.clock), a.stages, b.stages, implementations, until)
    && AllProceed(faults, a.clock, LoopStart(a.stages, a.clock))
    && RoundsReturn(w, request, faults, LoopStart(a.stages, a.clock), a.stages, implementations,
                    CleanRun(w, request, implementations, b.stages[0].result.value, until))
  }

  /** What one call makes of a run. */
  ghost predicate CallMade(w: World, request: string, faults: nat -> Fault, implementations: seq<Implementation>,
                           until: nat, a: Moment, b: Moment, outcome: Outcome)
    requires until < STAGE_COUNT == |implementations|
  {
    && a.WellFormed() && b.WellFormed() && NeverBack(a.stages, b.stages) && b.clock >= a.clock
    && (forall k :: until < k < STAGE_COUNT ==>
          b.stages[k] == a.stages[k] || b.stages[k] == Reconciled(a.stages[k]))
    && ResolveKept(w, request, faults, implementations[0], a, b, outcome)
    && NothingLostSilently(a, b, outcome)
    && (outcome == Returned ==> CallReturns(w, request, faults, implementations, until, a, b))
    && ((forall n :: faults(n) == Proceed) ==> outcome == Returned)
  }

  lemma CallEndsReconciling(w: World, request: string, faults: nat -> Fault, implementations: seq<Implementation>,
                            until: nat, a: Moment, b: Moment, k: nat)
    requires a.WellFormed() && b.WellFormed() && until < STAGE_COUNT == |implementations| && k < STAGE_COUNT
    requires !AllProceed(faults, a.clock, LoopStart(a.stages, a.clock)) && CutReconciling(faults, a, b, k)
    ensures CallMade(w, request, faults, implementations, until, a, b, Aborted)
  {
  }

  lemma ResolveKeptInLoop(w: World, request: string, faults: nat -> Fault, implementations: seq<Implementation>,
                          until: nat, a: Moment, b: Moment, outcome: Outcome)
    requires a.WellFormed() && b.WellFormed() && until < STAGE_COUNT == |implementations|
    requires AllProceed(faults, a.clock, LoopStart(a.stages, a.clock))
    requires LoopLeft(w, request, faults, implementations, until, AllReconciled(a), b, outcome)
    ensures ResolveKept(w, request, faults, implementations[0], a, b, outcome)
  {
  }

  lemma ReturnAfterReconciling(w: World, request: string, faults: nat -> Fault, implementations: seq<Implementation>,
                               until: nat, a: Moment, b: Moment)
    requires a.WellFormed() && HoldsCleanRun(w, request, b.stages, implementations, until)
    requires OnlyStaleExecuted(w, request, faults, AllReconciled(a).clock, AllReconciled(a).stages, b.stages,
                               implementations, until)
    requires AllProceed(faults, a.clock, AllReconciled(a).clock) && |implementations| == STAGE_COUNT > until
    requires RoundsReturn(w, request, faults, AllReconciled(a).clock, AllReconciled(a).stages, implementations,
                          CleanRun(w, request, implementations, b.stages[0].result.value, until))
    ensures CallReturns(w, request, faults, implementations, until, a, b)
  {
    var start := AllReconciled(a);
    SameRoundStart(w, request, faults, start.clock, a.stages, start.stages, implementations,
                   CleanRun(w, request, implementations, b.stages[0].result.value, until));
    StaleBeforeReconciling(w, request, faults, start.clock, a.stages, start.stages, b.stages, implementations, until);
  }

  lemma CallEndsAfterLoop(w: World, request: string, faults: nat -> Fault, implementations: seq<Implementation>,
                          until: nat, a: Moment, b: Moment, outcome: Outcome)
    requires a.WellFormed() && b.WellFormed() && until < STAGE_COUNT == |implementations|
    requires AllProceed(faults, a.clock, LoopStart(a.stages, a.clock))
    requires LoopLeft(w, request, faults, implementations, until, AllReconciled(a), b, outcome)
    requires outcome == Returned ==> CallReturns(w, request, faults, implementations, until, a, b)
    ensures CallMade(w, request, faults, implementations, until, a, b, outcome)
  {
    var start := AllReconciled(a);
    ReconcilingIsNoStepBack(a.stages, start.stages, STAGE_COUNT);
    NeverBackTwice(a.stages, start.stages, b.stages);
    AccountBeforeReconciling(a, start, b, outcome);
    ResolveKeptInLoop(w, request, faults, implementations, until, a, b, outcome);
  }
}
