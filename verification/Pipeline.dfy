/** The pipeline itself: every method may be cut short before or after any of its atomic writes. */
module Pipeline {
  import opened Wrappers
  import opened ResultChain
  import opened PipelineSteps

  class Run {
    const world: World
    const request: string
    /** The schedule of faults, and the number of steps taken so far in the life of the run. */
    const faults: nat -> Fault
    var clock: nat
    var stages: seq<StageFiles>
    /** For each stage, every result that its status was ever written as succeeded with. */
    ghost var committed: seq<seq<StageResult>>

    ghost predicate Valid()
      reads this
    {
      && Injective(world)
      && |stages| == |committed| == STAGE_COUNT
      && forall k {:trigger Sound(world, request, k, stages[k])} ::
           0 <= k < STAGE_COUNT ==> Sound(world, request, k, stages[k])
    }

    ghost function Now(): Moment
      reads this
    {
      Moment(clock, stages, committed)
    }

    constructor (world: World, request: string, faults: nat -> Fault)
      requires Injective(world)
      ensures Valid() && this.world == world && this.request == request && this.faults == faults
      ensures clock == 0 && stages == seq(STAGE_COUNT, _ => NO_FILES) && committed == seq(STAGE_COUNT, _ => [])
    {
      this.world, this.request, this.faults := world, request, faults;
      clock := 0;
      stages := seq(STAGE_COUNT, _ => NO_FILES);
      committed := seq(STAGE_COUNT, _ => []);
    }

    /** A point at which a fault can come; one that hits an atomic write after its rename comes at the next step. */
    method Step() returns (f: Fault)
      modifies this`clock
      ensures f == faults(old(clock)) && clock == old(clock) + 1
    {
      f := faults(clock);
      clock := clock + 1;
    }

    /** One atomic write below the directory of stage `k`. */
    method Put(k: nat, f: StageFiles)
      requires Valid() && k < STAGE_COUNT && Sound(world, request, k, f)
      modifies this`stages, this`committed
      ensures Valid() && stages == old(stages)[k := f]
      ensures committed == if f.status.state == Succeeded then old(committed)[k := old(committed[k]) + [f.result.value]]
                           else old(committed)
    {
      stages := stages[k := f];
      if f.status.state == Succeeded {
        committed := committed[k := committed[k] + [f.result.value]];
      }
    }

    /** The results an executor of stage `k` reads through its context. */
    function CommittedBefore(k: nat): (chain: seq<StageResult>)
      requires k <= |stages| && forall i :: 0 <= i < k ==> stages[i].result.Some?
      reads this
      ensures |chain| == k && forall i :: 0 <= i < k ==> chain[i] == stages[i].result.value
    {
      if k == 0 then [] else CommittedBefore(k - 1) + [stages[k - 1].result.value]
    }

    /** The start of the `try` block of `_execute_stage`, up to the end of the executor. */
    method Begin(k: nat, attempt: nat, prepared: InputRecord, ghost files: StageFiles)
      returns (fault: Fault, ghost t: nat)
      requires Valid() && k < STAGE_COUNT && attempt >= 1 && files.input == Some(prepared)
      requires files.status == StageStatus(Succeeded, attempt, Some(prepared.digest), files.status.resultSha256)
      modifies this
      ensures Valid() && Begun(faults, k, files, old(Now()), Now(), t, fault)
    {
      fault := Step();
      t := 0;
      if fault != Proceed {
        return;
      }
      Put(k, stages[k].(status := StageStatus(Running, attempt, Some(prepared.digest), None)));
      fault := Step();
      t := 1;
      if fault != Proceed {
        return;
      }
      Put(k, stages[k].(input := Some(prepared)));
      fault := Step();
      t := 2;
      if fault != Proceed {
        return;
      }
      fault := Step();
      t := if fault != Proceed then 3 else 4;
    }

    /**
     The last statements of the `try` block: the status is written, then `committed` is set, and the
     observer is notified.
     */
    method LeaveTry(k: nat, status: StageStatus, ghost files: StageFiles)
      returns (fault: Fault, flag: bool, ghost t: nat)
      requires Valid() && k < STAGE_COUNT && Sound(world, request, k, files) && files.status.state == Succeeded
      requires stages[k].(status := status) == files
      modifies this
      ensures Valid() && stages == old(stages)[k := files]
      ensures committed == old(committed)[k := old(committed[k]) + [files.result.value]]
      ensures Ends(faults, old(clock), 2, t, clock, fault) && flag == (t >= 1)
    {
      Put(k, stages[k].(status := status));
      fault := Step();
      flag, t := false, 0;
      if fault == Proceed {
        flag := true;
        fault := Step();
        t := if fault == Proceed then 2 else 1;
      }
    }

    /**
     The end of the `try` block: result and status are written, in this order, and `committed` is set.
     The flag tells whether it was, one step after the status was written as succeeded.
     */
    method Commit(k: nat, i: Implementation, attempt: nat, prepared: InputRecord, payload: string,
                  ghost chain: seq<StageResult>, ghost was: StageFiles)
      returns (fault: Fault, flag: bool, ghost t: nat)
      requires Valid() && k < STAGE_COUNT && attempt >= 1
      requires IsChain(world, request, chain) && |chain| == k
      requires prepared.document == InputAfter(world, request, chain, i)
      requires prepared.digest == world.inputDigest(prepared.document)
      requires payload == world.run(prepared.document, chain)
      requires stages[k] == Written(was, SucceededFiles(world, request, chain, i, attempt), 3)
      modifies this
      ensures Valid() && flag == (t >= 2)
      ensures Finished(faults, k, was, SucceededFiles(world, request, chain, i, attempt), old(Now()), Now(), t, fault)
    {
      ghost var before, files := Now(), SucceededFiles(world, request, chain, i, attempt);
      NewlyCommitted(world, request, chain, i, attempt);
      var result := StageResult(k, prepared.digest, i.version, payload);
      Put(k, stages[k].(result := Some(result)));
      fault := Step();
      if fault != Proceed {
        OnlyResultWritten(faults, k, was, files, before, Now());
        return fault, false, 0;
      }
      var status := StageStatus(Succeeded, attempt, Some(prepared.digest), Some(world.resultDigest(result)));
      ghost var written := Now();
      fault, flag, t := LeaveTry(k, status, files);
      AllWritten(faults, k, was, files, before, written, Now(), t, fault);
      t := t + 1;
    }

    /** The `try` block of `_execute_stage`: a fault ends it after the writes made so far. */
    method Attempt(k: nat, i: Implementation, attempt: nat, prepared: InputRecord, ghost chain: seq<StageResult>)
      returns (fault: Fault, flag: bool, ghost t: nat)
      requires Valid() && k < STAGE_COUNT && attempt == stages[k].status.attempt + 1
      requires Stands(world, request, stages, chain) && |chain| == k
      requires prepared.document == InputAfter(world, request, chain, i)
      requires prepared.digest == world.inputDigest(prepared.document)
      modifies this
      ensures Valid() && flag == (t >= 6)
      ensures Tried(faults, k, SucceededFiles(world, request, chain, i, attempt), old(Now()), Now(), t, fault)
    {
      ghost var before, files := Now(), SucceededFiles(world, request, chain, i, attempt);
      fault, t := Begin(k, attempt, prepared, files);
      flag := false;
      ghost var begun := Now();
      if fault != Proceed {
        NotBegun(faults, k, files, before, begun, t, fault);
        return;
      }
      var priors := CommittedBefore(k);
      assert priors == chain;
      var payload := world.run(prepared.document, priors);
      ghost var rest;
      fault, flag, rest := Commit(k, i, attempt, prepared, payload, chain, before.stages[k]);
      t := 4 + rest;
      BegunAndFinished(faults, k, files, before, begun, Now(), rest, fault);
    }

    /** `_write_failure_status`: done when no fault comes before or after its write. */
    method WriteFailureStatus(k: nat, status: StageStatus) returns (done: bool)
      requires Valid() && k < STAGE_COUNT && status.FieldsMatchState() && status.state != Succeeded
      modifies this
      ensures Valid() && (done <==> faults(old(clock)) == Proceed && faults(old(clock) + 1) == Proceed)
      ensures Now() == FailureWritten(faults, k, status, old(Now()))
    {
      var fault := Step();
      if fault != Proceed {
        return false;
      }
      Put(k, stages[k].(status := status));
      fault := Step();
      done := fault == Proceed;
    }

    /** The handlers of `_execute_stage`, for the fault that ended the `try` block begun at `before`. */
    method Handle(k: nat, i: Implementation, prepared: InputRecord, attempt: nat, fault: Fault, flag: bool,
                  ghost chain: seq<StageResult>, ghost before: Moment, ghost t: nat)
      returns (outcome: Outcome)
      requires Valid() && k < STAGE_COUNT && |chain| == k && before.WellFormed() && flag == (t >= 6)
      requires attempt == before.stages[k].status.attempt + 1
      requires prepared.digest == world.inputDigest(InputAfter(world, request, chain, i))
      requires Tried(faults, k, SucceededFiles(world, request, chain, i, attempt), before, Now(), t, fault)
      modifies this
      ensures Valid() && StageExecuted(world, request, faults, chain, i, before, Now(), outcome)
    {
      ghost var tried := Now();
      if fault == Proceed || fault == Crash || (fault == Interrupt && flag) {
        NotHandled(world, request, faults, chain, i, before, tried, t, fault);
        return if fault == Crash then Aborted else Returned;
      }
      var state := if fault == Interrupt then Interrupted else Failed;
      var done := WriteFailureStatus(k, StageStatus(state, attempt, Some(prepared.digest), None));
      outcome := if !done then Aborted else if fault == Interrupt then RunInterrupted(k) else StageFailed(k);
      Handled(world, request, faults, chain, i, before, tried, Now(), t, fault);
    }

    /**
     `_execute_stage`. A stage whose status was written as succeeded ends otherwise exactly when a
     fault between that write and the end of the `try` block makes the handler write over it.
     */
    method ExecuteStage(k: nat, i: Implementation, prepared: InputRecord, ghost chain: seq<StageResult>)
      returns (outcome: Outcome)
      requires Valid() && k < STAGE_COUNT
      requires Stands(world, request, stages, chain) && |chain| == k
      requires prepared.document == InputAfter(world, request, chain, i)
      requires prepared.digest == world.inputDigest(prepared.document)
      modifies this
      ensures Valid() && StageExecuted(world, request, faults, chain, i, old(Now()), Now(), outcome)
    {
      ghost var before := Now();
      var attempt := stages[k].status.attempt + 1;
      var fault, flag, t := Attempt(k, i, attempt, prepared, chain);
      outcome := Handle(k, i, prepared, attempt, fault, flag, chain, before, t);
    }

    /** A stage left running by a process that died is marked interrupted. */
    method ReconcileStage(k: nat) returns (fault: Fault)
      requires Valid() && k < STAGE_COUNT
      modifies this`clock, this`stages, this`committed
      ensures Valid() && StageReconciled(faults, old(Now()), Now(), k, fault)
    {
      assert Sound(world, request, k, stages[k]);
      fault := Proceed;
      if stages[k].status.state == Running {
        fault := Step();
        if fault != Proceed {
          return;
        }
        Put(k, stages[k].(status := stages[k].status.(state := Interrupted)));
        fault := Step();
      }
    }

    /** `_reconcile_interrupted`: every stage is reconciled, or a fault cuts that short. */
    method ReconcileInterrupted() returns (fault: Fault)
      requires Valid()
      modifies this`clock, this`stages, this`committed
      ensures Valid()
      ensures fault == Proceed <==> AllProceed(faults, old(clock), LoopStart(old(stages), old(clock)))
      ensures fault == Proceed ==> Now() == AllReconciled(old(Now()))
      ensures fault != Proceed ==> exists k :: 0 <= k < STAGE_COUNT && CutReconciling(faults, old(Now()), Now(), k)
    {
      fault := Proceed;
      ghost var start := Now();
      for k := 0 to STAGE_COUNT
        invariant Valid() && fault == Proceed && ReconciledUpto(faults, start, Now(), k)
      {
        ghost var before := Now();
        fault := ReconcileStage(k);
        ReconcileGoesOn(faults, start, before, Now(), k, fault);
        if fault != Proceed {
          return;
        }
      }
    }

    /**
     `_load_pinned_resolve` when the resolve stage has succeeded: its files pass every check, so only
     an exception on the way makes the call refuse it.
     */
    method LoadPinnedResolve() returns (outcome: Outcome)
      requires Valid() && stages[0].status.state == Succeeded
      modifies this`clock
      ensures clock == old(clock) + 1
      ensures outcome == Returned <==> faults(old(clock)) == Proceed
      ensures outcome == PinnedResolveInvalid <==> faults(old(clock)) == Raise
      ensures outcome == Aborted <==> faults(old(clock)) in {Interrupt, Crash}
    {
      var fault := Step();
      assert Sound(world, request, 0, stages[0]);
      var pinned := LoadCommittedResult(world, 0, stages[0]);
      if fault == Raise || pinned == None || stages[0].input.value.document.request != request
         || stages[0].input.value.document.upstream != None {
        return PinnedResolveInvalid;
      }
      outcome := if fault == Proceed then Returned else Aborted;
    }

    /** The round of a stage that is executed, begun at `before`. */
    method ExecuteInRound(k: nat, i: Implementation, prepared: InputRecord, ghost chain: seq<StageResult>,
                          ghost before: Moment)
      returns (outcome: Outcome)
      requires Valid() && k < STAGE_COUNT && before.WellFormed()
      requires Stands(world, request, stages, chain) && |chain| == k
      requires prepared.document == InputAfter(world, request, chain, i)
      requires prepared.digest == world.inputDigest(prepared.document)
      requires IsExecuted(world, faults, before.clock, prepared.document, before.stages[k])
      requires Now() == before.(clock := ExecutionStart(world, before.clock, prepared.document, before.stages[k]))
      modifies this
      ensures Valid() && Round(world, request, faults, chain, i, before, Now(), outcome)
    {
      ghost var began := Now();
      outcome := ExecuteStage(k, i, prepared, chain);
      ExecutedRound(world, request, faults, chain, i, before, began, Now(), outcome);
    }

    /**
     `_load_reusable`, as a round of its own unless it answers that there is nothing to reuse. That is
     what it answers when an exception hits the reading of the files.
     */
    method Reuse(k: nat, i: Implementation, prepared: InputRecord, ghost chain: seq<StageResult>)
      returns (outcome: Option<Outcome>)
      requires Valid() && k < STAGE_COUNT && Stands(world, request, stages, chain) && |chain| == k
      requires k == 0 ==> stages[0].status.state != Succeeded
      requires prepared.document == InputAfter(world, request, chain, i)
      requires prepared.digest == world.inputDigest(prepared.document)
      modifies this`clock
      ensures outcome.Some? ==> Round(world, request, faults, chain, i, old(Now()), Now(), outcome.value)
      ensures outcome == None ==> IsExecuted(world, faults, old(clock), prepared.document, stages[k])
      ensures outcome == None ==> clock == ExecutionStart(world, old(clock), prepared.document, stages[k])
    {
      var reusable := LoadReusable(world, k, stages[k], prepared);
      ReusableWhenSameInput(world, request, k, stages[k], prepared);
      if reusable == None {
        return None;
      }
      ReusedIsClean(world, request, k, stages[k], chain, i);
      var fault := Step();
      if fault == Raise {
        return None;
      }
      outcome := Some(if fault == Proceed then Returned else Aborted);
      ReadRound(world, request, faults, chain, i, old(Now()), outcome.value);
    }

    /** One round of the stage loop of `_execute`: the pinned resolve, a reusable result, or an execution. */
    method RunStage(k: nat, i: Implementation, ghost chain: seq<StageResult>) returns (outcome: Outcome)
      requires Valid() && k < STAGE_COUNT && Stands(world, request, stages, chain) && |chain| == k
      modifies this
      ensures Valid() && Round(world, request, faults, chain, i, old(Now()), Now(), outcome)
    {
      if k == 0 && stages[0].status.state == Succeeded {
        outcome := LoadPinnedResolve();
        PinnedRound(world, request, faults, i, old(Now()), outcome);
        return;
      }
      assert k > 0 ==> Sound(world, request, k - 1, stages[k - 1]);
      var upstream := if k == 0 then None
                      else Some(UpstreamReference(k - 1, stages[k - 1].status.resultSha256.value));
      var document := InputDocument(k, i.version, request, upstream, i.configuration);
      var prepared := InputRecord(world.inputDigest(document), document);
      assert document == InputAfter(world, request, chain, i);
      var reused := Reuse(k, i, prepared, chain);
      if reused.Some? {
        return reused.value;
      }
      outcome := ExecuteInRound(k, i, prepared, chain, old(Now()));
    }

    /** The stage loop of `_execute`. */
    method RunStages(until: nat, implementations: seq<Implementation>) returns (outcome: Outcome)
      requires Valid() && until < STAGE_COUNT == |implementations|
      modifies this
      ensures Valid() && LoopLeft(world, request, faults, implementations, until, old(Now()), Now(), outcome)
      ensures outcome != Returned ==>
        LoopCut(world, request, faults, implementations, until, old(Now()), Now(), outcome)
      ensures outcome == Returned ==> HoldsCleanRun(world, request, stages, implementations, until)
      ensures outcome == Returned ==>
        && OnlyStaleExecuted(world, request, faults, old(clock), old(stages), stages, implementations, until)
        && RoundsReturn(world, request, faults, old(clock), old(stages), implementations,
                        CleanRun(world, request, implementations, stages[0].result.value, until))
    {
      ghost var chain: seq<StageResult> := [];
      ghost var start := Now();
      for k := 0 to until + 1
        invariant Valid() && |chain| == k
        invariant LoopUpto(world, request, faults, implementations, chain, start, Now())
      {
        ghost var before := Now();
        outcome := RunStage(k, implementations[k], chain);
        if outcome != Returned {
          RoundTaken(world, request, faults, implementations, chain, start, before, Now(), outcome);
          RoundIsCut(world, request, faults, chain, implementations[k], before, Now(), outcome);
          LastRound(world, request, faults, implementations, chain, start, before, Now(), outcome);
          return;
        }
        RoundDone(world, request, faults, implementations, chain, start, before, Now());
        chain := chain + [stages[k].result.value];
      }
      outcome := Returned;
      LoopEnds(world, request, faults, implementations, chain, start, Now());
      HeldAndOnlyStale(world, request, faults, start.clock, start.stages, stages, implementations, chain, until);
    }

    /**
     `_execute` without direct resume. Whatever happens, the run stays valid, attempts only grow and a
     resolve result that was committed before the call stays. One that is committed in the call stays
     exactly when no fault after its status makes the handler write over it. When the call returns,
     the stages hold what a run from scratch would have committed, after the resolve result that was
     pinned or has just been made, and only the stages that were not committed under that very input
     have been executed, each of them once.
     */
    method Execute(until: nat, implementations: seq<Implementation>) returns (outcome: Outcome)
      requires Valid() && until < STAGE_COUNT == |implementations|
      modifies this
      ensures Valid()
      ensures CallMade(world, request, faults, implementations, until, old(Now()), Now(), outcome)
      ensures outcome != Returned ==>
        CallCut(world, request, faults, implementations, until, old(Now()), Now(), outcome)
    {
      var fault := ReconcileInterrupted();
      if fault != Proceed {
        ghost var k :| 0 <= k < STAGE_COUNT && CutReconciling(faults, old(Now()), Now(), k);
        CallEndsReconciling(world, request, faults, implementations, until, old(Now()), Now(), k);
        return Aborted;
      }
      outcome := RunStages(until, implementations);
      if outcome == Returned {
        ReturnAfterReconciling(world, request, faults, implementations, until, old(Now()), Now());
      }
      CallEndsAfterLoop(world, request, faults, implementations, until, old(Now()), Now(), outcome);
    }
  }
}
