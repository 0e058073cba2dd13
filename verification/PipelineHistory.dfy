/** Whole histories of a run: any sequence of calls, each with its own implementations, interrupted anywhere. */
module PipelineHistory {
  import opened Wrappers
  import opened ResultChain
  import opened PipelineSteps
  import opened Pipeline

  datatype Call = Call(until: nat, implementations: seq<Implementation>)

  predicate ValidCall(c: Call) {
    c.until < STAGE_COUNT == |c.implementations|
  }

  ghost predicate Made(w: World, request: string, faults: nat -> Fault, call: Call, a: Moment, b: Moment, o: Outcome)
    requires ValidCall(call)
  {
    CallMade(w, request, faults, call.implementations, call.until, a, b, o)
  }

  /** A call, for what it makes of the run. */
  method Execute(run: Run, call: Call) returns (outcome: Outcome)
    requires run.Valid() && ValidCall(call)
    modifies run
    ensures run.Valid() && Made(run.world, run.request, run.faults, call, old(run.Now()), run.Now(), outcome)
  {
    outcome := run.Execute(call.until, call.implementations);
  }

  /** How many of the calls that started at these moments lost the resolve result they had committed. */
  ghost function Losses(faults: nat -> Fault, starts: seq<Moment>): nat {
    if starts == [] then 0
    else
      var last := starts[|starts| - 1];
      Losses(faults, starts[..|starts| - 1]) + if ResolveLost(faults, last.stages, last.clock) then 1 else 0
  }

  /** A resolve result is committed once, and once more for each time it was lost. */
  ghost predicate ResolveCounted(faults: nat -> Fault, starts: seq<Moment>, now: Moment) {
    && now.WellFormed()
    && |now.committed[0]| == Losses(faults, starts) + if now.stages[0].status.state == Succeeded then 1 else 0
  }

  lemma CountGrows(w: World, request: string, faults: nat -> Fault, moments: seq<Moment>, n: nat, call: Call,
                   b: Moment, o: Outcome)
    requires ValidCall(call) && |moments| == n + 1 && Made(w, request, faults, call, moments[n], b, o)
    requires ResolveCounted(faults, moments[..n], moments[n])
    ensures ResolveCounted(faults, (moments + [b])[..n + 1], b)
  {
    assert (moments + [b])[..n + 1] == moments && moments[..n] + [moments[n]] == moments;
  }

  function NewRun(): Moment {
    Moment(0, seq(STAGE_COUNT, _ => NO_FILES), seq(STAGE_COUNT, _ => []))
  }

  /** The moments between the calls of a history, from the empty run directory on. */
  ghost predicate IsHistory(w: World, request: string, faults: nat -> Fault, calls: seq<Call>,
                            moments: seq<Moment>, outcomes: seq<Outcome>)
    requires forall c <- calls :: ValidCall(c)
  {
    && |moments| == |calls| + 1 == |outcomes| + 1
    && if calls == [] then moments[0] == NewRun()
       else
         var n := |calls| - 1;
         && IsHistory(w, request, faults, calls[..n], moments[..n + 1], outcomes[..n])
         && Made(w, request, faults, calls[n], moments[n], moments[n + 1], outcomes[n])
  }

  /** A history that has come as far as `now`. */
  ghost predicate HistoryUpto(w: World, request: string, faults: nat -> Fault, calls: seq<Call>,
                              moments: seq<Moment>, outcomes: seq<Outcome>, now: Moment)
  {
    && (forall c <- calls :: ValidCall(c))
    && IsHistory(w, request, faults, calls, moments, outcomes)
    && moments[|calls|] == now && ResolveCounted(faults, moments[..|calls|], now)
    && ((forall n :: faults(n) == Proceed) ==> forall o <- outcomes :: o == Returned)
  }

  lemma HistoryGrows(w: World, request: string, faults: nat -> Fault, calls: seq<Call>, call: Call,
                     moments: seq<Moment>, outcomes: seq<Outcome>, b: Moment, o: Outcome)
    requires (forall c <- calls :: ValidCall(c)) && ValidCall(call)
    requires IsHistory(w, request, faults, calls, moments, outcomes)
    requires Made(w, request, faults, call, moments[|calls|], b, o)
    ensures IsHistory(w, request, faults, calls + [call], moments + [b], outcomes + [o])
  {
    var n := |calls|;
    assert (calls + [call])[..n] == calls && (moments + [b])[..n + 1] == moments && (outcomes + [o])[..n] == outcomes;
    assert (calls + [call])[n] == call && (moments + [b])[n] == moments[n] && (outcomes + [o])[n] == o;
  }

  lemma OneMoreCall(w: World, request: string, faults: nat -> Fault, calls: seq<Call>, call: Call,
                    moments: seq<Moment>, outcomes: seq<Outcome>, b: Moment, o: Outcome)
    requires ValidCall(call) && moments != [] && Made(w, request, faults, call, moments[|moments| - 1], b, o)
    requires HistoryUpto(w, request, faults, calls, moments, outcomes, moments[|moments| - 1])
    ensures HistoryUpto(w, request, faults, calls + [call], moments + [b], outcomes + [o], b)
  {
    HistoryGrows(w, request, faults, calls, call, moments, outcomes, b, o);
    CountGrows(w, request, faults, moments, |calls|, call, b, o);
  }

  lemma {:induction false} LaterMoment(
      w: World, request: string, faults: nat -> Fault, calls: seq<Call>, moments: seq<Moment>, outcomes: seq<Outcome>,
      m: nat, n: nat)
    requires forall c <- calls :: ValidCall(c)
    requires IsHistory(w, request, faults, calls, moments, outcomes) && m <= n <= |calls|
    ensures NeverBack(moments[m].stages, moments[n].stages)
    decreases |calls|
  {
    var last := |calls| - 1;
    if n < |calls| {
      LaterMoment(w, request, faults, calls[..last], moments[..last + 1], outcomes[..last], m, n);
    } else if m < n {
      LaterMoment(w, request, faults, calls[..last], moments[..last + 1], outcomes[..last], m, last);
      NeverBackTwice(moments[m].stages, moments[last].stages, moments[n].stages);
    }
  }

  /** Over a whole history attempts only grow, and a resolve result that is there between two calls stays. */
  lemma HistoryNeverGoesBack(w: World, request: string, faults: nat -> Fault, calls: seq<Call>, moments: seq<Moment>,
                             outcomes: seq<Outcome>)
    requires forall c <- calls :: ValidCall(c)
    requires IsHistory(w, request, faults, calls, moments, outcomes)
    ensures forall m, n :: 0 <= m <= n <= |calls| ==> NeverBack(moments[m].stages, moments[n].stages)
  {
    forall m, n | 0 <= m <= n <= |calls|
      ensures NeverBack(moments[m].stages, moments[n].stages)
    {
      LaterMoment(w, request, faults, calls, moments, outcomes, m, n);
    }
  }

  /** One more call of a history. */
  method Continue(run: Run, call: Call, ghost calls: seq<Call>, ghost moments: seq<Moment>,
                  ghost outcomes: seq<Outcome>)
    returns (outcome: Outcome)
    requires run.Valid() && ValidCall(call)
    requires HistoryUpto(run.world, run.request, run.faults, calls, moments, outcomes, run.Now())
    modifies run
    ensures run.Valid()
    ensures HistoryUpto(run.world, run.request, run.faults, calls + [call], moments + [run.Now()],
                        outcomes + [outcome], run.Now())
  {
    outcome := Execute(run, call);
    OneMoreCall(run.world, run.request, run.faults, calls, call, moments, outcomes, run.Now(), outcome);
  }

  /**
   Incremental equals clean, over any history of starts, crashes, failures, interruptions and changed
   implementations: a call that returns leaves the stages up to its `until` with exactly the results
   of a run from scratch that goes on from the resolve result, attempts only grow, a resolve result
   that a call leaves stays forever, and resolve is committed again only after a call lost it.
   */
  method Replay(world: World, request: string, faults: nat -> Fault, calls: seq<Call>)
    returns (run: Run, outcomes: seq<Outcome>, ghost moments: seq<Moment>)
    requires Injective(world) && forall c <- calls :: ValidCall(c)
    ensures fresh(run) && run.world == world && run.request == request && run.Valid()
    ensures IsHistory(world, request, faults, calls, moments, outcomes) && moments[|calls|] == run.Now()
    ensures forall m, n :: 0 <= m <= n <= |calls| ==> NeverBack(moments[m].stages, moments[n].stages)
    ensures ResolveCounted(faults, moments[..|calls|], run.Now())
    ensures (forall n :: faults(n) == Proceed) ==> forall o <- outcomes :: o == Returned
  {
    run := new Run(world, request, faults);
    outcomes := [];
    moments := [run.Now()];
    for c := 0 to |calls|
      invariant fresh(run) && run.world == world && run.request == request && run.faults == faults
      invariant run.Valid() && HistoryUpto(world, request, faults, calls[..c], moments, outcomes, run.Now())
    {
      assert calls[c] in calls && calls[..c + 1] == calls[..c] + [calls[c]];
      var outcome := Continue(run, calls[c], calls[..c], moments, outcomes);
      outcomes := outcomes + [outcome];
      moments := moments + [run.Now()];
    }
    assert calls[..|calls|] == calls;
    HistoryNeverGoesBack(world, request, faults, calls, moments, outcomes);
  }

  /** The stored input of a sound stage is the one that its result was computed for. */
  lemma StoredInputIsClean(w: World, request: string, k: nat, f: StageFiles, chain: seq<StageResult>, i: Implementation)
    requires Injective(w) && Sound(w, request, k, f) && f.status.state == Succeeded
    requires f.result == Some(ResultAfter(w, request, chain, i))
    ensures var document := InputAfter(w, request, chain, i);
      f.input == Some(InputRecord(w.inputDigest(document), document))
  {
  }

  /** A run from scratch, seen from its stage `k`. */
  lemma {:induction false} CleanAt(w: World, request: string, implementations: seq<Implementation>,
                                   resolved: StageResult, k: nat, n: nat)
    requires 1 <= k <= n < |implementations|
    ensures var clean := CleanRun(w, request, implementations, resolved, n);
      var chain := CleanRun(w, request, implementations, resolved, k - 1);
      clean[..k] == chain && clean[k] == ResultAfter(w, request, chain, implementations[k])
  {
    var clean := CleanRun(w, request, implementations, resolved, n);
    var before := CleanRun(w, request, implementations, resolved, n - 1);
    assert clean == before + [ResultAfter(w, request, before, implementations[n])];
    if k < n {
      CleanAt(w, request, implementations, resolved, k, n - 1);
      assert clean[..k] == before[..k];
    }
  }

  lemma HeldAt(w: World, request: string, after: seq<StageFiles>, implementations: seq<Implementation>,
               until: nat, k: nat)
    requires HoldsCleanRun(w, request, after, implementations, until) && 1 <= k <= until
    ensures var chain := CleanRun(w, request, implementations, after[0].result.value, k - 1);
      after[k].status.state == Succeeded && after[k].result == Some(ResultAfter(w, request, chain, implementations[k]))
  {
    CleanAt(w, request, implementations, after[0].result.value, k, until);
  }

  predicate CommittedUnder(input: InputRecord, f: StageFiles) {
    f.status.state == Succeeded && f.input == Some(input)
  }

  lemma StaleAt(w: World, request: string, faults: nat -> Fault, c: nat,
                before: seq<StageFiles>, after: seq<StageFiles>,
                implementations: seq<Implementation>, until: nat, k: nat)
    requires OnlyStaleExecuted(w, request, faults, c, before, after, implementations, until) && 1 <= k <= until
    ensures var chain := CleanRun(w, request, implementations, after[0].result.value, k - 1);
      ProgressedAfter(w, request, faults, c, before, after, implementations, chain)
  {
    CleanAt(w, request, implementations, after[0].result.value, k, until);
    var clean := CleanRun(w, request, implementations, after[0].result.value, until);
    assert ProgressedAfter(w, request, faults, c, before, after, implementations, clean[..k]);
  }

  /**
   What a call that returned says about one stage: it holds the clean input, and it was executed exactly
   when that was not its stored input, or when an exception kept its files from being read.
   */
  lemma AfterReturn(w: World, request: string, faults: nat -> Fault, c: nat,
                    before: seq<StageFiles>, after: seq<StageFiles>,
                    implementations: seq<Implementation>, until: nat, k: nat)
    requires Injective(w) && |before| == |after| == STAGE_COUNT && 1 <= k <= until < STAGE_COUNT
    requires Sound(w, request, k, after[k])
    requires HoldsCleanRun(w, request, after, implementations, until)
    requires OnlyStaleExecuted(w, request, faults, c, before, after, implementations, until)
    ensures var chain := CleanRun(w, request, implementations, after[0].result.value, k - 1);
      var document := InputAfter(w, request, chain, implementations[k]);
      var prepared := InputRecord(w.inputDigest(document), document);
      var misread := faults(RoundStart(w, request, faults, c, before, implementations, chain)) == Raise;
      && CommittedUnder(prepared, after[k])
      && if CommittedUnder(prepared, before[k]) && !misread then after[k] == before[k]
         else after[k].status.attempt == before[k].status.attempt + 1
  {
    var chain := CleanRun(w, request, implementations, after[0].result.value, k - 1);
    HeldAt(w, request, after, implementations, until, k);
    StaleAt(w, request, faults, c, before, after, implementations, until, k);
    StoredInputIsClean(w, request, k, after[k], chain, implementations[k]);
  }

  /** An unchanged resume executes a stage exactly when an exception keeps its files from being read. */
  lemma UnchangedResumeAt(w: World, request: string, faults: nat -> Fault, c: nat,
                          before: seq<StageFiles>, after: seq<StageFiles>,
                          implementations: seq<Implementation>, until: nat, k: nat)
    requires Injective(w) && NeverBack(before, after)
    requires forall j :: 0 <= j < |before| ==> Sound(w, request, j, before[j])
    requires HoldsCleanRun(w, request, before, implementations, until) && 1 <= k <= until
    requires OnlyStaleExecuted(w, request, faults, c, before, after, implementations, until)
    ensures var chain := CleanRun(w, request, implementations, before[0].result.value, k - 1);
      var misread := faults(RoundStart(w, request, faults, c, before, implementations, chain)) == Raise;
      && (after[k] == before[k] <==> !misread)
      && (misread ==> after[k].status.attempt == before[k].status.attempt + 1 && after[k].input == before[k].input)
  {
    var chain := CleanRun(w, request, implementations, before[0].result.value, k - 1);
    HeldAt(w, request, before, implementations, until, k);
    StaleAt(w, request, faults, c, before, after, implementations, until, k);
    StoredInputIsClean(w, request, k, before[k], chain, implementations[k]);
  }

  /** Without such exceptions it executes nothing and changes no file. */
  lemma UnchangedResumeExecutesNothing(w: World, request: string, faults: nat -> Fault, c: nat,
                                       before: seq<StageFiles>, after: seq<StageFiles>,
                                       implementations: seq<Implementation>, until: nat)
    requires Injective(w) && NeverBack(before, after) && forall n :: faults(n) != Raise
    requires forall k :: 0 <= k < |before| ==> Sound(w, request, k, before[k])
    requires HoldsCleanRun(w, request, before, implementations, until)
    requires OnlyStaleExecuted(w, request, faults, c, before, after, implementations, until)
    ensures forall k :: 0 <= k <= until ==> after[k] == before[k]
  {
    forall k | 1 <= k <= until
      ensures after[k] == before[k]
    {
      UnchangedResumeAt(w, request, faults, c, before, after, implementations, until, k);
    }
  }

  /** The stored results of the stages, when each was committed upon the one stored below it. */
  ghost predicate StoredChain(w: World, request: string, stages: seq<StageFiles>, stored: seq<StageResult>) {
    && |stored| <= |stages| && IsChain(w, request, stored)
    && forall k :: 0 <= k < |stored| ==> stages[k].result == Some(stored[k])
  }

  /**
   Cascade: when the stored stages were committed one upon the other, a stage whose result changes
   forces every later stage to be executed.
   */
  lemma ChangedStageCascades(w: World, request: string, faults: nat -> Fault, c: nat,
                             before: seq<StageFiles>, after: seq<StageFiles>,
                             implementations: seq<Implementation>, until: nat, stored: seq<StageResult>, k: nat, n: nat)
    requires Injective(w) && |before| == |after| == STAGE_COUNT
    requires forall j :: 0 <= j < STAGE_COUNT ==> Sound(w, request, j, before[j]) && Sound(w, request, j, after[j])
    requires HoldsCleanRun(w, request, after, implementations, until)
    requires OnlyStaleExecuted(w, request, faults, c, before, after, implementations, until)
    requires StoredChain(w, request, before, stored) && |stored| == until + 1
    requires k < n <= until && after[k].result != before[k].result
    ensures after[n].status.attempt == before[n].status.attempt + 1
  {
    var chain := CleanRun(w, request, implementations, after[0].result.value, n - 1);
    PinnedIsChain(w, request, after[0]);
    CleanRunIsChain(w, request, implementations, after[0].result.value, n - 1);
    HeldBelow(w, request, after, implementations, until, k, n);
    ChangeCascades(w, request, stored, chain, k, n, implementations[n]);
    StaleAt(w, request, faults, c, before, after, implementations, until, n);
    OtherInput(w, request, n, before[n], InputAfter(w, request, chain, implementations[n]));
  }

  lemma HeldBelow(w: World, request: string, after: seq<StageFiles>, implementations: seq<Implementation>, until: nat,
                  k: nat, n: nat)
    requires HoldsCleanRun(w, request, after, implementations, until) && k < n <= until
    ensures after[k].result == Some(CleanRun(w, request, implementations, after[0].result.value, n - 1)[k])
  {
    CleanAt(w, request, implementations, after[0].result.value, n, until);
    assert CleanRun(w, request, implementations, after[0].result.value, until)[..n][k]
        == CleanRun(w, request, implementations, after[0].result.value, until)[k];
  }

  lemma OtherInput(w: World, request: string, k: nat, f: StageFiles, document: InputDocument)
    requires Sound(w, request, k, f) && f.result.Some? && f.result.value.inputDigest != w.inputDigest(document)
    ensures !(f.status.state == Succeeded && f.input == Some(InputRecord(w.inputDigest(document), document)))
  {
  }

  /** All stages under one implementation, but for the stage after resolve. */
  function AllBut(a: Implementation, b: Implementation): (r: seq<Implementation>)
    ensures |r| == STAGE_COUNT && r[1] == b && forall k :: 0 <= k < STAGE_COUNT && k != 1 ==> r[k] == a
  {
    [a, b] + seq(STAGE_COUNT - 2, _ => a)
  }

  ghost function FirstInput(w: World, request: string, resolved: StageResult, i: Implementation): InputRecord {
    var document := InputAfter(w, request, [resolved], i);
    InputRecord(w.inputDigest(document), document)
  }

  lemma AfterOne(w: World, request: string, faults: nat -> Fault, c: nat,
                 before: seq<StageFiles>, after: seq<StageFiles>, implementations: seq<Implementation>, until: nat)
    requires Injective(w) && |before| == |after| == STAGE_COUNT && 1 <= until < STAGE_COUNT
    requires forall n :: faults(n) != Raise
    requires Sound(w, request, 1, after[1])
    requires HoldsCleanRun(w, request, after, implementations, until)
    requires OnlyStaleExecuted(w, request, faults, c, before, after, implementations, until)
    ensures var input := FirstInput(w, request, after[0].result.value, implementations[1]);
      && CommittedUnder(input, after[1])
      && after[1].status.attempt == before[1].status.attempt + if CommittedUnder(input, before[1]) then 0 else 1
  {
    AfterReturn(w, request, faults, c, before, after, implementations, until, 1);
  }

  lemma AfterTwo(w: World, request: string, faults: nat -> Fault, c: nat,
                 before: seq<StageFiles>, after: seq<StageFiles>, implementations: seq<Implementation>)
    requires Injective(w) && |before| == |after| == STAGE_COUNT && forall n :: faults(n) != Raise
    requires Sound(w, request, 1, after[1]) && Sound(w, request, 2, after[2])
    requires HoldsCleanRun(w, request, after, implementations, 2)
    requires OnlyStaleExecuted(w, request, faults, c, before, after, implementations, 2)
    ensures var first := FirstInput(w, request, after[0].result.value, implementations[1]);
      && CommittedUnder(first, after[1])
      && after[1].status.attempt == before[1].status.attempt + if CommittedUnder(first, before[1]) then 0 else 1
    ensures var second := SecondInput(w, request, after[0].result.value, implementations);
      && CommittedUnder(second, after[2])
      && after[2].status.attempt == before[2].status.attempt + if CommittedUnder(second, before[2]) then 0 else 1
  {
    AfterOne(w, request, faults, c, before, after, implementations, 2);
    AfterReturn(w, request, faults, c, before, after, implementations, 2, 2);
  }

  ghost function SecondInput(w: World, request: string, resolved: StageResult, implementations: seq<Implementation>):
    InputRecord
    requires |implementations| > 2
  {
    var document := InputAfter(w, request, CleanRun(w, request, implementations, resolved, 1), implementations[2]);
    InputRecord(w.inputDigest(document), document)
  }

  /** A call without faults, whose loop started at step `c`, between two states of the stages. */
  ghost predicate CallReturned(w: World, request: string, faults: nat -> Fault, c: nat, call: Call,
                               before: seq<StageFiles>, after: seq<StageFiles>)
    requires ValidCall(call)
  {
    && (forall n :: faults(n) != Raise)
    && NeverBack(before, after)
    && (forall k :: 0 <= k < STAGE_COUNT ==> Sound(w, request, k, after[k]))
    && (forall k :: call.until < k < STAGE_COUNT && before[k].status.state != Running ==> after[k] == before[k])
    && HoldsCleanRun(w, request, after, call.implementations, call.until)
    && OnlyStaleExecuted(w, request, faults, c, before, after, call.implementations, call.until)
  }

  method Undisturbed(run: Run, call: Call)
    requires run.Valid() && ValidCall(call) && forall n :: run.faults(n) == Proceed
    modifies run
    ensures run.Valid()
    ensures CallReturned(run.world, run.request, run.faults, LoopStart(old(run.stages), old(run.clock)), call,
                         old(run.stages), run.stages)
  {
    var outcome := Execute(run, call);
  }

  /** A change of the stage after resolve is tried alone, and taken back. */
  lemma ThreeRuns(w: World, request: string, faults: nat -> Fault, c: nat, c': nat, c'': nat,
                  a: Implementation, b: Implementation, empty: seq<StageFiles>,
                  original: seq<StageFiles>, changed: seq<StageFiles>, last: seq<StageFiles>)
    requires Injective(w) && a != b && empty == seq(STAGE_COUNT, _ => NO_FILES)
    requires CallReturned(w, request, faults, c, Call(2, AllBut(a, a)), empty, original)
    requires CallReturned(w, request, faults, c', Call(1, AllBut(a, b)), original, changed)
    requires CallReturned(w, request, faults, c'', Call(2, AllBut(a, a)), changed, last)
    ensures last[1].status.attempt == 3 && last[2].status.attempt == 1
  {
    AfterTwo(w, request, faults, c, empty, original, AllBut(a, a));
    AfterOne(w, request, faults, c', original, changed, AllBut(a, b), 1);
    assert changed[2] == original[2];
    AfterTwo(w, request, faults, c'', changed, last, AllBut(a, a));
  }

  /**
   Without that condition the cascade fails: when the implementation of one stage is changed, only
   that stage is run, and the change is taken back, the stage is executed again under its changed
   input while the stage after it, stored upon the first result, is reused.
   */
  method RevertedChangeIsReused(world: World, request: string, a: Implementation, b: Implementation)
    returns (run: Run)
    requires Injective(world) && a != b
    ensures fresh(run) && run.Valid()
    ensures run.stages[1].status.attempt == 3 && run.stages[2].status.attempt == 1
  {
    run := new Run(world, request, _ => Proceed);
    ghost var empty, c := run.stages, LoopStart(run.stages, run.clock);
    Undisturbed(run, Call(2, AllBut(a, a)));
    ghost var original, c' := run.stages, LoopStart(run.stages, run.clock);
    Undisturbed(run, Call(1, AllBut(a, b)));
    ghost var changed, c'' := run.stages, LoopStart(run.stages, run.clock);
    Undisturbed(run, Call(2, AllBut(a, a)));
    ThreeRuns(world, request, run.faults, c, c', c'', a, b, empty, original, changed, run.stages);
  }

  /** Only step `n` has a fault. */
  function FaultAt(n: nat, fault: Fault): (faults: nat -> Fault)
    ensures faults(n) == fault && forall m: nat :: m != n ==> faults(m) == Proceed
  {
    m => if m == n then fault else Proceed
  }

  lemma FirstResolveIsLost(fault: Fault)
    requires fault in {Raise, Interrupt}
    ensures var stages := seq(STAGE_COUNT, _ => NO_FILES);
      && ResolveLost(FaultAt(5, fault), stages, 0) && LoopStart(stages, 0) == 0
      && ExecutionOutcome(FaultAt(5, fault), 0, 0) == if fault == Raise then StageFailed(0) else RunInterrupted(0)
  {
    NoneRunning(seq(STAGE_COUNT, _ => NO_FILES), STAGE_COUNT);
  }

  lemma LaterResolveIsKept(fault: Fault, stages: seq<StageFiles>, clock: nat)
    requires stages != [] && stages[0].status.state != Succeeded && clock > 5
    ensures ResolveWritten(FaultAt(5, fault), stages, clock) && !ResolveLost(FaultAt(5, fault), stages, clock)
  {
  }

  lemma OtherImplementationOtherResolve(w: World, request: string, a: Implementation, b: Implementation)
    requires Injective(w) && a != b
    ensures ResultAfter(w, request, [], a) != ResultAfter(w, request, [], b)
  {
    assert InputAfter(w, request, [], a) != InputAfter(w, request, [], b);
  }

  /**
   A resolve result is not committed for good when its status is written: with a fault in one of the
   two steps after that, the call writes a failure over it, and another result is committed later.
   */
  method CommittedResolveIsReplaced(world: World, request: string, fault: Fault, a: Implementation, b: Implementation)
    returns (run: Run, first: Outcome)
    requires Injective(world) && fault in {Raise, Interrupt} && a != b
    ensures fresh(run) && run.Valid() && first == if fault == Raise then StageFailed(0) else RunInterrupted(0)
    ensures run.committed[0] == [ResultAfter(world, request, [], a), ResultAfter(world, request, [], b)]
    ensures run.committed[0][0] != run.committed[0][1]
    ensures run.stages[0].status.state == Succeeded && run.stages[0].result == Some(run.committed[0][1])
  {
    run := new Run(world, request, FaultAt(5, fault));
    FirstResolveIsLost(fault);
    first := Execute(run, Call(0, AllBut(a, a)));
    LaterResolveIsKept(fault, run.stages, run.clock);
    var second := Execute(run, Call(0, AllBut(b, b)));
    OtherImplementationOtherResolve(world, request, a, b);
  }

  /** In a new run every stage is executed: its round takes the steps of an execution. */
  lemma {:induction false} FreshStart(w: World, request: string, faults: nat -> Fault, stages: seq<StageFiles>,
                                      implementations: seq<Implementation>, chain: seq<StageResult>)
    requires |chain| <= |stages| && |chain| <= |implementations|
    requires forall f <- stages :: f.status.state != Succeeded
    ensures RoundStart(w, request, faults, 0, stages, implementations, chain) == |chain| * EXECUTION_STEPS
  {
    if chain != [] {
      FreshStart(w, request, faults, stages, implementations, chain[..|chain| - 1]);
      assert stages[|chain| - 1] in stages;
    }
  }

  lemma {:induction false} FreshReturn(w: World, request: string, faults: nat -> Fault, stages: seq<StageFiles>,
                                       implementations: seq<Implementation>, chain: seq<StageResult>, k: nat)
    requires k < |chain| <= |stages| && |chain| <= |implementations|
    requires forall f <- stages :: f.status.state != Succeeded
    requires RoundsReturn(w, request, faults, 0, stages, implementations, chain)
    ensures ReachesReturn(faults, k * EXECUTION_STEPS)
  {
    if k < |chain| - 1 {
      FreshReturn(w, request, faults, stages, implementations, chain[..|chain| - 1], k);
    } else {
      FreshStart(w, request, faults, stages, implementations, chain[..k]);
      assert stages[k] in stages;
    }
  }

  /** With one fault, at a step of the execution of stage `k`, that execution is the only one that does not return. */
  lemma OnlyThatStage(k: nat, t: nat, fault: Fault, j: nat)
    requires t < 5 && fault != Proceed
    ensures var faults, c := FaultAt(k * EXECUTION_STEPS + t, fault), j * EXECUTION_STEPS;
      && Progress(faults, c) == (if j == k then t else EXECUTION_STEPS)
      && (ReachesReturn(faults, c) <==> j != k)
  {
    var faults, c := FaultAt(k * EXECUTION_STEPS + t, fault), j * EXECUTION_STEPS;
    ProgressIs(faults, c, if j == k then t else EXECUTION_STEPS);
  }

  lemma NewRunIsReconciled()
    ensures AllReconciled(NewRun()) == NewRun() && LoopStart(NewRun().stages, 0) == 0
  {
    NoneRunning(NewRun().stages, STAGE_COUNT);
  }

  lemma FailingCallIsCut(w: World, request: string, call: Call, k: nat, t: nat, fault: Fault, b: Moment, o: Outcome)
    requires ValidCall(call) && k <= call.until && t < 5 && fault != Proceed && b.WellFormed()
    requires o == Returned ==> CallReturns(w, request, FaultAt(k * EXECUTION_STEPS + t, fault),
                                           call.implementations, call.until, NewRun(), b)
    requires o != Returned ==> CallCut(w, request, FaultAt(k * EXECUTION_STEPS + t, fault),
                                       call.implementations, call.until, NewRun(), b, o)
    ensures LoopCut(w, request, FaultAt(k * EXECUTION_STEPS + t, fault),
                    call.implementations, call.until, NewRun(), b, o)
  {
    var faults := FaultAt(k * EXECUTION_STEPS + t, fault);
    OnlyThatStage(k, t, fault, k);
    NewRunIsReconciled();
    if o == Returned {
      FreshReturn(w, request, faults, NewRun().stages, call.implementations,
                  CleanRun(w, request, call.implementations, b.stages[0].result.value, call.until), k);
    }
  }

  /** The call is left in the round of that stage. */
  lemma FailingRound(w: World, request: string, implementations: seq<Implementation>, chain: seq<StageResult>,
                     k: nat, t: nat, fault: Fault, after: StageFiles, o: Outcome)
    requires |chain| < STAGE_COUNT == |implementations| && t < 5 && fault in {Raise, Interrupt}
    requires RoundsReturn(w, request, FaultAt(k * EXECUTION_STEPS + t, fault), 0, NewRun().stages,
                          implementations, chain)
    requires RoundCut(w, request, FaultAt(k * EXECUTION_STEPS + t, fault), chain, implementations[|chain|],
                      |chain| * EXECUTION_STEPS, NO_FILES, after, o)
    ensures |chain| == k && o == if fault == Raise then StageFailed(k) else RunInterrupted(k)
    ensures after.status
         == StageStatus(if fault == Raise then Failed else Interrupted, 1,
                        Some(w.inputDigest(InputAfter(w, request, chain, implementations[k]))), None)
  {
    var faults := FaultAt(k * EXECUTION_STEPS + t, fault);
    OnlyThatStage(k, t, fault, k);
    OnlyThatStage(k, t, fault, |chain|);
    if k < |chain| {
      FreshReturn(w, request, faults, NewRun().stages, implementations, chain, k);
    } else {
      var files := SucceededFiles(w, request, chain, implementations[|chain|], 1);
      FailureIsRecorded(faults, |chain| * EXECUTION_STEPS, |chain|, NO_FILES, files);
    }
  }

  /** What the failure of stage `k` leaves of a new run. */
  ghost predicate FailureRecorded(k: nat, fault: Fault, stages: seq<StageFiles>, o: Outcome)
    requires k < |stages|
  {
    && o == (if fault == Raise then StageFailed(k) else RunInterrupted(k))
    && stages[k].status.state == (if fault == Raise then Failed else Interrupted) && stages[k].status.attempt == 1
    && forall j :: 0 <= j < |stages| && j != k ==>
         if j < k then stages[j].status.state == Succeeded else stages[j] == NO_FILES
  }

  lemma FailingCall(w: World, request: string, call: Call, k: nat, t: nat, fault: Fault, b: Moment, o: Outcome)
    requires ValidCall(call) && k <= call.until && t < 5 && fault in {Raise, Interrupt} && b.WellFormed()
    requires LoopCut(w, request, FaultAt(k * EXECUTION_STEPS + t, fault),
                     call.implementations, call.until, NewRun(), b, o)
    ensures FailureRecorded(k, fault, b.stages, o)
  {
    var faults := FaultAt(k * EXECUTION_STEPS + t, fault);
    var chain :| |chain| <= call.until && LeftAfter(w, request, faults, call.implementations, chain, NewRun(), b, o);
    FreshStart(w, request, faults, NewRun().stages, call.implementations, chain);
    FailingRound(w, request, call.implementations, chain, k, t, fault, b.stages[|chain|], o);
  }

  /**
   An executor that fails, and any other fault before the status of its stage is written: in a new run
   the stages before it hold their results, and this one its failure.
   */
  method FailedExecutorIsRecorded(world: World, request: string, call: Call, k: nat, t: nat, fault: Fault)
    returns (run: Run, outcome: Outcome)
    requires Injective(world) && ValidCall(call) && k <= call.until && t < 5 && fault in {Raise, Interrupt}
    ensures fresh(run) && run.Valid() && FailureRecorded(k, fault, run.stages, outcome)
  {
    run := new Run(world, request, FaultAt(k * EXECUTION_STEPS + t, fault));
    outcome := run.Execute(call.until, call.implementations);
    FailingCallIsCut(world, request, call, k, t, fault, run.Now(), outcome);
    FailingCall(world, request, call, k, t, fault, run.Now(), outcome);
  }
}
