/** The status documents of `release_status.py`: loading, recording runs, and when a release may be retried. */
module ReleaseStatus {
  import opened Wrappers

  const HOUR: int := 3600
  const DAY: int := 24 * HOUR
  const MAX_RUN_DURATION_SECONDS: int := 24 * HOUR

  /** Names and versions that are accepted, and the run a URL points to. */
  datatype Rules = Rules(validName: string -> bool, validVersion: string -> bool, runOf: string -> Option<int>)

  /** A run as a document holds it; moments are in seconds, with fractions. */
  datatype RunDocument = RunDocument(
    result: string, releaseName: Option<string>, readableVersion: Option<string>, startedAt: real, completedAt: real,
    durationSeconds: int, runId: int, runAttempt: int, runUrl: string)

  datatype RetryDocument = RetryDocument(releaseName: string, firstFailedAt: real, lastFailedAt: real)

  datatype StatusDocument = StatusDocument(
    releaseName: Option<string>, readableVersion: Option<string>,
    lastRun: Option<RunDocument>, retry: Option<RetryDocument>)

  datatype PipelineRun = PipelineRun(
    result: string, releaseName: Option<string>, readableVersion: Option<string>, startedAt: int, completedAt: int,
    durationSeconds: int, runId: int, runAttempt: int, runUrl: string)

  datatype ReleaseRetry = ReleaseRetry(releaseName: string, firstFailedAt: int, lastFailedAt: int) {
    /** The release waits longer the longer it has been failing. */
    function NextRetry(): int {
      var age := lastFailedAt - firstFailedAt;
      lastFailedAt + if age < 3 * DAY then 12 * HOUR else if age < 10 * DAY then DAY else 7 * DAY
    }
  }

  datatype Status = Status(
    releaseName: Option<string>, readableVersion: Option<string>,
    lastRun: Option<PipelineRun>, retry: Option<ReleaseRetry>)

  // ---------- Documents ----------

  function RunAsJson(run: PipelineRun): RunDocument {
    RunDocument(run.result, run.releaseName, run.readableVersion, run.startedAt as real, run.completedAt as real,
                run.durationSeconds, run.runId, run.runAttempt, run.runUrl)
  }

  function RetryAsJson(retry: ReleaseRetry): RetryDocument {
    RetryDocument(retry.releaseName, retry.firstFailedAt as real, retry.lastFailedAt as real)
  }

  function AsJson(status: Status): StatusDocument {
    StatusDocument(status.releaseName, status.readableVersion,
                   if status.lastRun == None then None else Some(RunAsJson(status.lastRun.value)),
                   if status.retry == None then None else Some(RetryAsJson(status.retry.value)))
  }

  predicate Optionally(value: Option<string>, valid: string -> bool) {
    value.Some? ==> valid(value.value)
  }

  /** `_load_run`. */
  function LoadRun(rules: Rules, d: RunDocument): Result<PipelineRun> {
    var started, completed := d.startedAt.Floor, d.completedAt.Floor;
    if d.result !in ["success", "failure", "cancelled"] then Err("result is unknown")
    else if !Optionally(d.releaseName, rules.validName) then Err("last_run.release_name has an invalid value")
    else if !Optionally(d.readableVersion, rules.validVersion) then
      Err("last_run.readable_version has an invalid value")
    else if d.readableVersion.Some? && d.releaseName == None then
      Err("last_run.readable_version requires last_run.release_name")
    else if d.result == "success" && (d.releaseName == None || d.readableVersion == None) then
      Err("a successful last_run requires both version fields")
    else if completed < started then Err("last_run.completed_at precedes last_run.started_at")
    else if d.durationSeconds != completed - started || d.durationSeconds > MAX_RUN_DURATION_SECONDS then
      Err("last_run.duration_seconds does not match its timestamps")
    else if d.runId < 1 || d.runAttempt < 1 then Err("last_run.run_id and run_attempt must be positive integers")
    else if rules.runOf(d.runUrl) != Some(d.runId) then Err("last_run.run_url is not the matching run URL")
    else Ok(PipelineRun(d.result, d.releaseName, d.readableVersion, started, completed,
                        d.durationSeconds, d.runId, d.runAttempt, d.runUrl))
  }

  /** The last run failed for a release that is not published. */
  predicate FailedUnpublished(run: PipelineRun, published: Option<string>) {
    run.result != "success" && run.releaseName.Some? && run.releaseName != published
  }

  /** `_load_retry`. */
  function LoadRetry(rules: Rules, d: Option<RetryDocument>, published: Option<string>, lastRun: Option<PipelineRun>)
    : Result<Option<ReleaseRetry>> {
    if d == None then
      if lastRun.Some? && FailedUnpublished(lastRun.value, published) then
        Err("unpublished failed release requires retry state")
      else Ok(None)
    else
      var release, first, last := d.value.releaseName, d.value.firstFailedAt.Floor, d.value.lastFailedAt.Floor;
      if !rules.validName(release) || Some(release) == published then
        Err("retry.release_name must identify an unpublished release")
      else if first > last then Err("retry.last_failed_at precedes retry.first_failed_at")
      else if lastRun == None || lastRun.value.result == "success" || last > lastRun.value.completedAt
           || (lastRun.value.releaseName.Some? && lastRun.value.releaseName != published
               && (Some(release) != lastRun.value.releaseName || last != lastRun.value.completedAt)) then
        Err("retry does not match last_run")
      else Ok(Some(ReleaseRetry(release, first, last)))
  }

  function LoadLastRun(rules: Rules, d: Option<RunDocument>): Result<Option<PipelineRun>> {
    if d == None then Ok(None)
    else
      var run := LoadRun(rules, d.value);
      if run.Err? then Err(run.reason) else Ok(Some(run.value))
  }

  /** `parse_status_document`. */
  function ParseStatusDocument(rules: Rules, d: StatusDocument): Result<Status> {
    if !Optionally(d.releaseName, rules.validName) then Err("release_name has an invalid value")
    else if !Optionally(d.readableVersion, rules.validVersion) then Err("readable_version has an invalid value")
    else if (d.releaseName == None) != (d.readableVersion == None) then
      Err("release_name and readable_version must both be set or null")
    else
      var lastRun := LoadLastRun(rules, d.lastRun);
      if lastRun.Err? then Err(lastRun.reason)
      else if lastRun.value.Some? && lastRun.value.value.result == "success"
           && (lastRun.value.value.releaseName, lastRun.value.value.readableVersion)
              != (d.releaseName, d.readableVersion) then
        Err("a successful last_run must match the current version")
      else
        var retry := LoadRetry(rules, d.retry, d.releaseName, lastRun.value);
        if retry.Err? then Err(retry.reason)
        else Ok(Status(d.releaseName, d.readableVersion, lastRun.value, retry.value))
  }

  // ---------- What is accepted ----------

  /** A run is accepted for what it says, its moments cut to seconds. */
  ghost predicate RunLoads(rules: Rules, d: RunDocument, run: PipelineRun) {
    && run == PipelineRun(d.result, d.releaseName, d.readableVersion, d.startedAt.Floor, d.completedAt.Floor,
                          d.durationSeconds, d.runId, d.runAttempt, d.runUrl)
    && run.result in {"success", "failure", "cancelled"}
    && (run.releaseName.Some? ==> rules.validName(run.releaseName.value))
    && (run.readableVersion.Some? ==> rules.validVersion(run.readableVersion.value) && run.releaseName.Some?)
    && (run.result == "success" ==> run.readableVersion.Some?)
    && run.startedAt <= run.completedAt == run.startedAt + run.durationSeconds
    && run.durationSeconds <= 24 * 60 * 60
    && run.runId > 0 && run.runAttempt > 0 && rules.runOf(run.runUrl) == Some(run.runId)
  }

  lemma RunLoadsExactly(rules: Rules, d: RunDocument, run: PipelineRun)
    ensures LoadRun(rules, d) == Ok(run) <==> RunLoads(rules, d, run)
  {
  }

  /** A retry state is kept exactly for the unpublished release that failed last, or between its failures. */
  ghost predicate RetryIsKept(rules: Rules, d: Option<RetryDocument>, published: Option<string>,
                              lastRun: Option<PipelineRun>, retry: Option<ReleaseRetry>)
  {
    var failed := lastRun.Some? && lastRun.value.result != "success";
    var unpublished := failed && lastRun.value.releaseName.Some? && lastRun.value.releaseName != published;
    if d == None then retry == None && !unpublished
    else
      && retry == Some(ReleaseRetry(d.value.releaseName, d.value.firstFailedAt.Floor, d.value.lastFailedAt.Floor))
      && rules.validName(retry.value.releaseName) && Some(retry.value.releaseName) != published
      && failed && retry.value.firstFailedAt <= retry.value.lastFailedAt <= lastRun.value.completedAt
      && (unpublished ==>
            Some(retry.value.releaseName) == lastRun.value.releaseName
            && retry.value.lastFailedAt == lastRun.value.completedAt)
  }

  lemma RetryIsKeptExactly(rules: Rules, d: Option<RetryDocument>, published: Option<string>,
                           lastRun: Option<PipelineRun>, retry: Option<ReleaseRetry>)
    ensures LoadRetry(rules, d, published, lastRun) == Ok(retry) <==> RetryIsKept(rules, d, published, lastRun, retry)
  {
  }

  ghost predicate LastRunLoads(rules: Rules, d: Option<RunDocument>, run: Option<PipelineRun>) {
    (run.Some? <==> d.Some?) && (d.Some? ==> RunLoads(rules, d.value, run.value))
  }

  lemma LastRunLoadsExactly(rules: Rules, d: Option<RunDocument>, run: Option<PipelineRun>)
    ensures LoadLastRun(rules, d) == Ok(run) <==> LastRunLoads(rules, d, run)
  {
    if d.Some? && run.Some? {
      RunLoadsExactly(rules, d.value, run.value);
    }
  }

  /** A document is accepted for what it says. */
  ghost predicate StatusLoads(rules: Rules, d: StatusDocument, status: Status) {
    && status.releaseName == d.releaseName && status.readableVersion == d.readableVersion
    && (status.releaseName.Some? <==> status.readableVersion.Some?)
    && (status.releaseName.Some? ==>
          rules.validName(status.releaseName.value) && rules.validVersion(status.readableVersion.value))
    && LastRunLoads(rules, d.lastRun, status.lastRun)
    && (status.lastRun.Some? && status.lastRun.value.result == "success" ==>
          status.lastRun.value.releaseName == status.releaseName
          && status.lastRun.value.readableVersion == status.readableVersion)
    && RetryIsKept(rules, d.retry, status.releaseName, status.lastRun, status.retry)
  }

  /** The loader accepts exactly the documents that are in order, and takes them for what they say. */
  lemma StatusLoadsExactly(rules: Rules, d: StatusDocument, status: Status)
    ensures ParseStatusDocument(rules, d) == Ok(status) <==> StatusLoads(rules, d, status)
  {
    LastRunLoadsExactly(rules, d.lastRun, status.lastRun);
    RetryIsKeptExactly(rules, d.retry, status.releaseName, status.lastRun, status.retry);
  }

  /** What is written of a status loads as the same status. */
  predicate Loadable(rules: Rules, status: Status) {
    ParseStatusDocument(rules, AsJson(status)) == Ok(status)
  }

  lemma SecondsStay(n: int)
    ensures (n as real).Floor == n
  {
  }

  lemma WrittenRun(rules: Rules, d: RunDocument)
    requires LoadRun(rules, d).Ok?
    ensures LoadRun(rules, RunAsJson(LoadRun(rules, d).value)) == LoadRun(rules, d)
  {
    SecondsStay(d.startedAt.Floor);
    SecondsStay(d.completedAt.Floor);
  }

  /** Loading normalises: what was loaded from any document is written and loaded unchanged. */
  lemma LoadedIsLoadable(rules: Rules, d: StatusDocument)
    requires ParseStatusDocument(rules, d).Ok?
    ensures Loadable(rules, ParseStatusDocument(rules, d).value)
  {
    var status := ParseStatusDocument(rules, d).value;
    if d.lastRun.Some? {
      WrittenRun(rules, d.lastRun.value);
    }
    LoadedRetry(rules, d.retry, d.releaseName, status.lastRun);
  }

  lemma LoadedRetry(rules: Rules, d: Option<RetryDocument>, published: Option<string>, lastRun: Option<PipelineRun>)
    ensures var loaded := LoadRetry(rules, d, published, lastRun);
      loaded.Ok? ==>
        LoadRetry(rules, if loaded.value == None then None else Some(RetryAsJson(loaded.value.value)),
                  published, lastRun) == loaded
  {
    if d.Some? {
      SecondsStay(d.value.firstFailedAt.Floor);
      SecondsStay(d.value.lastFailedAt.Floor);
    }
  }

  // ---------- Recording a run ----------

  /** The retry state after a run that did not succeed. */
  ghost function RetryAfter(current: Status, run: PipelineRun): Option<ReleaseRetry> {
    if FailedUnpublished(run, current.releaseName) then
      var release := run.releaseName.value;
      var first := if current.retry.Some? && current.retry.value.releaseName == release
                   then Min(current.retry.value.firstFailedAt, run.completedAt) else run.completedAt;
      Some(ReleaseRetry(release, first, run.completedAt))
    else current.retry
  }

  /** The status after a run. */
  ghost function Updated(current: Status, run: PipelineRun): Status {
    if run.result == "success" then Status(run.releaseName, run.readableVersion, Some(run), None)
    else Status(current.releaseName, current.readableVersion, Some(run), RetryAfter(current, run))
  }

  /** A retained retry is about a later failure than the run that is recorded. */
  ghost predicate OutlivedByRetry(current: Status, run: PipelineRun) {
    && run.result != "success"
    && !FailedUnpublished(run, current.releaseName)
    && current.retry.Some?
    && current.retry.value.lastFailedAt > run.completedAt
  }

  /** Whether the retry state of a status fits its last run. */
  predicate RetryFits(rules: Rules, retry: Option<ReleaseRetry>, published: Option<string>, run: PipelineRun) {
    if retry == None then !FailedUnpublished(run, published)
    else
      && rules.validName(retry.value.releaseName) && Some(retry.value.releaseName) != published
      && retry.value.firstFailedAt <= retry.value.lastFailedAt <= run.completedAt
      && run.result != "success"
      && (run.releaseName.Some? && run.releaseName != published ==>
            Some(retry.value.releaseName) == run.releaseName && retry.value.lastFailedAt == run.completedAt)
  }

  lemma RetryLoads(rules: Rules, retry: Option<ReleaseRetry>, published: Option<string>, run: PipelineRun)
    ensures var json := if retry == None then None else Some(RetryAsJson(retry.value));
      var loaded := LoadRetry(rules, json, published, Some(run));
      (loaded.Ok? <==> RetryFits(rules, retry, published, run)) && (loaded.Ok? ==> loaded.value == retry)
  {
    if retry.Some? {
      SecondsStay(retry.value.firstFailedAt);
      SecondsStay(retry.value.lastFailedAt);
    }
  }

  /** What a status with a last run needs in order to load. */
  predicate Consistent(rules: Rules, status: Status, run: PipelineRun) {
    && Optionally(status.releaseName, rules.validName) && Optionally(status.readableVersion, rules.validVersion)
    && (status.releaseName == None) == (status.readableVersion == None)
    && (run.result == "success" ==>
          (run.releaseName, run.readableVersion) == (status.releaseName, status.readableVersion))
    && RetryFits(rules, status.retry, status.releaseName, run)
  }

  lemma WrittenLastRun(rules: Rules, d: RunDocument)
    requires LoadRun(rules, d).Ok?
    ensures LoadLastRun(rules, Some(RunAsJson(LoadRun(rules, d).value))) == Ok(Some(LoadRun(rules, d).value))
  {
    WrittenRun(rules, d);
  }

  /** With run and retry loaded, what remains to be checked is that they fit the version. */
  lemma ParsesWhenConsistent(rules: Rules, status: Status, run: PipelineRun)
    requires LoadLastRun(rules, AsJson(status).lastRun) == Ok(status.lastRun) && status.lastRun == Some(run)
    requires var retry := LoadRetry(rules, AsJson(status).retry, status.releaseName, Some(run));
      if RetryFits(rules, status.retry, status.releaseName, run) then retry == Ok(status.retry) else retry.Err?
    ensures var parsed := ParseStatusDocument(rules, AsJson(status));
      if Consistent(rules, status, run) then parsed == Ok(status) else parsed.Err?
  {
  }

  lemma ConsistentParses(rules: Rules, status: Status, d: RunDocument)
    requires LoadRun(rules, d).Ok? && status.lastRun == Some(LoadRun(rules, d).value)
    ensures var parsed := ParseStatusDocument(rules, AsJson(status));
      if Consistent(rules, status, LoadRun(rules, d).value) then parsed == Ok(status) else parsed.Err?
  {
    WrittenLastRun(rules, d);
    RetryLoads(rules, status.retry, status.releaseName, LoadRun(rules, d).value);
    ParsesWhenConsistent(rules, status, LoadRun(rules, d).value);
  }

  lemma ConsistentLoads(rules: Rules, status: Status, d: RunDocument)
    requires LoadRun(rules, d).Ok? && status.lastRun == Some(LoadRun(rules, d).value)
    ensures ParseStatusDocument(rules, AsJson(status)).Ok? <==> Consistent(rules, status, LoadRun(rules, d).value)
    ensures Loadable(rules, status) <==> Consistent(rules, status, LoadRun(rules, d).value)
  {
    ConsistentParses(rules, status, d);
  }

  /** What is known of the retry state of a loadable status. */
  lemma LoadableRetry(rules: Rules, current: Status)
    requires Loadable(rules, current)
    ensures Optionally(current.releaseName, rules.validName) && Optionally(current.readableVersion, rules.validVersion)
    ensures (current.releaseName == None) == (current.readableVersion == None)
    ensures current.retry.Some? ==>
              && rules.validName(current.retry.value.releaseName)
              && Some(current.retry.value.releaseName) != current.releaseName
              && current.retry.value.firstFailedAt <= current.retry.value.lastFailedAt
  {
    if current.retry.Some? {
      SecondsStay(current.retry.value.firstFailedAt);
      SecondsStay(current.retry.value.lastFailedAt);
    }
  }

  /** From a loadable status, recording a run gives one that loads exactly when no retained retry outlives the run. */
  lemma RecordedIsLoadable(rules: Rules, current: Status, d: RunDocument)
    requires Loadable(rules, current) && LoadRun(rules, d).Ok?
    ensures var run := LoadRun(rules, d).value;
      && (Loadable(rules, Updated(current, run)) <==> !OutlivedByRetry(current, run))
      && (ParseStatusDocument(rules, AsJson(Updated(current, run))).Ok? <==> !OutlivedByRetry(current, run))
  {
    var run := LoadRun(rules, d).value;
    ConsistentLoads(rules, Updated(current, run), d);
    LoadableRetry(rules, current);
    RecordedIsConsistent(rules, current, d);
  }

  lemma RecordedIsConsistent(rules: Rules, current: Status, d: RunDocument)
    requires LoadRun(rules, d).Ok?
    requires Optionally(current.releaseName, rules.validName) && Optionally(current.readableVersion, rules.validVersion)
    requires (current.releaseName == None) == (current.readableVersion == None)
    requires current.retry.Some? ==>
               && rules.validName(current.retry.value.releaseName)
               && Some(current.retry.value.releaseName) != current.releaseName
               && current.retry.value.firstFailedAt <= current.retry.value.lastFailedAt
    ensures var run := LoadRun(rules, d).value;
      Consistent(rules, Updated(current, run), run) <==> !OutlivedByRetry(current, run)
  {
  }

  /**
   It can fail: a release failed at 7200, and then a run is recorded that ended at 3600 without a release
   name. The written status is rejected when it is next loaded.
   */
  lemma RetryCanOutlive(rules: Rules, name: string, url: string)
    requires rules.validName(name) && rules.runOf(url) == Some(1)
    ensures var failed := RunDocument("failure", Some(name), None, 7200.0, 7200.0, 0, 1, 1, url);
      var unnamed := RunDocument("cancelled", None, None, 3600.0, 3600.0, 0, 1, 1, url);
      var empty := Status(None, None, None, None);
      && LoadRun(rules, failed).Ok? && LoadRun(rules, unnamed).Ok? && Loadable(rules, empty)
      && var current := Updated(empty, LoadRun(rules, failed).value);
         && Loadable(rules, current)
         && ParseStatusDocument(rules, AsJson(Updated(current, LoadRun(rules, unnamed).value))).Err?
  {
    var failed := RunDocument("failure", Some(name), None, 7200.0, 7200.0, 0, 1, 1, url);
    var unnamed := RunDocument("cancelled", None, None, 3600.0, 3600.0, 0, 1, 1, url);
    var empty := Status(None, None, None, None);
    RecordedIsLoadable(rules, empty, failed);
    RecordedIsLoadable(rules, Updated(empty, LoadRun(rules, failed).value), unnamed);
  }

  /** Once recorded and loadable, the same run leaves the status as it is. */
  lemma RecordingTwice(rules: Rules, current: Status, d: RunDocument)
    requires Loadable(rules, current) && LoadRun(rules, d).Ok? && !OutlivedByRetry(current, LoadRun(rules, d).value)
    ensures var run := LoadRun(rules, d).value;
      var again := ParseStatusDocument(rules, AsJson(Updated(current, run)));
      again.Ok? && again.value == Updated(current, run) && Updated(again.value, run) == again.value
  {
    RecordedIsLoadable(rules, current, d);
  }

  /** A run that is recorded lasts from its start to its end, in whole seconds. */
  ghost function Timed(d: RunDocument): RunDocument {
    d.(durationSeconds := d.completedAt.Floor - d.startedAt.Floor)
  }

  /** After a run was recorded on `before`, whether written or not, the file loads unless a retry outlives the run. */
  lemma FileAfterRecording(rules: Rules, before: StatusDocument, d: RunDocument)
    requires ParseStatusDocument(rules, before).Ok? && LoadRun(rules, d).Ok?
    ensures var current, run := ParseStatusDocument(rules, before).value, LoadRun(rules, d).value;
      var after := if Updated(current, run) != current then AsJson(Updated(current, run)) else before;
      && (ParseStatusDocument(rules, after).Ok? <==> !OutlivedByRetry(current, run))
      && (!OutlivedByRetry(current, run) ==> ParseStatusDocument(rules, after).value == Updated(current, run))
      && (!OutlivedByRetry(current, run) ==> Updated(Updated(current, run), run) == Updated(current, run))
  {
    var current, run := ParseStatusDocument(rules, before).value, LoadRun(rules, d).value;
    LoadedIsLoadable(rules, before);
    RecordedIsLoadable(rules, current, d);
    if !OutlivedByRetry(current, run) {
      RecordingTwice(rules, current, d);
    }
  }

  /** The run that `record_run` makes of its arguments: moments without fractions, and the duration between them. */
  method LoadTimed(rules: Rules, d: RunDocument) returns (r: Result<PipelineRun>)
    ensures r.Ok? <==> LoadRun(rules, Timed(d)).Ok?
    ensures r.Ok? ==> r == LoadRun(rules, Timed(d))
  {
    var started, completed := d.startedAt.Floor, d.completedAt.Floor;
    if completed < started {
      return Err("completed_at precedes started_at");
    }
    SecondsStay(started);
    SecondsStay(completed);
    r := LoadRun(rules, d.(startedAt := started as real, completedAt := completed as real,
                           durationSeconds := completed - started));
  }

  /** The status that `record_run` writes. */
  method Revise(current: Status, run: PipelineRun) returns (updated: Status)
    ensures updated == Updated(current, run)
  {
    var releaseName, readableVersion, retry := run.releaseName, run.readableVersion, None;
    if run.result != "success" {
      releaseName, readableVersion, retry := current.releaseName, current.readableVersion, current.retry;
      if run.releaseName.Some? && run.releaseName != current.releaseName {
        var first := run.completedAt;
        if retry.Some? && Some(retry.value.releaseName) == run.releaseName && retry.value.firstFailedAt < first {
          first := retry.value.firstFailedAt;
        }
        retry := Some(ReleaseRetry(run.releaseName.value, first, run.completedAt));
      }
    }
    updated := Status(releaseName, readableVersion, Some(run), retry);
  }

  /** The status file of a target. */
  class StatusFile {
    var document: StatusDocument

    constructor (document: StatusDocument)
      ensures this.document == document
    {
      this.document := document;
    }

    /**
     `record_run`: writes the status after a valid run, unless it is the one already there. What is
     then in the file loads as that status, exactly when no retained retry outlives the run.
     */
    method RecordRun(rules: Rules, d: RunDocument) returns (r: Result<bool>)
      modifies this
      ensures r.Ok? <==> ParseStatusDocument(rules, old(document)).Ok? && LoadRun(rules, Timed(d)).Ok?
      ensures r.Err? ==> document == old(document)
      ensures r.Ok? ==>
                var current := ParseStatusDocument(rules, old(document)).value;
                var run := LoadRun(rules, Timed(d)).value;
                && (r.value <==> Updated(current, run) != current)
                && document == (if r.value then AsJson(Updated(current, run)) else old(document))
                && (ParseStatusDocument(rules, document).Ok? <==> !OutlivedByRetry(current, run))
                && (!OutlivedByRetry(current, run) ==>
                      ParseStatusDocument(rules, document) == Ok(Updated(current, run)))
    {
      var current := ParseStatusDocument(rules, document);
      if current.Err? {
        return Err(current.reason);
      }
      var run :- LoadTimed(rules, d);
      FileAfterRecording(rules, document, Timed(d));
      var updated := Revise(current.value, run);
      if updated == current.value {
        return Ok(false);
      }
      document := AsJson(updated);
      r := Ok(true);
    }
  }

  /**
   The same run recorded twice: the second time nothing is written, and it is reported as unchanged,
   exactly when no retained retry outlives the run. Otherwise the file no longer loads.
   */
  method RecordTwice(file: StatusFile, rules: Rules, d: RunDocument) returns (first: Result<bool>, second: Result<bool>)
    modifies file
    ensures first.Ok? <==> ParseStatusDocument(rules, old(file.document)).Ok? && LoadRun(rules, Timed(d)).Ok?
    ensures first.Err? ==> second.Err? && file.document == old(file.document)
    ensures first.Ok? ==>
              var current := ParseStatusDocument(rules, old(file.document)).value;
              var run := LoadRun(rules, Timed(d)).value;
              && (if OutlivedByRetry(current, run) then second.Err? else second == Ok(false))
              && file.document == if first.value then AsJson(Updated(current, run)) else old(file.document)
  {
    first := file.RecordRun(rules, d);
    if first.Ok? {
      FileAfterRecording(rules, old(file.document), Timed(d));
    }
    second := file.RecordRun(rules, d);
  }

  // ---------- Comparing ----------

  datatype Comparison = Comparison(mismatch: bool, retryBlocked: bool, nextRetryAt: Option<int>)

  /** `compare_release` for a status that has been loaded. */
  function CompareRelease(current: Status, release: string, now: real): Comparison {
    var mismatch := current.releaseName != Some(release);
    var next := if mismatch && current.retry.Some? && current.retry.value.releaseName == release
                then Some(current.retry.value.NextRetry()) else None;
    Comparison(mismatch, next.Some? && now.Floor < next.value, next)
  }

  /** How long a release is left alone after a failure, by how long it has been failing. */
  ghost function Pause(age: int): int {
    if age >= 10 * DAY then 7 * DAY else if age >= 3 * DAY then 24 * HOUR else 12 * HOUR
  }

  /** A release is blocked exactly while it is the one that keeps failing and its pause has not passed. */
  lemma BlockedExactly(current: Status, release: string, now: real)
    ensures var c := CompareRelease(current, release, now);
      var failing := current.releaseName != Some(release)
                     && current.retry.Some? && current.retry.value.releaseName == release;
      && (c.mismatch <==> current.releaseName != Some(release))
      && (c.nextRetryAt.Some? <==> failing)
      && (c.retryBlocked ==> failing)
      && (failing ==>
            var first, last := current.retry.value.firstFailedAt, current.retry.value.lastFailedAt;
            && c.nextRetryAt == Some(last + Pause(last - first))
            && (c.retryBlocked <==> now < (last + Pause(last - first)) as real))
  {
  }
}
