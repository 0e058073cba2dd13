/** `_HttpTransferProgress` of `delivery.py` and the retry loop of `_download_web_seed` around it. */
module TransferProgress {
  import opened Wrappers
  import opened Sorting

  /** Seconds that pass; the clock of the process only moves forward. */
  type Duration = r: real | r >= 0.0

  datatype Sample = Sample(at: real, bytes: nat)

  /** The idle timeout, the window over which throughput is averaged, and the least throughput wanted. */
  datatype Policy = Policy(timeout: real, window: real, minimumSpeed: nat)

  /** `k` is the last sample of the full history at or before `cutoff`, or the first if there is none. */
  ghost predicate IsLatest(history: seq<Sample>, cutoff: real, k: nat) {
    && k < |history|
    && (k > 0 ==> history[k].at <= cutoff)
    && forall j :: k < j < |history| ==> history[j].at > cutoff
  }

  lemma LatestIsUnique(history: seq<Sample>, cutoff: real, k: nat, l: nat)
    requires IsLatest(history, cutoff, k) && IsLatest(history, cutoff, l)
    ensures k == l
  {
  }

  /** A transfer from one sample to another spans a full window with fewer bytes than the least throughput gives. */
  ghost predicate Sluggish(p: Policy, size: nat, from: Sample, to: Sample)
    requires p.window > 0.0
  {
    var elapsed := to.at - from.at;
    && to.bytes < size
    && p.minimumSpeed > 0
    && elapsed >= p.window
    && (to.bytes as int - from.bytes as int) as real < p.minimumSpeed as real * elapsed
  }

  lemma Speed(bytes: int, elapsed: real, minimumSpeed: nat)
    requires elapsed > 0.0 && minimumSpeed > 0
    ensures Max(0, bytes) as real / elapsed < minimumSpeed as real <==> bytes as real < minimumSpeed as real * elapsed
  {
    var speed := Max(0, bytes) as real / elapsed;
    assert speed * elapsed == Max(0, bytes) as real;
    if speed < minimumSpeed as real {
      assert speed * elapsed < minimumSpeed as real * elapsed;
    } else {
      assert speed * elapsed >= minimumSpeed as real * elapsed > 0.0;
    }
  }

  /** The comparison of two samples in `_check`. */
  method Compare(p: Policy, size: nat, from: Sample, to: Sample) returns (slow: bool)
    requires p.window > 0.0
    ensures slow == Sluggish(p, size, from, to)
  {
    var elapsed := to.at - from.at;
    slow := false;
    if to.bytes < size && p.minimumSpeed > 0 && elapsed >= p.window {
      slow := Max(0, to.bytes - from.bytes) as real / elapsed < p.minimumSpeed as real;
      Speed(to.bytes - from.bytes, elapsed, p.minimumSpeed);
    }
  }

  /** Whether the last sample shows a sluggish transfer since the latest sample before the window. */
  ghost predicate Slow(p: Policy, size: nat, history: seq<Sample>)
    requires history != [] && p.window > 0.0
  {
    var now := history[|history| - 1];
    exists k: nat :: IsLatest(history, now.at - p.window, k) && Sluggish(p, size, history[k], now)
  }

  /** Times do not decrease. */
  ghost predicate Chronological(history: seq<Sample>) {
    forall i, j :: 0 <= i < j < |history| ==> history[i].at <= history[j].at
  }

  /** `samples` is what the evicting queue has kept of `history`. */
  ghost predicate Kept(history: seq<Sample>, samples: seq<Sample>, cutoff: real) {
    && 0 < |samples| <= |history|
    && (forall i :: 0 <= i < |samples| ==> samples[i] == history[|history| - |samples| + i])
    && forall j :: 0 < j <= |history| - |samples| ==> history[j].at <= cutoff
  }

  /** The queue and the history at some time, for a window of this length. */
  ghost predicate Windowed(history: seq<Sample>, samples: seq<Sample>, clock: real, window: real) {
    && history != [] && Chronological(history) && history[|history| - 1].at <= clock
    && Kept(history, samples, clock - window)
  }

  lemma FirstSample(sample: Sample, window: real)
    requires window > 0.0
    ensures Windowed([sample], [sample], sample.at, window) && IsLatest([sample], sample.at - window, 0)
  {
  }

  lemma NextSample(history: seq<Sample>, samples: seq<Sample>, clock: real, window: real, sample: Sample)
    requires Windowed(history, samples, clock, window) && sample.at == clock
    ensures Windowed(history + [sample], samples + [sample], clock, window)
  {
  }

  // ---------- The deadline, on the events alone ----------

  /** An update tells of the bytes there are, a question asks for the time left, a discard starts a new layout. */
  datatype Event = Told(at: real, bytes: nat) | Questioned(at: real) | Discarded

  /** The most bytes there have been since the last discard, or since the start, when `n` events have come. */
  ghost function High(events: seq<Event>, n: nat, initial: nat): nat
    requires n <= |events|
  {
    if n == 0 then initial
    else
      var before := High(events, n - 1, initial);
      match events[n - 1]
      case Told(_, bytes) => if bytes > before then bytes else before
      case Questioned(_) => before
      case Discarded => 0
  }

  /** The last update among them that told of more bytes than there had been, or the start. */
  ghost function LastRenewal(events: seq<Event>, n: nat, initial: nat, start: real): real
    requires n <= |events|
  {
    if n == 0 then start
    else
      var last := events[n - 1];
      if last.Told? && last.bytes > High(events, n - 1, initial) then last.at
      else LastRenewal(events, n - 1, initial, start)
  }

  /** An update or question comes this long after the start, or after the last renewal, its own included. */
  ghost predicate Expires(events: seq<Event>, initial: nat, start: real, timeout: real, k: nat)
    requires k < |events|
  {
    !events[k].Discarded? && events[k].at - LastRenewal(events, k + 1, initial, start) >= timeout
  }

  ghost predicate InTime(events: seq<Event>, initial: nat, start: real, timeout: real) {
    forall k :: 0 <= k < |events| ==> !Expires(events, initial, start, timeout, k)
  }

  lemma {:induction false} SameStart(a: seq<Event>, b: seq<Event>, n: nat, initial: nat, start: real)
    requires a <= b && n <= |a|
    ensures High(b, n, initial) == High(a, n, initial)
    ensures LastRenewal(b, n, initial, start) == LastRenewal(a, n, initial, start)
  {
    if n > 0 {
      SameStart(a, b, n - 1, initial, start);
    }
  }

  lemma SameExpiry(a: seq<Event>, b: seq<Event>, initial: nat, start: real, timeout: real)
    requires a <= b
    ensures forall k :: 0 <= k < |a| ==>
      Expires(b, initial, start, timeout, k) == Expires(a, initial, start, timeout, k)
  {
    forall k | 0 <= k < |a|
      ensures Expires(b, initial, start, timeout, k) == Expires(a, initial, start, timeout, k)
    {
      SameStart(a, b, k + 1, initial, start);
    }
  }

  /** The event after these decides about the deadline. */
  ghost function HighAfter(high: nat, e: Event): nat {
    match e
    case Told(_, bytes) => if bytes > high then bytes else high
    case Questioned(_) => high
    case Discarded => 0
  }

  lemma OneMoreEvent(events: seq<Event>, e: Event, initial: nat, start: real, timeout: real)
    ensures var n, high, grown := |events|, High(events, |events|, initial), events + [e];
      && High(grown, n + 1, initial) == HighAfter(high, e)
      && LastRenewal(grown, n + 1, initial, start)
         == (if e.Told? && e.bytes > high then e.at else LastRenewal(events, n, initial, start))
      && (InTime(grown, initial, start, timeout) <==>
            && InTime(events, initial, start, timeout)
            && (e.Discarded? || e.at - LastRenewal(grown, n + 1, initial, start) < timeout))
  {
    var grown := events + [e];
    SameStart(events, grown, |events|, initial, start);
    SameExpiry(events, grown, initial, start, timeout);
    assert Expires(grown, initial, start, timeout, |events|)
      <==> !e.Discarded? && e.at - LastRenewal(grown, |events| + 1, initial, start) >= timeout;
    forall k | 0 <= k < |events|
      ensures Expires(grown, initial, start, timeout, k) == Expires(events, initial, start, timeout, k)
    {
    }
  }

  lemma LateStaysLate(events: seq<Event>, later: seq<Event>, initial: nat, start: real, timeout: real)
    requires events <= later && !InTime(events, initial, start, timeout)
    ensures !InTime(later, initial, start, timeout)
  {
    SameExpiry(events, later, initial, start, timeout);
    var k :| 0 <= k < |events| && Expires(events, initial, start, timeout, k);
    assert Expires(later, initial, start, timeout, k);
  }

  class HttpTransferProgress {
    const size: nat
    const policy: Policy
    var clock: real
    var slowWarningActive: bool
    var currentBytes: nat
    var highWatermark: nat
    var lastProgressAt: real
    var samples: seq<Sample>

    /** Every sample since the last reset, the renewals of the idle deadline, and those before the last reset. */
    ghost var history: seq<Sample>
    ghost var renewals: nat
    ghost var earlier: nat
    ghost var base: nat

    /** What it was started with, and everything that has happened since. */
    ghost const initial: nat
    ghost const start: real
    ghost var events: seq<Event>

    ghost predicate Valid()
      reads this
    {
      && policy.window > 0.0
      && highWatermark == High(events, |events|, initial)
      && lastProgressAt == LastRenewal(events, |events|, initial, start)
      && Windowed(history, samples, clock, policy.window)
      && base <= highWatermark
      && earlier <= renewals <= earlier + (highWatermark - base)
    }

    /** No update and no question so far has come too late. */
    ghost predicate IsInTime()
      reads this
    {
      InTime(events, initial, start, policy.timeout)
    }

    constructor (size: nat, initial: nat, policy: Policy, now: real)
      requires policy.window > 0.0
      ensures Valid() && this.initial == initial && start == now && events == []
      ensures this.size == size && this.policy == policy && clock == now
      ensures currentBytes == highWatermark == base == initial && lastProgressAt == now
      ensures history == [Sample(now, initial)] && renewals == earlier == 0 && !slowWarningActive
    {
      this.size, this.policy, clock := size, policy, now;
      slowWarningActive, currentBytes, highWatermark, lastProgressAt := false, initial, initial, now;
      samples, history := [Sample(now, initial)], [Sample(now, initial)];
      renewals, earlier, base := 0, 0, initial;
      this.initial, start, events := initial, now, [];
      FirstSample(Sample(now, initial), policy.window);
    }

    /** The queue starts at the sample that a scan of the full history would pick. */
    ghost predicate StartsAtLatest()
      requires Valid()
      reads this
    {
      IsLatest(history, clock - policy.window, |history| - |samples|)
    }

    /** `time.monotonic()`, some time after it was asked before. */
    method Advance(elapsed: Duration)
      requires Valid()
      modifies this`clock
      ensures Valid() && clock == old(clock) + elapsed
    {
      clock := clock + elapsed;
    }

    /** The eviction in `_check`. */
    method Evict(cutoff: real)
      requires Chronological(history) && Kept(history, samples, cutoff)
      modifies this`samples
      ensures Kept(history, samples, cutoff) && IsLatest(history, cutoff, |history| - |samples|)
    {
      while |samples| > 1 && samples[1].at <= cutoff
        invariant Kept(history, samples, cutoff)
        decreases |samples|
      {
        samples := samples[1..];
      }
      StartIsLatest(history, samples, cutoff);
    }

    /** The new sample of `_check`. */
    method Record()
      requires Valid()
      modifies this`samples, this`history
      ensures Valid() && history == old(history) + [Sample(clock, currentBytes)] && StartsAtLatest()
    {
      NextSample(history, samples, clock, policy.window, Sample(clock, currentBytes));
      samples := samples + [Sample(clock, currentBytes)];
      history := history + [Sample(clock, currentBytes)];
      Evict(clock - policy.window);
    }

    /** The throughput warning of `_check`. */
    method Judge() returns (slow: bool)
      requires Valid() && StartsAtLatest() && history[|history| - 1] == Sample(clock, currentBytes)
      ensures slow == Slow(policy, size, history)
    {
      slow := Compare(policy, size, samples[0], Sample(clock, currentBytes));
      forall k: nat | IsLatest(history, clock - policy.window, k)
        ensures history[k] == samples[0]
      {
        LatestIsUnique(history, clock - policy.window, k, |history| - |samples|);
      }
    }

    /** `_check`: fails when the deadline has passed; otherwise samples, evicts and judges the throughput. */
    method Check() returns (remaining: Option<real>, warned: bool)
      requires Valid()
      modifies this`samples, this`history, this`slowWarningActive
      ensures Valid()
      ensures remaining ==
        (if clock - lastProgressAt < policy.timeout then Some(policy.timeout - (clock - lastProgressAt)) else None)
      ensures remaining == None ==> history == old(history) && samples == old(samples)
                                    && slowWarningActive == old(slowWarningActive) && !warned
      ensures remaining.Some? ==> history == old(history) + [Sample(clock, currentBytes)] && StartsAtLatest()
      ensures remaining.Some? ==> slowWarningActive == Slow(policy, size, history)
                                  && warned == (slowWarningActive && !old(slowWarningActive))
    {
      warned := false;
      var left := policy.timeout - (clock - lastProgressAt);
      if left <= 0.0 {
        return None, false;
      }
      Record();
      var slow := Judge();
      warned := slow && !slowWarningActive;
      slowWarningActive := slow;
      remaining := Some(left);
    }

    /** `update`: only bytes beyond the high watermark renew the deadline. */
    method Update(bytes: nat) returns (ok: bool)
      requires Valid()
      modifies this
      ensures Valid() && clock == old(clock) && base == old(base) && earlier == old(earlier)
      ensures events == old(events) + [Told(clock, bytes)] && (old(IsInTime()) ==> (ok <==> IsInTime()))
      ensures currentBytes == bytes
      ensures bytes > old(highWatermark) ==>
        highWatermark == bytes && lastProgressAt == clock && renewals == old(renewals) + 1
      ensures bytes <= old(highWatermark) ==>
        highWatermark == old(highWatermark) && lastProgressAt == old(lastProgressAt)
                                              && renewals == old(renewals)
      ensures ok <==> clock - lastProgressAt < policy.timeout
      ensures ok ==> history == old(history) + [Sample(clock, bytes)] && StartsAtLatest()
                     && slowWarningActive == Slow(policy, size, history)
      ensures !ok ==> history == old(history) && samples == old(samples) && slowWarningActive == old(slowWarningActive)
    {
      OneMoreEvent(events, Told(clock, bytes), initial, start, policy.timeout);
      events := events + [Told(clock, bytes)];
      currentBytes := bytes;
      if bytes > highWatermark {
        highWatermark, lastProgressAt, renewals := bytes, clock, renewals + 1;
      }
      var remaining, _ := Check();
      ok := remaining.Some?;
    }

    /** `remaining`. */
    method Remaining() returns (ok: bool)
      requires Valid()
      modifies this
      ensures Valid() && clock == old(clock) && base == old(base)
      ensures events == old(events) + [Questioned(clock)] && (old(IsInTime()) ==> (ok <==> IsInTime()))
      ensures earlier == old(earlier) && renewals == old(renewals)
      ensures currentBytes == old(currentBytes) && highWatermark == old(highWatermark)
      ensures lastProgressAt == old(lastProgressAt)
      ensures ok <==> clock - lastProgressAt < policy.timeout
      ensures ok ==> history == old(history) + [Sample(clock, currentBytes)] && StartsAtLatest()
                     && slowWarningActive == Slow(policy, size, history)
      ensures !ok ==> history == old(history) && samples == old(samples) && slowWarningActive == old(slowWarningActive)
    {
      OneMoreEvent(events, Questioned(clock), initial, start, policy.timeout);
      events := events + [Questioned(clock)];
      var remaining, _ := Check();
      ok := remaining.Some?;
    }

    /** `restart_after_discard`: a new base for progress, but no renewal of the deadline. */
    method RestartAfterDiscard()
      requires Valid()
      modifies this
      ensures events == old(events) + [Discarded] && (old(IsInTime()) ==> IsInTime())
      ensures Valid() && clock == old(clock) && renewals == old(renewals) && lastProgressAt == old(lastProgressAt)
      ensures currentBytes == highWatermark == base == 0 && earlier == renewals
      ensures history == [Sample(clock, 0)] && StartsAtLatest() && !slowWarningActive
    {
      OneMoreEvent(events, Discarded, initial, start, policy.timeout);
      events := events + [Discarded];
      currentBytes, highWatermark := 0, 0;
      samples, history := [Sample(clock, 0)], [Sample(clock, 0)];
      FirstSample(Sample(clock, 0), policy.window);
      slowWarningActive := false;
      earlier, base := renewals, 0;
    }
  }

  lemma StartIsLatest(history: seq<Sample>, samples: seq<Sample>, cutoff: real)
    requires Chronological(history) && Kept(history, samples, cutoff)
    requires |samples| > 1 ==> samples[1].at > cutoff
    ensures IsLatest(history, cutoff, |history| - |samples|)
  {
    var start := |history| - |samples|;
    forall j | start < j < |history|
      ensures history[j].at > cutoff
    {
      assert history[start + 1] == samples[1];
    }
  }

  // ---------- The retry loop ----------

  /** What an attempt tells the progress: bytes it has, or a question for the time that is left. */
  datatype Tick = Got(elapsed: Duration, bytes: nat) | Asked(elapsed: Duration)

  /** A transport error, which may call for a fallback to one stream; a complete but wrong file; or success. */
  datatype Ending = Failed(fallback: bool) | Corrupt(parallel: bool) | Verified

  datatype Attempt = Attempt(delay: Duration, ticks: seq<Tick>, elapsed: Duration, ending: Ending)

  datatype Outcome = Complete | AllCorrupt | Unavailable | Idle

  datatype Trace = Trace(outcome: Outcome, attempts: nat, fallbacks: nat)

  ghost predicate FallsBack(ending: Ending) {
    match ending
    case Failed(fallback) => fallback
    case Corrupt(parallel) => parallel
    case Verified => false
  }

  /** How many of the first `n` attempts end in a fallback to one stream. */
  ghost function Fallbacks(attempts: seq<Attempt>, n: nat): nat
    requires n <= |attempts|
  {
    if n == 0 then 0 else Fallbacks(attempts, n - 1) + if FallsBack(attempts[n - 1].ending) then 1 else 0
  }

  /** One of the first `n` attempts has ended with a wrong file. */
  ghost predicate AnyCorrupt(attempts: seq<Attempt>, n: nat)
    requires n <= |attempts|
  {
    n > 0 && (attempts[n - 1].ending.Corrupt? || AnyCorrupt(attempts, n - 1))
  }

  /** What is known of the first `n` attempts, none of which has ended the loop. */
  ghost predicate Tried(attempts: seq<Attempt>, n: nat, sawCorrupt: bool, fallbacks: nat) {
    && n <= |attempts| && fallbacks == Fallbacks(attempts, n)
    && (forall j :: 0 <= j < n ==> attempts[j].ending != Verified)
    && sawCorrupt == AnyCorrupt(attempts, n)
  }

  ghost predicate NoTickAbove(ticks: seq<Tick>, most: nat) {
    forall i :: 0 <= i < |ticks| && ticks[i].Got? ==> ticks[i].bytes <= most
  }

  /** No update tells of more than `most` bytes. */
  ghost predicate AtMost(attempts: seq<Attempt>, most: nat) {
    forall i :: 0 <= i < |attempts| ==> NoTickAbove(attempts[i].ticks, most)
  }

  // ---------- The events of the attempts, were nothing to come too late ----------

  /** The time that the first `n` updates and questions of an attempt take. */
  ghost function Elapsed(ticks: seq<Tick>, n: nat): real
    requires n <= |ticks|
  {
    if n == 0 then 0.0 else Elapsed(ticks, n - 1) + ticks[n - 1].elapsed
  }

  ghost function EventOf(tick: Tick, at: real): Event {
    match tick
    case Got(_, bytes) => Told(at, bytes)
    case Asked(_) => Questioned(at)
  }

  /** What they tell from time `at` on. */
  ghost function TickEvents(ticks: seq<Tick>, n: nat, at: real): seq<Event>
    requires n <= |ticks|
  {
    if n == 0 then [] else TickEvents(ticks, n - 1, at) + [EventOf(ticks[n - 1], at + Elapsed(ticks, n))]
  }

  /** Every attempt but the first comes after a delay. */
  ghost function Began(a: Attempt, first: bool, at: real): real {
    if first then at else at + a.delay
  }

  /** The loop asks for the time left before the delay and before the attempt. */
  ghost function Asks(a: Attempt, first: bool, at: real): seq<Event> {
    if first then [Questioned(at)] else [Questioned(at)] + [Questioned(at + a.delay)]
  }

  ghost function AttemptEvents(a: Attempt, first: bool, at: real): seq<Event> {
    Asks(a, first, at) + TickEvents(a.ticks, |a.ticks|, Began(a, first, at))
  }

  ghost function Ended(a: Attempt, first: bool, at: real): real {
    Began(a, first, at) + Elapsed(a.ticks, |a.ticks|) + a.elapsed
  }

  /** The time after the first `n` attempts. */
  ghost function Clock(attempts: seq<Attempt>, n: nat, now: real): real
    requires n <= |attempts|
  {
    if n == 0 then now else Ended(attempts[n - 1], n == 1, Clock(attempts, n - 1, now))
  }

  /** The first fallback discards what was there; a wrong file is told as no bytes at all. */
  ghost function EndingEvents(fallbacks: nat, ending: Ending, at: real): seq<Event> {
    match ending
    case Failed(fallback) => if fallback && fallbacks == 0 then [Discarded] else []
    case Corrupt(_) => [Told(at, 0)]
    case Verified => []
  }

  /** The events of the first `n` attempts. */
  ghost function Events(attempts: seq<Attempt>, n: nat, now: real): seq<Event>
    requires n <= |attempts|
  {
    if n == 0 then []
    else
      var a := attempts[n - 1];
      Events(attempts, n - 1, now) + AttemptEvents(a, n == 1, Clock(attempts, n - 1, now))
      + EndingEvents(Fallbacks(attempts, n - 1), a.ending, Clock(attempts, n, now))
  }

  /** How many attempts there are up to the first that is verified, from the `i`-th on. */
  ghost function Reached(attempts: seq<Attempt>, i: nat := 0): (n: nat)
    requires i <= |attempts|
    ensures i <= n <= |attempts| && forall j :: i <= j < n - 1 ==> attempts[j].ending != Verified
    ensures n < |attempts| ==> n > i && attempts[n - 1].ending == Verified
    decreases |attempts| - i
  {
    if i == |attempts| then i
    else if attempts[i].ending == Verified then i + 1
    else Reached(attempts, i + 1)
  }

  lemma ReachedIs(attempts: seq<Attempt>, n: nat)
    requires n <= |attempts| && forall j :: 0 <= j < n - 1 ==> attempts[j].ending != Verified
    requires n < |attempts| ==> n > 0 && attempts[n - 1].ending == Verified
    ensures Reached(attempts) == n
  {
  }

  lemma TriedOneMore(attempts: seq<Attempt>, i: nat, sawCorrupt: bool, fallbacks: nat)
    requires i < |attempts| && Tried(attempts, i, sawCorrupt, fallbacks) && attempts[i].ending != Verified
    ensures var ending := attempts[i].ending;
      Tried(attempts, i + 1, sawCorrupt || ending.Corrupt?, fallbacks + if FallsBack(ending) then 1 else 0)
  {
  }

  lemma {:induction false} EventsPrefix(attempts: seq<Attempt>, i: nat, n: nat, now: real)
    requires i <= n <= |attempts|
    ensures Events(attempts, i, now) <= Events(attempts, n, now)
  {
    if i < n {
      EventsPrefix(attempts, i, n - 1, now);
    }
  }

  lemma {:induction false} TicksPrefix(ticks: seq<Tick>, i: nat, n: nat, at: real)
    requires i <= n <= |ticks|
    ensures TickEvents(ticks, i, at) <= TickEvents(ticks, n, at)
  {
    if i < n {
      TicksPrefix(ticks, i, n - 1, at);
    }
  }

  method RunTick(t: HttpTransferProgress, tick: Tick, ghost most: nat) returns (ok: bool)
    requires t.Valid() && t.IsInTime() && (tick.Got? ==> tick.bytes <= most)
    modifies t
    ensures t.Valid() && t.base == old(t.base) && t.earlier == old(t.earlier) && (ok <==> t.IsInTime())
    ensures t.highWatermark <= Max(old(t.highWatermark), most)
    ensures t.clock == old(t.clock) + tick.elapsed && t.events == old(t.events) + [EventOf(tick, t.clock)]
  {
    t.Advance(tick.elapsed);
    match tick
    case Got(_, bytes) => ok := t.Update(bytes);
    case Asked(_) => ok := t.Remaining();
  }

  method RunTicks(t: HttpTransferProgress, ticks: seq<Tick>, ghost most: nat) returns (ok: bool)
    requires t.Valid() && t.IsInTime() && NoTickAbove(ticks, most)
    modifies t
    ensures t.Valid() && t.base == old(t.base) && t.earlier == old(t.earlier) && (ok <==> t.IsInTime())
    ensures t.highWatermark <= Max(old(t.highWatermark), most)
    ensures t.events <= old(t.events) + TickEvents(ticks, |ticks|, old(t.clock))
    ensures ok ==> t.clock == old(t.clock) + Elapsed(ticks, |ticks|)
                   && t.events == old(t.events) + TickEvents(ticks, |ticks|, old(t.clock))
  {
    ghost var events, at := t.events, t.clock;
    for i := 0 to |ticks|
      invariant t.Valid() && t.base == old(t.base) && t.earlier == old(t.earlier) && t.IsInTime()
      invariant t.highWatermark <= Max(old(t.highWatermark), most)
      invariant t.clock == at + Elapsed(ticks, i) && t.events == events + TickEvents(ticks, i, at)
    {
      ok := RunTick(t, ticks[i], most);
      Associate(events, TickEvents(ticks, i, at), [EventOf(ticks[i], t.clock)]);
      if !ok {
        TicksPrefix(ticks, i + 1, |ticks|, at);
        return;
      }
    }
    ok := true;
  }

  /** How often the deadline can have been renewed: once a byte, over the first layout and over one more. */
  ghost predicate WithinBudget(t: HttpTransferProgress, initial: nat, most: nat, restarts: nat)
    reads t
  {
    && t.Valid()
    && restarts <= 1
    && t.highWatermark <= Max(t.base, most)
    && t.base == (if restarts == 0 then initial else 0)
    && t.earlier <= (if restarts == 0 then 0 else Max(initial, most) - initial)
  }

  lemma Budget(t: HttpTransferProgress, initial: nat, most: nat, restarts: nat)
    requires WithinBudget(t, initial, most, restarts)
    ensures t.renewals <= Max(initial, most) - initial + most
  {
  }

  lemma Later(events: seq<Event>, before: seq<Event>, a: seq<Event>, b: seq<Event>)
    ensures events <= before + a ==> events <= before + (a + b)
    ensures events <= before + a + b ==> events <= before + (a + b)
    ensures before + a + b == before + (a + b)
  {
  }

  /** A question for the time left, some time after what happened before. */
  method Ask(t: HttpTransferProgress, delay: Duration, ghost initial: nat, ghost most: nat, ghost restarts: nat)
    returns (ok: bool)
    requires WithinBudget(t, initial, most, restarts) && t.IsInTime()
    modifies t
    ensures WithinBudget(t, initial, most, restarts) && (ok <==> t.IsInTime())
    ensures t.clock == old(t.clock) + delay && t.events == old(t.events) + [Questioned(t.clock)]
  {
    t.Advance(delay);
    ok := t.Remaining();
  }

  /** The delay before an attempt, and the questions around it. */
  method Wait(t: HttpTransferProgress, attempt: Attempt, first: bool,
              ghost initial: nat, ghost most: nat, ghost restarts: nat) returns (ok: bool)
    requires WithinBudget(t, initial, most, restarts) && t.IsInTime()
    modifies t
    ensures WithinBudget(t, initial, most, restarts) && (ok <==> t.IsInTime())
    ensures t.events <= old(t.events) + Asks(attempt, first, old(t.clock))
    ensures ok ==> t.clock == Began(attempt, first, old(t.clock))
                   && t.events == old(t.events) + Asks(attempt, first, old(t.clock))
  {
    ghost var before, at := t.events, t.clock;
    ok := Ask(t, 0.0, initial, most, restarts);
    if !first {
      if ok {
        ok := Ask(t, attempt.delay, initial, most, restarts);
      }
      Later(t.events, before, [Questioned(at)], [Questioned(at + attempt.delay)]);
    }
  }

  /** One attempt of the loop, until it ends or the deadline passes. */
  method RunAttempt(t: HttpTransferProgress, attempt: Attempt, first: bool,
                    ghost initial: nat, ghost most: nat, ghost restarts: nat) returns (ok: bool)
    requires WithinBudget(t, initial, most, restarts) && t.IsInTime()
    requires NoTickAbove(attempt.ticks, most)
    modifies t
    ensures WithinBudget(t, initial, most, restarts) && (ok <==> t.IsInTime())
    ensures t.events <= old(t.events) + AttemptEvents(attempt, first, old(t.clock))
    ensures ok ==>
      && t.clock == Ended(attempt, first, old(t.clock))
      && t.events == old(t.events) + AttemptEvents(attempt, first, old(t.clock))
  {
    ghost var before, at := t.events, t.clock;
    ok := Wait(t, attempt, first, initial, most, restarts);
    if ok {
      ok := RunTicks(t, attempt.ticks, most);
      t.Advance(attempt.elapsed);
    }
    Later(t.events, before, Asks(attempt, first, at),
          TickEvents(attempt.ticks, |attempt.ticks|, Began(attempt, first, at)));
  }

  /** What the loop does about an attempt that has ended, when something comes too late in it as well. */
  method EndAttempt(t: HttpTransferProgress, ending: Ending, singleStream: bool, ghost fallbacks: nat,
                    ghost initial: nat, ghost most: nat, ghost before: nat) returns (ok: bool, ghost restarts: nat)
    requires WithinBudget(t, initial, most, before) && t.IsInTime()
    requires singleStream == (fallbacks > 0) && (!singleStream ==> before == 0)
    modifies t
    ensures WithinBudget(t, initial, most, restarts) && (ok <==> t.IsInTime()) && t.clock == old(t.clock)
    ensures t.events == old(t.events) + EndingEvents(fallbacks, ending, t.clock)
    ensures restarts == before || (ending.Failed? && ending.fallback)
  {
    restarts, ok := before, true;
    match ending
    case Failed(fallback) =>
      if fallback && !singleStream {
        t.RestartAfterDiscard();
        restarts := restarts + 1;
      }
    case Corrupt(_) =>
      ok := t.Update(0);
    case Verified =>
  }

  /** The loop has made `n` attempts, and this is what has happened by this time. */
  ghost predicate MadeSoFar(attempts: seq<Attempt>, n: nat, now: real, events: seq<Event>, clock: real)
    requires n <= |attempts|
  {
    events == Events(attempts, n, now) && clock == Clock(attempts, n, now)
  }

  lemma CutOff(attempts: seq<Attempt>, i: nat, now: real, events: seq<Event>)
    requires i < |attempts|
    requires events <= Events(attempts, i, now) + AttemptEvents(attempts[i], i == 0, Clock(attempts, i, now))
    ensures events <= Events(attempts, i + 1, now)
  {
  }

  /** One round of the loop: an attempt, and what follows when it has ended. */
  method MakeAttempt(t: HttpTransferProgress, attempts: seq<Attempt>, i: nat, singleStream: bool, ghost now: real,
                     ghost initial: nat, ghost most: nat, ghost before: nat) returns (ok: bool, ghost restarts: nat)
    requires i < |attempts| && AtMost(attempts, most)
    requires WithinBudget(t, initial, most, before) && t.IsInTime()
    requires MadeSoFar(attempts, i, now, t.events, t.clock)
    requires singleStream == (Fallbacks(attempts, i) > 0) && (!singleStream ==> before == 0)
    modifies t
    ensures WithinBudget(t, initial, most, restarts) && (ok <==> t.IsInTime())
    ensures ok ==> MadeSoFar(attempts, i + 1, now, t.events, t.clock)
    ensures !ok ==> t.events <= Events(attempts, i + 1, now)
    ensures restarts == before || FallsBack(attempts[i].ending)
    ensures t.renewals <= Max(initial, most) - initial + most
  {
    restarts := before;
    ok := RunAttempt(t, attempts[i], i == 0, initial, most, before);
    if !ok {
      CutOff(attempts, i, now, t.events);
      Budget(t, initial, most, restarts);
      return;
    }
    ok, restarts := EndAttempt(t, attempts[i].ending, singleStream, Fallbacks(attempts, i), initial, most, before);
    Budget(t, initial, most, restarts);
  }

  /** What the loop remembers of an attempt after which it goes on. */
  method Account(ghost attempts: seq<Attempt>, ghost i: nat, ending: Ending, singleStream: bool, sawCorrupt: bool,
                 fallbacks: nat)
    returns (singleStream': bool, sawCorrupt': bool, fallbacks': nat)
    requires i < |attempts| && ending == attempts[i].ending != Verified
    requires Tried(attempts, i, sawCorrupt, fallbacks) && singleStream == (fallbacks > 0)
    ensures Tried(attempts, i + 1, sawCorrupt', fallbacks') && singleStream' == (fallbacks' > 0)
    ensures singleStream || FallsBack(ending) ==> singleStream'
  {
    TriedOneMore(attempts, i, sawCorrupt, fallbacks);
    singleStream', sawCorrupt', fallbacks' := singleStream, sawCorrupt, fallbacks;
    match ending
    case Failed(fallback) =>
      if fallback {
        singleStream', fallbacks' := true, fallbacks + 1;
      }
    case Corrupt(parallel) =>
      sawCorrupt' := true;
      if parallel {
        singleStream', fallbacks' := true, fallbacks + 1;
      }
  }

  /** How the loop ends when nothing comes too late: at the first verified attempt, or after all of them. */
  ghost function Verdict(attempts: seq<Attempt>): Outcome {
    var n := Reached(attempts);
    if n > 0 && attempts[n - 1].ending == Verified then Complete
    else if AnyCorrupt(attempts, n) then AllCorrupt
    else Unavailable
  }

  /** The loop ends idle exactly when something comes too late, and otherwise with the verdict. */
  ghost predicate LoopEnds(attempts: seq<Attempt>, initial: nat, now: real, timeout: real, trace: Trace) {
    var n := Reached(attempts);
    && (trace.outcome == Idle <==> !InTime(Events(attempts, n, now), initial, now, timeout))
    && (trace.outcome != Idle ==> trace == Trace(Verdict(attempts), n, Fallbacks(attempts, n)))
  }

  lemma EndsIdle(attempts: seq<Attempt>, i: nat, events: seq<Event>, initial: nat, now: real, timeout: real,
                 made: nat, sawCorrupt: bool, fallbacks: nat)
    requires i < |attempts| && Tried(attempts, i, sawCorrupt, fallbacks)
    requires events <= Events(attempts, i + 1, now) && !InTime(events, initial, now, timeout)
    ensures LoopEnds(attempts, initial, now, timeout, Trace(Idle, made, fallbacks))
  {
    var n := Reached(attempts);
    EventsPrefix(attempts, i + 1, n, now);
    LateStaysLate(events, Events(attempts, n, now), initial, now, timeout);
  }

  lemma EndsVerified(attempts: seq<Attempt>, i: nat, sawCorrupt: bool, fallbacks: nat,
                     initial: nat, now: real, timeout: real)
    requires i < |attempts| && attempts[i].ending == Verified && Tried(attempts, i, sawCorrupt, fallbacks)
    requires InTime(Events(attempts, i + 1, now), initial, now, timeout)
    ensures LoopEnds(attempts, initial, now, timeout, Trace(Complete, i + 1, fallbacks))
  {
    ReachedIs(attempts, i + 1);
  }

  lemma EndsTried(attempts: seq<Attempt>, sawCorrupt: bool, fallbacks: nat, initial: nat, now: real, timeout: real)
    requires Tried(attempts, |attempts|, sawCorrupt, fallbacks)
    requires InTime(Events(attempts, |attempts|, now), initial, now, timeout)
    ensures LoopEnds(attempts, initial, now, timeout,
                     Trace(if sawCorrupt then AllCorrupt else Unavailable, |attempts|, fallbacks))
  {
    ReachedIs(attempts, |attempts|);
  }

  /**
   The loop of `_download_web_seed` over the attempts at all its sources. It ends idle exactly when an
   update or a question comes as long as the timeout after the start, or after the last update that told
   of more bytes than there had been since the last discard; otherwise it ends with the first verified
   attempt, or after all of them. Whatever the updates, errors, wrong files and discards, the idle
   deadline is renewed at most once for every byte above the initial ones, and once for every byte of
   the one layout that may follow a discard.
   */
  method DownloadWebSeed(size: nat, initial: nat, policy: Policy, now: real, attempts: seq<Attempt>, ghost most: nat)
    returns (trace: Trace, ghost renewals: nat, ghost restarts: nat)
    requires policy.window > 0.0 && AtMost(attempts, most)
    ensures renewals <= Max(initial, most) - initial + most
    ensures restarts <= 1
    ensures LoopEnds(attempts, initial, now, policy.timeout, trace)
  {
    var t := new HttpTransferProgress(size, initial, policy, now);
    var singleStream, sawCorrupt, fallbacks, made := false, false, 0, 0;
    restarts := 0;
    for i := 0 to |attempts|
      invariant fresh(t) && WithinBudget(t, initial, most, restarts)
      invariant t.renewals <= Max(initial, most) - initial + most
      invariant t.initial == initial && t.start == now && t.policy == policy && t.IsInTime()
      invariant MadeSoFar(attempts, i, now, t.events, t.clock)
      invariant singleStream == (fallbacks > 0) && (!singleStream ==> restarts == 0)
      invariant made == i && Tried(attempts, i, sawCorrupt, fallbacks)
    {
      var ok;
      ok, restarts := MakeAttempt(t, attempts, i, singleStream, now, initial, most, restarts);
      made := made + 1;
      if !ok {
        EndsIdle(attempts, i, t.events, initial, now, policy.timeout, made, sawCorrupt, fallbacks);
        return Trace(Idle, made, fallbacks), t.renewals, restarts;
      }
      if attempts[i].ending == Verified {
        EndsVerified(attempts, i, sawCorrupt, fallbacks, initial, now, policy.timeout);
        return Trace(Complete, made, fallbacks), t.renewals, restarts;
      }
      singleStream, sawCorrupt, fallbacks :=
        Account(attempts, i, attempts[i].ending, singleStream, sawCorrupt, fallbacks);
    }
    EndsTried(attempts, sawCorrupt, fallbacks, initial, now, policy.timeout);
    renewals := t.renewals;
    trace := Trace(if sawCorrupt then AllCorrupt else Unavailable, made, fallbacks);
  }
}
