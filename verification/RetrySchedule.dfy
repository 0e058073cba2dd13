/** How often a release that keeps failing is tried, when `compare_release` guards every attempt. */
module RetrySchedule {
  import opened Wrappers
  import opened ReleaseStatus

  /** A recorded run, and when the release was compared before it. */
  datatype Attempt = Attempt(checkedAt: real, run: PipelineRun)

  /** The status after some runs. */
  ghost function StatusAfter(status: Status, attempts: seq<Attempt>): Status {
    if attempts == [] then status
    else
      var last := |attempts| - 1;
      Updated(StatusAfter(status, attempts[..last]), attempts[last].run)
  }

  /** A run that failed for this release. */
  predicate FailedFor(a: Attempt, release: string) {
    a.run.result != "success" && a.run.releaseName == Some(release)
  }

  /**
   A run that may follow: it does not succeed, and either it is an attempt at this release that was not
   blocked when it was compared, and ended later, or it names no release that is not published.
   */
  ghost predicate Permitted(status: Status, release: string, a: Attempt) {
    && a.run.result != "success"
    && if a.run.releaseName == Some(release)
       then !CompareRelease(status, release, a.checkedAt).retryBlocked && a.checkedAt.Floor <= a.run.completedAt
       else a.run.releaseName == None || a.run.releaseName == status.releaseName
  }

  ghost predicate History(status: Status, release: string, attempts: seq<Attempt>) {
    forall i :: 0 <= i < |attempts| ==> Permitted(StatusAfter(status, attempts[..i]), release, attempts[i])
  }

  /** When the attempts at the release failed, in order. */
  function Failures(attempts: seq<Attempt>, release: string): seq<int> {
    if attempts == [] then []
    else
      var last := |attempts| - 1;
      Failures(attempts[..last], release)
      + if FailedFor(attempts[last], release) then [attempts[last].run.completedAt] else []
  }

  /** The retry state is that of the failures so far. */
  predicate Tracks(status: Status, release: string, failures: seq<int>) {
    if failures == [] then status.retry.Some? ==> status.retry.value.releaseName != release
    else status.retry == Some(ReleaseRetry(release, failures[0], failures[|failures| - 1]))
  }

  /** When the release may be tried again after the first `n` failures. */
  ghost function Resumes(failures: seq<int>, n: nat): int
    requires 0 < n <= |failures|
  {
    failures[n - 1] + Pause(failures[n - 1] - failures[0])
  }

  /** Every failure after the first comes no earlier than the schedule allows. */
  ghost predicate Spaced(failures: seq<int>) {
    forall i {:trigger Resumes(failures, i)} :: 0 < i < |failures| ==> failures[i] >= Resumes(failures, i)
  }

  /** A history of an unpublished release tracks its failures, and they are spaced. */
  lemma {:induction false} HistoryIsSpaced(status: Status, release: string, attempts: seq<Attempt>)
    requires History(status, release, attempts)
    requires status.releaseName != Some(release) && Tracks(status, release, [])
    ensures StatusAfter(status, attempts).releaseName == status.releaseName
    ensures Tracks(StatusAfter(status, attempts), release, Failures(attempts, release))
    ensures Spaced(Failures(attempts, release))
  {
    if attempts != [] {
      var last := |attempts| - 1;
      var init, a := attempts[..last], attempts[last];
      EarlierHistory(status, release, attempts);
      HistoryIsSpaced(status, release, init);
      Ascend(Failures(init, release));
      OneMoreRun(StatusAfter(status, init), release, Failures(init, release), a);
    }
  }

  lemma EarlierHistory(status: Status, release: string, attempts: seq<Attempt>)
    requires History(status, release, attempts) && attempts != []
    ensures var last := |attempts| - 1;
      && History(status, release, attempts[..last])
      && Permitted(StatusAfter(status, attempts[..last]), release, attempts[last])
  {
    var init := attempts[..|attempts| - 1];
    assert forall i :: 0 <= i < |init| ==> init[..i] == attempts[..i];
  }

  /** One more permitted run adds a failure that is spaced, or none. */
  lemma OneMoreRun(before: Status, release: string, failures: seq<int>, a: Attempt)
    requires before.releaseName != Some(release) && Permitted(before, release, a)
    requires Tracks(before, release, failures) && Spaced(failures)
    requires forall i :: 0 <= i < |failures| ==> failures[0] <= failures[i] <= failures[|failures| - 1]
    ensures var grown := failures + if FailedFor(a, release) then [a.run.completedAt] else [];
      Tracks(Updated(before, a.run), release, grown) && Spaced(grown)
    ensures Updated(before, a.run).releaseName == before.releaseName
  {
    if FailedFor(a, release) && failures != [] {
      assert a.run.completedAt >= before.retry.value.NextRetry();
      FailureIsSpaced(failures, a.run.completedAt);
    }
    assert failures + [] == failures;
  }

  lemma FailureIsSpaced(failures: seq<int>, last: int)
    requires Spaced(failures) && failures != []
    requires last >= Resumes(failures, |failures|)
    ensures Spaced(failures + [last])
  {
    var grown := failures + [last];
    forall i | 0 < i < |grown|
      ensures grown[i] >= Resumes(grown, i)
    {
      assert i < |failures| ==> failures[i] >= Resumes(failures, i);
    }
  }

  lemma SpacedBefore(failures: seq<int>, n: nat)
    requires Spaced(failures) && n <= |failures|
    ensures Spaced(failures[..n])
  {
    forall i | 0 < i < n
      ensures failures[..n][i] >= Resumes(failures[..n], i)
    {
      assert failures[i] >= Resumes(failures, i);
    }
  }

  lemma {:induction false} Ascend(failures: seq<int>)
    requires Spaced(failures)
    ensures forall i :: 0 <= i < |failures| ==> failures[0] <= failures[i] <= failures[|failures| - 1]
  {
    if |failures| > 1 {
      var last := |failures| - 1;
      SpacedBefore(failures, last);
      Ascend(failures[..last]);
      assert failures[last] >= Resumes(failures, last);
    }
  }

  /** Each attempt ends when it was compared, and fails for the release. */
  ghost predicate FailsAtOnce(attempts: seq<Attempt>, release: string) {
    forall i :: 0 <= i < |attempts| ==>
      FailedFor(attempts[i], release) && attempts[i].checkedAt == attempts[i].run.completedAt as real
  }

  lemma {:induction false} AllFail(attempts: seq<Attempt>, release: string)
    requires FailsAtOnce(attempts, release)
    ensures |Failures(attempts, release)| == |attempts|
    ensures forall i :: 0 <= i < |attempts| ==> Failures(attempts, release)[i] == attempts[i].run.completedAt
  {
    if attempts != [] {
      AllFail(attempts[..|attempts| - 1], release);
    }
  }

  /** The schedule holds back no more than that: failures so spaced are permitted one after the other. */
  lemma {:induction false} SpacedIsPermitted(status: Status, release: string, attempts: seq<Attempt>)
    requires status.releaseName != Some(release) && Tracks(status, release, [])
    requires FailsAtOnce(attempts, release) && Spaced(Failures(attempts, release))
    ensures History(status, release, attempts)
  {
    if attempts != [] {
      var last := |attempts| - 1;
      var init, f := attempts[..last], Failures(attempts, release);
      AllFail(attempts, release);
      AllFail(init, release);
      SpacedBefore(f, last);
      assert Failures(init, release) == f[..last];
      SpacedIsPermitted(status, release, init);
      HistoryIsSpaced(status, release, init);
      if last > 0 {
        assert f[last] >= Resumes(f, last);
      }
      BlockedExactly(StatusAfter(status, init), release, attempts[last].checkedAt);
      OneMorePermitted(status, release, attempts);
    }
  }

  lemma OneMorePermitted(status: Status, release: string, attempts: seq<Attempt>)
    requires attempts != [] && History(status, release, attempts[..|attempts| - 1])
    requires Permitted(StatusAfter(status, attempts[..|attempts| - 1]), release, attempts[|attempts| - 1])
    ensures History(status, release, attempts)
  {
    var init := attempts[..|attempts| - 1];
    forall i | 0 <= i < |attempts|
      ensures Permitted(StatusAfter(status, attempts[..i]), release, attempts[i])
    {
      if i < |init| {
        assert init[..i] == attempts[..i] && Permitted(StatusAfter(status, init[..i]), release, init[i]);
      }
    }
  }

  function Age(failures: seq<int>, i: nat): int
    requires i < |failures|
  {
    failures[i] - failures[0]
  }

  lemma AgeStep(failures: seq<int>, i: nat)
    requires Spaced(failures) && i + 1 < |failures|
    ensures Age(failures, i) < 3 * DAY ==> Age(failures, i + 1) >= Age(failures, i) + 12 * HOUR
    ensures 3 * DAY <= Age(failures, i) < 10 * DAY ==> Age(failures, i + 1) >= Age(failures, i) + DAY
    ensures Age(failures, i) >= 10 * DAY ==> Age(failures, i + 1) >= Age(failures, i) + 7 * DAY
  {
    assert failures[i + 1] >= Resumes(failures, i + 1);
  }

  lemma {:induction false} YoungAges(failures: seq<int>, i: nat)
    requires Spaced(failures) && i < |failures|
    ensures Age(failures, i) >= Min(i * 12 * HOUR, 3 * DAY)
  {
    if i > 0 {
      YoungAges(failures, i - 1);
      AgeStep(failures, i - 1);
    }
  }

  lemma {:induction false} MiddleAges(failures: seq<int>, j: nat, i: nat)
    requires Spaced(failures) && j <= i < |failures| && Age(failures, j) >= 3 * DAY
    ensures Age(failures, i) >= Min(3 * DAY + (i - j) * DAY, 10 * DAY)
    decreases i
  {
    if i > j {
      MiddleAges(failures, j, i - 1);
      AgeStep(failures, i - 1);
    }
  }

  /** How many failures have an age from `low` to below `high`. */
  function CountAged(failures: seq<int>, low: int, high: int, n: nat): nat
    requires n <= |failures|
  {
    if n == 0 then 0
    else CountAged(failures, low, high, n - 1) + if low <= Age(failures, n - 1) < high then 1 else 0
  }

  /** At most as many as the positions they can be at. */
  lemma {:induction false} CountedWithin(failures: seq<int>, low: int, high: int, n: nat, from: nat, to: nat)
    requires n <= |failures| && from <= to
    requires forall i: nat :: i < n && low <= Age(failures, i) < high ==> from <= i < to
    ensures CountAged(failures, low, high, n) <= Max(0, Min(n, to) - from)
  {
    if n > 0 {
      CountedWithin(failures, low, high, n - 1, from, to);
    }
  }

  /**
   A release that is only tried when it is not blocked fails at most 6 times before it is 3 days old, at
   most 7 times from then until it is 10 days old, and after that at most once in 7 days.
   */
  lemma RetriesAreRare(status: Status, release: string, attempts: seq<Attempt>)
    requires History(status, release, attempts)
    requires status.releaseName != Some(release) && Tracks(status, release, [])
    ensures var f := Failures(attempts, release);
      && CountAged(f, 0, 3 * DAY, |f|) <= 6
      && CountAged(f, 3 * DAY, 10 * DAY, |f|) <= 7
      && forall i: nat :: i + 1 < |f| && Age(f, i) >= 10 * DAY ==> f[i + 1] >= f[i] + 7 * DAY
  {
    var f := Failures(attempts, release);
    HistoryIsSpaced(status, release, attempts);
    forall i: nat | i < |f| && 0 <= Age(f, i) < 3 * DAY
      ensures i < 6
    {
      YoungAges(f, i);
    }
    CountedWithin(f, 0, 3 * DAY, |f|, 0, 6);
    MiddleIsShort(f);
    forall i: nat | i + 1 < |f| && Age(f, i) >= 10 * DAY
      ensures f[i + 1] >= f[i] + 7 * DAY
    {
      AgeStep(f, i);
    }
  }

  lemma MiddleIsShort(f: seq<int>)
    requires Spaced(f)
    ensures CountAged(f, 3 * DAY, 10 * DAY, |f|) <= 7
  {
    var j := FirstAged(f, |f|);
    forall i: nat | i < |f| && 3 * DAY <= Age(f, i) < 10 * DAY
      ensures j <= i < j + 7
    {
      MiddleAges(f, j, i);
    }
    CountedWithin(f, 3 * DAY, 10 * DAY, |f|, j, j + 7);
  }

  /** The first failure at an age of 3 days or more. */
  lemma {:induction false} FirstAged(f: seq<int>, n: nat) returns (j: nat)
    requires n <= |f|
    ensures j <= n && (j < n ==> Age(f, j) >= 3 * DAY)
    ensures forall i: nat :: i < j ==> Age(f, i) < 3 * DAY
  {
    if n == 0 {
      j := 0;
    } else {
      j := FirstAged(f, n - 1);
      if j == n - 1 && Age(f, j) < 3 * DAY {
        j := n;
      }
    }
  }
}
