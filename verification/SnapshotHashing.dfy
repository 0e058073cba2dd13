/** `_verify_hash_requests` of `snapshot.py`: every payload file is hashed once, in batches of bounded size. */
module SnapshotHashing {
  import opened Sorting

  type Bytes = string

  /** A payload file and what its manifest says of it. */
  datatype Request = Request(content: Bytes, expectedSize: nat, expectedSha256: string, rejectPacked: bool)

  datatype Policy = Policy(maxWorkers: nat, batchFiles: nat, batchBytes: nat, parallelMinimum: nat)

  const PACKED_MAGIC: Bytes := ['E', 'N', 161 as char, 'b']

  predicate Matches(sha256: Bytes -> string, r: Request) {
    && |r.content| == r.expectedSize
    && sha256(r.content) == r.expectedSha256
    && !(r.rejectPacked && PACKED_MAGIC <= r.content)
  }

  predicate AllMatch(sha256: Bytes -> string, requests: seq<Request>) {
    forall r <- requests :: Matches(sha256, r)
  }

  function SizeOf(): Request -> nat {
    (r: Request) => r.expectedSize
  }

  function Size(requests: seq<Request>): nat {
    SumBy(requests, SizeOf())
  }

  /** A batch as large as it may be; one file alone may be larger. */
  predicate Bounded(p: Policy, batch: seq<Request>) {
    && 0 < |batch| <= p.batchFiles
    && (|batch| == 1 || Size(batch) <= p.batchBytes)
  }

  /** `_accept_hash_results` for one batch. */
  method Accept(sha256: Bytes -> string, batch: seq<Request>) returns (ok: bool)
    ensures ok <==> AllMatch(sha256, batch)
  {
    for i := 0 to |batch|
      invariant AllMatch(sha256, batch[..i])
    {
      PrefixGrows(batch, i);
      if !Matches(sha256, batch[i]) {
        assert batch[i] in batch;
        return false;
      }
    }
    assert batch[..|batch|] == batch;
    ok := true;
  }

  /**
   The queue of batches: `checked` have been accepted, `pending` wait for their results and `batch` is
   being filled; together they are the requests so far.
   */
  ghost predicate Queued(sha256: Bytes -> string, p: Policy, requests: seq<Request>,
                         checked: seq<seq<Request>>, pending: seq<seq<Request>>, batch: seq<Request>) {
    && Flatten(checked + pending) + batch == requests
    && (forall b <- checked :: Bounded(p, b) && AllMatch(sha256, b))
    && (forall b <- pending :: Bounded(p, b))
    && (batch != [] ==> Bounded(p, batch))
  }

  lemma Submitted(sha256: Bytes -> string, p: Policy, requests: seq<Request>,
                  checked: seq<seq<Request>>, pending: seq<seq<Request>>, batch: seq<Request>)
    requires Queued(sha256, p, requests, checked, pending, batch) && batch != []
    ensures Queued(sha256, p, requests, checked, pending + [batch], [])
  {
    FlattenConcat(checked + pending, [batch]);
    assert [batch][1..] == [] && Flatten([batch]) == batch + Flatten([]);
    assert checked + (pending + [batch]) == checked + pending + [batch];
    assert Flatten(checked + pending) + batch + [] == Flatten(checked + pending) + batch;
  }

  lemma Accepted(sha256: Bytes -> string, p: Policy, requests: seq<Request>,
                 checked: seq<seq<Request>>, pending: seq<seq<Request>>, batch: seq<Request>)
    requires Queued(sha256, p, requests, checked, pending, batch) && pending != [] && AllMatch(sha256, pending[0])
    ensures Queued(sha256, p, requests, checked + [pending[0]], pending[1..], batch)
  {
    assert checked + pending == checked + [pending[0]] + pending[1..];
  }

  lemma Filled(sha256: Bytes -> string, p: Policy, requests: seq<Request>, r: Request,
               checked: seq<seq<Request>>, pending: seq<seq<Request>>, batch: seq<Request>)
    requires Queued(sha256, p, requests, checked, pending, batch) && p.batchFiles > 0
    requires batch == [] || (|batch| < p.batchFiles && Size(batch) + r.expectedSize <= p.batchBytes)
    ensures Queued(sha256, p, requests + [r], checked, pending, batch + [r])
  {
    SumByAppend(batch, r, SizeOf());
    assert Flatten(checked + pending) + (batch + [r]) == Flatten(checked + pending) + batch + [r];
  }

  /** A batch that fails holds a request that fails. */
  lemma FailureIsReal(sha256: Bytes -> string, p: Policy, requests: seq<Request>, checked: seq<seq<Request>>,
                      pending: seq<seq<Request>>, batch: seq<Request>)
    requires Queued(sha256, p, requests, checked, pending, batch)
    requires pending != [] && !AllMatch(sha256, pending[0])
    ensures !AllMatch(sha256, requests)
  {
    var parts := checked + pending;
    FlattenSplit(parts, |checked|);
    var r :| r in pending[0] && !Matches(sha256, r);
    assert r in Flatten(parts);
  }

  lemma {:induction false} AllChecked(sha256: Bytes -> string, checked: seq<seq<Request>>)
    requires forall b <- checked :: AllMatch(sha256, b)
    ensures AllMatch(sha256, Flatten(checked))
  {
    if checked != [] {
      AllChecked(sha256, checked[1..]);
      assert checked[0] in checked;
    }
  }

  /** `_verify_hash_requests`: accepts exactly when every request matches; the batches are the requests in order. */
  method VerifyRequests(sha256: Bytes -> string, p: Policy, requests: seq<Request>, totalBytes: nat)
    returns (ok: bool, ghost checked: seq<seq<Request>>)
    requires p.maxWorkers >= 1 && p.batchFiles >= 1 && p.batchBytes >= 1
    ensures ok <==> AllMatch(sha256, requests)
    ensures ok ==> Flatten(checked) == requests && forall b <- checked :: Bounded(p, b)
  {
    if p.maxWorkers == 1 || totalBytes < p.parallelMinimum {
      ok := Accept(sha256, requests);
      checked := Map(requests, Alone());
      AloneFlattens(p, requests);
      return;
    }
    ok, checked := VerifyInBatches(sha256, p, requests);
  }

  function Alone(): Request -> seq<Request> {
    (r: Request) => [r]
  }

  lemma {:induction false} AloneFlattens(p: Policy, requests: seq<Request>)
    requires p.batchFiles >= 1
    ensures Flatten(Map(requests, Alone())) == requests
    ensures forall b <- Map(requests, Alone()) :: Bounded(p, b)
  {
    if requests != [] {
      AloneFlattens(p, requests[1..]);
      assert Map(requests, Alone())[1..] == Map(requests[1..], Alone());
    }
  }

  method VerifyInBatches(sha256: Bytes -> string, p: Policy, requests: seq<Request>)
    returns (ok: bool, ghost checked: seq<seq<Request>>)
    requires p.maxWorkers >= 1 && p.batchFiles >= 1
    ensures ok <==> AllMatch(sha256, requests)
    ensures ok ==> Flatten(checked) == requests && forall b <- checked :: Bounded(p, b)
  {
    var pending: seq<seq<Request>>, batch: seq<Request>, batchBytes: nat := [], [], 0;
    checked := [];
    for i := 0 to |requests|
      invariant Queued(sha256, p, requests[..i], checked, pending, batch)
      invariant batchBytes == Size(batch)
      invariant |pending| < 2 * p.maxWorkers
    {
      var r := requests[i];
      PrefixGrows(requests, i);
      if batch != [] && (|batch| >= p.batchFiles || batchBytes + r.expectedSize > p.batchBytes) {
        Submitted(sha256, p, requests[..i], checked, pending, batch);
        pending, batch, batchBytes := pending + [batch], [], 0;
      }
      Filled(sha256, p, requests[..i], r, checked, pending, batch);
      SumByAppend(batch, r, SizeOf());
      batch, batchBytes := batch + [r], batchBytes + r.expectedSize;
      if |pending| >= 2 * p.maxWorkers {
        ok := Accept(sha256, pending[0]);
        if !ok {
          FailureIsReal(sha256, p, requests[..i + 1], checked, pending, batch);
          assert !AllMatch(sha256, requests);
          return;
        }
        Accepted(sha256, p, requests[..i + 1], checked, pending, batch);
        checked, pending := checked + [pending[0]], pending[1..];
      }
    }
    assert requests[..|requests|] == requests;
    if batch != [] {
      Submitted(sha256, p, requests, checked, pending, batch);
      pending := pending + [batch];
    }
    ok, checked := Drain(sha256, p, requests, checked, pending);
  }

  method Drain(sha256: Bytes -> string, p: Policy, requests: seq<Request>, ghost before: seq<seq<Request>>,
               waiting: seq<seq<Request>>) returns (ok: bool, ghost checked: seq<seq<Request>>)
    requires Queued(sha256, p, requests, before, waiting, [])
    ensures ok <==> AllMatch(sha256, requests)
    ensures ok ==> Flatten(checked) == requests && forall b <- checked :: Bounded(p, b)
  {
    checked := before;
    var pending := waiting;
    while pending != []
      invariant Queued(sha256, p, requests, checked, pending, [])
      decreases |pending|
    {
      ok := Accept(sha256, pending[0]);
      if !ok {
        FailureIsReal(sha256, p, requests, checked, pending, []);
        return;
      }
      Accepted(sha256, p, requests, checked, pending, []);
      checked, pending := checked + [pending[0]], pending[1..];
    }
    AllChecked(sha256, checked);
    assert checked + [] == checked && Flatten(checked) + [] == Flatten(checked);
    ok := true;
  }
}
