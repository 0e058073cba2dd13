/**
 The documents that the pipeline commits, and the chain that their digests make: an input names the
 result before it, and a result names its input.
 */
module ResultChain {
  import opened Wrappers

  type Digest = string

  const STAGE_COUNT: nat := 14

  datatype UpstreamReference = UpstreamReference(stage: nat, resultSha256: Digest)

  /** Requests, configurations and payloads stand for their canonical JSON text. */
  datatype InputDocument = InputDocument(
    stage: nat, version: string, request: string, upstream: Option<UpstreamReference>, configuration: string)

  datatype InputRecord = InputRecord(digest: Digest, document: InputDocument)

  datatype StageResult = StageResult(stage: nat, inputDigest: Digest, version: string, payload: string)

  datatype Implementation = Implementation(version: string, configuration: string)

  /**
   What the pipeline takes as given: the digests of canonical documents, and the payload an executor
   of a certain version returns for an input, given every result committed before it.
   */
  datatype World = World(
    inputDigest: InputDocument -> Digest,
    resultDigest: StageResult -> Digest,
    run: (InputDocument, seq<StageResult>) -> string)

  /** Digests do not collide. */
  ghost predicate Injective(w: World) {
    && (forall a, b :: w.inputDigest(a) == w.inputDigest(b) ==> a == b)
    && (forall a, b :: w.resultDigest(a) == w.resultDigest(b) ==> a == b)
  }

  /** The reference to the result that a stage builds on. */
  function Upstream(w: World, chain: seq<StageResult>): Option<UpstreamReference> {
    if chain == [] then None
    else Some(UpstreamReference(|chain| - 1, w.resultDigest(chain[|chain| - 1])))
  }

  /** The input of the stage that comes after `chain`. */
  function InputAfter(w: World, request: string, chain: seq<StageResult>, i: Implementation): InputDocument {
    InputDocument(|chain|, i.version, request, Upstream(w, chain), i.configuration)
  }

  /** The result that an executor commits after `chain`. */
  function ResultAfter(w: World, request: string, chain: seq<StageResult>, i: Implementation): StageResult {
    var document := InputAfter(w, request, chain, i);
    StageResult(|chain|, w.inputDigest(document), i.version, w.run(document, chain))
  }

  /** Some implementation commits this result after `chain`. */
  ghost predicate Follows(w: World, request: string, chain: seq<StageResult>, r: StageResult) {
    exists i :: r == ResultAfter(w, request, chain, i)
  }

  /** Results that some implementations committed one upon the other. */
  ghost predicate IsChain(w: World, request: string, chain: seq<StageResult>) {
    chain == [] ||
    (IsChain(w, request, chain[..|chain| - 1]) && Follows(w, request, chain[..|chain| - 1], chain[|chain| - 1]))
  }

  /** The results of a run from scratch that goes on from a given resolve result, without interruption. */
  function CleanRun(w: World, request: string, implementations: seq<Implementation>, resolved: StageResult, n: nat):
    (chain: seq<StageResult>)
    requires n < |implementations|
    ensures |chain| == n + 1
  {
    if n == 0 then [resolved]
    else
      var before := CleanRun(w, request, implementations, resolved, n - 1);
      before + [ResultAfter(w, request, before, implementations[n])]
  }

  lemma {:induction false} ChainPrefix(w: World, request: string, chain: seq<StageResult>, n: nat)
    requires IsChain(w, request, chain) && n <= |chain|
    ensures IsChain(w, request, chain[..n])
  {
    if n < |chain| {
      ChainPrefix(w, request, chain[..|chain| - 1], n);
      assert chain[..|chain| - 1][..n] == chain[..n];
    } else {
      assert chain[..n] == chain;
    }
  }

  lemma ChainGrows(w: World, request: string, chain: seq<StageResult>, i: Implementation)
    requires IsChain(w, request, chain)
    ensures IsChain(w, request, chain + [ResultAfter(w, request, chain, i)])
  {
    assert (chain + [ResultAfter(w, request, chain, i)])[..|chain|] == chain;
  }

  lemma {:induction false} CleanRunExtends(w: World, request: string, implementations: seq<Implementation>,
                                           resolved: StageResult, m: nat, n: nat)
    requires m <= n < |implementations|
    ensures CleanRun(w, request, implementations, resolved, n)[..m + 1]
         == CleanRun(w, request, implementations, resolved, m)
  {
    if m < n {
      CleanRunExtends(w, request, implementations, resolved, m, n - 1);
      var before := CleanRun(w, request, implementations, resolved, n - 1);
      assert CleanRun(w, request, implementations, resolved, n)[..m + 1] == before[..m + 1];
    }
  }

  lemma {:induction false} CleanRunIsChain(w: World, request: string, implementations: seq<Implementation>,
                                           resolved: StageResult, n: nat)
    requires n < |implementations| && IsChain(w, request, [resolved])
    ensures IsChain(w, request, CleanRun(w, request, implementations, resolved, n))
  {
    if n > 0 {
      CleanRunIsChain(w, request, implementations, resolved, n - 1);
      ChainGrows(w, request, CleanRun(w, request, implementations, resolved, n - 1), implementations[n]);
    }
  }

  /**
   Ancestry: the digest of a result determines every result below it, and with them every input,
   even across runs with different requests.
   */
  lemma {:induction false} Ancestry(w: World, request: string, a: seq<StageResult>, request': string,
                                    b: seq<StageResult>)
    requires Injective(w) && a != [] && b != []
    requires IsChain(w, request, a) && IsChain(w, request', b)
    requires w.resultDigest(a[|a| - 1]) == w.resultDigest(b[|b| - 1])
    ensures a == b && request == request'
    decreases |a|
  {
    var m, n := |a| - 1, |b| - 1;
    var i :| a[m] == ResultAfter(w, request, a[..m], i);
    var j :| b[n] == ResultAfter(w, request', b[..n], j);
    assert InputAfter(w, request, a[..m], i) == InputAfter(w, request', b[..n], j);
    if m > 0 {
      Ancestry(w, request, a[..m], request', b[..n]);
    }
    assert a == a[..m] + [a[m]] && b == b[..n] + [b[n]];
  }

  lemma SameUpstream(w: World, request: string, a: seq<StageResult>, b: seq<StageResult>)
    requires Injective(w) && IsChain(w, request, a) && IsChain(w, request, b)
    requires Upstream(w, a) == Upstream(w, b)
    ensures a == b
  {
    if a != [] {
      Ancestry(w, request, a, request, b);
    }
  }

  /**
   Reuse agrees: a committed result whose input is the one that a stage would have now is the result
   that executing the stage would commit now.
   */
  lemma ReuseAgrees(w: World, request: string, stored: seq<StageResult>, chain: seq<StageResult>, i: Implementation)
    requires Injective(w) && stored != []
    requires IsChain(w, request, stored) && IsChain(w, request, chain)
    requires stored[|stored| - 1].inputDigest == w.inputDigest(InputAfter(w, request, chain, i))
    ensures stored == chain + [ResultAfter(w, request, chain, i)]
  {
    var n := |stored| - 1;
    var j :| stored[n] == ResultAfter(w, request, stored[..n], j);
    assert InputAfter(w, request, stored[..n], j) == InputAfter(w, request, chain, i);
    SameUpstream(w, request, stored[..n], chain);
    assert stored == stored[..n] + [stored[n]];
  }

  /**
   Cascade: where two chains differ at a stage, the inputs of every later stage differ as well, so
   that nothing stored along the one is reused along the other.
   */
  lemma ChangeCascades(w: World, request: string, stored: seq<StageResult>, chain: seq<StageResult>,
                       k: nat, n: nat, i: Implementation)
    requires Injective(w) && IsChain(w, request, stored) && IsChain(w, request, chain)
    requires k < n < |stored| && n == |chain| && stored[k] != chain[k]
    ensures stored[n].inputDigest != w.inputDigest(InputAfter(w, request, chain, i))
  {
    ChainPrefix(w, request, stored, n + 1);
    assert stored[..n + 1][k] == stored[k] && stored[..n + 1][n] == stored[n];
    if stored[n].inputDigest == w.inputDigest(InputAfter(w, request, chain, i)) {
      ReuseAgrees(w, request, stored[..n + 1], chain, i);
    }
  }
}
