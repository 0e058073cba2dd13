/** `SnapshotVerifier` of `snapshot.py`: when a sealed directory is accepted, and what that determines. */
module SnapshotVerifier {
  import opened Wrappers
  import opened Sorting
  import opened SnapshotHashing
  import opened SnapshotManifest

  // ---------- Payload ----------

  predicate Under(root: string, path: string) {
    root + "/" <= path
  }

  /** The paths, relative to `root`, of the files below it. */
  function Below(tree: Tree, root: string): (r: set<string>)
    ensures forall p :: p in r <==> root + "/" + p in tree
  {
    var r := set p | p in tree && Under(root, p) :: p[|root| + 1..];
    assert forall p :: p in r ==> root + "/" + p in tree by {
      forall p | p in r
        ensures root + "/" + p in tree
      {
        var q :| q in tree && Under(root, q) && p == q[|root| + 1..];
        assert q == root + "/" + p;
      }
    }
    assert forall p :: root + "/" + p in tree ==> p in r by {
      forall p | root + "/" + p in tree
        ensures p in r
      {
        var q := root + "/" + p;
        assert Under(root, q) && q[|root| + 1..] == p;
      }
    }
    r
  }

  function RequestFor(k: Contracts, kind: Kind, path: string, content: Bytes, expected: (nat, string)): Request {
    Request(content, expected.0, expected.1, kind == Files && k.isPackedName(path))
  }

  function RequestAt(k: Contracts, kind: Kind, tree: Tree, layer: Layer, expected: map<Identity, (nat, string)>,
                     path: string): Request
    requires path in Below(tree, layer.root) && Identity(layer.language, path) in expected
  {
    RequestFor(k, kind, path, tree[layer.root + "/" + path], expected[Identity(layer.language, path)])
  }

  /** A file of the payload is described by its manifest and agrees with it. */
  ghost predicate Fits(k: Contracts, kind: Kind, tree: Tree, expected: map<Identity, (nat, string)>, layer: Layer,
                       path: string)
    requires layer.root + "/" + path in tree
  {
    var id := Identity(layer.language, path);
    && id in expected
    && (kind == ActionScript ==> k.isActionScript(path))
    && Matches(k.sha256, RequestFor(k, kind, path, tree[layer.root + "/" + path], expected[id]))
  }

  ghost predicate LayerFits(k: Contracts, kind: Kind, tree: Tree, expected: map<Identity, (nat, string)>,
                            layer: Layer) {
    forall path <- Below(tree, layer.root) :: Fits(k, kind, tree, expected, layer, path)
  }

  predicate Present(tree: Tree, layers: seq<Layer>, id: Identity) {
    exists layer <- layers :: layer.language == id.language && id.path in Below(tree, layer.root)
  }

  /** The payload of some layers is exactly what is expected. */
  ghost predicate PayloadIs(k: Contracts, kind: Kind, tree: Tree, layers: seq<Layer>,
                            expected: map<Identity, (nat, string)>) {
    && (forall layer <- layers :: LayerFits(k, kind, tree, expected, layer))
    && forall id <- expected :: Present(tree, layers, id)
  }

  /** What the walk knows once it has been to the `visited` files of a layer. */
  ghost predicate Walked(k: Contracts, kind: Kind, tree: Tree, layer: Layer, expected: map<Identity, (nat, string)>,
                         visited: set<string>, requests: seq<Request>, actual: set<Identity>) {
    && visited <= Below(tree, layer.root)
    && (forall id :: id in actual <==> id.language == layer.language && id.path in visited)
    && (AllMatch(k.sha256, requests) <==> forall path <- visited :: Fits(k, kind, tree, expected, layer, path))
  }

  lemma WalkedNext(k: Contracts, kind: Kind, tree: Tree, layer: Layer, expected: map<Identity, (nat, string)>,
                   visited: set<string>, requests: seq<Request>, actual: set<Identity>, path: string)
    requires Walked(k, kind, tree, layer, expected, visited, requests, actual) && path in Below(tree, layer.root)
    requires Identity(layer.language, path) in expected && (kind == ActionScript ==> k.isActionScript(path))
    ensures Walked(k, kind, tree, layer, expected, visited + {path},
                   requests + [RequestAt(k, kind, tree, layer, expected, path)],
                   actual + {Identity(layer.language, path)})
  {
    var request := RequestAt(k, kind, tree, layer, expected, path);
    OneRequest(k, requests, request);
    assert Fits(k, kind, tree, expected, layer, path) <==> Matches(k.sha256, request);
  }

  /** A walk over one layer, in any order: the requests for its files, unless one is not expected. */
  method WalkLayer(k: Contracts, kind: Kind, tree: Tree, layer: Layer, expected: map<Identity, (nat, string)>)
    returns (ok: bool, requests: seq<Request>, actual: set<Identity>)
    ensures !ok ==> !LayerFits(k, kind, tree, expected, layer)
    ensures ok ==> Walked(k, kind, tree, layer, expected, Below(tree, layer.root), requests, actual)
  {
    requests, actual := [], {};
    var rest := Below(tree, layer.root);
    ghost var all := rest;
    assert all - rest == {};
    while rest != {}
      invariant rest <= all == Below(tree, layer.root)
      invariant Walked(k, kind, tree, layer, expected, all - rest, requests, actual)
      decreases rest
    {
      var path :| path in rest;
      var id := Identity(layer.language, path);
      if id !in expected || (kind == ActionScript && !k.isActionScript(path)) {
        Misfit(k, kind, tree, layer, expected, path);
        return false, requests, actual;
      }
      WalkedNext(k, kind, tree, layer, expected, all - rest, requests, actual, path);
      Moved(all, rest, path);
      requests := requests + [RequestAt(k, kind, tree, layer, expected, path)];
      actual, rest := actual + {id}, rest - {path};
    }
    assert all - rest == all;
    ok := true;
  }

  lemma Misfit(k: Contracts, kind: Kind, tree: Tree, layer: Layer, expected: map<Identity, (nat, string)>, path: string)
    requires path in Below(tree, layer.root)
    requires Identity(layer.language, path) !in expected || (kind == ActionScript && !k.isActionScript(path))
    ensures !LayerFits(k, kind, tree, expected, layer)
  {
    assert !Fits(k, kind, tree, expected, layer, path);
  }

  lemma Moved(all: set<string>, rest: set<string>, path: string)
    requires path in rest && rest <= all
    ensures all - rest + {path} == all - (rest - {path})
  {
  }

  lemma OneRequest(k: Contracts, requests: seq<Request>, request: Request)
    ensures AllMatch(k.sha256, requests + [request]) <==> AllMatch(k.sha256, requests) && Matches(k.sha256, request)
  {
    assert request in requests + [request];
    assert forall r <- requests :: r in requests + [request];
  }

  /** What is known once these layers have been walked. */
  ghost predicate LayersWalked(k: Contracts, kind: Kind, tree: Tree, layers: seq<Layer>,
                               expected: map<Identity, (nat, string)>,
                               requests: seq<Request>, actual: set<Identity>) {
    && (AllMatch(k.sha256, requests) <==> forall layer <- layers :: LayerFits(k, kind, tree, expected, layer))
    && forall id :: id in actual <==> Present(tree, layers, id)
  }

  lemma LayersWalkedNext(k: Contracts, kind: Kind, tree: Tree, layers: seq<Layer>, layer: Layer,
                         expected: map<Identity, (nat, string)>, requests: seq<Request>, actual: set<Identity>,
                         walked: seq<Request>, found: set<Identity>)
    requires LayersWalked(k, kind, tree, layers, expected, requests, actual)
    requires Walked(k, kind, tree, layer, expected, Below(tree, layer.root), walked, found)
    ensures LayersWalked(k, kind, tree, layers + [layer], expected, requests + walked, actual + found)
  {
    MoreRequests(k, requests, walked);
    OneMoreLayer(k, kind, tree, layers, layer, expected);
  }

  lemma OneMoreLayer(k: Contracts, kind: Kind, tree: Tree, layers: seq<Layer>, layer: Layer,
                     expected: map<Identity, (nat, string)>)
    ensures (forall l <- layers + [layer] :: LayerFits(k, kind, tree, expected, l))
            <==> (forall l <- layers :: LayerFits(k, kind, tree, expected, l))
                 && LayerFits(k, kind, tree, expected, layer)
    ensures forall id :: Present(tree, layers + [layer], id)
                         <==> Present(tree, layers, id)
                              || (layer.language == id.language && id.path in Below(tree, layer.root))
  {
    assert forall l :: l in layers + [layer] <==> l in layers || l == layer;
  }

  /** The walk over all layers, the comparison with the manifest, and the hashing of the files. */
  method VerifyPayload(k: Contracts, p: Policy, kind: Kind, tree: Tree, layers: seq<Layer>,
                       expected: map<Identity, (nat, string)>, totalBytes: nat) returns (ok: bool)
    requires p.maxWorkers >= 1 && p.batchFiles >= 1 && p.batchBytes >= 1
    ensures ok <==> PayloadIs(k, kind, tree, layers, expected)
  {
    var requests: seq<Request>, actual: set<Identity> := [], {};
    for i := 0 to |layers|
      invariant LayersWalked(k, kind, tree, layers[..i], expected, requests, actual)
    {
      var walked, found;
      ok, walked, found := WalkLayer(k, kind, tree, layers[i], expected);
      if !ok {
        assert layers[i] in layers;
        return;
      }
      LayersWalkedNext(k, kind, tree, layers[..i], layers[i], expected, requests, actual, walked, found);
      PrefixGrows(layers, i);
      requests, actual := requests + walked, actual + found;
    }
    assert layers[..|layers|] == layers;
    if actual != expected.Keys {
      Unequal(k, kind, tree, layers, expected, actual);
      return false;
    }
    ghost var batches;
    ok, batches := VerifyRequests(k.sha256, p, requests, totalBytes);
  }

  lemma MoreRequests(k: Contracts, a: seq<Request>, b: seq<Request>)
    ensures AllMatch(k.sha256, a + b) <==> AllMatch(k.sha256, a) && AllMatch(k.sha256, b)
  {
    assert forall r <- a :: r in a + b;
    assert forall r <- b :: r in a + b;
  }

  lemma Unequal(k: Contracts, kind: Kind, tree: Tree, layers: seq<Layer>, expected: map<Identity, (nat, string)>,
                actual: set<Identity>)
    requires actual != expected.Keys && forall id :: id in actual <==> Present(tree, layers, id)
    ensures !PayloadIs(k, kind, tree, layers, expected)
  {
    if PayloadIs(k, kind, tree, layers, expected) {
      forall id
        ensures id in actual <==> id in expected
      {
        if id in actual {
          var layer :| layer in layers && layer.language == id.language && id.path in Below(tree, layer.root);
          assert Fits(k, kind, tree, expected, layer, id.path);
        }
      }
    }
  }

  // ---------- The verifier ----------

  const MANIFESTS: set<string> := {
    "manifests/actionscript.jsonl", "manifests/conflicts.jsonl", "manifests/files.jsonl",
    "manifests/packages.jsonl", "manifests/stubs.jsonl"}

  predicate InLayout(path: string) {
    path in MANIFESTS + {"READY", "snapshot.json"}
    || Under("sources", path) || Under("sources-as3", path) || Under("stubs", path)
  }

  /** `_verify_layout`: the files of the root, and nothing besides its six entries. */
  predicate LayoutIs(tree: Tree) {
    && (forall path <- tree :: InLayout(path))
    && MANIFESTS + {"READY", "snapshot.json"} <= tree.Keys
  }

  function SourceLayers(d: Descriptor): seq<Layer> {
    [Layer(None, d.baseRoot)] + d.localeRoots
  }

  function LayersOf(d: Descriptor, kind: Kind): seq<Layer> {
    if kind == Files then SourceLayers(d)
    else [Layer(None, if kind == ActionScript then d.actionscriptRoot else d.stubsRoot)]
  }

  /** The payload roots are the canonical ones, a locale root for every language. */
  predicate CanonicalRoots(d: Descriptor) {
    && d.baseRoot == "sources/base" && d.actionscriptRoot == "sources-as3" && d.stubsRoot == "stubs"
    && (forall layer <- d.localeRoots ::
          layer.language.Some? && layer.language.value in d.languages
          && layer.root == "sources/locales/" + layer.language.value)
    && forall l <- d.languages :: Layer(Some(l), "sources/locales/" + l) in d.localeRoots
  }

  function EntriesOf(k: Contracts, d: Descriptor, tree: Tree, kind: Kind): Option<seq<Entry>> {
    ReadManifest(k, kind, ReferenceTo(d, kind), tree)
  }

  function CheckFor(k: Contracts, d: Descriptor, kind: Kind, packages: seq<Entry>, files: seq<Entry>): Check {
    Check(k, kind, d, packages, files)
  }

  ghost predicate ManifestIs(k: Contracts, d: Descriptor, tree: Tree, kind: Kind, packages: seq<Entry>,
                             files: seq<Entry>, entries: seq<Entry>) {
    EntriesOf(k, d, tree, kind) == Some(entries) && Regular(CheckFor(k, d, kind, packages, files), entries)
  }

  datatype Manifests = Manifests(packages: seq<Entry>, conflicts: seq<Entry>, files: seq<Entry>,
                                 actionscript: seq<Entry>, stubs: seq<Entry>)

  ghost predicate ManifestsAre(k: Contracts, d: Descriptor, tree: Tree, m: Manifests) {
    && ManifestIs(k, d, tree, Packages, [], [], m.packages)
    && ManifestIs(k, d, tree, Conflicts, [], [], m.conflicts)
    && ManifestIs(k, d, tree, Files, m.packages, [], m.files)
    && ManifestIs(k, d, tree, ActionScript, m.packages, m.files, m.actionscript)
    && ManifestIs(k, d, tree, Stubs, [], [], m.stubs)
  }

  ghost predicate PayloadsAre(k: Contracts, d: Descriptor, tree: Tree, m: Manifests) {
    && CanonicalRoots(d)
    && PayloadIs(k, Files, tree, LayersOf(d, Files), Expected(Files, m.files))
    && PayloadIs(k, ActionScript, tree, LayersOf(d, ActionScript), Expected(ActionScript, m.actionscript))
    && PayloadIs(k, Stubs, tree, LayersOf(d, Stubs), Expected(Stubs, m.stubs))
  }

  predicate Announced(k: Contracts, tree: Tree, d: Descriptor)
    requires LayoutIs(tree)
  {
    && k.readDescriptor(tree["snapshot.json"]) == Some(d)
    && tree["READY"] == "sha256:" + k.sha256(tree["snapshot.json"]) + "\n"
    && d.snapshotId == k.identity(d)
  }

  /** A directory is a sealed snapshot with this descriptor. */
  ghost predicate Sealed(k: Contracts, tree: Tree, d: Descriptor) {
    && LayoutIs(tree)
    && Announced(k, tree, d)
    && exists m :: ManifestsAre(k, d, tree, m) && PayloadsAre(k, d, tree, m)
  }

  method VerifyManifest(k: Contracts, d: Descriptor, tree: Tree, kind: Kind, packages: seq<Entry>, files: seq<Entry>)
    returns (r: Result<seq<Entry>>, expected: map<Identity, (nat, string)>)
    ensures r.Ok? <==> exists entries :: ManifestIs(k, d, tree, kind, packages, files, entries)
    ensures r.Ok? ==> ManifestIs(k, d, tree, kind, packages, files, r.value) && expected == Expected(kind, r.value)
  {
    expected := map[];
    r := Documents(k, kind, ReferenceTo(d, kind), tree);
    if r.Ok? {
      var checked := CheckEntries(CheckFor(k, d, kind, packages, files), r.value);
      if checked.Err? {
        return Err(checked.reason), expected;
      }
      expected := checked.value;
      assert ManifestIs(k, d, tree, kind, packages, files, r.value);
    }
  }

  method VerifyManifests(k: Contracts, d: Descriptor, tree: Tree) returns (r: Result<Manifests>)
    ensures r.Ok? ==> ManifestsAre(k, d, tree, r.value)
    ensures r.Err? ==> forall m :: !ManifestsAre(k, d, tree, m)
  {
    var packages, _ := VerifyManifest(k, d, tree, Packages, [], []);
    if packages.Err? { return Err(packages.reason); }
    var conflicts, _ := VerifyManifest(k, d, tree, Conflicts, [], []);
    if conflicts.Err? { return Err(conflicts.reason); }
    var files, _ := VerifyManifest(k, d, tree, Files, packages.value, []);
    if files.Err? { return Err(files.reason); }
    var actionscript, _ := VerifyManifest(k, d, tree, ActionScript, packages.value, files.value);
    if actionscript.Err? { return Err(actionscript.reason); }
    var stubs, _ := VerifyManifest(k, d, tree, Stubs, [], []);
    if stubs.Err? { return Err(stubs.reason); }
    r := Ok(Manifests(packages.value, conflicts.value, files.value, actionscript.value, stubs.value));
  }

  /** The entries that a tree holds for a descriptor are the only ones. */
  lemma ManifestsAreUnique(k: Contracts, d: Descriptor, tree: Tree, m: Manifests, n: Manifests)
    requires ManifestsAre(k, d, tree, m) && ManifestsAre(k, d, tree, n)
    ensures m == n
  {
  }

  function SizeIn(): Entry -> nat {
    (e: Entry) => e.size
  }

  method VerifyPayloads(k: Contracts, p: Policy, d: Descriptor, tree: Tree, m: Manifests) returns (ok: bool)
    requires p.maxWorkers >= 1 && p.batchFiles >= 1 && p.batchBytes >= 1
    ensures ok <==> PayloadsAre(k, d, tree, m)
  {
    if !CanonicalRoots(d) {
      return false;
    }
    ok := VerifyPayload(k, p, Files, tree, LayersOf(d, Files), Expected(Files, m.files), SumBy(m.files, SizeIn()));
    if ok {
      ok := VerifyPayload(k, p, ActionScript, tree, LayersOf(d, ActionScript), Expected(ActionScript, m.actionscript),
                          SumBy(m.actionscript, SizeIn()));
    }
    if ok {
      ok := VerifyPayload(k, p, Stubs, tree, LayersOf(d, Stubs), Expected(Stubs, m.stubs), SumBy(m.stubs, SizeIn()));
    }
  }

  /** `verify`: accepts exactly the sealed snapshots, and returns their descriptor. */
  method Verify(k: Contracts, p: Policy, tree: Tree) returns (r: Result<Descriptor>)
    requires p.maxWorkers >= 1 && p.batchFiles >= 1 && p.batchBytes >= 1
    ensures r.Ok? <==> exists d :: Sealed(k, tree, d)
    ensures r.Ok? ==> Sealed(k, tree, r.value)
  {
    if !LayoutIs(tree) {
      return Err("snapshot root layout contains missing or extra entries");
    }
    var d := k.readDescriptor(tree["snapshot.json"]);
    if d == None || !Announced(k, tree, d.value) {
      return Err("snapshot.json is not a canonical descriptor, or READY or snapshot_id do not match it");
    }
    var m := VerifyManifests(k, d.value, tree);
    if m.Err? {
      return Err(m.reason);
    }
    var ok := VerifyPayloads(k, p, d.value, tree, m.value);
    if !ok {
      Refuted(k, d.value, tree, m.value);
      return Err("payload does not match its manifests");
    }
    assert Sealed(k, tree, d.value);
    r := Ok(d.value);
  }

  lemma Refuted(k: Contracts, d: Descriptor, tree: Tree, m: Manifests)
    requires ManifestsAre(k, d, tree, m) && !PayloadsAre(k, d, tree, m)
    ensures !Sealed(k, tree, d)
  {
    forall n | ManifestsAre(k, d, tree, n)
      ensures n == m
    {
      ManifestsAreUnique(k, d, tree, m, n);
    }
  }

  // ---------- READY determines the snapshot ----------

  ghost predicate Injective(sha256: Bytes -> string) {
    forall x, y :: sha256(x) == sha256(y) ==> x == y
  }

  /** The two trees agree on a path: both hold the same file there, or none. */
  predicate Agree(a: Tree, b: Tree, path: string) {
    (path in a <==> path in b) && (path in a ==> a[path] == b[path])
  }

  /** The files that a descriptor speaks of: its own, its manifests and everything below its layers. */
  ghost predicate Covered(d: Descriptor, path: string) {
    || path == "READY" || path == "snapshot.json"
    || (exists kind :: path == ReferenceTo(d, kind).path)
    || InLayers(d, Files, path) || InLayers(d, ActionScript, path) || InLayers(d, Stubs, path)
  }

  predicate InLayers(d: Descriptor, kind: Kind, path: string) {
    exists layer <- LayersOf(d, kind) :: Under(layer.root, path)
  }

  lemma ReadyDeterminesDescriptor(k: Contracts, a: Tree, b: Tree, d: Descriptor, e: Descriptor)
    requires Injective(k.sha256) && LayoutIs(a) && LayoutIs(b)
    requires Announced(k, a, d) && Announced(k, b, e) && a["READY"] == b["READY"]
    ensures a["snapshot.json"] == b["snapshot.json"] && d == e
  {
    var x, y := k.sha256(a["snapshot.json"]), k.sha256(b["snapshot.json"]);
    assert a["READY"][7..|a["READY"]| - 1] == x && b["READY"][7..|b["READY"]| - 1] == y;
  }

  lemma DescriptorDeterminesManifest(k: Contracts, d: Descriptor, a: Tree, b: Tree, kind: Kind)
    requires Injective(k.sha256) && EntriesOf(k, d, a, kind).Some? && EntriesOf(k, d, b, kind).Some?
    ensures Agree(a, b, ReferenceTo(d, kind).path)
    ensures EntriesOf(k, d, a, kind) == EntriesOf(k, d, b, kind)
  {
  }

  lemma DescriptorDeterminesManifests(k: Contracts, d: Descriptor, a: Tree, b: Tree, m: Manifests, n: Manifests)
    requires Injective(k.sha256) && ManifestsAre(k, d, a, m) && ManifestsAre(k, d, b, n)
    ensures m == n
    ensures forall kind :: Agree(a, b, ReferenceTo(d, kind).path)
  {
    forall kind: Kind
      ensures Agree(a, b, ReferenceTo(d, kind).path) && EntriesOf(k, d, a, kind) == EntriesOf(k, d, b, kind)
    {
      assert kind == Packages || kind == Conflicts || kind == Files || kind == ActionScript || kind == Stubs;
      DescriptorDeterminesManifest(k, d, a, b, kind);
    }
  }

  /** Layers with one root for each language. */
  ghost predicate Functional(layers: seq<Layer>) {
    forall x, y | x in layers && y in layers :: x.language == y.language ==> x.root == y.root
  }

  /** A file of a layer is what its manifest says, so both trees hold it. */
  lemma ManifestDeterminesFile(k: Contracts, kind: Kind, a: Tree, b: Tree, layers: seq<Layer>,
                               expected: map<Identity, (nat, string)>, layer: Layer, path: string)
    requires Injective(k.sha256) && Functional(layers) && layer in layers
    requires PayloadIs(k, kind, a, layers, expected) && PayloadIs(k, kind, b, layers, expected)
    requires path in Below(a, layer.root)
    ensures path in Below(b, layer.root) && a[layer.root + "/" + path] == b[layer.root + "/" + path]
  {
    var id := Identity(layer.language, path);
    assert LayerFits(k, kind, a, expected, layer) && Fits(k, kind, a, expected, layer, path);
    assert Present(b, layers, id);
    var other :| other in layers && other.language == layer.language && path in Below(b, other.root);
    assert other.root == layer.root;
    assert LayerFits(k, kind, b, expected, layer) && Fits(k, kind, b, expected, layer, path);
  }

  lemma ManifestDeterminesPayload(k: Contracts, d: Descriptor, kind: Kind, a: Tree, b: Tree,
                                  expected: map<Identity, (nat, string)>)
    requires Injective(k.sha256) && CanonicalRoots(d)
    requires PayloadIs(k, kind, a, LayersOf(d, kind), expected) && PayloadIs(k, kind, b, LayersOf(d, kind), expected)
    ensures forall path :: InLayers(d, kind, path) ==> Agree(a, b, path)
  {
    var layers := LayersOf(d, kind);
    forall path | InLayers(d, kind, path)
      ensures Agree(a, b, path)
    {
      var layer :| layer in layers && Under(layer.root, path);
      var rest := path[|layer.root| + 1..];
      assert path == layer.root + "/" + rest;
      if path in a {
        ManifestDeterminesFile(k, kind, a, b, layers, expected, layer, rest);
      }
      if path in b {
        ManifestDeterminesFile(k, kind, b, a, layers, expected, layer, rest);
      }
    }
  }

  /** Two accepted directories with the same READY have the same descriptor and agree on all it covers. */
  lemma ReadyDeterminesSnapshot(k: Contracts, a: Tree, b: Tree, d: Descriptor, e: Descriptor)
    requires Injective(k.sha256) && Sealed(k, a, d) && Sealed(k, b, e) && a["READY"] == b["READY"]
    ensures d == e
    ensures forall path :: Covered(d, path) ==> Agree(a, b, path)
  {
    ReadyDeterminesDescriptor(k, a, b, d, e);
    var m :| ManifestsAre(k, d, a, m) && PayloadsAre(k, d, a, m);
    var n :| ManifestsAre(k, d, b, n) && PayloadsAre(k, d, b, n);
    ManifestsDetermineFiles(k, d, a, b, m, n);
  }

  lemma ManifestsDetermineFiles(k: Contracts, d: Descriptor, a: Tree, b: Tree, m: Manifests, n: Manifests)
    requires Injective(k.sha256) && Agree(a, b, "READY") && Agree(a, b, "snapshot.json")
    requires ManifestsAre(k, d, a, m) && PayloadsAre(k, d, a, m) && ManifestsAre(k, d, b, n) && PayloadsAre(k, d, b, n)
    ensures forall path :: Covered(d, path) ==> Agree(a, b, path)
  {
    DescriptorDeterminesManifests(k, d, a, b, m, n);
    PayloadsAgree(k, d, a, b, m);
  }

  lemma PayloadsAgree(k: Contracts, d: Descriptor, a: Tree, b: Tree, m: Manifests)
    requires Injective(k.sha256) && PayloadsAre(k, d, a, m) && PayloadsAre(k, d, b, m)
    ensures forall path ::
              InLayers(d, Files, path) || InLayers(d, ActionScript, path) || InLayers(d, Stubs, path) ==>
                Agree(a, b, path)
  {
    ManifestDeterminesPayload(k, d, Files, a, b, Expected(Files, m.files));
    ManifestDeterminesPayload(k, d, ActionScript, a, b, Expected(ActionScript, m.actionscript));
    ManifestDeterminesPayload(k, d, Stubs, a, b, Expected(Stubs, m.stubs));
  }

  /**
   Nothing else is determined: a file that the descriptor does not cover, such as one below `sources`
   but in no layer, may be added or replaced in an accepted directory, and it is accepted again.
   */
  lemma UncoveredIsIgnored(k: Contracts, tree: Tree, d: Descriptor, path: string, content: Bytes)
    requires Sealed(k, tree, d) && InLayout(path) && !Covered(d, path)
    ensures Sealed(k, tree[path := content], d)
  {
    var m :| ManifestsAre(k, d, tree, m) && PayloadsAre(k, d, tree, m);
    IgnoredByLayout(k, d, tree, path, content);
    IgnoredByManifests(k, d, tree, path, content, m);
    IgnoredByPayloads(k, d, tree, path, content, m);
  }

  /** A descriptor of a snapshot without payload: five empty manifests, and no language. */
  function BareDescriptor(k: Contracts, snapshotId: string): Descriptor {
    var empty := k.sha256([]);
    Descriptor(
      snapshotId,
      References(Reference("manifests/packages.jsonl", empty, 0), Reference("manifests/conflicts.jsonl", empty, 0),
                 Reference("manifests/files.jsonl", empty, 0), Reference("manifests/actionscript.jsonl", empty, 0),
                 Reference("manifests/stubs.jsonl", empty, 0)),
      {}, "sources/base", [], "sources-as3", "stubs")
  }

  /** Its files, when `text` is the text of the descriptor. */
  function BareTree(k: Contracts, text: Bytes): Tree {
    (map path | path in MANIFESTS :: "")["snapshot.json" := text]["READY" := "sha256:" + k.sha256(text) + "\n"]
  }

  /** None of its files starts like a payload root. */
  lemma NothingBelow(k: Contracts, text: Bytes, root: string)
    requires |root| > 1 && root[0] == 's' && root[1] != 'n'
    ensures Below(BareTree(k, text), root) == {}
  {
    forall p
      ensures root + "/" + p !in BareTree(k, text)
    {
      var path := root + "/" + p;
      assert path[0] == 's' && path[1] == root[1];
      assert "READY"[0] == 'R' && "snapshot.json"[1] == 'n';
      assert "manifests/actionscript.jsonl"[0] == 'm' && "manifests/conflicts.jsonl"[0] == 'm';
      assert "manifests/files.jsonl"[0] == 'm' && "manifests/packages.jsonl"[0] == 'm';
      assert "manifests/stubs.jsonl"[0] == 'm';
    }
  }

  lemma EmptyManifest(k: Contracts, snapshotId: string, text: Bytes, kind: Kind,
                      packages: seq<Entry>, files: seq<Entry>)
    ensures ManifestIs(k, BareDescriptor(k, snapshotId), BareTree(k, text), kind, packages, files, [])
    ensures Expected(kind, []) == map[]
  {
    var reference := ReferenceTo(BareDescriptor(k, snapshotId), kind);
    assert reference.path in MANIFESTS && BareTree(k, text)[reference.path] == "";
    assert Lines("") == [];
  }

  lemma EmptyPayload(k: Contracts, snapshotId: string, text: Bytes, kind: Kind)
    ensures PayloadIs(k, kind, BareTree(k, text), LayersOf(BareDescriptor(k, snapshotId), kind), map[])
  {
    forall layer | layer in LayersOf(BareDescriptor(k, snapshotId), kind)
      ensures Below(BareTree(k, text), layer.root) == {}
    {
      NothingBelow(k, text, layer.root);
    }
  }

  lemma BareManifests(k: Contracts, snapshotId: string, text: Bytes)
    ensures ManifestsAre(k, BareDescriptor(k, snapshotId), BareTree(k, text), Manifests([], [], [], [], []))
  {
    EmptyManifest(k, snapshotId, text, Packages, [], []);
    EmptyManifest(k, snapshotId, text, Conflicts, [], []);
    EmptyManifest(k, snapshotId, text, Files, [], []);
    EmptyManifest(k, snapshotId, text, ActionScript, [], []);
    EmptyManifest(k, snapshotId, text, Stubs, [], []);
  }

  lemma BarePayloads(k: Contracts, snapshotId: string, text: Bytes)
    ensures PayloadsAre(k, BareDescriptor(k, snapshotId), BareTree(k, text), Manifests([], [], [], [], []))
  {
    EmptyPayload(k, snapshotId, text, Files);
    EmptyPayload(k, snapshotId, text, ActionScript);
    EmptyPayload(k, snapshotId, text, Stubs);
  }

  lemma BareIsSealed(k: Contracts, snapshotId: string, text: Bytes)
    requires k.readDescriptor(text) == Some(BareDescriptor(k, snapshotId))
    requires k.identity(BareDescriptor(k, snapshotId)) == snapshotId
    ensures Sealed(k, BareTree(k, text), BareDescriptor(k, snapshotId))
  {
    BareManifests(k, snapshotId, text);
    BarePayloads(k, snapshotId, text);
  }

  lemma StrayIsUncovered(k: Contracts, snapshotId: string, text: Bytes)
    ensures InLayout("sources/x") && "sources/x" !in BareTree(k, text)
    ensures !Covered(BareDescriptor(k, snapshotId), "sources/x")
  {
    var d := BareDescriptor(k, snapshotId);
    assert "sources" + "/" == "sources/x"[..8];
    assert "sources/x"[0] == 's' && "sources/x" !in MANIFESTS;
    forall kind
      ensures ReferenceTo(d, kind).path[0] == 'm'
    {
    }
    forall kind, layer | layer in LayersOf(d, kind)
      ensures !Under(layer.root, "sources/x")
    {
      assert layer.root in {"sources/base", "sources-as3", "stubs"};
      assert ("stubs" + "/")[1] == 't' && "sources/x"[1] == 'o';
    }
  }

  /** A file below `sources` but in no layer can be added to it, and the two directories have equal READY. */
  lemma StrayFileIsAccepted(k: Contracts, snapshotId: string, text: Bytes, content: Bytes)
    requires k.readDescriptor(text) == Some(BareDescriptor(k, snapshotId))
    requires k.identity(BareDescriptor(k, snapshotId)) == snapshotId
    ensures var d, tree := BareDescriptor(k, snapshotId), BareTree(k, text);
      var strayed := tree["sources/x" := content];
      && Sealed(k, tree, d) && Sealed(k, strayed, d)
      && tree["READY"] == strayed["READY"] && "sources/x" !in tree && !Covered(d, "sources/x")
  {
    var d, tree := BareDescriptor(k, snapshotId), BareTree(k, text);
    BareIsSealed(k, snapshotId, text);
    StrayIsUncovered(k, snapshotId, text);
    UncoveredIsIgnored(k, tree, d, "sources/x", content);
  }

  lemma IgnoredByLayout(k: Contracts, d: Descriptor, tree: Tree, path: string, content: Bytes)
    requires LayoutIs(tree) && Announced(k, tree, d) && InLayout(path) && path != "READY" && path != "snapshot.json"
    ensures LayoutIs(tree[path := content]) && Announced(k, tree[path := content], d)
  {
    assert forall p :: p in tree[path := content] <==> p in tree || p == path;
  }

  lemma IgnoredByManifests(k: Contracts, d: Descriptor, tree: Tree, path: string, content: Bytes, m: Manifests)
    requires ManifestsAre(k, d, tree, m) && forall kind :: path != ReferenceTo(d, kind).path
    ensures ManifestsAre(k, d, tree[path := content], m)
  {
    forall kind
      ensures EntriesOf(k, d, tree[path := content], kind) == EntriesOf(k, d, tree, kind)
    {
      assert path != ReferenceTo(d, kind).path;
    }
  }

  lemma IgnoredByPayloads(k: Contracts, d: Descriptor, tree: Tree, path: string, content: Bytes, m: Manifests)
    requires PayloadsAre(k, d, tree, m)
    requires !InLayers(d, Files, path) && !InLayers(d, ActionScript, path) && !InLayers(d, Stubs, path)
    ensures PayloadsAre(k, d, tree[path := content], m)
  {
    IgnoredByPayload(k, d, Files, tree, path, content, Expected(Files, m.files));
    IgnoredByPayload(k, d, ActionScript, tree, path, content, Expected(ActionScript, m.actionscript));
    IgnoredByPayload(k, d, Stubs, tree, path, content, Expected(Stubs, m.stubs));
  }

  lemma IgnoredByPayload(k: Contracts, d: Descriptor, kind: Kind, tree: Tree, path: string, content: Bytes,
                         expected: map<Identity, (nat, string)>)
    requires PayloadIs(k, kind, tree, LayersOf(d, kind), expected) && !InLayers(d, kind, path)
    ensures PayloadIs(k, kind, tree[path := content], LayersOf(d, kind), expected)
  {
    var other, layers := tree[path := content], LayersOf(d, kind);
    forall layer | layer in layers
      ensures Below(other, layer.root) == Below(tree, layer.root) && LayerFits(k, kind, other, expected, layer)
    {
      assert LayerFits(k, kind, tree, expected, layer);
      forall p
        ensures layer.root + "/" + p != path
      {
        assert Under(layer.root, layer.root + "/" + p);
      }
      forall p | p in Below(other, layer.root)
        ensures Fits(k, kind, other, expected, layer, p)
      {
        assert Fits(k, kind, tree, expected, layer, p);
      }
    }
    forall id | id in expected
      ensures Present(other, layers, id)
    {
      assert Present(tree, layers, id);
    }
  }
}
