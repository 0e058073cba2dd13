/** `ClientTreeAssembler.assemble` of `client_tree.py`: what is installed, and that no path is claimed twice. */
module ClientTree {
  import opened Wrappers
  import opened Sorting
  import opened Grouping
  import opened SplitBundles
  import opened BundleAssembly

  /** One installation: a file taken as it is, a bundle in one piece, or a bundle put together from segments. */
  datatype Install = Reference(item: Download) | Whole(item: Download) | Joint(item: Download,
                               assembly: Option<Assembly>)

  datatype TreeFile = TreeFile(path: string, language: Option<string>, install: Install)

  datatype Place = Place(language: Option<string>, folded: string)

  /** What the assembler asks of its surroundings: facts about artifacts, extraction, case folding, order. */
  datatype Setting = Setting(
    isReference: Artifact -> bool,
    fromZero: Artifact -> bool,
    provenance: Artifact -> string,
    language: Artifact -> Option<string>,
    extract: Install -> Option<seq<string>>,
    fold: string -> string,
    order: (TreeFile, TreeFile) -> bool)

  function InstallGroup(): Install -> Option<string> {
    (x: Install) => if x.Joint? then Some(SegmentAt(x.item.artifact).groupId) else None
  }

  function FilesAt(c: Setting, x: Install): seq<TreeFile> {
    var paths := c.extract(x);
    if paths == None then []
    else
      seq(|paths.value|, i requires 0 <= i < |paths.value| =>
        TreeFile(paths.value[i], c.language(x.item.artifact), x))
  }

  function FilesOf(c: Setting): Install -> seq<TreeFile> {
    (x: Install) => FilesAt(c, x)
  }

  function PlaceOf(c: Setting): TreeFile -> Place {
    (f: TreeFile) => Place(f.language, c.fold(f.path))
  }

  predicate IsSegmentOf(d: Download, groupId: string) {
    d.artifact.segment.Some? && d.artifact.segment.value.groupId == groupId
  }

  /** One of the first `n` artifacts is a segment of the group. */
  predicate Handled(items: seq<Download>, n: nat, groupId: string)
    requires n <= |items|
  {
    n > 0 && (IsSegmentOf(items[n - 1], groupId) || Handled(items, n - 1, groupId))
  }

  function AssemblyFor(assemblies: map<string, Assembly>, groupId: string): Option<Assembly> {
    if groupId in assemblies then Some(assemblies[groupId]) else None
  }

  function Alone(c: Setting): Download -> Install {
    (d: Download) => if c.isReference(d.artifact) then Reference(d) else Whole(d)
  }

  /** What the first `n` artifacts install: a bundle at its first segment, everything else in its place. */
  function Installs(c: Setting, items: seq<Download>, assemblies: map<string, Assembly>, n: nat): seq<Install>
    requires n <= |items|
  {
    if n == 0 then [] else Installs(c, items, assemblies, n - 1) + StepAt(c, items, assemblies, n - 1)
  }

  function StepAt(c: Setting, items: seq<Download>, assemblies: map<string, Assembly>, i: nat): seq<Install>
    requires i < |items|
  {
    var d := items[i];
    if !d.artifact.segment.Some? then [Alone(c)(d)]
    else if Handled(items, i, SegmentAt(d.artifact).groupId) then []
    else [Joint(d, AssemblyFor(assemblies, SegmentAt(d.artifact).groupId))]
  }

  predicate Uniform(c: Setting, members: seq<Download>) {
    forall d, e | d in members && e in members :: c.provenance(d.artifact) == c.provenance(e.artifact)
  }

  /** Whether an installation goes through. */
  predicate Installable(c: Setting, items: seq<Download>, x: Install) {
    && c.extract(x).Some?
    && (x.Whole? ==> c.fromZero(x.item.artifact))
    && (x.Joint? ==>
          && x.assembly.Some?
          && Uniform(c, Bundle(items, SegmentAt(x.item.artifact).groupId))
          && c.fromZero(x.item.artifact))
  }

  ghost predicate AllInstallable(c: Setting, items: seq<Download>, installs: seq<Install>) {
    forall x <- installs :: Installable(c, items, x)
  }

  function AllFiles(c: Setting, installs: seq<Install>): seq<TreeFile> {
    Flatten(Map(installs, FilesOf(c)))
  }

  ghost predicate Unclashing(c: Setting, installs: seq<Install>) {
    Distinct(Map(AllFiles(c, installs), PlaceOf(c)))
  }

  lemma OneMoreInstall(c: Setting, installs: seq<Install>, x: Install)
    ensures AllFiles(c, installs + [x]) == AllFiles(c, installs) + FilesAt(c, x)
  {
    assert Map(installs + [x], FilesOf(c)) == Map(installs, FilesOf(c)) + [FilesAt(c, x)];
    FlattenConcat(Map(installs, FilesOf(c)), [FilesAt(c, x)]);
    assert [FilesAt(c, x)][1..] == [] && Flatten([FilesAt(c, x)]) == FilesAt(c, x) + Flatten([]);
  }

  lemma {:induction false} InstallsGrow(c: Setting, items: seq<Download>, assemblies: map<string, Assembly>, m: nat,
                                        n: nat)
    requires m <= n <= |items|
    ensures Installs(c, items, assemblies, m) <= Installs(c, items, assemblies, n)
  {
    if m < n {
      InstallsGrow(c, items, assemblies, m, n - 1);
    }
  }

  /** Claims that clash early clash in the end. */
  lemma ClashRemains(c: Setting, early: seq<Install>, late: seq<Install>)
    requires early <= late
    ensures Unclashing(c, late) ==> Unclashing(c, early)
  {
    assert late == early + late[|early|..];
    assert Map(late, FilesOf(c)) == Map(early, FilesOf(c)) + Map(late[|early|..], FilesOf(c));
    FlattenConcat(Map(early, FilesOf(c)), Map(late[|early|..], FilesOf(c)));
    var p, q := Map(AllFiles(c, early), PlaceOf(c)), Map(AllFiles(c, late), PlaceOf(c));
    assert forall i :: 0 <= i < |p| ==> p[i] == q[i];
  }

  /** `_claim_path` for the files of one installation; `occupied` holds the places claimed before. */
  method Claim(c: Setting, files: seq<TreeFile>, ghost before: seq<TreeFile>, occupied: set<Place>)
    returns (ok: bool, occupied': set<Place>)
    requires Distinct(Map(before, PlaceOf(c))) && forall p :: p in occupied <==> p in Map(before, PlaceOf(c))
    ensures ok <==> Distinct(Map(before + files, PlaceOf(c)))
    ensures ok ==> forall p :: p in occupied' <==> p in Map(before + files, PlaceOf(c))
  {
    occupied' := occupied;
    ghost var claimed := before;
    for i := 0 to |files|
      invariant claimed == before + files[..i]
      invariant Distinct(Map(claimed, PlaceOf(c)))
      invariant forall p :: p in occupied' <==> p in Map(claimed, PlaceOf(c))
    {
      var place := Place(files[i].language, c.fold(files[i].path));
      PrefixGrows(files, i);
      assert Map(claimed + [files[i]], PlaceOf(c)) == Map(claimed, PlaceOf(c)) + [place];
      if place in occupied' {
        ghost var j :| 0 <= j < |claimed| && Map(claimed, PlaceOf(c))[j] == place;
        ClashesAt(c, before + files, j, |before| + i);
        return false, occupied';
      }
      occupied' := occupied' + {place};
      claimed := claimed + [files[i]];
    }
    assert before + files == before + files[..|files|];
    ok := true;
  }

  lemma ClashesAt(c: Setting, files: seq<TreeFile>, j: nat, k: nat)
    requires j < k < |files| && PlaceOf(c)(files[j]) == PlaceOf(c)(files[k])
    ensures !Distinct(Map(files, PlaceOf(c)))
  {
    assert Map(files, PlaceOf(c))[j] == Map(files, PlaceOf(c))[k];
  }

  /** Everything installed so far went through, and `occupied` holds exactly its places. */
  ghost predicate Installed(c: Setting, items: seq<Download>, installs: seq<Install>, files: seq<TreeFile>,
                            occupied: set<Place>) {
    && AllInstallable(c, items, installs)
    && files == AllFiles(c, installs)
    && Unclashing(c, installs)
    && forall p :: p in occupied <==> p in Map(files, PlaceOf(c))
  }

  method InstallOne(c: Setting, items: seq<Download>, x: Install, ghost installs: seq<Install>,
                    files: seq<TreeFile>, occupied: set<Place>)
    returns (ok: bool, files': seq<TreeFile>, occupied': set<Place>)
    requires Installed(c, items, installs, files, occupied)
    ensures ok <==> Installable(c, items, x) && Unclashing(c, installs + [x])
    ensures ok ==> Installed(c, items, installs + [x], files', occupied')
  {
    files', occupied' := files, occupied;
    if !Installable(c, items, x) {
      return false, files', occupied';
    }
    OneMoreInstall(c, installs, x);
    ok, occupied' := Claim(c, FilesAt(c, x), files, occupied);
    files' := files + FilesAt(c, x);
  }

  /** A complete client tree: what was installed went through, without clash, and is not empty. */
  ghost predicate Assemblable(c: Setting, items: seq<Download>, assemblies: map<string, Assembly>) {
    var installs := Installs(c, items, assemblies, |items|);
    AllInstallable(c, items, installs) && Unclashing(c, installs) && AllFiles(c, installs) != []
  }

  lemma FailureRemains(c: Setting, items: seq<Download>, assemblies: map<string, Assembly>, installs: seq<Install>,
                       x: Install)
    requires installs + [x] <= Installs(c, items, assemblies, |items|)
    requires !Installable(c, items, x) || !Unclashing(c, installs + [x])
    ensures !Assemblable(c, items, assemblies)
  {
    var all := Installs(c, items, assemblies, |items|);
    ClashRemains(c, installs + [x], all);
    assert (installs + [x])[|installs|] == x && all[|installs|] == x;
  }

  /** The groups handled among the first `i` artifacts. */
  ghost predicate KnowsHandled(items: seq<Download>, i: nat, handled: set<string>)
    requires i <= |items|
  {
    forall g :: g in handled <==> Handled(items, i, g)
  }

  /** The groups handled after one more artifact. */
  function HandledNext(d: Download, handled: set<string>): set<string> {
    if d.artifact.segment.Some? then handled + {d.artifact.segment.value.groupId} else handled
  }

  predicate IsSkipped(d: Download, handled: set<string>) {
    d.artifact.segment.Some? && d.artifact.segment.value.groupId in handled
  }

  function InstallFor(c: Setting, d: Download, assemblies: map<string, Assembly>): Install {
    if d.artifact.segment.Some? then Joint(d, AssemblyFor(assemblies, d.artifact.segment.value.groupId))
    else Alone(c)(d)
  }

  lemma NextInstall(c: Setting, items: seq<Download>, assemblies: map<string, Assembly>, i: nat, handled: set<string>)
    requires i < |items| && KnowsHandled(items, i, handled)
    ensures var before := Installs(c, items, assemblies, i);
      Installs(c, items, assemblies, i + 1)
      == if IsSkipped(items[i], handled) then before else before + [InstallFor(c, items[i], assemblies)]
    ensures Installs(c, items, assemblies, i + 1) <= Installs(c, items, assemblies, |items|)
  {
    InstallsGrow(c, items, assemblies, i + 1, |items|);
  }

  lemma NextHandled(items: seq<Download>, i: nat, handled: set<string>)
    requires i < |items| && KnowsHandled(items, i, handled)
    ensures KnowsHandled(items, i + 1, HandledNext(items[i], handled))
    ensures IsSkipped(items[i], handled) ==> HandledNext(items[i], handled) == handled
  {
  }

  /** `assemble`: it succeeds exactly when every installation goes through and no path is claimed twice. */
  method Assemble(c: Setting, items: seq<Download>,
                  assemblies: map<string, Assembly>) returns (r: Result<seq<TreeFile>>)
    ensures r.Ok? <==> Assemblable(c, items, assemblies)
    ensures r.Ok? ==> r.value == Sort(AllFiles(c, Installs(c, items, assemblies, |items|)), c.order)
  {
    var handled: set<string>, files: seq<TreeFile>, occupied: set<Place> := {}, [], {};
    for i := 0 to |items|
      invariant KnowsHandled(items, i, handled)
      invariant Installed(c, items, Installs(c, items, assemblies, i), files, occupied)
    {
      var d := items[i];
      NextInstall(c, items, assemblies, i, handled);
      NextHandled(items, i, handled);
      if IsSkipped(d, handled) {
        continue;
      }
      var ok, x := false, InstallFor(c, d, assemblies);
      ok, files, occupied := InstallOne(c, items, x, Installs(c, items, assemblies, i), files, occupied);
      if !ok {
        FailureRemains(c, items, assemblies, Installs(c, items, assemblies, i), x);
        return Err("Client Tree installation failed or a path is claimed twice");
      }
      handled := HandledNext(d, handled);
    }
    if files == [] {
      return Err("Client Tree assembly produced no files");
    }
    r := Ok(Sort(files, c.order));
  }

  // ---------- Each bundle once ----------

  function InstallsOf(installs: seq<Install>, group: Option<string>): seq<Install> {
    Found(InstallGroup(), installs, group)
  }

  /** Every bundle with a segment among the artifacts is installed exactly once, and no other bundle. */
  lemma {:induction false} EachBundleOnce(c: Setting, items: seq<Download>, assemblies: map<string, Assembly>,
                                          n: nat, g: string)
    requires n <= |items|
    ensures |InstallsOf(Installs(c, items, assemblies, n), Some(g))| == if Handled(items, n, g) then 1 else 0
  {
    if n == 0 {
      assert Installs(c, items, assemblies, 0) == [];
    } else {
      EachBundleOnce(c, items, assemblies, n - 1, g);
      BundleAtStep(c, items, assemblies, n - 1, g);
    }
  }

  lemma BundleInStep(c: Setting, items: seq<Download>, assemblies: map<string, Assembly>, i: nat, g: string)
    requires i < |items|
    ensures |InstallsOf(StepAt(c, items, assemblies, i), Some(g))|
         == if IsSegmentOf(items[i], g) && !Handled(items, i, g) then 1 else 0
  {
    FoundInStep(StepAt(c, items, assemblies, i), Some(g));
  }

  lemma BundleAtStep(c: Setting, items: seq<Download>, assemblies: map<string, Assembly>, i: nat, g: string)
    requires i < |items|
    requires |InstallsOf(Installs(c, items, assemblies, i), Some(g))| == if Handled(items, i, g) then 1 else 0
    ensures |InstallsOf(Installs(c, items, assemblies, i + 1), Some(g))| == if Handled(items, i + 1, g) then 1 else 0
  {
    var before, step := Installs(c, items, assemblies, i), StepAt(c, items, assemblies, i);
    FoundStep(c, items, assemblies, i, Some(g));
    BundleInStep(c, items, assemblies, i, g);
    assert Handled(items, i + 1, g) <==> IsSegmentOf(items[i], g) || Handled(items, i, g);
    assert |InstallsOf(before, Some(g)) + InstallsOf(step, Some(g))|
        == |InstallsOf(before, Some(g))| + |InstallsOf(step, Some(g))|;
  }

  /** Every artifact that is not a segment is installed exactly once, in order. */
  lemma {:induction false} OthersOnce(c: Setting, items: seq<Download>, assemblies: map<string, Assembly>, n: nat)
    requires n <= |items|
    ensures InstallsOf(Installs(c, items, assemblies, n), None) == Map(Found(IsSplit(), items[..n], false), Alone(c))
  {
    if n == 0 {
      assert Installs(c, items, assemblies, 0) == [];
    } else {
      OthersOnce(c, items, assemblies, n - 1);
      OtherAtStep(c, items, assemblies, n - 1);
    }
  }

  lemma OtherAtStep(c: Setting, items: seq<Download>, assemblies: map<string, Assembly>, i: nat)
    requires i < |items|
    requires InstallsOf(Installs(c, items, assemblies, i), None) == Map(Found(IsSplit(), items[..i], false), Alone(c))
    ensures InstallsOf(Installs(c, items, assemblies, i + 1), None)
         == Map(Found(IsSplit(), items[..i + 1], false), Alone(c))
  {
    FoundStep(c, items, assemblies, i, None);
    FoundInStep(StepAt(c, items, assemblies, i), None);
    UnsplitStep(c, items, i);
  }

  lemma UnsplitStep(c: Setting, items: seq<Download>, i: nat)
    requires i < |items|
    ensures Map(Found(IsSplit(), items[..i + 1], false), Alone(c))
         == Map(Found(IsSplit(), items[..i], false), Alone(c))
            + if items[i].artifact.segment.Some? then [] else [Alone(c)(items[i])]
  {
    assert items[..i + 1][..i] == items[..i];
  }

  lemma FoundStep(c: Setting, items: seq<Download>, assemblies: map<string, Assembly>, i: nat, group: Option<string>)
    requires i < |items|
    ensures InstallsOf(Installs(c, items, assemblies, i + 1), group)
         == InstallsOf(Installs(c, items, assemblies, i), group)
            + Found(InstallGroup(), StepAt(c, items, assemblies, i), group)
  {
    FoundConcat(InstallGroup(), Installs(c, items, assemblies, i), StepAt(c, items, assemblies, i), group);
  }

  lemma FoundInStep(step: seq<Install>, group: Option<string>)
    requires |step| <= 1
    ensures Found(InstallGroup(), step, group) == if step != [] && InstallGroup()(step[0]) == group then step else []
  {
    if step != [] {
      assert step[..0] == [];
    }
  }
}
