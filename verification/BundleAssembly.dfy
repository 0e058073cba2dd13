/** Reassembly of split delivery bundles in `delivery.py`: what `_split_segments` numbers is always complete. */
module BundleAssembly {
  import opened Wrappers
  import opened Sorting
  import opened Grouping
  import opened SplitBundles

  datatype Download = Download(artifact: Artifact, blob: Bytes)

  datatype Assembly = Assembly(groupId: string, artifactIds: seq<string>, blob: Bytes)

  function SegmentAt(a: Artifact): Segment {
    if a.segment.Some? then a.segment.value else Segment("", 0, 0)
  }

  function SegmentOf(): Artifact -> Segment {
    (a: Artifact) => SegmentAt(a)
  }

  function HasSegment(): Artifact -> bool {
    (a: Artifact) => a.segment.Some?
  }

  function ArtifactOf(): Download -> Artifact {
    (d: Download) => d.artifact
  }

  function SegmentIn(): Download -> Segment {
    (d: Download) => SegmentAt(d.artifact)
  }

  function IsSplit(): Download -> bool {
    (d: Download) => d.artifact.segment.Some?
  }

  function GroupOf(): Download -> string {
    (d: Download) => SegmentAt(d.artifact).groupId
  }

  function PositionOf(): Download -> nat {
    (d: Download) => SegmentAt(d.artifact).index
  }

  function BlobOf(): Download -> Bytes {
    (d: Download) => d.blob
  }

  function IdOf(): Download -> string {
    (d: Download) => d.artifact.id
  }

  function GroupIn(): Segment -> string {
    (s: Segment) => s.groupId
  }

  function IndexIn(): Segment -> nat {
    (s: Segment) => s.index
  }

  function AssemblyGroup(): Assembly -> string {
    (a: Assembly) => a.groupId
  }

  function ByPosition(): (Download, Download) -> bool {
    (a: Download, b: Download) => SegmentAt(a.artifact).index <= SegmentAt(b.artifact).index
  }

  function Ordered(members: seq<Download>): seq<Download> {
    Sort(members, ByPosition())
  }

  /** The bytes of the segments, one after the other. */
  function Joined(members: seq<Download>): Bytes {
    Flatten(Map(Ordered(members), BlobOf()))
  }

  /** The check of `_assemble_split` on the sorted members of a group. */
  predicate Complete(groupId: string, ordered: seq<Download>) {
    && ordered != []
    && (forall d <- ordered :: d.artifact.segment.Some?)
    && var count := SegmentAt(ordered[0].artifact).count;
       && |ordered| == count
       && Map(ordered, PositionOf()) == Run(count)
       && forall d <- ordered :: SegmentAt(d.artifact).groupId == groupId && SegmentAt(d.artifact).count == count
  }

  function AssemblyOf(groupId: string, members: seq<Download>): Assembly {
    Assembly(groupId, Map(Ordered(members), IdOf()), Joined(members))
  }

  /** `_assemble_split`. */
  method AssembleSplit(isArchive: Bytes -> bool, groupId: string, members: seq<Download>) returns (r: Result<Assembly>)
    requires members != []
    ensures r.Ok? <==> Complete(groupId, Ordered(members)) && isArchive(Joined(members))
    ensures r.Ok? ==> r.value == AssemblyOf(groupId, members)
  {
    var ordered := Ordered(members);
    if !Complete(groupId, ordered) {
      return Err("split delivery bundle is incomplete or inconsistent");
    }
    var output: Bytes := [];
    for i := 0 to |ordered|
      invariant output == Flatten(Map(ordered[..i], BlobOf()))
    {
      BlobsGrow(ordered, i);
      output := output + ordered[i].blob;
    }
    assert ordered[..|ordered|] == ordered;
    if !isArchive(output) {
      return Err("assembled split delivery bundle is not an archive");
    }
    r := Ok(Assembly(groupId, Map(ordered, IdOf()), output));
  }

  lemma BlobsGrow(ordered: seq<Download>, i: nat)
    requires i < |ordered|
    ensures Flatten(Map(ordered[..i + 1], BlobOf())) == Flatten(Map(ordered[..i], BlobOf())) + ordered[i].blob
  {
    assert Map(ordered[..i + 1], BlobOf()) == Map(ordered[..i], BlobOf()) + [ordered[i].blob];
    FlattenConcat(Map(ordered[..i], BlobOf()), [ordered[i].blob]);
    assert [ordered[i].blob][1..] == [] && Flatten([ordered[i].blob]) == ordered[i].blob + Flatten([]);
  }

  /** The downloads of one bundle, in the order of the plan. */
  function Bundle(downloads: seq<Download>, groupId: string): seq<Download> {
    Found(GroupOf(), Found(IsSplit(), downloads, true), groupId)
  }

  predicate Assembles(isArchive: Bytes -> bool, downloads: seq<Download>, groupId: string) {
    var members := Bundle(downloads, groupId);
    Complete(groupId, Ordered(members)) && isArchive(Joined(members))
  }

  /** The assemblies are those of all bundles, each once. */
  ghost predicate Covers(downloads: seq<Download>, assemblies: seq<Assembly>) {
    && Distinct(Map(assemblies, AssemblyGroup()))
    && (forall d <- downloads ::
          d.artifact.segment.Some? ==> SegmentAt(d.artifact).groupId in Map(assemblies, AssemblyGroup()))
    && forall a <- assemblies ::
         a == AssemblyOf(a.groupId, Bundle(downloads, a.groupId)) && Bundle(downloads, a.groupId) != []
  }

  method Gather(downloads: seq<Download>) returns (keys: seq<string>, groups: map<string, seq<Download>>)
    ensures Grouped(GroupOf(), Found(IsSplit(), downloads, true), keys, groups)
    ensures InOrder(GroupOf(), Found(IsSplit(), downloads, true), groups)
  {
    keys, groups := [], map[];
    ghost var found: seq<Download> := [];
    NothingGrouped(GroupOf(), found, keys, groups);
    for i := 0 to |downloads|
      invariant found == Found(IsSplit(), downloads[..i], true)
      invariant Grouped(GroupOf(), found, keys, groups) && InOrder(GroupOf(), found, groups)
    {
      assert downloads[..i + 1][..i] == downloads[..i];
      if downloads[i].artifact.segment.Some? {
        keys, groups := Append(GroupOf(), downloads[i].artifact.segment.value.groupId,
                               downloads[i], found, keys, groups);
        found := found + [downloads[i]];
      }
    }
    assert downloads[..|downloads|] == downloads;
  }

  /** The keys of the dictionary are the groups of the plan. */
  lemma KeysAreGroups(downloads: seq<Download>, keys: seq<string>, groups: map<string, seq<Download>>)
    requires Grouped(GroupOf(), Found(IsSplit(), downloads, true), keys, groups)
    requires InOrder(GroupOf(), Found(IsSplit(), downloads, true), groups)
    ensures forall d <- downloads :: d.artifact.segment.Some? ==> SegmentAt(d.artifact).groupId in keys
    ensures forall g <- keys :: g in groups && groups[g] == Bundle(downloads, g) && groups[g] != []
    ensures forall g <- keys :: exists d <- downloads :: d.artifact.segment.Some? && SegmentAt(d.artifact).groupId == g
  {
    FoundAre(IsSplit(), downloads, true);
    forall d | d in downloads && d.artifact.segment.Some?
      ensures SegmentAt(d.artifact).groupId in keys
    {
      GroupMember(GroupOf(), Found(IsSplit(), downloads, true), keys, groups, SegmentAt(d.artifact).groupId);
    }
    forall g | g in keys
      ensures g in groups && groups[g] == Bundle(downloads, g) && groups[g] != []
      ensures exists d <- downloads :: d.artifact.segment.Some? && SegmentAt(d.artifact).groupId == g
    {
      assert ListAt(groups, g) == Bundle(downloads, g);
      GroupMember(GroupOf(), Found(IsSplit(), downloads, true), keys, groups, g);
      assert groups[g][0] in downloads;
    }
  }

  /** The assembly of all bundles in `ArtifactVerifier.verify`. */
  method AssembleAll(isArchive: Bytes -> bool, textOrder: (string, string) -> bool, downloads: seq<Download>)
    returns (r: Result<seq<Assembly>>)
    ensures r.Ok? <==> forall d <- downloads ::
                         d.artifact.segment.Some? ==> Assembles(isArchive, downloads, SegmentAt(d.artifact).groupId)
    ensures r.Ok? ==> Covers(downloads, r.value)
    ensures r.Ok? && Total(textOrder) ==> Ascending(Map(r.value, AssemblyGroup()), textOrder)
  {
    var keys, groups := Gather(downloads);
    KeysAreGroups(downloads, keys, groups);
    var sorted := Sort(keys, textOrder);
    SameMembers(sorted, keys);
    DistinctPermutation(keys, sorted);
    r := AssembleGroups(isArchive, downloads, sorted, groups);
    if r.Ok? {
      assert Map(r.value, AssemblyGroup()) == sorted;
      if Total(textOrder) {
        SortAscends(keys, textOrder);
      }
    }
  }

  /** The assemblies of these groups, in order. */
  ghost predicate Assembled(isArchive: Bytes -> bool, downloads: seq<Download>, ids: seq<string>,
                            assemblies: seq<Assembly>) {
    && Map(assemblies, AssemblyGroup()) == ids
    && (forall a <- assemblies ::
          a == AssemblyOf(a.groupId, Bundle(downloads, a.groupId)) && Bundle(downloads, a.groupId) != [])
    && forall g <- ids :: Assembles(isArchive, downloads, g)
  }

  method AssembleGroups(isArchive: Bytes -> bool, downloads: seq<Download>, ids: seq<string>,
                        groups: map<string, seq<Download>>)
    returns (r: Result<seq<Assembly>>)
    requires forall g <- ids :: g in groups && groups[g] == Bundle(downloads, g) && groups[g] != []
    ensures r.Ok? <==> forall g <- ids :: Assembles(isArchive, downloads, g)
    ensures r.Ok? ==> Assembled(isArchive, downloads, ids, r.value)
  {
    var assemblies: seq<Assembly> := [];
    for i := 0 to |ids|
      invariant Assembled(isArchive, downloads, ids[..i], assemblies)
    {
      assert ids[i] in ids;
      var assembly := AssembleSplit(isArchive, ids[i], groups[ids[i]]);
      if assembly.Err? {
        return Err(assembly.reason);
      }
      PrefixGrows(ids, i);
      assemblies := assemblies + [assembly.value];
    }
    assert ids[..|ids|] == ids;
    r := Ok(assemblies);
  }
}
