/** Every bundle that `_split_segments` numbers passes the completeness check of `_assemble_split`. */
module BundleRoundTrip {
  import opened Wrappers
  import opened Sorting
  import opened Grouping
  import opened SplitBundles
  import opened BundleAssembly

  /** The unmarked artifacts of one transition. */
  datatype Delivery = Delivery(transition: Transition, artifacts: seq<Artifact>)

  function TransitionOf(): Delivery -> Transition {
    (d: Delivery) => d.transition
  }

  function Marking(digest: Identity -> string): Delivery -> seq<Artifact> {
    (d: Delivery) => Splits(digest, d.transition, d.artifacts)
  }

  predicate Unmarked(artifacts: seq<Artifact>) {
    forall a <- artifacts :: a.segment == None
  }

  ghost predicate Deliverable(d: Delivery) {
    Unmarked(d.artifacts) && Contiguous(d.artifacts)
  }

  function Segments(artifacts: seq<Artifact>): seq<Segment> {
    Map(Found(HasSegment(), artifacts, true), SegmentOf())
  }

  /** The segments that share a group with this one are all of its group, numbered from 1. */
  ghost predicate WholeGroup(segments: seq<Segment>, s: Segment) {
    var group := Found(GroupIn(), segments, s.groupId);
    && (forall other <- group :: other.count == s.count)
    && multiset(Map(group, IndexIn())) == multiset(Run(s.count))
  }

  ghost predicate WellNumbered(segments: seq<Segment>) {
    forall s <- segments :: WholeGroup(segments, s)
  }

  /** A segment of a bundle of this transition. */
  ghost predicate From(digest: Identity -> string, t: Transition, s: Segment) {
    exists key :: s.groupId == GroupId(digest, t, key)
  }

  lemma SegmentsConcat(a: seq<Artifact>, b: seq<Artifact>)
    ensures Segments(a + b) == Segments(a) + Segments(b)
  {
    FoundConcat(HasSegment(), a, b, true);
  }

  lemma OneSegment(digest: Identity -> string, t: Transition, artifacts: seq<Artifact>, i: nat)
    requires Unmarked(artifacts) && i < |artifacts|
    ensures var suffix := SuffixOf(artifacts[i].name);
      Segments([Numbered(digest, t, artifacts, i)])
      == Map(if suffix == None then [] else [Member(suffix.value.index, i)], SegmentFor(digest, t, artifacts))
  {
    assert artifacts[i] in artifacts;
    var one := Numbered(digest, t, artifacts, i);
    assert [one][..0] == [];
    assert Found(HasSegment(), [one], true) == Found(HasSegment(), [], true) + if one.segment.Some? then [one] else [];
  }

  lemma NextSegment(digest: Identity -> string, t: Transition, artifacts: seq<Artifact>, i: nat)
    requires i < |artifacts|
    ensures Segments(Splits(digest, t, artifacts)[..i + 1])
         == Segments(Splits(digest, t, artifacts)[..i]) + Segments([Numbered(digest, t, artifacts, i)])
  {
    var marked := Splits(digest, t, artifacts);
    PrefixGrows(marked, i);
    SegmentsConcat(marked[..i], [marked[i]]);
  }

  lemma NextMember(artifacts: seq<Artifact>, i: nat, f: Member -> Segment)
    requires i < |artifacts|
    ensures var suffix := SuffixOf(artifacts[i].name);
      Map(Members(artifacts[..i + 1]), f)
      == Map(Members(artifacts[..i]), f) + Map(if suffix == None then [] else [Member(suffix.value.index, i)], f)
  {
    MembersGrow(artifacts, i);
  }

  /** The segments of a marked transition are those of its members. */
  lemma {:induction false} SegmentsAreMembers(digest: Identity -> string, t: Transition, artifacts: seq<Artifact>,
                                              n: nat)
    requires Unmarked(artifacts) && n <= |artifacts|
    ensures Segments(Splits(digest, t, artifacts)[..n])
         == Map(Members(artifacts[..n]), SegmentFor(digest, t, artifacts))
  {
    if n > 0 {
      SegmentsAreMembers(digest, t, artifacts, n - 1);
      NextSegment(digest, t, artifacts, n - 1);
      NextMember(artifacts, n - 1, SegmentFor(digest, t, artifacts));
      OneSegment(digest, t, artifacts, n - 1);
    }
  }

  lemma GroupIdIsInjective(digest: Identity -> string, t: Transition, x: BundleKey, t': Transition, y: BundleKey)
    requires Injective(digest)
    ensures GroupId(digest, t, x) == GroupId(digest, t', y) <==> t == t' && x == y
  {
  }

  /** The group of a member is the bundle it belongs to. */
  lemma GroupIsBundle(digest: Identity -> string, t: Transition, artifacts: seq<Artifact>, key: BundleKey)
    requires Injective(digest)
    ensures Found(GroupIn(), Map(Members(artifacts), SegmentFor(digest, t, artifacts)), GroupId(digest, t, key))
         == Map(Siblings(artifacts, key), SegmentFor(digest, t, artifacts))
  {
    var id := GroupId(digest, t, key);
    forall m | m in Members(artifacts)
      ensures GroupIn()(SegmentFor(digest, t, artifacts)(m)) == id <==> Owner(artifacts)(m) == key
    {
      GroupIdIsInjective(digest, t, Owner(artifacts)(m), t, key);
    }
    FoundMap(Owner(artifacts), key, SegmentFor(digest, t, artifacts), GroupIn(), id, Members(artifacts));
  }

  lemma WholeBundle(digest: Identity -> string, t: Transition, artifacts: seq<Artifact>, m: Member)
    requires Injective(digest) && Contiguous(artifacts) && m in Members(artifacts)
    ensures WholeGroup(Map(Members(artifacts), SegmentFor(digest, t, artifacts)), SegmentFor(digest, t, artifacts)(m))
  {
    var key, f := Owner(artifacts)(m), SegmentFor(digest, t, artifacts);
    var siblings := Siblings(artifacts, key);
    GroupIsBundle(digest, t, artifacts, key);
    FoundAre(Owner(artifacts), Members(artifacts), key);
    assert Map(Map(siblings, f), IndexIn()) == Map(siblings, IndexOf());
    assert ContiguousKey(artifacts, key);
    forall other: Segment | other in Map(siblings, f)
      ensures other.count == f(m).count
    {
      var k :| 0 <= k < |siblings| && f(siblings[k]) == other;
      assert siblings[k] in siblings;
    }
  }

  lemma TransitionIsWellNumbered(digest: Identity -> string, d: Delivery)
    requires Injective(digest) && Deliverable(d)
    ensures WellNumbered(Segments(Marking(digest)(d)))
    ensures forall s <- Segments(Marking(digest)(d)) :: From(digest, d.transition, s)
  {
    var t, artifacts := d.transition, d.artifacts;
    var f := SegmentFor(digest, t, artifacts);
    SegmentsAreMembers(digest, t, artifacts, |artifacts|);
    assert artifacts[..|artifacts|] == artifacts;
    var marked := Splits(digest, t, artifacts);
    assert marked[..|artifacts|] == marked;
    forall s | s in Segments(marked)
      ensures WholeGroup(Segments(marked), s) && From(digest, t, s)
    {
      var k :| 0 <= k < |Members(artifacts)| && f(Members(artifacts)[k]) == s;
      WholeBundle(digest, t, artifacts, Members(artifacts)[k]);
      assert s.groupId == GroupId(digest, t, Owner(artifacts)(Members(artifacts)[k]));
    }
  }

  lemma {:induction false} NoneFound(segments: seq<Segment>, groupId: string)
    requires forall s <- segments :: s.groupId != groupId
    ensures Found(GroupIn(), segments, groupId) == []
  {
    if segments != [] {
      NoneFound(segments[..|segments| - 1], groupId);
    }
  }

  /** Lists without a common group can be put together. */
  lemma DisjointConcat(a: seq<Segment>, b: seq<Segment>)
    requires WellNumbered(a) && WellNumbered(b)
    requires forall x, y | x in a && y in b :: x.groupId != y.groupId
    ensures WellNumbered(a + b)
  {
    forall s | s in a + b
      ensures WholeGroup(a + b, s)
    {
      if s in a {
        GroupOfOnePart(a, b, s);
      } else {
        GroupOfOnePart(b, a, s);
      }
    }
  }

  lemma GroupOfOnePart(a: seq<Segment>, b: seq<Segment>, s: Segment)
    requires WholeGroup(a, s) && forall y <- b :: y.groupId != s.groupId
    ensures WholeGroup(a + b, s) && WholeGroup(b + a, s)
  {
    FoundConcat(GroupIn(), a, b, s.groupId);
    FoundConcat(GroupIn(), b, a, s.groupId);
    NoneFound(b, s.groupId);
    var group := Found(GroupIn(), a, s.groupId);
    assert group + [] == group && [] + group == group;
  }

  /** A segment of some bundle of some of these transitions. */
  ghost predicate FromSome(digest: Identity -> string, deliveries: seq<Delivery>, s: Segment) {
    exists d <- deliveries :: From(digest, d.transition, s)
  }

  lemma {:induction false} DeliveriesAreWellNumbered(digest: Identity -> string, deliveries: seq<Delivery>)
    requires Injective(digest) && Distinct(Map(deliveries, TransitionOf()))
    requires forall d <- deliveries :: Deliverable(d)
    ensures WellNumbered(Segments(Flatten(Map(deliveries, Marking(digest)))))
    ensures forall s <- Segments(Flatten(Map(deliveries, Marking(digest)))) :: FromSome(digest, deliveries, s)
  {
    if deliveries != [] {
      var rest := deliveries[1..];
      assert deliveries == [deliveries[0]] + rest;
      assert Map(deliveries, Marking(digest))[1..] == Map(rest, Marking(digest));
      assert Map(deliveries, TransitionOf())[1..] == Map(rest, TransitionOf());
      DeliveriesAreWellNumbered(digest, rest);
      TransitionIsWellNumbered(digest, deliveries[0]);
      var a, b := Marking(digest)(deliveries[0]), Flatten(Map(rest, Marking(digest)));
      SegmentsConcat(a, b);
      forall x, y | x in Segments(a) && y in Segments(b)
        ensures x.groupId != y.groupId
      {
        OtherTransition(digest, deliveries, x, y);
      }
      DisjointConcat(Segments(a), Segments(b));
    }
  }

  lemma OtherTransition(digest: Identity -> string, deliveries: seq<Delivery>, x: Segment, y: Segment)
    requires Injective(digest) && deliveries != [] && Distinct(Map(deliveries, TransitionOf()))
    requires From(digest, deliveries[0].transition, x) && FromSome(digest, deliveries[1..], y)
    ensures x.groupId != y.groupId
  {
    var k :| 0 <= k < |deliveries[1..]| && From(digest, deliveries[1..][k].transition, y);
    assert Map(deliveries, TransitionOf())[0] != Map(deliveries, TransitionOf())[k + 1];
    var p :| x.groupId == GroupId(digest, deliveries[0].transition, p);
    var q :| y.groupId == GroupId(digest, deliveries[k + 1].transition, q);
    GroupIdIsInjective(digest, deliveries[0].transition, p, deliveries[k + 1].transition, q);
  }

  lemma PermutedNumbering(a: seq<Segment>, b: seq<Segment>)
    requires WellNumbered(a) && multiset(a) == multiset(b)
    ensures WellNumbered(b)
  {
    SameMembers(a, b);
    forall s | s in b
      ensures WholeGroup(b, s)
    {
      assert WholeGroup(a, s);
      var x, y := Found(GroupIn(), a, s.groupId), Found(GroupIn(), b, s.groupId);
      FoundPermutation(GroupIn(), a, b, s.groupId);
      SameMembers(x, y);
      MapPermutation(x, y, IndexIn());
    }
  }

  lemma UnmarkedHaveNone(artifacts: seq<Artifact>)
    requires Unmarked(artifacts)
    ensures Segments(artifacts) == []
  {
    FoundAre(HasSegment(), artifacts, true);
    if Found(HasSegment(), artifacts, true) != [] {
      assert Found(HasSegment(), artifacts, true)[0] in artifacts;
    }
  }

  /** The segments of a bundle among the downloads are its group among the segments of the artifacts. */
  lemma BundleSegments(downloads: seq<Download>, groupId: string)
    ensures Map(Bundle(downloads, groupId), SegmentIn())
         == Found(GroupIn(), Segments(Map(downloads, ArtifactOf())), groupId)
    ensures forall d <- Bundle(downloads, groupId) :: d in downloads && d.artifact.segment.Some?
                                                      && d.artifact.segment.value.groupId == groupId
  {
    var split := Found(IsSplit(), downloads, true);
    FoundMap(IsSplit(), true, ArtifactOf(), HasSegment(), true, downloads);
    assert Map(Map(split, ArtifactOf()), SegmentOf()) == Map(split, SegmentIn());
    FoundMap(GroupOf(), groupId, SegmentIn(), GroupIn(), groupId, split);
    FoundAre(IsSplit(), downloads, true);
    FoundAre(GroupOf(), split, groupId);
  }

  /** A whole group sorts into a complete bundle. */
  lemma WholeIsComplete(downloads: seq<Download>, segments: seq<Segment>, groupId: string, s: Segment)
    requires segments == Segments(Map(downloads, ArtifactOf()))
    requires s in segments && s.groupId == groupId && WholeGroup(segments, s)
    ensures Complete(groupId, Ordered(Bundle(downloads, groupId)))
  {
    var members, group := Bundle(downloads, groupId), Found(GroupIn(), segments, groupId);
    var ordered := Ordered(members);
    BundleSegments(downloads, groupId);
    FoundAre(GroupIn(), segments, groupId);
    SameMembers(ordered, members);
    forall d | d in ordered
      ensures SegmentAt(d.artifact).count == s.count && SegmentAt(d.artifact).groupId == groupId
    {
      var k :| 0 <= k < |members| && members[k] == d;
      assert Map(members, SegmentIn())[k] in group;
    }
    assert Map(group, IndexIn()) == Map(members, PositionOf());
    RunIsSorted(members, s.count);
    assert s in group;
  }

  lemma RunIsSorted(members: seq<Download>, n: nat)
    requires multiset(Map(members, PositionOf())) == multiset(Run(n))
    ensures Map(Ordered(members), PositionOf()) == Run(n) && |members| == n
  {
    assert |members| == |multiset(Map(members, PositionOf()))| == |multiset(Run(n))| == n;
    SortAscends(members, ByPosition());
    MapPermutation(Ordered(members), members, PositionOf());
    SortedRun(Map(Ordered(members), PositionOf()));
  }

  /**
   For any transitions with contiguous bundles, whatever the order of their artifacts and of the
   downloads, every bundle is complete when it is assembled.
   */
  lemma EveryBundleIsComplete(digest: Identity -> string, deliveries: seq<Delivery>, references: seq<Artifact>,
                              downloads: seq<Download>)
    requires Injective(digest) && Distinct(Map(deliveries, TransitionOf()))
    requires (forall d <- deliveries :: Deliverable(d)) && Unmarked(references)
    requires multiset(Map(downloads, ArtifactOf())) == multiset(references + Flatten(Map(deliveries, Marking(digest))))
    ensures forall d <- downloads :: d.artifact.segment.Some? ==>
              Complete(d.artifact.segment.value.groupId, Ordered(Bundle(downloads, d.artifact.segment.value.groupId)))
  {
    var artifacts, marked := Map(downloads, ArtifactOf()), Flatten(Map(deliveries, Marking(digest)));
    DeliveriesAreWellNumbered(digest, deliveries);
    UnmarkedHaveNone(references);
    SegmentsConcat(references, marked);
    assert [] + Segments(marked) == Segments(marked);
    FoundPermutation(HasSegment(), references + marked, artifacts, true);
    MapPermutation(Found(HasSegment(), references + marked, true), Found(HasSegment(), artifacts, true), SegmentOf());
    PermutedNumbering(Segments(marked), Segments(artifacts));
    forall d | d in downloads && d.artifact.segment.Some?
      ensures Complete(d.artifact.segment.value.groupId, Ordered(Bundle(downloads, d.artifact.segment.value.groupId)))
    {
      SegmentIsListed(downloads, d);
      WholeIsComplete(downloads, Segments(artifacts), d.artifact.segment.value.groupId, d.artifact.segment.value);
    }
  }

  lemma SegmentIsListed(downloads: seq<Download>, d: Download)
    requires d in downloads && d.artifact.segment.Some?
    ensures d.artifact.segment.value in Segments(Map(downloads, ArtifactOf()))
  {
    var artifacts := Map(downloads, ArtifactOf());
    var k :| 0 <= k < |downloads| && downloads[k] == d;
    assert artifacts[k] == d.artifact && HasSegment()(d.artifact);
    FoundAre(HasSegment(), artifacts, true);
    var found := Found(HasSegment(), artifacts, true);
    assert d.artifact in found;
    var j :| 0 <= j < |found| && found[j] == d.artifact;
    assert Map(found, SegmentOf())[j] == d.artifact.segment.value;
  }

  /** A marked artifact is called after its place in its bundle. */
  ghost predicate Called(digest: Identity -> string, deliveries: seq<Delivery>, a: Artifact) {
    && SuffixOf(a.name).Some?
    && SegmentAt(a).index == SuffixOf(a.name).value.index
    && exists d <- deliveries ::
         SegmentAt(a).groupId == GroupId(digest, d.transition, BundleKey(a.parent, SuffixOf(a.name).value.base))
  }

  lemma {:induction false} MarkedAreCalled(digest: Identity -> string, deliveries: seq<Delivery>)
    requires forall d <- deliveries :: Unmarked(d.artifacts)
    ensures forall a <- Flatten(Map(deliveries, Marking(digest))) :: a.segment.Some? ==> Called(digest, deliveries, a)
  {
    if deliveries != [] {
      MarkedAreCalled(digest, deliveries[1..]);
      var d := deliveries[0];
      assert deliveries == [d] + deliveries[1..];
      assert Map(deliveries, Marking(digest))[1..] == Map(deliveries[1..], Marking(digest));
      forall a | a in Marking(digest)(d) && a.segment.Some?
        ensures Called(digest, deliveries, a)
      {
        MarkedIsCalled(digest, deliveries, 0, a);
      }
      forall a | Called(digest, deliveries[1..], a)
        ensures Called(digest, deliveries, a)
      {
      }
    }
  }

  lemma MarkedIsCalled(digest: Identity -> string, deliveries: seq<Delivery>, k: nat, a: Artifact)
    requires k < |deliveries| && Unmarked(deliveries[k].artifacts)
    requires a in Marking(digest)(deliveries[k]) && a.segment.Some?
    ensures Called(digest, deliveries, a)
  {
    var d := deliveries[k];
    var i :| 0 <= i < |d.artifacts| && Numbered(digest, d.transition, d.artifacts, i) == a;
    assert d.artifacts[i] in d.artifacts && d in deliveries;
    NumberedKey(digest, d.transition, d.artifacts, i);
  }

  lemma NumberedKey(digest: Identity -> string, t: Transition, artifacts: seq<Artifact>, i: nat)
    requires i < |artifacts| && SuffixOf(artifacts[i].name).Some?
    ensures var a, suffix := Numbered(digest, t, artifacts, i), SuffixOf(artifacts[i].name).value;
      SegmentAt(a).groupId == GroupId(digest, t, BundleKey(a.parent, suffix.base)) && SegmentAt(a).index == suffix.index
  {
    assert Owner(artifacts)(Member(SuffixOf(artifacts[i].name).value.index, i)) == KeyOf(artifacts[i]).value;
  }

  /** The segments of a bundle are joined in the order of the numbers in their names, from .001. */
  lemma JoinedInNumericOrder(digest: Identity -> string, deliveries: seq<Delivery>, references: seq<Artifact>,
                             downloads: seq<Download>, d: Download)
    requires Injective(digest) && Distinct(Map(deliveries, TransitionOf()))
    requires (forall d <- deliveries :: Deliverable(d)) && Unmarked(references)
    requires multiset(Map(downloads, ArtifactOf())) == multiset(references + Flatten(Map(deliveries, Marking(digest))))
    requires d in downloads && d.artifact.segment.Some?
    ensures SuffixOf(d.artifact.name).Some?
    ensures var ordered := Ordered(Bundle(downloads, d.artifact.segment.value.groupId));
      forall j :: 0 <= j < |ordered| ==>
        && ordered[j] in downloads && ordered[j].artifact.parent == d.artifact.parent
        && SuffixOf(ordered[j].artifact.name) == Some(Numbering(SuffixOf(d.artifact.name).value.base, j + 1))
  {
    var id := d.artifact.segment.value.groupId;
    var ordered := Ordered(Bundle(downloads, id));
    EveryBundleIsComplete(digest, deliveries, references, downloads);
    DownloadIsCalled(digest, deliveries, references, downloads, d);
    OrderedMembers(downloads, id);
    forall j | 0 <= j < |ordered|
      ensures ordered[j] in downloads && ordered[j].artifact.parent == d.artifact.parent
      ensures SuffixOf(ordered[j].artifact.name) == Some(Numbering(SuffixOf(d.artifact.name).value.base, j + 1))
    {
      DownloadIsCalled(digest, deliveries, references, downloads, ordered[j]);
      NameInBundle(digest, deliveries, ordered, id, j, d.artifact);
    }
  }

  lemma OrderedMembers(downloads: seq<Download>, id: string)
    ensures var ordered := Ordered(Bundle(downloads, id));
      forall j :: 0 <= j < |ordered| ==> ordered[j] in downloads && ordered[j].artifact.segment.Some?
                                         && ordered[j].artifact.segment.value.groupId == id
  {
    var ordered := Ordered(Bundle(downloads, id));
    BundleSegments(downloads, id);
    SameMembers(ordered, Bundle(downloads, id));
    forall j | 0 <= j < |ordered|
      ensures ordered[j] in Bundle(downloads, id)
    {
      assert ordered[j] in ordered;
    }
  }

  lemma NameInBundle(digest: Identity -> string, deliveries: seq<Delivery>, ordered: seq<Download>, id: string,
                     j: nat, a: Artifact)
    requires Injective(digest) && Complete(id, ordered) && j < |ordered| && SegmentAt(a).groupId == id
    requires Called(digest, deliveries, a) && Called(digest, deliveries, ordered[j].artifact)
    ensures ordered[j].artifact.parent == a.parent
    ensures SuffixOf(ordered[j].artifact.name) == Some(Numbering(SuffixOf(a.name).value.base, j + 1))
  {
    SameBundle(digest, deliveries, a, ordered[j].artifact);
    assert Map(ordered, PositionOf())[j] == j + 1;
  }

  lemma SameBundle(digest: Identity -> string, deliveries: seq<Delivery>, a: Artifact, b: Artifact)
    requires Injective(digest) && Called(digest, deliveries, a) && Called(digest, deliveries, b)
    requires SegmentAt(a).groupId == SegmentAt(b).groupId
    ensures a.parent == b.parent && SuffixOf(a.name).value.base == SuffixOf(b.name).value.base
  {
    var x, y := BundleKey(a.parent, SuffixOf(a.name).value.base), BundleKey(b.parent, SuffixOf(b.name).value.base);
    var d :| d in deliveries && SegmentAt(a).groupId == GroupId(digest, d.transition, x);
    var e :| e in deliveries && SegmentAt(b).groupId == GroupId(digest, e.transition, y);
    GroupIdIsInjective(digest, d.transition, x, e.transition, y);
  }

  lemma DownloadIsCalled(digest: Identity -> string, deliveries: seq<Delivery>, references: seq<Artifact>,
                         downloads: seq<Download>, d: Download)
    requires (forall d <- deliveries :: Unmarked(d.artifacts)) && Unmarked(references)
    requires multiset(Map(downloads, ArtifactOf())) == multiset(references + Flatten(Map(deliveries, Marking(digest))))
    requires d in downloads && d.artifact.segment.Some?
    ensures Called(digest, deliveries, d.artifact)
  {
    var k :| 0 <= k < |downloads| && downloads[k] == d;
    assert Map(downloads, ArtifactOf())[k] == d.artifact;
    SameMembers(Map(downloads, ArtifactOf()), references + Flatten(Map(deliveries, Marking(digest))));
    assert d.artifact in references + Flatten(Map(deliveries, Marking(digest)));
    assert d.artifact in Flatten(Map(deliveries, Marking(digest)));
    MarkedAreCalled(digest, deliveries);
  }
}
