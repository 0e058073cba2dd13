/**
 Split delivery bundles: `_split_segments` of `acquisition.py` numbers the files of a transition, and
 `_assemble_split` of `delivery.py` puts the bundles together again.
 */
module SplitBundles {
  import opened Wrappers
  import opened Decimal
  import opened Sorting
  import opened Grouping

  type Bytes = string

  datatype Segment = Segment(groupId: string, index: nat, count: nat)

  datatype Transition = Transition(part: string, language: Option<string>, target: string)

  datatype Artifact = Artifact(id: string, parent: seq<Bytes>, name: Bytes, source: string, segment: Option<Segment>)

  /** What the digest that names a bundle is taken of. */
  datatype Identity = Identity(base: Bytes, language: Option<string>, parent: seq<Bytes>, part: string, target: string)

  datatype BundleKey = BundleKey(parent: seq<Bytes>, base: Bytes)

  datatype Numbering = Numbering(base: Bytes, index: nat)

  /** A numbered artifact: the index in its name, and its place in the transition. */
  datatype Member = Member(index: nat, place: nat)

  ghost predicate Injective(digest: Identity -> string) {
    forall x, y :: digest(x) == digest(y) ==> x == y
  }

  // ---------- Numbered names ----------

  /** A name that is a base, a dot and three digits; `.` does not match a line break. */
  function SuffixOf(name: Bytes): Option<Numbering> {
    var n := |name|;
    if n < 5 || name[n - 4] != '.' || !IsDigit(name[n - 3]) || !IsDigit(name[n - 2]) || !IsDigit(name[n - 1]) then None
    else if '\n' in name[..n - 4] then None
    else Some(Numbering(name[..n - 4], 100 * DigitOf(name[n - 3]) + 10 * DigitOf(name[n - 2]) + DigitOf(name[n - 1])))
  }

  /** The base and the index determine the name. */
  lemma SuffixIsUnique(a: Bytes, b: Bytes)
    requires SuffixOf(a).Some? && SuffixOf(a) == SuffixOf(b)
    ensures a == b
  {
    SuffixDigits(a);
    SuffixDigits(b);
    var x, y := SuffixOf(a).value.index, SuffixOf(b).value.index;
    assert a == SuffixOf(a).value.base + Ending(x) && b == SuffixOf(b).value.base + Ending(y);
  }

  /** The dot and the digits that number a segment. */
  function Ending(n: nat): Bytes
    requires n < 1000
  {
    ['.', Digit(n / 100), Digit(n / 10 % 10), Digit(n % 10)]
  }

  lemma SuffixDigits(a: Bytes)
    requires SuffixOf(a).Some?
    ensures SuffixOf(a).value.index < 1000 && a == SuffixOf(a).value.base + Ending(SuffixOf(a).value.index)
  {
    var n := |a|;
    ThreeDigits(DigitOf(a[n - 3]), DigitOf(a[n - 2]), DigitOf(a[n - 1]));
    assert a == a[..n - 4] + [a[n - 4], a[n - 3], a[n - 2], a[n - 1]];
  }

  lemma ThreeDigits(x: nat, y: nat, z: nat)
    requires x < 10 && y < 10 && z < 10
    ensures var n := 100 * x + 10 * y + z; n < 1000 && n / 100 == x && n / 10 % 10 == y && n % 10 == z
  {
  }

  function KeyOf(a: Artifact): Option<BundleKey> {
    var suffix := SuffixOf(a.name);
    if suffix == None then None else Some(BundleKey(a.parent, suffix.value.base))
  }

  // ---------- What numbering a transition means ----------

  function Members(artifacts: seq<Artifact>): seq<Member> {
    if artifacts == [] then []
    else
      var last := |artifacts| - 1;
      var suffix := SuffixOf(artifacts[last].name);
      Members(artifacts[..last]) + if suffix == None then [] else [Member(suffix.value.index, last)]
  }

  function Owner(artifacts: seq<Artifact>): Member -> BundleKey {
    (m: Member) =>
      if m.place < |artifacts| && KeyOf(artifacts[m.place]).Some? then KeyOf(artifacts[m.place]).value
      else BundleKey([], "")
  }

  function IndexOf(): Member -> nat {
    (m: Member) => m.index
  }

  /** The numbered files of one bundle, in the order of the transition. */
  function Siblings(artifacts: seq<Artifact>, key: BundleKey): seq<Member> {
    Found(Owner(artifacts), Members(artifacts), key)
  }

  /** 1, 2, ..., n. */
  function Run(n: nat): seq<nat> {
    seq(n, i requires 0 <= i < n => i + 1)
  }

  /** The files of every bundle are numbered from 1 without gaps or repetition. */
  ghost predicate Contiguous(artifacts: seq<Artifact>) {
    forall m <- Members(artifacts) :: ContiguousKey(artifacts, Owner(artifacts)(m))
  }

  ghost predicate ContiguousKey(artifacts: seq<Artifact>, key: BundleKey) {
    var siblings := Siblings(artifacts, key);
    multiset(Map(siblings, IndexOf())) == multiset(Run(|siblings|))
  }

  function GroupId(digest: Identity -> string, t: Transition, key: BundleKey): string {
    digest(Identity(key.base, t.language, key.parent, t.part, t.target))
  }

  function SegmentFor(digest: Identity -> string, t: Transition, artifacts: seq<Artifact>): Member -> Segment {
    (m: Member) =>
      var key := Owner(artifacts)(m);
      Segment(GroupId(digest, t, key), m.index, |Siblings(artifacts, key)|)
  }

  function Numbered(digest: Identity -> string, t: Transition, artifacts: seq<Artifact>, i: nat): Artifact
    requires i < |artifacts|
  {
    var suffix := SuffixOf(artifacts[i].name);
    if suffix == None then artifacts[i]
    else artifacts[i].(segment := Some(SegmentFor(digest, t, artifacts)(Member(suffix.value.index, i))))
  }

  /** A transition with every numbered file marked with its bundle, its index and the length of the bundle. */
  function Splits(digest: Identity -> string, t: Transition, artifacts: seq<Artifact>): seq<Artifact> {
    seq(|artifacts|, i requires 0 <= i < |artifacts| => Numbered(digest, t, artifacts, i))
  }

  lemma {:induction false} MembersAre(artifacts: seq<Artifact>)
    ensures forall m :: m in Members(artifacts) <==>
              m.place < |artifacts| && SuffixOf(artifacts[m.place].name).Some?
              && m.index == SuffixOf(artifacts[m.place].name).value.index
  {
    if artifacts != [] {
      MembersAre(artifacts[..|artifacts| - 1]);
    }
  }

  lemma SiblingsAre(artifacts: seq<Artifact>, key: BundleKey)
    ensures forall m :: m in Siblings(artifacts, key) <==>
              m.place < |artifacts| && KeyOf(artifacts[m.place]) == Some(key)
              && m.index == SuffixOf(artifacts[m.place].name).value.index
  {
    MembersAre(artifacts);
    FoundAre(Owner(artifacts), Members(artifacts), key);
  }

  // ---------- Numbering ----------

  predicate Before(a: Member, b: Member) {
    a.index < b.index || (a.index == b.index && a.place <= b.place)
  }

  function MemberOrder(): (Member, Member) -> bool {
    (a: Member, b: Member) => Before(a, b)
  }

  function AtMost(): (nat, nat) -> bool {
    (a: nat, b: nat) => a <= b
  }

  /** Sorted numbers are 1, 2, ..., n when they are these numbers in some order. */
  lemma SortedRun(indices: seq<nat>)
    requires Ascending(indices, AtMost())
    ensures indices == Run(|indices|) <==> multiset(indices) == multiset(Run(|indices|))
  {
    if multiset(indices) == multiset(Run(|indices|)) {
      var elements := set i | i in indices;
      SortedIsUnique(indices, Run(|indices|), elements, AtMost());
    }
  }

  lemma SiblingsInOrder(siblings: seq<Member>, ordered: seq<Member>)
    requires ordered == Sort(siblings, MemberOrder())
    ensures Map(ordered, IndexOf()) == Run(|ordered|)
            <==> multiset(Map(siblings, IndexOf())) == multiset(Run(|siblings|))
  {
    IndicesAscend(siblings);
    MapPermutation(ordered, siblings, IndexOf());
    SortedRun(Map(ordered, IndexOf()));
  }

  lemma IndicesAscend(siblings: seq<Member>)
    ensures Ascending(Map(Sort(siblings, MemberOrder()), IndexOf()), AtMost())
  {
    MemberOrderIsTotal();
    SortAscends(siblings, MemberOrder());
  }

  lemma MemberOrderIsTotal()
    ensures Total(MemberOrder())
  {
  }

  lemma ZeroIsNotContiguous(artifacts: seq<Artifact>, i: nat)
    requires i < |artifacts| && SuffixOf(artifacts[i].name).Some? && SuffixOf(artifacts[i].name).value.index == 0
    ensures !Contiguous(artifacts)
  {
    var m := Member(0, i);
    var key := Owner(artifacts)(m);
    MembersAre(artifacts);
    SiblingsAre(artifacts, key);
    var siblings := Siblings(artifacts, key);
    var k :| 0 <= k < |siblings| && siblings[k] == m;
    assert Map(siblings, IndexOf())[k] == 0;
    assert 0 in multiset(Map(siblings, IndexOf())) && 0 !in multiset(Run(|siblings|));
    assert !ContiguousKey(artifacts, key);
  }

  /** Marks the members of one bundle. */
  method Mark(artifacts: seq<Artifact>, groupId: string, ordered: seq<Member>) returns (updated: seq<Artifact>)
    requires forall m <- ordered :: m.place < |artifacts|
    requires forall m, n | m in ordered && n in ordered :: m.place == n.place ==> m == n
    ensures |updated| == |artifacts|
    ensures forall m <- ordered ::
              updated[m.place] == artifacts[m.place].(segment := Some(Segment(groupId, m.index, |ordered|)))
    ensures forall i :: 0 <= i < |artifacts| && (forall m <- ordered :: m.place != i) ==> updated[i] == artifacts[i]
  {
    updated := artifacts;
    for k := 0 to |ordered|
      invariant |updated| == |artifacts|
      invariant forall m <- ordered[..k] ::
                  updated[m.place] == artifacts[m.place].(segment := Some(Segment(groupId, m.index, |ordered|)))
      invariant forall i :: 0 <= i < |artifacts| && (forall m <- ordered[..k] :: m.place != i) ==>
                              updated[i] == artifacts[i]
    {
      var m := ordered[k];
      assert ordered[..k + 1] == ordered[..k] + [m];
      updated := updated[m.place := artifacts[m.place].(segment := Some(Segment(groupId, m.index, |ordered|)))];
    }
    assert ordered[..|ordered|] == ordered;
  }

  /** The files of the bundles in `keys` are marked, the others are as they were. */
  ghost predicate Marked(digest: Identity -> string, t: Transition, artifacts: seq<Artifact>, keys: seq<BundleKey>,
                         updated: seq<Artifact>) {
    && |updated| == |artifacts|
    && forall i :: 0 <= i < |artifacts| ==>
         updated[i] == var key := KeyOf(artifacts[i]);
                       if key.Some? && key.value in keys then Numbered(digest, t, artifacts, i) else artifacts[i]
  }

  /** Marks one bundle more. */
  method MarkBundle(digest: Identity -> string, t: Transition, artifacts: seq<Artifact>, key: BundleKey,
                    ordered: seq<Member>,
                    ghost keys: seq<BundleKey>, before: seq<Artifact>) returns (updated: seq<Artifact>)
    requires multiset(ordered) == multiset(Siblings(artifacts, key)) && key !in keys
    requires Marked(digest, t, artifacts, keys, before)
    ensures Marked(digest, t, artifacts, keys + [key], updated)
  {
    SameMembers(ordered, Siblings(artifacts, key));
    SiblingsAre(artifacts, key);
    updated := Mark(before, GroupId(digest, t, key), ordered);
    assert |ordered| == |multiset(ordered)| == |Siblings(artifacts, key)|;
    forall i | 0 <= i < |artifacts|
      ensures var k := KeyOf(artifacts[i]);
        updated[i] == if k.Some? && k.value in keys + [key] then Numbered(digest, t, artifacts, i) else artifacts[i]
    {
      if KeyOf(artifacts[i]) == Some(key) {
        var m := Member(SuffixOf(artifacts[i].name).value.index, i);
        assert m in ordered;
      }
    }
  }

  /** `_split_segments`: it succeeds exactly when every bundle is contiguous, and then marks every numbered file. */
  method Split(digest: Identity -> string, t: Transition, artifacts: seq<Artifact>) returns (r: Result<seq<Artifact>>)
    ensures r.Ok? <==> Contiguous(artifacts)
    ensures r.Ok? ==> r.value == Splits(digest, t, artifacts)
  {
    var keys: seq<BundleKey>, groups: map<BundleKey, seq<Member>> := [], map[];
    ghost var members: seq<Member> := [];
    NothingGrouped(Owner(artifacts), members, keys, groups);
    for i := 0 to |artifacts|
      invariant members == Members(artifacts[..i])
      invariant Grouped(Owner(artifacts), members, keys, groups) && InOrder(Owner(artifacts), members, groups)
    {
      MembersGrow(artifacts, i);
      var suffix := SuffixOf(artifacts[i].name);
      if suffix.Some? {
        if suffix.value.index == 0 {
          ZeroIsNotContiguous(artifacts, i);
          return Err("split segment numbering must start at .001");
        }
        var member := Member(suffix.value.index, i);
        keys, groups := Append(Owner(artifacts), BundleKey(artifacts[i].parent, suffix.value.base),
                               member, members, keys, groups);
        members := members + [member];
      }
    }
    assert artifacts[..|artifacts|] == artifacts;
    r := MarkBundles(digest, t, artifacts, keys, groups);
  }

  lemma MembersGrow(artifacts: seq<Artifact>, i: nat)
    requires i < |artifacts|
    ensures var suffix := SuffixOf(artifacts[i].name);
      Members(artifacts[..i + 1])
      == Members(artifacts[..i]) + if suffix == None then [] else [Member(suffix.value.index, i)]
  {
    assert artifacts[..i + 1][..i] == artifacts[..i];
  }

  lemma SiblingsListed(artifacts: seq<Artifact>, keys: seq<BundleKey>, groups: map<BundleKey, seq<Member>>,
                       key: BundleKey)
    requires Grouped(Owner(artifacts), Members(artifacts), keys, groups) && key in keys
    requires InOrder(Owner(artifacts), Members(artifacts), groups)
    ensures key in groups && groups[key] == Siblings(artifacts, key)
  {
    assert ListAt(groups, key) == Siblings(artifacts, key);
  }

  method MarkBundles(digest: Identity -> string, t: Transition, artifacts: seq<Artifact>, keys: seq<BundleKey>,
                     groups: map<BundleKey, seq<Member>>) returns (r: Result<seq<Artifact>>)
    requires Grouped(Owner(artifacts), Members(artifacts), keys, groups)
    requires InOrder(Owner(artifacts), Members(artifacts), groups)
    ensures r.Ok? <==> Contiguous(artifacts)
    ensures r.Ok? ==> r.value == Splits(digest, t, artifacts)
  {
    var updated := artifacts;
    for g := 0 to |keys|
      invariant Marked(digest, t, artifacts, keys[..g], updated)
      invariant forall key <- keys[..g] :: ContiguousKey(artifacts, key)
    {
      SiblingsListed(artifacts, keys, groups, keys[g]);
      var ok;
      ok, updated := MarkNext(digest, t, artifacts, keys[g], groups[keys[g]], keys[..g], updated);
      if !ok {
        OwnedKey(artifacts, keys, groups, keys[g]);
        return Err("split delivery bundle segments are not contiguous");
      }
      PrefixGrows(keys, g);
    }
    assert keys[..|keys|] == keys;
    AllMarked(digest, t, artifacts, keys, groups, updated);
    r := Ok(updated);
  }

  /** The next bundle of the second loop: checked, and then marked. */
  method MarkNext(digest: Identity -> string, t: Transition, artifacts: seq<Artifact>, key: BundleKey,
                  members: seq<Member>,
                  ghost keys: seq<BundleKey>, before: seq<Artifact>) returns (ok: bool, updated: seq<Artifact>)
    requires members == Siblings(artifacts, key) && key !in keys
    requires Marked(digest, t, artifacts, keys, before)
    ensures ok <==> ContiguousKey(artifacts, key)
    ensures ok ==> Marked(digest, t, artifacts, keys + [key], updated)
  {
    updated := before;
    var ordered := Sort(members, MemberOrder());
    SiblingsInOrder(members, ordered);
    ok := Map(ordered, IndexOf()) == Run(|ordered|);
    if ok {
      updated := MarkBundle(digest, t, artifacts, key, ordered, keys, before);
    }
  }

  /** Every key belongs to some numbered file. */
  lemma OwnedKey(artifacts: seq<Artifact>, keys: seq<BundleKey>, groups: map<BundleKey, seq<Member>>, key: BundleKey)
    requires Grouped(Owner(artifacts), Members(artifacts), keys, groups) && key in keys
    ensures Contiguous(artifacts) ==> ContiguousKey(artifacts, key)
  {
    var m := groups[key][0];
    GroupMember(Owner(artifacts), Members(artifacts), keys, groups, key);
    assert m in Members(artifacts) && Owner(artifacts)(m) == key;
  }

  lemma AllMarked(digest: Identity -> string, t: Transition, artifacts: seq<Artifact>, keys: seq<BundleKey>,
                  groups: map<BundleKey, seq<Member>>, updated: seq<Artifact>)
    requires Grouped(Owner(artifacts), Members(artifacts), keys, groups)
    requires Marked(digest, t, artifacts, keys, updated)
    requires forall key <- keys :: ContiguousKey(artifacts, key)
    ensures Contiguous(artifacts) && updated == Splits(digest, t, artifacts)
  {
    forall m | m in Members(artifacts)
      ensures Owner(artifacts)(m) in keys
    {
      GroupMember(Owner(artifacts), Members(artifacts), keys, groups, Owner(artifacts)(m));
    }
    forall i | 0 <= i < |artifacts|
      ensures KeyOf(artifacts[i]).Some? ==> KeyOf(artifacts[i]).value in keys
      ensures updated[i] == Numbered(digest, t, artifacts, i)
    {
      if KeyOf(artifacts[i]).Some? {
        OwnerOf(artifacts, i);
      }
    }
  }

  /** A numbered file is a member, and the member belongs to the key of the file. */
  lemma OwnerOf(artifacts: seq<Artifact>, i: nat)
    requires i < |artifacts| && KeyOf(artifacts[i]).Some?
    ensures exists m :: m in Members(artifacts) && Owner(artifacts)(m) == KeyOf(artifacts[i]).value
  {
    var m := Member(SuffixOf(artifacts[i].name).value.index, i);
    MembersAre(artifacts);
    assert m in Members(artifacts) && Owner(artifacts)(m) == KeyOf(artifacts[i]).value;
  }
}
