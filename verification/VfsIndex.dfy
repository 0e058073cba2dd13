/** The layered VFS index of `vfs.py`: which package or loose file provides each path. */
module VfsIndex {
  import opened Wrappers
  import opened Sorting
  import opened Grouping
  import opened VfsCandidates

  // ---------- Grouping ----------

  /** One for a candidate with this key and precedence. */
  function Matches(r: Reader, key: Key, i: nat): Candidate -> nat {
    (c: Candidate) => if KeyOf(r, c) == key && c.precedence == i then 1 else 0
  }

  function Count(r: Reader, candidates: seq<Candidate>, key: Key, i: nat): nat {
    SumBy(candidates, Matches(r, key, i))
  }

  lemma {:induction false} CountIsOffer(r: Reader, candidates: seq<Candidate>, key: Key, i: nat)
    ensures Count(r, candidates, key, i) > 0 <==> Offers(r, candidates, key, i)
  {
    if candidates != [] {
      var init := candidates[..|candidates| - 1];
      CountIsOffer(r, init, key, i);
      assert candidates == init + [candidates[|candidates| - 1]];
    }
  }

  /** Two candidates share the key and the least precedence offered for it. */
  ghost predicate Ambiguous(r: Reader, candidates: seq<Candidate>, key: Key) {
    exists i: nat :: Count(r, candidates, key, i) > 1 && forall j: nat :: j < i ==> !Offers(r, candidates, key, j)
  }

  function KeyBy(r: Reader): Candidate -> Key {
    (c: Candidate) => KeyOf(r, c)
  }

  lemma Extended(found: seq<Candidate>, cs: seq<Candidate>, i: nat)
    requires i < |cs|
    ensures found + cs[..i + 1] == found + cs[..i] + [cs[i]]
  {
  }

  method AddAll(r: Reader, cs: seq<Candidate>, ghost found: seq<Candidate>, keys: seq<Key>,
                groups: map<Key, seq<Candidate>>)
    returns (keys': seq<Key>, groups': map<Key, seq<Candidate>>)
    requires Grouped(KeyBy(r), found, keys, groups)
    ensures Grouped(KeyBy(r), found + cs, keys', groups')
  {
    keys', groups' := keys, groups;
    ghost var upTo := found;
    for i := 0 to |cs|
      invariant upTo == found + cs[..i]
      invariant Grouped(KeyBy(r), upTo, keys', groups')
    {
      keys', groups' := Append(KeyBy(r), KeyOf(r, cs[i]), cs[i], upTo, keys', groups');
      Extended(found, cs, i);
      upTo := upTo + [cs[i]];
    }
    assert cs[..|cs|] == cs;
  }

  lemma {:induction false} OtherKeysCountNothing(r: Reader, cs: seq<Candidate>, key: Key, i: nat)
    requires forall c <- cs :: KeyOf(r, c) != key
    ensures Count(r, cs, key, i) == 0
  {
    if cs != [] {
      OtherKeysCountNothing(r, cs[..|cs| - 1], key, i);
    }
  }

  lemma {:induction false} CountInGroups(r: Reader, keys: seq<Key>, groups: map<Key, seq<Candidate>>, key: Key, i: nat)
    requires Distinct(keys) && forall k <- keys :: k in groups
    requires forall k <- keys, c <- groups[k] :: KeyOf(r, c) == k
    ensures Count(r, Flatten(Map(keys, Lists(groups))), key, i)
         == if key in keys then Count(r, groups[key], key, i) else 0
  {
    if keys != [] {
      CountInGroups(r, keys[1..], groups, key, i);
      assert keys == [keys[0]] + keys[1..];
      assert Map(keys, Lists(groups))[1..] == Map(keys[1..], Lists(groups));
      SumByConcat(groups[keys[0]], Flatten(Map(keys[1..], Lists(groups))), Matches(r, key, i));
      if keys[0] != key {
        OtherKeysCountNothing(r, groups[keys[0]], key, i);
      }
    }
  }

  /** What a group offers for its key is what was found for it. */
  lemma GroupCounts(r: Reader, found: seq<Candidate>, keys: seq<Key>, groups: map<Key, seq<Candidate>>, key: Key,
                    i: nat)
    requires Grouped(KeyBy(r), found, keys, groups)
    ensures Count(r, found, key, i) == if key in groups then Count(r, groups[key], key, i) else 0
    ensures Offers(r, found, key, i) <==> key in groups && Offers(r, groups[key], key, i)
  {
    SumByPermutation(Flatten(Map(keys, Lists(groups))), found, Matches(r, key, i));
    CountInGroups(r, keys, groups, key, i);
    CountIsOffer(r, found, key, i);
    if key in groups {
      CountIsOffer(r, groups[key], key, i);
    }
  }

  // ---------- Resolution ----------

  function ZipKey(c: Candidate): int {
    if c.zipIndex == None then -1 else c.zipIndex.value
  }

  /** The order in which `_resolve_candidates` lists candidates. */
  predicate Listed(r: Reader, a: Candidate, b: Candidate) {
    a.precedence < b.precedence ||
    (a.precedence == b.precedence && r.pathOrder(a.sourcePath, b.sourcePath) &&
     (r.pathOrder(b.sourcePath, a.sourcePath) ==> ZipKey(a) <= ZipKey(b)))
  }

  function ListOrder(r: Reader): (Candidate, Candidate) -> bool {
    (a: Candidate, b: Candidate) => Listed(r, a, b)
  }

  lemma ListOrderIsTotal(r: Reader)
    requires Total(r.pathOrder)
    ensures Total(ListOrder(r))
  {
  }

  function WithPrecedence(candidates: seq<Candidate>, i: nat): seq<Candidate> {
    if candidates == [] then []
    else
      var init, last := candidates[..|candidates| - 1], candidates[|candidates| - 1];
      WithPrecedence(init, i) + if last.precedence == i then [last] else []
  }

  lemma {:induction false} WinnersAreCounted(r: Reader, candidates: seq<Candidate>, key: Key, i: nat)
    requires forall c <- candidates :: KeyOf(r, c) == key
    ensures |WithPrecedence(candidates, i)| == Count(r, candidates, key, i)
  {
    if candidates != [] {
      var init := candidates[..|candidates| - 1];
      WinnersAreCounted(r, init, key, i);
      assert candidates == init + [candidates[|candidates| - 1]];
    }
  }

  /** Its path comes first: no candidate of the group precedes it, and none ties with it. */
  ghost predicate Wins(candidates: seq<Candidate>, winner: Candidate) {
    && winner in candidates
    && forall c <- candidates :: c == winner || c.precedence > winner.precedence
  }

  ghost predicate SoundOrders(r: Reader) {
    Total(r.keyOrder) && Total(r.pathOrder)
  }

  /** The first candidate listed has the least precedence of all. */
  lemma FirstIsLeast(r: Reader, key: Key, values: seq<Candidate>, ordered: seq<Candidate>)
    requires SoundOrders(r) && values != [] && forall c <- values :: KeyOf(r, c) == key
    requires ordered == Sort(values, ListOrder(r))
    ensures ordered != [] && forall c <- values :: ordered[0].precedence <= c.precedence
    ensures forall c <- ordered :: KeyOf(r, c) == key
    ensures forall c :: c in ordered <==> c in values
  {
    ListOrderIsTotal(r);
    SortAscends(values, ListOrder(r));
    SameMembers(ordered, values);
    forall c | c in values
      ensures ordered[0].precedence <= c.precedence
    {
      HeadIsLeast(ordered, c, ListOrder(r));
    }
  }

  lemma UniqueLeast(r: Reader, key: Key, values: seq<Candidate>, best: nat)
    requires forall c <- values :: KeyOf(r, c) == key && best <= c.precedence
    ensures Count(r, values, key, best) == 1 ==> !Ambiguous(r, values, key)
    ensures Count(r, values, key, best) > 1 ==> Ambiguous(r, values, key)
  {
    forall i: nat {
      CountIsOffer(r, values, key, i);
    }
  }

  lemma WinnerCount(r: Reader, key: Key, values: seq<Candidate>, ordered: seq<Candidate>, best: nat)
    requires forall c <- ordered :: KeyOf(r, c) == key
    requires multiset(ordered) == multiset(values)
    ensures |WithPrecedence(ordered, best)| == Count(r, values, key, best)
  {
    WinnersAreCounted(r, ordered, key, best);
    SumByPermutation(ordered, values, Matches(r, key, best));
  }

  lemma SoleWinner(values: seq<Candidate>, ordered: seq<Candidate>, best: nat)
    requires forall c :: c in ordered <==> c in values
    requires forall c <- values :: best <= c.precedence
    requires |WithPrecedence(ordered, best)| == 1
    ensures Wins(values, WithPrecedence(ordered, best)[0])
  {
    WinnersAreListed(ordered, best);
    var winner := WithPrecedence(ordered, best)[0];
    assert WithPrecedence(ordered, best) == [winner];
    forall c | c in values
      ensures c == winner || c.precedence > winner.precedence
    {
      assert c.precedence == best ==> c in [winner];
    }
  }

  lemma AnyWinner(ordered: seq<Candidate>)
    requires ordered != []
    ensures |WithPrecedence(ordered, ordered[0].precedence)| > 0
  {
    WinnersAreListed(ordered, ordered[0].precedence);
    assert ordered[0] in WithPrecedence(ordered, ordered[0].precedence);
  }

  /** A single winner among the listed candidates decides the path; several leave it ambiguous. */
  lemma WinnersDecide(r: Reader, key: Key, values: seq<Candidate>, ordered: seq<Candidate>)
    requires SoundOrders(r) && values != [] && forall c <- values :: KeyOf(r, c) == key
    requires ordered == Sort(values, ListOrder(r))
    ensures ordered != []
    ensures var winners := WithPrecedence(ordered, ordered[0].precedence);
      if |winners| == 1 then Wins(values, winners[0]) && !Ambiguous(r, values, key) else Ambiguous(r, values, key)
  {
    FirstIsLeast(r, key, values, ordered);
    var best := ordered[0].precedence;
    AnyWinner(ordered);
    WinnerCount(r, key, values, ordered, best);
    UniqueLeast(r, key, values, best);
    if |WithPrecedence(ordered, best)| == 1 {
      SoleWinner(values, ordered, best);
    }
  }

  lemma {:induction false} WinnersAreListed(candidates: seq<Candidate>, i: nat)
    ensures forall c <- candidates :: c.precedence == i ==> c in WithPrecedence(candidates, i)
    ensures forall c <- WithPrecedence(candidates, i) :: c in candidates && c.precedence == i
  {
    if candidates != [] {
      WinnersAreListed(candidates[..|candidates| - 1], i);
    }
  }

  /** `_resolve_candidates`. */
  method Resolve(r: Reader, key: Key, values: seq<Candidate>) returns (e: Result<IndexedEntry>)
    requires SoundOrders(r) && values != [] && forall c <- values :: KeyOf(r, c) == key
    ensures e.Ok? ==> e.value.key == key && multiset(e.value.candidates) == multiset(values)
                      && Ascending(e.value.candidates, ListOrder(r))
                      && Wins(values, e.value.winner) && !Ambiguous(r, values, key)
    ensures e.Err? ==> Ambiguous(r, values, key)
  {
    var ordered := Sort(values, ListOrder(r));
    WinnersDecide(r, key, values, ordered);
    ListOrderIsTotal(r);
    SortAscends(values, ListOrder(r));
    var winners := WithPrecedence(ordered, ordered[0].precedence);
    if |winners| != 1 {
      return Err("VFS path has ambiguous candidates");
    }
    e := Ok(IndexedEntry(key, ordered, winners[0]));
  }

  // ---------- The index ----------

  /** The candidates of the packages, and those of the loose files, in the order of the tree. */
  function PassCandidates(r: Reader, files: seq<TreeFile>, order: seq<string>, packages: bool): Option<seq<Candidate>> {
    if files == [] then Some([])
    else
      var last := files[|files| - 1];
      var init := PassCandidates(r, files[..|files| - 1], order, packages);
      var own := if r.isPackage(last.path) == packages then FileCandidates(r, order, last) else Some([]);
      if init == None || own == None then None else Some(init.value + own.value)
  }

  lemma {:induction false} ContributionsConcat(r: Reader, a: seq<TreeFile>, b: seq<TreeFile>, order: seq<string>)
    ensures var x, y := Contributions(r, a, order), Contributions(r, b, order);
      Contributions(r, a + b, order) == if x == None || y == None then None else Some(x.value + y.value)
  {
    if a == [] {
      assert a + b == b;
      if Contributions(r, b, order).Some? {
        assert [] + Contributions(r, b, order).value == Contributions(r, b, order).value;
      }
    } else {
      assert (a + b)[1..] == a[1..] + b;
      ContributionsConcat(r, a[1..], b, order);
      var first, x, y := FileCandidates(r, order, a[0]), Contributions(r, a[1..], order), Contributions(r, b, order);
      if first.Some? && x.Some? && y.Some? {
        assert first.value + (x.value + y.value) == first.value + x.value + y.value;
      }
    }
  }

  /** Two passes over the tree find what one pass would. */
  lemma {:induction false} PassesFindAll(r: Reader, files: seq<TreeFile>, order: seq<string>)
    ensures var all, packages, loose := Contributions(r, files, order), PassCandidates(r, files, order, true),
                                        PassCandidates(r, files, order, false);
      && (all.Some? <==> packages.Some? && loose.Some?)
      && (all.Some? ==> multiset(packages.value + loose.value) == multiset(all.value))
  {
    if files != [] {
      var init, last := files[..|files| - 1], files[|files| - 1];
      PassesFindAll(r, init, order);
      LastContributes(r, files, order);
      if Contributions(r, files, order).Some? {
        Interleave(PassCandidates(r, init, order, true).value, PassCandidates(r, init, order, false).value,
                   FileCandidates(r, order, last).value);
      }
    }
  }

  lemma Interleave(packages: seq<Candidate>, loose: seq<Candidate>, own: seq<Candidate>)
    ensures multiset(packages + own + loose) == multiset(packages + loose) + multiset(own)
    ensures multiset(packages + (loose + own)) == multiset(packages + loose) + multiset(own)
    ensures packages + [] == packages && loose + [] == loose
  {
  }

  lemma LastContributes(r: Reader, files: seq<TreeFile>, order: seq<string>)
    requires files != []
    ensures var init := Contributions(r, files[..|files| - 1], order);
      var own := FileCandidates(r, order, files[|files| - 1]);
      Contributions(r, files, order) == if init == None || own == None then None else Some(init.value + own.value)
  {
    var init, last := files[..|files| - 1], files[|files| - 1];
    assert files == init + [last];
    ContributionsConcat(r, init, [last], order);
    assert [last][1..] == [];
    var own := FileCandidates(r, order, last);
    if own.Some? {
      assert own.value + [] == own.value;
    }
  }

  function EntryKeys(): IndexedEntry -> Key {
    (e: IndexedEntry) => e.key
  }

  function EntryCandidates(): IndexedEntry -> seq<Candidate> {
    (e: IndexedEntry) => e.candidates
  }

  ghost predicate ResolvedEntry(r: Reader, entry: IndexedEntry, key: Key, groups: map<Key, seq<Candidate>>) {
    && key in groups
    && multiset(entry.candidates) == multiset(groups[key])
    && Ascending(entry.candidates, ListOrder(r))
    && Wins(groups[key], entry.winner)
    && !Ambiguous(r, groups[key], key)
  }

  /** Each key found has its entry, resolved without ambiguity from what was found for it. */
  ghost predicate Resolved(r: Reader, entries: seq<IndexedEntry>, keys: seq<Key>, groups: map<Key, seq<Candidate>>) {
    && Map(entries, EntryKeys()) == keys
    && forall i :: 0 <= i < |entries| ==> ResolvedEntry(r, entries[i], keys[i], groups)
  }

  /** The loops of `index` over the tree, `packages` telling which of the two. */
  method Discover(r: Reader, files: seq<TreeFile>, order: seq<string>, packages: bool,
                  ghost found: seq<Candidate>, keys: seq<Key>, groups: map<Key, seq<Candidate>>)
    returns (ok: bool, keys': seq<Key>, groups': map<Key, seq<Candidate>>)
    requires Grouped(KeyBy(r), found, keys, groups)
    ensures ok <==> PassCandidates(r, files, order, packages).Some?
    ensures ok ==> Grouped(KeyBy(r), found + PassCandidates(r, files, order, packages).value, keys', groups')
  {
    keys', groups' := keys, groups;
    ok := true;
    ghost var upTo, held := [], found;
    Associate(found, upTo, []);
    for i := 0 to |files|
      invariant ok && PassCandidates(r, files[..i], order, packages) == Some(upTo)
      invariant held == found + upTo
      invariant Grouped(KeyBy(r), held, keys', groups')
    {
      PassGrows(r, files, order, packages, i);
      if r.isPackage(files[i].path) == packages {
        var own := FileCandidates(r, order, files[i]);
        if own == None {
          PassFails(r, files, order, packages, i);
          return false, keys', groups';
        }
        keys', groups' := AddAll(r, own.value, held, keys', groups');
        Associate(found, upTo, own.value);
        upTo, held := upTo + own.value, held + own.value;
      }
    }
    assert files[..|files|] == files;
  }

  lemma PassGrows(r: Reader, files: seq<TreeFile>, order: seq<string>, packages: bool, i: nat)
    requires i < |files| && PassCandidates(r, files[..i], order, packages).Some?
    ensures var upTo, own := PassCandidates(r, files[..i], order, packages).value, FileCandidates(r, order, files[i]);
      PassCandidates(r, files[..i + 1], order, packages)
      == if r.isPackage(files[i].path) != packages then Some(upTo)
         else if own == None then None else Some(upTo + own.value)
  {
    assert files[..i + 1][..i] == files[..i];
    var upTo := PassCandidates(r, files[..i], order, packages).value;
    assert upTo + [] == upTo;
  }

  lemma {:induction false} PassFails(r: Reader, files: seq<TreeFile>, order: seq<string>, packages: bool, i: nat)
    requires i < |files| && r.isPackage(files[i].path) == packages && FileCandidates(r, order, files[i]) == None
    ensures PassCandidates(r, files, order, packages) == None
    decreases |files|
  {
    if i < |files| - 1 {
      PassFails(r, files[..|files| - 1], order, packages, i);
    }
  }

  method ResolveAll(r: Reader, keys: seq<Key>,
                    groups: map<Key, seq<Candidate>>) returns (res: Result<seq<IndexedEntry>>)
    requires SoundOrders(r) && ProperKeys(KeyBy(r), keys, groups)
    ensures res.Ok? ==> Resolved(r, res.value, keys, groups)
    ensures res.Err? ==> exists key :: key in groups && Ambiguous(r, groups[key], key)
  {
    var entries: seq<IndexedEntry> := [];
    for i := 0 to |keys|
      invariant Resolved(r, entries, keys[..i], groups)
    {
      assert keys[i] in keys;
      var entry :- Resolve(r, keys[i], groups[keys[i]]);
      entries := entries + [entry];
      assert Map(entries, EntryKeys()) == keys[..i + 1];
    }
    assert keys[..|keys|] == keys;
    res := Ok(entries);
  }

  /** What an index says, in terms of mount lookup over the tree. */
  ghost predicate Indexes(r: Reader, files: seq<TreeFile>, order: seq<string>, entries: seq<IndexedEntry>) {
    && Contributions(r, files, order).Some?
    && Distinct(Map(entries, EntryKeys()))
    && multiset(Flatten(Map(entries, EntryCandidates()))) == multiset(Contributions(r, files, order).value)
    && (forall e <- entries :: Lookup(r, files, order, e.key, 0) == Some(e.winner) && e.winner in e.candidates
                               && Ascending(e.candidates, ListOrder(r))
                               && forall c <- e.candidates :: KeyOf(r, c) == e.key)
    && forall key :: Lookup(r, files, order, key, 0).Some? ==> key in Map(entries, EntryKeys())
  }

  /** What an index says, in terms of the tree alone. */
  ghost predicate Mounts(r: Reader, files: seq<TreeFile>, order: seq<string>, entries: seq<IndexedEntry>) {
    && (forall e <- entries :: FirstListed(r, files, order, e.key, e.winner))
    && forall f, key :: f in files && (PackageHas(r, f, key) || LooseHas(r, f, key)) ==>
         key in Map(entries, EntryKeys())
  }

  lemma IndexMounts(r: Reader, files: seq<TreeFile>, order: seq<string>, entries: seq<IndexedEntry>)
    requires Indexes(r, files, order, entries) && NoRepeats(order)
    ensures Mounts(r, files, order, entries)
  {
    forall e | e in entries
      ensures FirstListed(r, files, order, e.key, e.winner)
    {
      LookupIsFirstListed(r, files, order, e.key);
    }
    forall f, key | f in files && (PackageHas(r, f, key) || LooseHas(r, f, key))
      ensures key in Map(entries, EntryKeys())
    {
      LookupIsFirstListed(r, files, order, key);
    }
  }

  /**
   `index`: the winner of every layer and path is what a search through the packages in the order of
   paths.xml, and then the loose files, finds first: it comes from the first listed package of the layer
   that has an entry for the path, or is a loose file when no listed package has one. Every candidate
   lies in exactly one entry. It fails exactly when a file cannot be indexed or some path is ambiguous.
   */
  method Index(r: Reader, files: seq<TreeFile>, order: seq<string>) returns (res: Result<seq<IndexedEntry>>)
    requires SoundOrders(r)
    ensures res.Ok? ==> Indexes(r, files, order, res.value) && forall f <- files :: Indexable(r, order, f)
    ensures res.Ok? && NoRepeats(order) ==> Mounts(r, files, order, res.value)
    ensures res.Ok? ==> Ascending(Map(res.value, EntryKeys()), r.keyOrder)
    ensures res.Ok? ==> forall key :: !Ambiguous(r, Contributions(r, files, order).value, key)
    ensures res.Err? ==> if Contributions(r, files, order) == None then exists f <- files :: !Indexable(r, order, f)
                         else exists key :: Ambiguous(r, Contributions(r, files, order).value, key)
  {
    PassesFindAll(r, files, order);
    TreeIsIndexable(r, files, order);
    NothingGrouped<Key, Candidate>(KeyBy(r), [], [], map[]);
    var ok, keys, groups := Discover(r, files, order, true, [], [], map[]);
    if !ok {
      return Err("Game Package is not ordered by paths.xml or cannot be indexed");
    }
    ghost var packages := PassCandidates(r, files, order, true).value;
    assert [] + packages == packages;
    ok, keys, groups := Discover(r, files, order, false, packages, keys, groups);
    if !ok {
      return Err("loose file has an unsafe path");
    }
    ghost var found := packages + PassCandidates(r, files, order, false).value;
    ghost var all := Contributions(r, files, order).value;
    assert Grouped(KeyBy(r), all, keys, groups);
    var sorted := Sort(keys, r.keyOrder);
    SortAscends(keys, r.keyOrder);
    KeysPermute(KeyBy(r), all, keys, sorted, groups);
    var entries := ResolveAll(r, sorted, groups);
    if entries.Err? {
      ghost var key :| key in groups && Ambiguous(r, groups[key], key);
      AmbiguousOverall(r, all, sorted, groups, key);
      return Err(entries.reason);
    }
    ResolvedIndexes(r, files, order, entries.value, sorted, groups);
    NowhereAmbiguous(r, all, entries.value, sorted, groups);
    if NoRepeats(order) {
      IndexMounts(r, files, order, entries.value);
    }
    res := entries;
  }

  lemma AmbiguousOverall(r: Reader, found: seq<Candidate>, keys: seq<Key>, groups: map<Key, seq<Candidate>>, key: Key)
    requires Grouped(KeyBy(r), found, keys, groups)
    ensures Ambiguous(r, found, key) <==> key in groups && Ambiguous(r, groups[key], key)
  {
    forall i: nat {
      GroupCounts(r, found, keys, groups, key, i);
    }
  }

  /** The winner of a group is what the lookup of its key finds. */
  lemma WinnerIsFound(r: Reader, files: seq<TreeFile>, order: seq<string>, keys: seq<Key>,
                      groups: map<Key, seq<Candidate>>, key: Key, winner: Candidate)
    requires Contributions(r, files, order).Some?
    requires Grouped(KeyBy(r), Contributions(r, files, order).value, keys, groups)
    requires key in groups && Wins(groups[key], winner)
    ensures Lookup(r, files, order, key, 0) == Some(winner)
  {
    var all, hit := Contributions(r, files, order).value, Lookup(r, files, order, key, 0);
    LookupIsLeast(r, files, order, key, 0);
    PrecedenceBound(r, files, order);
    assert Offers(r, groups[key], key, winner.precedence);
    GroupCounts(r, all, keys, groups, key, winner.precedence);
    GroupMember(KeyBy(r), all, keys, groups, key);
  }

  lemma EntryGroups(r: Reader, entries: seq<IndexedEntry>, keys: seq<Key>, groups: map<Key, seq<Candidate>>)
    requires Resolved(r, entries, keys, groups)
    ensures multiset(Flatten(Map(entries, EntryCandidates()))) == multiset(Flatten(Map(keys, Lists(groups))))
  {
    var lists, listed := Map(keys, Lists(groups)), Map(entries, EntryCandidates());
    forall i | 0 <= i < |entries|
      ensures multiset(listed[i]) == multiset(lists[i])
    {
      assert ResolvedEntry(r, entries[i], keys[i], groups);
    }
    FlattenPointwise(listed, lists);
  }

  lemma EntryIsFound(r: Reader, files: seq<TreeFile>, order: seq<string>, entry: IndexedEntry, key: Key,
                     keys: seq<Key>, groups: map<Key, seq<Candidate>>)
    requires Contributions(r, files, order).Some?
    requires Grouped(KeyBy(r), Contributions(r, files, order).value, keys, groups)
    requires ResolvedEntry(r, entry, key, groups) && entry.key == key
    ensures Lookup(r, files, order, key, 0) == Some(entry.winner)
    ensures Ascending(entry.candidates, ListOrder(r))
    ensures entry.winner in entry.candidates && forall c <- entry.candidates :: KeyOf(r, c) == key
  {
    WinnerIsFound(r, files, order, keys, groups, key, entry.winner);
    SameMembers(entry.candidates, groups[key]);
  }

  lemma FoundHasKey(r: Reader, files: seq<TreeFile>, order: seq<string>, keys: seq<Key>,
                    groups: map<Key, seq<Candidate>>, key: Key)
    requires Contributions(r, files, order).Some?
    requires Grouped(KeyBy(r), Contributions(r, files, order).value, keys, groups)
    ensures Lookup(r, files, order, key, 0).Some? ==> key in keys
  {
    LookupIsLeast(r, files, order, key, 0);
    GroupMember(KeyBy(r), Contributions(r, files, order).value, keys, groups, key);
  }

  lemma ResolvedIndexes(r: Reader, files: seq<TreeFile>, order: seq<string>, entries: seq<IndexedEntry>,
                        keys: seq<Key>, groups: map<Key, seq<Candidate>>)
    requires Contributions(r, files, order).Some?
    requires Grouped(KeyBy(r), Contributions(r, files, order).value, keys, groups)
    requires Resolved(r, entries, keys, groups)
    ensures Indexes(r, files, order, entries)
  {
    EntryGroups(r, entries, keys, groups);
    forall e | e in entries
      ensures Lookup(r, files, order, e.key, 0) == Some(e.winner) && e.winner in e.candidates
      ensures Ascending(e.candidates, ListOrder(r))
      ensures forall c <- e.candidates :: KeyOf(r, c) == e.key
    {
      var i :| 0 <= i < |entries| && entries[i] == e;
      assert Map(entries, EntryKeys())[i] == keys[i];
      EntryIsFound(r, files, order, e, keys[i], keys, groups);
    }
    forall key
      ensures Lookup(r, files, order, key, 0).Some? ==> key in keys
    {
      FoundHasKey(r, files, order, keys, groups, key);
    }
  }

  lemma NowhereAmbiguous(r: Reader, found: seq<Candidate>, entries: seq<IndexedEntry>, keys: seq<Key>,
                         groups: map<Key, seq<Candidate>>)
    requires Grouped(KeyBy(r), found, keys, groups) && Resolved(r, entries, keys, groups)
    ensures forall key :: !Ambiguous(r, found, key)
  {
    forall key
      ensures !Ambiguous(r, found, key)
    {
      AmbiguousOverall(r, found, keys, groups, key);
      if key in groups {
        var i :| 0 <= i < |keys| && keys[i] == key;
        assert |entries| == |keys| && ResolvedEntry(r, entries[i], keys[i], groups);
      }
    }
  }
}
