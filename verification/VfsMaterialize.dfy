/** Materialisation of a VFS index in `vfs.py`: every winner once, however packages are grouped and scheduled. */
module VfsMaterialize {
  import opened Wrappers
  import opened Sorting
  import opened Grouping
  import opened VfsCandidates
  import opened VfsIndex

  datatype MaterializedFile = MaterializedFile(path: string, language: Option<string>, size: nat, sha256: string,
                                               source: Candidate)

  /** An archive entry as it unpacks; `sound` when its length and checksum are the recorded ones. */
  datatype Unpacked = Unpacked(path: string, size: nat, sha256: string, sound: bool)

  /** The stored packages by digest, and the order of text. */
  datatype Store = Store(archives: string -> Option<seq<Unpacked>>, textOrder: (string, string) -> bool)

  datatype PackageKey = PackageKey(language: Option<string>, sourcePath: string, sha256: string)

  datatype Package = Package(key: PackageKey, values: seq<Candidate>)

  ghost predicate SoundOrder(u: Store) {
    Total(u.textOrder) && forall x, y :: u.textOrder(x, y) && u.textOrder(y, x) ==> x == y
  }

  /** What the package of a candidate holds for it, unless the package changed or the entry is damaged. */
  function Unpack(u: Store, c: Candidate): Option<string> {
    var infos := u.archives(c.sourceSha256);
    if infos == None || c.zipIndex == None || c.zipIndex.value >= |infos.value| then None
    else
      var info := infos.value[c.zipIndex.value];
      if info.path != c.path || info.size != c.size || !info.sound then None else Some(info.sha256)
  }

  /** The stored package of a candidate has an undamaged entry for it, of that content. */
  ghost predicate IsEntryOf(u: Store, c: Candidate, sha256: string) {
    var infos := u.archives(c.sourceSha256);
    && infos.Some? && c.zipIndex.Some? && c.zipIndex.value < |infos.value|
    && infos.value[c.zipIndex.value] == Unpacked(c.path, c.size, sha256, true)
  }

  lemma UnpackExactly(u: Store, c: Candidate, sha256: string)
    ensures Unpack(u, c) == Some(sha256) <==> IsEntryOf(u, c, sha256)
  {
  }

  ghost predicate Available(u: Store, c: Candidate) {
    c.loose || exists sha256 :: IsEntryOf(u, c, sha256)
  }

  lemma AvailableExactly(u: Store, c: Candidate)
    ensures Available(u, c) <==> c.loose || Unpack(u, c).Some?
  {
    if Unpack(u, c).Some? {
      UnpackExactly(u, c, Unpack(u, c).value);
    }
    if sha256 :| IsEntryOf(u, c, sha256) {
      UnpackExactly(u, c, sha256);
    }
  }

  /** The file that its source stands for: its place and size, and the content of the loose file or of the entry. */
  ghost predicate StandsFor(u: Store, f: MaterializedFile) {
    && f.path == f.source.path && f.language == f.source.language && f.size == f.source.size
    && if f.source.loose then f.sha256 == f.source.sourceSha256 else IsEntryOf(u, f.source, f.sha256)
  }

  lemma FileStandsFor(u: Store, c: Candidate)
    requires Available(u, c)
    ensures StandsFor(u, FileOf(u, c))
  {
    AvailableExactly(u, c);
    if !c.loose {
      UnpackExactly(u, c, Unpack(u, c).value);
    }
  }

  function FileOf(u: Store, c: Candidate): MaterializedFile {
    var sha256 := if c.loose then c.sourceSha256 else if Unpack(u, c).Some? then Unpack(u, c).value else "";
    MaterializedFile(c.path, c.language, c.size, sha256, c)
  }

  function Make(u: Store): Candidate -> MaterializedFile {
    (c: Candidate) => FileOf(u, c)
  }

  function WinnerOf(): IndexedEntry -> Candidate {
    (e: IndexedEntry) => e.winner
  }

  function Winners(entries: seq<IndexedEntry>): seq<Candidate> {
    Map(entries, WinnerOf())
  }

  function PackageOf(): Candidate -> PackageKey {
    (c: Candidate) => PackageKey(c.language, c.sourcePath, c.sourceSha256)
  }

  predicate Precedes(u: Store, a: Option<string>, p: string, b: Option<string>, q: string) {
    if a == b then u.textOrder(p, q)
    else a == None || (b.Some? && u.textOrder(a.value, b.value))
  }

  /** The order of the files of a materialisation: the base layer first, then by language, then by path. */
  function FileOrder(u: Store): (MaterializedFile, MaterializedFile) -> bool {
    (a: MaterializedFile, b: MaterializedFile) => Precedes(u, a.language, a.path, b.language, b.path)
  }

  function KeyOrder(u: Store): (PackageKey, PackageKey) -> bool {
    (a: PackageKey, b: PackageKey) => Precedes(u, a.language, a.sourcePath, b.language, b.sourcePath)
  }

  function ZipOrder(): (Candidate, Candidate) -> bool {
    (a: Candidate, b: Candidate) => ZipKey(a) <= ZipKey(b)
  }

  function SizeOf(): Candidate -> nat {
    (c: Candidate) => c.size
  }

  function HeaviestFirst(): (Package, Package) -> bool {
    (a: Package, b: Package) => SumBy(a.values, SizeOf()) >= SumBy(b.values, SizeOf())
  }

  function PackageAt(groups: map<PackageKey, seq<Candidate>>): PackageKey -> Package {
    (key: PackageKey) => Package(key, Sort(ListAt(groups, key), ZipOrder()))
  }

  function ValuesOf(): Package -> seq<Candidate> {
    (p: Package) => p.values
  }

  lemma PrecedesChains(u: Store, a: Option<string>, p: string, b: Option<string>, q: string,
                       c: Option<string>, r: string)
    requires SoundOrder(u) && Precedes(u, a, p, b, q) && Precedes(u, b, q, c, r)
    ensures Precedes(u, a, p, c, r)
  {
    if a == b == c {
      assert u.textOrder(p, q) && u.textOrder(q, r);
    } else if a.Some? && a != b && b != c {
      assert u.textOrder(a.value, b.value) && u.textOrder(b.value, c.value);
      assert a != c && u.textOrder(a.value, c.value);
    }
  }

  lemma OneIsNotAfter(u: Store, a: Option<string>, p: string, b: Option<string>, q: string)
    requires SoundOrder(u)
    ensures Precedes(u, a, p, b, q) || Precedes(u, b, q, a, p)
  {
    if a == b {
      assert u.textOrder(p, q) || u.textOrder(q, p);
    } else if a.Some? && b.Some? {
      assert u.textOrder(a.value, b.value) || u.textOrder(b.value, a.value);
    }
  }

  lemma FileOrderIsTotal(u: Store)
    requires SoundOrder(u)
    ensures Total(FileOrder(u))
  {
    var le := FileOrder(u);
    forall x, y
      ensures le(x, y) || le(y, x)
    {
      OneIsNotAfter(u, x.language, x.path, y.language, y.path);
    }
    forall x, y, z | le(x, y) && le(y, z)
      ensures le(x, z)
    {
      PrecedesChains(u, x.language, x.path, y.language, y.path, z.language, z.path);
    }
  }

  lemma OneMoreWinner(entries: seq<IndexedEntry>, i: nat, loose: seq<Candidate>, packed: seq<Candidate>)
    requires i < |entries| && multiset(loose + packed) == multiset(Winners(entries[..i]))
    ensures var winner, now := entries[i].winner, multiset(Winners(entries[..i + 1]));
      multiset(loose + [winner] + packed) == now && multiset(loose + (packed + [winner])) == now
  {
    assert Winners(entries[..i + 1]) == Winners(entries[..i]) + [entries[i].winner];
    assert loose + (packed + [entries[i].winner]) == loose + packed + [entries[i].winner];
  }

  /** The winners in loose files, and those in packages gathered by package. */
  method Separate(entries: seq<IndexedEntry>)
    returns (loose: seq<Candidate>, keys: seq<PackageKey>, groups: map<PackageKey, seq<Candidate>>,
             ghost packed: seq<Candidate>)
    ensures Grouped(PackageOf(), packed, keys, groups)
    ensures multiset(loose + packed) == multiset(Winners(entries))
    ensures (forall c <- loose :: c.loose) && forall c <- packed :: !c.loose
  {
    loose, keys, groups, packed := [], [], map[], [];
    NothingGrouped<PackageKey, Candidate>(PackageOf(), packed, keys, groups);
    for i := 0 to |entries|
      invariant Grouped(PackageOf(), packed, keys, groups)
      invariant multiset(loose + packed) == multiset(Winners(entries[..i]))
      invariant (forall c <- loose :: c.loose) && forall c <- packed :: !c.loose
    {
      var winner := entries[i].winner;
      OneMoreWinner(entries, i, loose, packed);
      if winner.loose {
        loose := loose + [winner];
      } else {
        keys, groups := Append(PackageOf(), PackageKey(winner.language, winner.sourcePath, winner.sourceSha256),
                               winner, packed, keys, groups);
        packed := packed + [winner];
      }
    }
    assert entries[..|entries|] == entries;
  }

  /** The packages in the order in which their results are collected. */
  method Schedule(u: Store, keys: seq<PackageKey>, groups: map<PackageKey, seq<Candidate>>, workers: nat,
                  ghost packed: seq<Candidate>) returns (packages: seq<Package>)
    requires Grouped(PackageOf(), packed, keys, groups)
    ensures multiset(Flatten(Map(packages, ValuesOf()))) == multiset(packed)
  {
    var sorted := Sort(keys, KeyOrder(u));
    KeysPermute(PackageOf(), packed, keys, sorted, groups);
    packages := Map(sorted, PackageAt(groups));
    SortedLists(sorted, groups);
    if workers != 1 {
      var heaviestFirst := Sort(packages, HeaviestFirst());
      MapPermutation(heaviestFirst, packages, ValuesOf());
      FlattenPermutation(Map(heaviestFirst, ValuesOf()), Map(packages, ValuesOf()));
      packages := heaviestFirst;
    }
  }

  lemma SortedLists(keys: seq<PackageKey>, groups: map<PackageKey, seq<Candidate>>)
    ensures multiset(Flatten(Map(Map(keys, PackageAt(groups)), ValuesOf())))
         == multiset(Flatten(Map(keys, Lists(groups))))
  {
    FlattenPointwise(Map(Map(keys, PackageAt(groups)), ValuesOf()), Map(keys, Lists(groups)));
  }

  /** `_materialize_package`. */
  method MaterializePackage(u: Store, values: seq<Candidate>) returns (r: Result<seq<MaterializedFile>>)
    ensures r.Ok? <==> forall c <- values :: Unpack(u, c).Some? && !c.loose
    ensures r.Ok? ==> r.value == Map(values, Make(u))
  {
    var files: seq<MaterializedFile> := [];
    for i := 0 to |values|
      invariant files == Map(values[..i], Make(u))
      invariant forall j :: 0 <= j < i ==> Unpack(u, values[j]).Some? && !values[j].loose
    {
      var c := values[i];
      var sha256 := Unpack(u, c);
      if sha256 == None || c.loose {
        assert c in values;
        return Err("Game Package central directory changed, or an entry failed verification");
      }
      files := files + [MaterializedFile(c.path, c.language, c.size, sha256.value, c)];
    }
    assert values[..|values|] == values;
    r := Ok(files);
  }

  method MaterializePackages(u: Store, packages: seq<Package>) returns (r: Result<seq<MaterializedFile>>)
    ensures var all := Flatten(Map(packages, ValuesOf()));
      && (r.Ok? <==> forall c <- all :: Unpack(u, c).Some? && !c.loose)
      && (r.Ok? ==> r.value == Map(all, Make(u)))
  {
    var files: seq<MaterializedFile> := [];
    ghost var done: seq<Candidate> := [];
    for i := 0 to |packages|
      invariant done == Flatten(Map(packages[..i], ValuesOf()))
      invariant files == Map(done, Make(u))
      invariant forall c <- done :: Unpack(u, c).Some? && !c.loose
    {
      OneMore(packages, i);
      var made := MaterializePackage(u, packages[i].values);
      if made.Err? {
        return made;
      }
      files, done := files + made.value, done + packages[i].values;
    }
    assert packages[..|packages|] == packages;
    r := Ok(files);
  }

  lemma OneMore(packages: seq<Package>, i: nat)
    requires i < |packages|
    ensures Flatten(Map(packages[..i + 1], ValuesOf())) == Flatten(Map(packages[..i], ValuesOf())) + packages[i].values
    ensures forall c <- packages[i].values :: c in Flatten(Map(packages, ValuesOf()))
  {
    var lists := Map(packages, ValuesOf());
    assert Map(packages[..i + 1], ValuesOf()) == Map(packages[..i], ValuesOf()) + [lists[i]];
    FlattenConcat(Map(packages[..i], ValuesOf()), [lists[i]]);
    assert [lists[i]][1..] == [] && Flatten([lists[i]]) == lists[i] + Flatten([]);
    FlattenSplit(lists, i);
  }

  predicate LanguagesSelected(entries: seq<IndexedEntry>, languages: set<string>) {
    forall e <- entries :: e.winner.language.Some? ==> e.winner.language.value in languages
  }

  /** The files of a complete materialisation of these entries, in the order of the result. */
  ghost predicate Materializes(u: Store, entries: seq<IndexedEntry>, files: seq<MaterializedFile>) {
    && (forall c <- Winners(entries) :: Available(u, c))
    && multiset(files) == multiset(Map(Winners(entries), Make(u)))
    && Ascending(files, FileOrder(u))
  }

  lemma AvailableWhenUnpacked(u: Store, entries: seq<IndexedEntry>, loose: seq<Candidate>, scheduled: seq<Candidate>,
                              packed: seq<Candidate>)
    requires multiset(scheduled) == multiset(packed) && multiset(loose + packed) == multiset(Winners(entries))
    requires (forall c <- loose :: c.loose) && forall c <- packed :: !c.loose
    ensures multiset(loose + scheduled) == multiset(Winners(entries))
    ensures (forall c <- Winners(entries) :: Available(u, c))
       <==> forall c <- scheduled :: Unpack(u, c).Some? && !c.loose
  {
    SameMembers(scheduled, packed);
    SameMembers(loose + scheduled, Winners(entries));
    assert forall c <- scheduled :: c in loose + scheduled;
    forall c | c in loose + scheduled
      ensures Available(u, c) <==> c.loose || Unpack(u, c).Some?
    {
      AvailableExactly(u, c);
    }
  }

  lemma Collected(u: Store, entries: seq<IndexedEntry>, loose: seq<Candidate>, scheduled: seq<Candidate>)
    requires SoundOrder(u) && multiset(loose + scheduled) == multiset(Winners(entries))
    requires forall c <- Winners(entries) :: Available(u, c)
    ensures Materializes(u, entries, Sort(Map(loose, Make(u)) + Map(scheduled, Make(u)), FileOrder(u)))
  {
    var files := Map(loose, Make(u)) + Map(scheduled, Make(u));
    assert files == Map(loose + scheduled, Make(u));
    MapPermutation(loose + scheduled, Winners(entries), Make(u));
    FileOrderIsTotal(u);
    SortAscends(files, FileOrder(u));
  }

  /** `materialize`: whatever the grouping and the number of workers, each winner becomes one file. */
  method Materialize(u: Store, entries: seq<IndexedEntry>, languages: set<string>, workers: nat)
    returns (r: Result<seq<MaterializedFile>>)
    requires SoundOrder(u)
    ensures r.Ok? <==> LanguagesSelected(entries, languages) && forall c <- Winners(entries) :: Available(u, c)
    ensures r.Ok? ==> Materializes(u, entries, r.value)
  {
    if !LanguagesSelected(entries, languages) {
      return Err("requested locale roots omit a language present in the VFS Index");
    }
    ghost var packed;
    var loose, keys, groups;
    loose, keys, groups, packed := Separate(entries);
    var packages := Schedule(u, keys, groups, workers, packed);
    ghost var scheduled := Flatten(Map(packages, ValuesOf()));
    AvailableWhenUnpacked(u, entries, loose, scheduled, packed);
    var fromPackages := MaterializePackages(u, packages);
    if fromPackages.Err? {
      return fromPackages;
    }
    Collected(u, entries, loose, scheduled);
    r := Ok(Sort(Map(loose, Make(u)) + fromPackages.value, FileOrder(u)));
  }

  function LayerKey(r: Reader): MaterializedFile -> Key {
    (f: MaterializedFile) => Key(f.language, r.fold(f.path))
  }

  /** No two files of a materialised index share a layer and a case-folded path. */
  lemma KeysStayDistinct(r: Reader, tree: seq<TreeFile>, order: seq<string>, entries: seq<IndexedEntry>,
                         u: Store, files: seq<MaterializedFile>)
    requires Indexes(r, tree, order, entries) && Materializes(u, entries, files)
    ensures Distinct(Map(files, LayerKey(r)))
  {
    var made := Map(Winners(entries), Make(u));
    forall i | 0 <= i < |entries|
      ensures LayerKey(r)(made[i]) == EntryKeys()(entries[i])
    {
      assert entries[i] in entries;
    }
    assert Map(made, LayerKey(r)) == Map(entries, EntryKeys());
    MapPermutation(made, files, LayerKey(r));
    DistinctPermutation(Map(made, LayerKey(r)), Map(files, LayerKey(r)));
  }

  /** The materialised files are exactly what mount lookup finds, each layer and path once. */
  lemma FilesAreWinners(r: Reader, tree: seq<TreeFile>, order: seq<string>, entries: seq<IndexedEntry>,
                        u: Store, files: seq<MaterializedFile>)
    requires Indexes(r, tree, order, entries) && Materializes(u, entries, files)
    ensures Distinct(Map(files, LayerKey(r)))
    ensures forall f <- files :: StandsFor(u, f) && Lookup(r, tree, order, LayerKey(r)(f), 0) == Some(f.source)
    ensures forall key :: Lookup(r, tree, order, key, 0).Some? ==>
              exists f :: f in files && Lookup(r, tree, order, key, 0) == Some(f.source)
  {
    KeysStayDistinct(r, tree, order, entries, u, files);
    var made := Map(Winners(entries), Make(u));
    SameMembers(files, made);
    forall f | f in files
      ensures StandsFor(u, f) && Lookup(r, tree, order, LayerKey(r)(f), 0) == Some(f.source)
    {
      var i :| 0 <= i < |entries| && made[i] == f;
      assert entries[i] in entries && Winners(entries)[i] in Winners(entries);
      FileStandsFor(u, entries[i].winner);
    }
    forall key | Lookup(r, tree, order, key, 0).Some?
      ensures exists f :: f in files && Lookup(r, tree, order, key, 0) == Some(f.source)
    {
      var i :| 0 <= i < |entries| && Map(entries, EntryKeys())[i] == key;
      assert entries[i] in entries && made[i] in made;
    }
  }

  /** There is one materialisation of an index: it depends on no schedule and on no order of the entries. */
  lemma MaterializationIsUnique(r: Reader, tree: seq<TreeFile>, order: seq<string>, u: Store,
                                a: seq<IndexedEntry>, b: seq<IndexedEntry>,
                                x: seq<MaterializedFile>, y: seq<MaterializedFile>)
    requires SoundOrder(u)
    requires Indexes(r, tree, order, a) && multiset(a) == multiset(b)
    requires Materializes(u, a, x) && Materializes(u, b, y)
    ensures x == y
  {
    MapPermutation(a, b, WinnerOf());
    MapPermutation(Winners(a), Winners(b), Make(u));
    KeysStayDistinct(r, tree, order, a, u, x);
    var elements := set f | f in x;
    NoTies(r, u, x, elements);
    SortedIsUnique(x, y, elements, FileOrder(u));
  }

  lemma NoTies(r: Reader, u: Store, files: seq<MaterializedFile>, elements: set<MaterializedFile>)
    requires SoundOrder(u) && Distinct(Map(files, LayerKey(r)))
    requires elements == set f | f in files
    ensures Tieless(elements, FileOrder(u))
  {
    forall f, g | f in elements && g in elements && FileOrder(u)(f, g) && FileOrder(u)(g, f)
      ensures f == g
    {
      SamePlace(u, f, g);
      var i :| 0 <= i < |files| && files[i] == f;
      var j :| 0 <= j < |files| && files[j] == g;
      assert Map(files, LayerKey(r))[i] == Map(files, LayerKey(r))[j];
    }
  }

  lemma SamePlace(u: Store, f: MaterializedFile, g: MaterializedFile)
    requires SoundOrder(u) && FileOrder(u)(f, g) && FileOrder(u)(g, f)
    ensures f.language == g.language && f.path == g.path
  {
  }
}
