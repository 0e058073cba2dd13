/** What the files of a client tree offer to the layered VFS of `vfs.py`, and in which order they are searched. */
module VfsCandidates {
  import opened Wrappers

  datatype TreeFile = TreeFile(path: string, language: Option<string>, sha256: string, size: nat)

  /** An entry of a Game Package that is not a directory, with its place in the archive. */
  datatype ZipEntry = ZipEntry(index: nat, path: string, size: nat)

  datatype Candidate = Candidate(
    loose: bool, path: string, language: Option<string>, sourcePath: string, sourceSha256: string,
    precedence: nat, zipIndex: Option<nat>, size: nat)

  /** What one index entry is about: a layer and a case-folded path. */
  datatype Key = Key(language: Option<string>, folded: string)

  datatype IndexedEntry = IndexedEntry(key: Key, candidates: seq<Candidate>, winner: Candidate)

  /** Case folding and path canonicalisation, the archive reader, and the order of keys. */
  datatype Reader = Reader(
    fold: string -> string,
    canonical: string -> Option<string>,
    isPackage: string -> bool,
    entries: TreeFile -> Option<seq<ZipEntry>>,
    keyOrder: (Key, Key) -> bool,
    pathOrder: (string, string) -> bool)

  /** An element of `Paths/Packages`: the client types it is for (any when empty) and its location. */
  datatype PackageElement = PackageElement(types: set<string>, location: string)

  predicate PackageLocation(path: string) {
    "res/packages/" <= path && |path| >= 4 && path[|path| - 4..] == ".pkg"
  }

  function Selected(elements: seq<PackageElement>, clientType: string): seq<string> {
    if elements == [] then []
    else
      var last := elements[|elements| - 1];
      Selected(elements[..|elements| - 1], clientType)
      + if last.types == {} || clientType in last.types then [last.location] else []
  }

  predicate NoRepeats(paths: seq<string>) {
    forall i, j :: 0 <= i < j < |paths| ==> paths[i] != paths[j]
  }

  predicate Orderly(paths: seq<string>) {
    paths != [] && (forall i :: 0 <= i < |paths| ==> PackageLocation(paths[i])) && NoRepeats(paths)
  }

  lemma {:induction false} SelectedGrows(elements: seq<PackageElement>, clientType: string, n: nat)
    requires n <= |elements|
    ensures Selected(elements[..n], clientType) <= Selected(elements, clientType)
  {
    if n < |elements| {
      SelectedGrows(elements[..|elements| - 1], clientType, n);
      assert elements[..|elements| - 1][..n] == elements[..n];
    } else {
      assert elements[..n] == elements;
    }
  }

  lemma SelectedNext(elements: seq<PackageElement>, clientType: string, i: nat)
    requires i < |elements|
    ensures Selected(elements[..i + 1], clientType) == Selected(elements[..i], clientType)
      + if elements[i].types == {} || clientType in elements[i].types then [elements[i].location] else []
  {
    assert elements[..i + 1][..i] == elements[..i];
  }

  /** A location that is unsupported or was there before spoils every order that goes on from it. */
  lemma DisorderStays(paths: seq<string>, path: string, all: seq<string>)
    requires paths + [path] <= all && (!PackageLocation(path) || path in paths)
    ensures !Orderly(all)
  {
    assert all[|paths|] == (paths + [path])[|paths|] == path;
    if path in paths {
      var j :| 0 <= j < |paths| && paths[j] == path;
      assert all[j] == (paths + [path])[j] == path;
    }
  }

  /** `_parse_package_order`, given the parsed elements. */
  method ParsePackageOrder(elements: seq<PackageElement>, clientType: string) returns (r: Result<seq<string>>)
    ensures r.Ok? ==> r.value == Selected(elements, clientType) && r.value != []
    ensures r.Ok? <==> Orderly(Selected(elements, clientType))
  {
    var result: seq<string> := [];
    for i := 0 to |elements|
      invariant result == Selected(elements[..i], clientType)
      invariant result != [] ==> Orderly(result)
    {
      SelectedNext(elements, clientType, i);
      if elements[i].types == {} || clientType in elements[i].types {
        var path := elements[i].location;
        if !PackageLocation(path) || path in result {
          SelectedGrows(elements, clientType, i + 1);
          DisorderStays(result, path, Selected(elements, clientType));
          return Err("paths.xml has an unsupported or duplicate Package");
        }
        result := result + [path];
      }
    }
    assert elements[..|elements|] == elements;
    if result == [] {
      return Err("paths.xml has no packages for selected client type");
    }
    r := Ok(result);
  }

  // ---------- Candidates ----------

  function Precedence(order: seq<string>, path: string): (k: Option<nat>)
    ensures k.Some? ==> k.value < |order| && order[k.value] == path
    ensures k == None ==> path !in order
  {
    if order == [] then None
    else if order[|order| - 1] == path then Some(|order| - 1)
    else Precedence(order[..|order| - 1], path)
  }

  function PackageCandidate(r: Reader, f: TreeFile, precedence: nat, e: ZipEntry): Option<Candidate> {
    var path := r.canonical(e.path);
    if path == None then None
    else Some(Candidate(false, path.value, f.language, f.path, f.sha256, precedence, Some(e.index), e.size))
  }

  /** The candidates of the entries of one package, or nothing when it cannot be indexed. */
  function PackageCandidates(r: Reader, f: TreeFile, precedence: nat, entries: seq<ZipEntry>): Option<seq<Candidate>> {
    if entries == [] then Some([])
    else
      var init := PackageCandidates(r, f, precedence, entries[..|entries| - 1]);
      var last := PackageCandidate(r, f, precedence, entries[|entries| - 1]);
      if init == None || last == None then None else Some(init.value + [last.value])
  }

  /** What one file of the client tree contributes: a package, a loose file below res, or nothing. */
  function FileCandidates(r: Reader, order: seq<string>, f: TreeFile): Option<seq<Candidate>> {
    if r.isPackage(f.path) then
      var precedence, entries := Precedence(order, f.path), r.entries(f);
      if precedence == None || entries == None then None
      else PackageCandidates(r, f, precedence.value, entries.value)
    else if "res/" <= f.path then
      var path := r.canonical(f.path[4..]);
      if path == None then None
      else Some([Candidate(true, path.value, f.language, f.path, f.sha256, |order|, None, f.size)])
    else Some([])
  }

  function KeyOf(r: Reader, c: Candidate): Key {
    Key(c.language, r.fold(c.path))
  }

  // ---------- Mount lookup: the reference ----------

  /** The candidate that a file of the tree offers for a key when mount `i` is searched. */
  function FirstOf(r: Reader, candidates: seq<Candidate>, key: Key, i: nat): Option<Candidate> {
    if candidates == [] then None
    else if KeyOf(r, candidates[0]) == key && candidates[0].precedence == i then Some(candidates[0])
    else FirstOf(r, candidates[1..], key, i)
  }

  function SearchMount(r: Reader, files: seq<TreeFile>, order: seq<string>, key: Key, i: nat): Option<Candidate> {
    if files == [] then None
    else
      var offered := FileCandidates(r, order, files[0]);
      var hit := if offered == None then None else FirstOf(r, offered.value, key, i);
      if hit.Some? then hit else SearchMount(r, files[1..], order, key, i)
  }

  /** Searches the packages in the order of paths.xml, and then the loose files. */
  function Lookup(r: Reader, files: seq<TreeFile>, order: seq<string>, key: Key, i: nat): Option<Candidate>
    requires i <= |order| + 1
    decreases |order| + 1 - i
  {
    if i > |order| then None
    else
      var hit := SearchMount(r, files, order, key, i);
      if hit.Some? then hit else Lookup(r, files, order, key, i + 1)
  }

  // ---------- All candidates, in order of discovery ----------

  function Contributions(r: Reader, files: seq<TreeFile>, order: seq<string>): Option<seq<Candidate>> {
    if files == [] then Some([])
    else
      var first, rest := FileCandidates(r, order, files[0]), Contributions(r, files[1..], order);
      if first == None || rest == None then None else Some(first.value + rest.value)
  }

  /** A candidate with this key and precedence among those offered. */
  ghost predicate Offers(r: Reader, candidates: seq<Candidate>, key: Key, i: nat) {
    exists c <- candidates :: KeyOf(r, c) == key && c.precedence == i
  }

  lemma {:induction false} FirstOfIsOffered(r: Reader, candidates: seq<Candidate>, key: Key, i: nat)
    ensures FirstOf(r, candidates, key, i).Some? <==> Offers(r, candidates, key, i)
    ensures var hit := FirstOf(r, candidates, key, i);
      hit.Some? ==> hit.value in candidates && KeyOf(r, hit.value) == key && hit.value.precedence == i
  {
    if candidates != [] {
      FirstOfIsOffered(r, candidates[1..], key, i);
      assert candidates == [candidates[0]] + candidates[1..];
    }
  }

  lemma {:induction false} MountIsOffered(r: Reader, files: seq<TreeFile>, order: seq<string>, key: Key, i: nat)
    requires Contributions(r, files, order).Some?
    ensures SearchMount(r, files, order, key, i).Some? <==> Offers(r, Contributions(r, files, order).value, key, i)
    ensures var hit := SearchMount(r, files, order, key, i);
      hit.Some? ==> hit.value in Contributions(r, files, order).value
                    && KeyOf(r, hit.value) == key && hit.value.precedence == i
  {
    if files != [] {
      MountIsOffered(r, files[1..], order, key, i);
      FirstOfIsOffered(r, FileCandidates(r, order, files[0]).value, key, i);
    }
  }

  lemma {:induction false} LookupIsLeast(r: Reader, files: seq<TreeFile>, order: seq<string>, key: Key, i: nat)
    requires Contributions(r, files, order).Some? && i <= |order| + 1
    ensures var all, hit := Contributions(r, files, order).value, Lookup(r, files, order, key, i);
      && (hit.Some? ==> hit.value in all && KeyOf(r, hit.value) == key && i <= hit.value.precedence <= |order|
                        && forall j :: i <= j < hit.value.precedence ==> !Offers(r, all, key, j))
      && (hit == None ==> forall j :: i <= j <= |order| ==> !Offers(r, all, key, j))
    decreases |order| + 1 - i
  {
    if i <= |order| {
      MountIsOffered(r, files, order, key, i);
      LookupIsLeast(r, files, order, key, i + 1);
    }
  }

  lemma {:induction false} PackagePrecedence(r: Reader, f: TreeFile, precedence: nat, entries: seq<ZipEntry>)
    requires PackageCandidates(r, f, precedence, entries).Some?
    ensures forall c <- PackageCandidates(r, f, precedence, entries).value :: c.precedence == precedence
  {
    if entries != [] {
      PackagePrecedence(r, f, precedence, entries[..|entries| - 1]);
    }
  }

  lemma {:induction false} PrecedenceBound(r: Reader, files: seq<TreeFile>, order: seq<string>)
    requires Contributions(r, files, order).Some?
    ensures forall c <- Contributions(r, files, order).value :: c.precedence <= |order|
  {
    if files != [] {
      PrecedenceBound(r, files[1..], order);
      var f := files[0];
      if r.isPackage(f.path) {
        PackagePrecedence(r, f, Precedence(order, f.path).value, r.entries(f).value);
      }
    }
  }

  // ---------- Which file comes first, on the tree alone ----------

  /** A package of the layer has an entry for the key. */
  ghost predicate PackageHas(r: Reader, f: TreeFile, key: Key) {
    && r.isPackage(f.path) && f.language == key.language && r.entries(f).Some?
    && exists e <- r.entries(f).value :: r.canonical(e.path).Some? && r.fold(r.canonical(e.path).value) == key.folded
  }

  /** A loose file of the layer, below res, is the one that the key names. */
  ghost predicate LooseHas(r: Reader, f: TreeFile, key: Key) {
    && !r.isPackage(f.path) && "res/" <= f.path && f.language == key.language
    && r.canonical(f.path[4..]).Some? && r.fold(r.canonical(f.path[4..]).value) == key.folded
  }

  /** The candidate stands for an entry of this package. */
  ghost predicate StandsForEntry(r: Reader, f: TreeFile, c: Candidate) {
    && !c.loose && r.isPackage(f.path) && r.entries(f).Some?
    && c.language == f.language && c.sourcePath == f.path && c.sourceSha256 == f.sha256
    && exists e <- r.entries(f).value ::
         c.zipIndex == Some(e.index) && c.size == e.size && r.canonical(e.path) == Some(c.path)
  }

  /** The candidate stands for this loose file. */
  ghost predicate StandsForFile(r: Reader, f: TreeFile, c: Candidate) {
    && c.loose && !r.isPackage(f.path) && "res/" <= f.path && r.canonical(f.path[4..]) == Some(c.path)
    && c.language == f.language && c.sourcePath == f.path && c.sourceSha256 == f.sha256
    && c.zipIndex == None && c.size == f.size
  }

  /** No package that is listed before the `n`-th one has an entry for the key. */
  ghost predicate NoneBefore(r: Reader, files: seq<TreeFile>, order: seq<string>, key: Key, n: nat)
    requires n <= |order|
  {
    forall j, f :: 0 <= j < n && f in files && f.path == order[j] ==> !PackageHas(r, f, key)
  }

  /**
   The candidate comes from the first package, in the order of paths.xml, that has an entry for the key;
   it is a loose file when no listed package has one.
   */
  ghost predicate FirstListed(r: Reader, files: seq<TreeFile>, order: seq<string>, key: Key, c: Candidate) {
    && c.language == key.language && r.fold(c.path) == key.folded
    && if c.loose then
         (exists f <- files :: StandsForFile(r, f, c)) && NoneBefore(r, files, order, key, |order|)
       else
         && (exists f <- files :: StandsForEntry(r, f, c))
         && exists i :: 0 <= i < |order| && c.sourcePath == order[i] && NoneBefore(r, files, order, key, i)
  }

  lemma {:induction false} EntryContributes(r: Reader, f: TreeFile, precedence: nat, entries: seq<ZipEntry>,
                                            e: ZipEntry)
    requires PackageCandidates(r, f, precedence, entries).Some? && e in entries
    ensures var own := PackageCandidate(r, f, precedence, e);
      own.Some? && own.value in PackageCandidates(r, f, precedence, entries).value
  {
    var init, last := entries[..|entries| - 1], entries[|entries| - 1];
    assert entries == init + [last];
    if e != last {
      EntryContributes(r, f, precedence, init, e);
    }
  }

  lemma {:induction false} ContributingEntry(r: Reader, f: TreeFile, precedence: nat, entries: seq<ZipEntry>,
                                             c: Candidate) returns (e: ZipEntry)
    requires PackageCandidates(r, f, precedence, entries).Some?
    requires c in PackageCandidates(r, f, precedence, entries).value
    ensures e in entries && PackageCandidate(r, f, precedence, e) == Some(c)
  {
    var init, last := entries[..|entries| - 1], entries[|entries| - 1];
    if PackageCandidate(r, f, precedence, last) == Some(c) {
      e := last;
    } else {
      e := ContributingEntry(r, f, precedence, init, c);
    }
  }

  lemma {:induction false} FileContributes(r: Reader, files: seq<TreeFile>, order: seq<string>, f: TreeFile)
    requires Contributions(r, files, order).Some? && f in files
    ensures var own := FileCandidates(r, order, f);
      own.Some? && forall c <- own.value :: c in Contributions(r, files, order).value
  {
    assert files == [files[0]] + files[1..];
    if f != files[0] {
      FileContributes(r, files[1..], order, f);
    }
  }

  lemma {:induction false} ContributingFile(r: Reader, files: seq<TreeFile>, order: seq<string>, c: Candidate)
    returns (f: TreeFile)
    requires Contributions(r, files, order).Some? && c in Contributions(r, files, order).value
    ensures f in files && FileCandidates(r, order, f).Some? && c in FileCandidates(r, order, f).value
  {
    if c in FileCandidates(r, order, files[0]).value {
      f := files[0];
    } else {
      f := ContributingFile(r, files[1..], order, c);
    }
  }

  lemma {:induction false} PrecedenceIs(order: seq<string>, j: nat)
    requires NoRepeats(order) && j < |order|
    ensures Precedence(order, order[j]) == Some(j)
  {
    if j < |order| - 1 {
      PrecedenceIs(order[..|order| - 1], j);
    }
  }

  lemma PackageIsOffered(r: Reader, files: seq<TreeFile>, order: seq<string>, key: Key, j: nat, f: TreeFile)
    requires Contributions(r, files, order).Some? && NoRepeats(order) && j < |order|
    requires f in files && f.path == order[j] && PackageHas(r, f, key)
    ensures Offers(r, Contributions(r, files, order).value, key, j)
  {
    var e :| e in r.entries(f).value && r.canonical(e.path).Some? && r.fold(r.canonical(e.path).value) == key.folded;
    PrecedenceIs(order, j);
    FileContributes(r, files, order, f);
    EntryContributes(r, f, j, r.entries(f).value, e);
  }

  lemma LooseIsOffered(r: Reader, files: seq<TreeFile>, order: seq<string>, key: Key, f: TreeFile)
    requires Contributions(r, files, order).Some? && f in files && LooseHas(r, f, key)
    ensures Offers(r, Contributions(r, files, order).value, key, |order|)
  {
    FileContributes(r, files, order, f);
  }

  /** What is found stands for an entry of a listed package, at the place of its list, or for a loose file. */
  lemma FoundStandsFor(r: Reader, files: seq<TreeFile>, order: seq<string>, c: Candidate)
    requires Contributions(r, files, order).Some? && c in Contributions(r, files, order).value
    ensures if c.loose then c.precedence == |order| && exists f <- files :: StandsForFile(r, f, c)
            else c.precedence < |order| && order[c.precedence] == c.sourcePath
                 && exists f <- files :: StandsForEntry(r, f, c)
  {
    var f := ContributingFile(r, files, order, c);
    if r.isPackage(f.path) {
      var e := ContributingEntry(r, f, Precedence(order, f.path).value, r.entries(f).value, c);
      assert StandsForEntry(r, f, c);
    } else {
      assert StandsForFile(r, f, c);
    }
  }

  /**
   Mount lookup finds the first listed package with an entry for the key, and a loose file only when
   there is none; when it finds nothing, no file of the tree has anything for the key.
   */
  lemma LookupIsFirstListed(r: Reader, files: seq<TreeFile>, order: seq<string>, key: Key)
    requires Contributions(r, files, order).Some? && NoRepeats(order)
    ensures var hit := Lookup(r, files, order, key, 0);
      && (hit.Some? ==> FirstListed(r, files, order, key, hit.value))
      && (hit == None <==> forall f <- files :: !PackageHas(r, f, key) && !LooseHas(r, f, key))
  {
    var hit, all := Lookup(r, files, order, key, 0), Contributions(r, files, order).value;
    LookupIsLeast(r, files, order, key, 0);
    forall j: nat, f | j < |order| && f in files && f.path == order[j] && PackageHas(r, f, key)
      ensures Offers(r, all, key, j)
    {
      PackageIsOffered(r, files, order, key, j, f);
    }
    if hit.Some? {
      FoundStandsFor(r, files, order, hit.value);
    } else {
      forall f | f in files
        ensures !PackageHas(r, f, key) && !LooseHas(r, f, key)
      {
        FileContributes(r, files, order, f);
        if LooseHas(r, f, key) {
          LooseIsOffered(r, files, order, key, f);
        }
      }
    }
  }

  /** A package can be indexed when it is listed and every entry has a safe path, a loose file when its path is safe. */
  ghost predicate Indexable(r: Reader, order: seq<string>, f: TreeFile) {
    if r.isPackage(f.path) then
      f.path in order && r.entries(f).Some? && forall e <- r.entries(f).value :: r.canonical(e.path).Some?
    else "res/" <= f.path ==> r.canonical(f.path[4..]).Some?
  }

  lemma {:induction false} PackageIsIndexable(r: Reader, f: TreeFile, precedence: nat, entries: seq<ZipEntry>)
    ensures PackageCandidates(r, f, precedence, entries).Some? <==> forall e <- entries :: r.canonical(e.path).Some?
  {
    if entries != [] {
      var init, last := entries[..|entries| - 1], entries[|entries| - 1];
      assert entries == init + [last];
      PackageIsIndexable(r, f, precedence, init);
    }
  }

  lemma FileIsIndexable(r: Reader, order: seq<string>, f: TreeFile)
    ensures FileCandidates(r, order, f).Some? <==> Indexable(r, order, f)
  {
    var precedence, entries := Precedence(order, f.path), r.entries(f);
    if r.isPackage(f.path) && precedence.Some? && entries.Some? {
      PackageIsIndexable(r, f, precedence.value, entries.value);
    }
  }

  /** The tree contributes its candidates exactly when each of its files can be indexed. */
  lemma {:induction false} TreeIsIndexable(r: Reader, files: seq<TreeFile>, order: seq<string>)
    ensures Contributions(r, files, order).Some? <==> forall f <- files :: Indexable(r, order, f)
  {
    if files != [] {
      assert files == [files[0]] + files[1..];
      FileIsIndexable(r, order, files[0]);
      TreeIsIndexable(r, files[1..], order);
    }
  }
}
