/** Manifests as `SnapshotAssembler` writes them, and that `SnapshotVerifier` accepts what is written. */
module SnapshotWriter {
  import opened Wrappers
  import opened Sorting
  import opened Grouping
  import opened ManifestOrder
  import opened SnapshotHashing
  import opened SnapshotManifest

  /** The canonical line of an entry. */
  datatype Format = Format(line: Entry -> Bytes)

  /** Lines are single, end with a line break and are read back, and paths have one encoding. */
  ghost predicate Agrees(k: Contracts, kind: Kind, f: Format) {
    && (forall e :: Line(f.line(e)) && |f.line(e)| > 1 && f.line(e)[|f.line(e)| - 1] == '\n')
    && (forall e :: k.readEntry(kind, f.line(e)) == Some(e))
    && forall a, b :: k.utf8(a) == k.utf8(b) ==> a == b
  }

  function LineOf(f: Format): Entry -> Bytes {
    (e: Entry) => f.line(e)
  }

  /** A line is split off the text that follows it. */
  lemma {:induction false} LinesStart(line: Bytes, rest: Bytes)
    requires Line(line) && line[|line| - 1] == '\n'
    ensures Lines(line + rest) == [line] + Lines(rest)
  {
    if |line| == 1 {
      assert line == ['\n'];
      BreakFirst(rest);
    } else {
      TailIsLine(line);
      LinesStart(line[1..], rest);
      OffFirst(line, rest);
      CharacterFirst(line[0], line[1..] + rest, line[1..], Lines(rest));
    }
  }

  lemma OffFirst(line: Bytes, rest: Bytes)
    requires line != []
    ensures line + rest == [line[0]] + (line[1..] + rest) && [line[0]] + line[1..] == line
  {
  }

  lemma TailIsLine(line: Bytes)
    requires Line(line) && |line| > 1 && line[|line| - 1] == '\n'
    ensures Line(line[1..]) && line[1..][|line| - 2] == '\n' && line[0] != '\n'
  {
    assert line[1..][..|line| - 2] == line[..|line| - 1][1..];
    assert line[0] == line[..|line| - 1][0];
  }

  lemma BreakFirst(s: Bytes)
    ensures Lines(['\n'] + s) == [['\n']] + Lines(s)
  {
    assert (['\n'] + s)[1..] == s && (['\n'] + s)[..1] == ['\n'];
  }

  lemma CharacterFirst(c: char, s: Bytes, first: Bytes, others: seq<Bytes>)
    requires c != '\n' && Lines(s) == [first] + others
    ensures Lines([c] + s) == [[c] + first] + others
  {
    assert ([c] + s)[1..] == s && ([c] + s)[..1] == [c];
    assert ([first] + others)[1..] == others;
  }

  lemma {:induction false} LinesOfWhole(lines: seq<Bytes>)
    requires forall line <- lines :: Line(line) && line[|line| - 1] == '\n'
    ensures Lines(Flatten(lines)) == lines
  {
    if lines != [] {
      LinesOfWhole(lines[1..]);
      LinesStart(lines[0], Flatten(lines[1..]));
    }
  }

  lemma {:induction false} LinesAreRead(k: Contracts, kind: Kind, f: Format, entries: seq<Entry>)
    requires Agrees(k, kind, f)
    ensures ReadLines(k, kind, Map(entries, LineOf(f))) == Some(entries)
  {
    if entries != [] {
      var last := |entries| - 1;
      LinesAreRead(k, kind, f, entries[..last]);
      assert Map(entries, LineOf(f))[..last] == Map(entries[..last], LineOf(f));
      assert entries == entries[..last] + [entries[last]];
    }
  }

  lemma WrittenGrows(f: Format, entries: seq<Entry>, e: Entry)
    ensures Flatten(Map(entries + [e], LineOf(f))) == Flatten(Map(entries, LineOf(f))) + f.line(e)
  {
    var lines := Map(entries + [e], LineOf(f));
    assert lines == Map(entries, LineOf(f)) + [f.line(e)];
    LinesGrow(lines, |entries|);
    assert lines[..|entries|] == Map(entries, LineOf(f)) && lines[..|entries| + 1] == lines;
  }

  class JsonlWriter {
    var stream: Bytes
    var digested: Bytes
    var records: nat

    constructor ()
      ensures stream == digested == [] && records == 0
    {
      stream, digested, records := [], [], 0;
    }

    /** What was streamed, hashed and counted are these entries. */
    ghost predicate Holds(f: Format, entries: seq<Entry>)
      reads this
    {
      stream == digested == Flatten(Map(entries, LineOf(f))) && records == |entries|
    }

    /** `write`. */
    method Write(f: Format, e: Entry, ghost entries: seq<Entry>)
      requires Holds(f, entries)
      modifies this
      ensures Holds(f, entries + [e])
    {
      WrittenGrows(f, entries, e);
      var encoded := f.line(e);
      stream, digested, records := stream + encoded, digested + encoded, records + 1;
    }

    /** `reference`: it agrees with the file as it stands, which is read as the entries written so far. */
    method MakeReference(k: Contracts, kind: Kind, f: Format, path: string, tree: Tree, ghost entries: seq<Entry>)
      returns (r: Reference)
      requires Agrees(k, kind, f) && Holds(f, entries)
      ensures r.path == path && ReadManifest(k, kind, r, tree[path := stream]) == Some(entries)
    {
      WrittenIsRead(k, kind, f, entries, path, tree);
      r := Reference(path, k.sha256(digested), records);
    }
  }

  /** The order in which a manifest is sorted. */
  function ManifestSorting(k: Contracts, kind: Kind): (Entry, Entry) -> bool {
    ByKey(SortKey(k, kind))
  }

  /** Sorting puts entries into the strict order that the verifier demands exactly when no two share a key. */
  lemma SortedIsStrict(k: Contracts, kind: Kind, entries: seq<Entry>)
    ensures InStrictOrder(k, kind, Sort(entries, ManifestSorting(k, kind)))
       <==> Distinct(Map(entries, SortKey(k, kind)))
  {
    var key := SortKey(k, kind);
    var sorted := Sort(entries, ManifestSorting(k, kind));
    ByKeyIsTotal(key);
    TupleOrderIsTotal();
    SortAscends(entries, ManifestSorting(k, kind));
    MapPermutation(entries, sorted, key);
    if Distinct(Map(entries, key)) {
      DistinctPermutation(Map(entries, key), Map(sorted, key));
      forall i | 0 < i < |sorted|
        ensures OrderOf(k, kind)(sorted[i - 1], sorted[i])
      {
        assert Map(sorted, key)[i - 1] != Map(sorted, key)[i];
      }
    }
    if InStrictOrder(k, kind, sorted) {
      StrictIsDistinct(k, kind, sorted);
      DistinctPermutation(Map(sorted, key), Map(entries, key));
    }
  }

  lemma StrictIsDistinct(k: Contracts, kind: Kind, sorted: seq<Entry>)
    requires InStrictOrder(k, kind, sorted)
    ensures Distinct(Map(sorted, SortKey(k, kind)))
  {
    TupleOrderIsTotal();
    forall i, j | 0 <= i < j < |sorted|
      ensures Map(sorted, SortKey(k, kind))[i] != Map(sorted, SortKey(k, kind))[j]
    {
      StrictThroughout(k, kind, sorted, i, j);
    }
  }

  lemma {:induction false} StrictThroughout(k: Contracts, kind: Kind, sorted: seq<Entry>, i: nat, j: nat)
    requires InStrictOrder(k, kind, sorted) && i < j < |sorted|
    ensures OrderOf(k, kind)(sorted[i], sorted[j])
  {
    var order, key := TupleOrder(), SortKey(k, kind);
    TupleOrderIsTotal();
    assert OrderOf(k, kind)(sorted[j - 1], sorted[j]);
    assert order(key(sorted[j - 1]), key(sorted[j]));
    if i < j - 1 {
      StrictThroughout(k, kind, sorted, i, j - 1);
      assert order(key(sorted[i]), key(sorted[j - 1]));
      assert order(key(sorted[i]), key(sorted[j]));
    }
  }

  /** But for packages, entries that are no duplicates of one another never share a key. */
  lemma KeysAreDistinct(k: Contracts, kind: Kind, f: Format, entries: seq<Entry>)
    requires Agrees(k, kind, f) && kind != Packages && Distinct(Map(entries, DuplicateKey(k, kind)))
    ensures Distinct(Map(entries, SortKey(k, kind)))
  {
    forall i, j | 0 <= i < j < |entries|
      ensures Map(entries, SortKey(k, kind))[i] != Map(entries, SortKey(k, kind))[j]
    {
      assert Map(entries, DuplicateKey(k, kind))[i] != Map(entries, DuplicateKey(k, kind))[j];
      SameKeySameEntry(k, kind, f, entries[i], entries[j]);
    }
  }

  lemma SameKeySameEntry(k: Contracts, kind: Kind, f: Format, a: Entry, b: Entry)
    requires Agrees(k, kind, f) && kind != Packages
    ensures SortKey(k, kind)(a) == SortKey(k, kind)(b) ==> DuplicateKey(k, kind)(a) == DuplicateKey(k, kind)(b)
  {
    if SortKey(k, kind)(a) == SortKey(k, kind)(b) {
      SamePath(k, kind, a, b);
      if kind == Files {
        assert LanguageKey(a.language) == SortKey(k, kind)(a)[..2];
        assert LanguageKey(b.language) == SortKey(k, kind)(b)[..2];
        SameLanguage(a.language, b.language);
      } else if kind == Conflicts {
        assert CodePoints(LayerName(a.language)) == SortKey(k, kind)(a)[0] == CodePoints(LayerName(b.language));
        SameLayer(a.language, b.language);
      }
    }
  }

  lemma SamePath(k: Contracts, kind: Kind, a: Entry, b: Entry)
    requires SortKey(k, kind)(a) == SortKey(k, kind)(b)
    ensures k.utf8(a.path) == k.utf8(b.path)
  {
    var last := |SortKey(k, kind)(a)| - 1;
    assert SortKey(k, kind)(a)[last] == k.utf8(a.path) && SortKey(k, kind)(b)[last] == k.utf8(b.path);
  }

  lemma SameLanguage(a: Option<string>, b: Option<string>)
    requires LanguageKey(a) == LanguageKey(b)
    ensures a == b
  {
    assert LanguageKey(a)[0] == LanguageKey(b)[0] && LanguageKey(a)[1] == LanguageKey(b)[1];
    assert LanguageKey(a)[0][0] == LanguageKey(b)[0][0];
    if a.Some? {
      CodePointsDiffer(a.value, b.value);
    }
  }

  lemma SameLayer(a: Option<string>, b: Option<string>)
    requires CodePoints(LayerName(a)) == CodePoints(LayerName(b))
    ensures a == b
  {
    CodePointsDiffer(LayerName(a), LayerName(b));
    assert LayerName(a)[0] == LayerName(b)[0];
    if a.Some? {
      assert LayerName(a)[7..] == a.value && LayerName(b)[7..] == b.value;
    }
  }

  /** Manifest text of these entries is read back as them. */
  lemma WrittenIsRead(k: Contracts, kind: Kind, f: Format, entries: seq<Entry>, path: string, tree: Tree)
    requires Agrees(k, kind, f)
    ensures var content := Flatten(Map(entries, LineOf(f)));
      ReadManifest(k, kind, Reference(path, k.sha256(content), |entries|), tree[path := content]) == Some(entries)
  {
    var lines := Map(entries, LineOf(f));
    forall line | line in lines
      ensures Line(line) && line[|line| - 1] == '\n'
    {
      var i :| 0 <= i < |lines| && lines[i] == line;
      assert line == f.line(entries[i]);
    }
    LinesOfWhole(lines);
    LinesAreRead(k, kind, f, entries);
  }

  /** What the assembler must have seen to for a manifest to be accepted. */
  ghost predicate WellKept(c: Check, entries: seq<Entry>) {
    && Distinct(Map(entries, KeyOf(c)))
    && (c.kind == Packages ==> Distinct(Map(entries, SortKey(c.k, c.kind))))
    && forall e <- entries :: Admissible(c, e)
  }

  lemma SortedIsRegular(c: Check, f: Format, entries: seq<Entry>)
    requires Agrees(c.k, c.kind, f)
    ensures Regular(c, Sort(entries, ManifestSorting(c.k, c.kind))) <==> WellKept(c, entries)
  {
    var sorted := Sort(entries, ManifestSorting(c.k, c.kind));
    SortedIsStrict(c.k, c.kind, entries);
    SameMembers(sorted, entries);
    MapPermutation(entries, sorted, KeyOf(c));
    DistinctEitherWay(Map(entries, KeyOf(c)), Map(sorted, KeyOf(c)));
    if c.kind != Packages && Distinct(Map(entries, KeyOf(c))) {
      KeysAreDistinct(c.k, c.kind, f, entries);
    }
  }

  lemma DistinctEitherWay<K(!new)>(a: seq<K>, b: seq<K>)
    requires multiset(a) == multiset(b)
    ensures Distinct(a) <==> Distinct(b)
  {
    if Distinct(a) {
      DistinctPermutation(a, b);
    }
    if Distinct(b) {
      DistinctPermutation(b, a);
    }
  }

  /**
   One manifest of `_populate`: its file and its reference. The verifier reads the sorted entries back,
   and accepts them exactly when there are no duplicates among them, each fits the rest of the
   snapshot, and no two packages share language, precedence and path.
   */
  method WriteManifest(c: Check, f: Format, entries: seq<Entry>, path: string, tree: Tree)
    returns (r: Reference, tree': Tree, sorted: seq<Entry>)
    requires Agrees(c.k, c.kind, f)
    ensures multiset(sorted) == multiset(entries)
    ensures tree' == tree[path := Flatten(Map(sorted, LineOf(f)))]
    ensures ReadManifest(c.k, c.kind, r, tree') == Some(sorted)
    ensures Regular(c, sorted) <==> WellKept(c, entries)
  {
    sorted := Sort(entries, ManifestSorting(c.k, c.kind));
    SortedIsRegular(c, f, entries);
    var writer := new JsonlWriter();
    for i := 0 to |sorted|
      invariant writer.Holds(f, sorted[..i])
    {
      PrefixGrows(sorted, i);
      writer.Write(f, sorted[i], sorted[..i]);
    }
    assert sorted[..|sorted|] == sorted;
    r := writer.MakeReference(c.k, c.kind, f, path, tree, sorted);
    tree' := tree[path := writer.stream];
  }
}
