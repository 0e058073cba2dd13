/** Manifests of a sealed snapshot in `snapshot.py`: how they are read, and when their entries are accepted. */
module SnapshotManifest {
  import opened Wrappers
  import opened Sorting
  import opened Grouping
  import opened ManifestOrder
  import opened SnapshotHashing

  /** The regular files of a snapshot directory, by path below its root. */
  type Tree = map<string, Bytes>

  datatype Kind = Packages | Conflicts | Files | ActionScript | Stubs

  /** A manifest line; packages have a precedence, and `detail` holds what only `admissible` looks at. */
  datatype Entry = Entry(
    language: Option<string>, path: string, size: nat, sha256: string, precedence: nat, detail: string)

  datatype Reference = Reference(path: string, sha256: string, records: nat)

  datatype References = References(
    packages: Reference, conflicts: Reference, files: Reference, actionscript: Reference, stubs: Reference)

  function ReferenceTo(d: Descriptor, kind: Kind): Reference {
    match kind
    case Packages => d.manifests.packages
    case Conflicts => d.manifests.conflicts
    case Files => d.manifests.files
    case ActionScript => d.manifests.actionscript
    case Stubs => d.manifests.stubs
  }

  datatype Descriptor = Descriptor(
    snapshotId: string, manifests: References, languages: set<string>,
    baseRoot: string, localeRoots: seq<Layer>, actionscriptRoot: string, stubsRoot: string)

  /** A directory of the payload and the language of its files. */
  datatype Layer = Layer(language: Option<string>, root: string)

  /**
   Digests, the readers of canonical JSON with their contracts, the encoding of paths, case folding,
   and the checks of single entries against the descriptor, the packages and the files.
   */
  datatype Contracts = Contracts(
    sha256: Bytes -> string,
    readDescriptor: Bytes -> Option<Descriptor>,
    identity: Descriptor -> string,
    readEntry: (Kind, Bytes) -> Option<Entry>,
    utf8: string -> Component,
    fold: string -> string,
    admissible: (Kind, Descriptor, seq<Entry>, seq<Entry>, Entry) -> bool,
    isActionScript: string -> bool,
    isPackedName: string -> bool)

  /** What makes two entries of a manifest duplicates. */
  datatype Identity = Identity(language: Option<string>, path: string)

  // ---------- Lines ----------

  /** Some text with at most one line break, at its end. */
  predicate Line(line: Bytes) {
    line != [] && '\n' !in line[..|line| - 1]
  }

  /** Lines that each end with a line break, except perhaps the last. */
  predicate Broken(lines: seq<Bytes>) {
    forall i :: 0 <= i < |lines| ==> Line(lines[i]) && (i < |lines| - 1 ==> lines[i][|lines[i]| - 1] == '\n')
  }

  /** The lines of a text that starts with `c` and goes on with the text of `rest`. */
  function StartWith(c: char, rest: seq<Bytes>): (r: seq<Bytes>)
    requires Broken(rest)
    ensures Flatten(r) == [c] + Flatten(rest) && Broken(r)
  {
    if c == '\n' || rest == [] then
      assert ([[c]] + rest)[1..] == rest;
      [[c]] + rest
    else
      var first := [c] + rest[0];
      assert first[..|first| - 1] == [c] + rest[0][..|rest[0]| - 1];
      assert ([first] + rest[1..])[1..] == rest[1..];
      assert first + Flatten(rest[1..]) == [c] + (rest[0] + Flatten(rest[1..]));
      [first] + rest[1..]
  }

  /** The lines of a file, each with its line break if it has one. */
  function Lines(content: Bytes): (r: seq<Bytes>)
    ensures Flatten(r) == content && Broken(r)
  {
    if content == [] then []
    else
      assert content == [content[0]] + content[1..];
      StartWith(content[0], Lines(content[1..]))
  }

  function ReadLine(k: Contracts, kind: Kind, line: Bytes): Option<Entry> {
    if line == [] || line[|line| - 1] != '\n' || line == "\n" then None else k.readEntry(kind, line)
  }

  function ReadLines(k: Contracts, kind: Kind, lines: seq<Bytes>): Option<seq<Entry>> {
    if lines == [] then Some([])
    else
      var last := |lines| - 1;
      var init, entry := ReadLines(k, kind, lines[..last]), ReadLine(k, kind, lines[last]);
      if init == None || entry == None then None else Some(init.value + [entry.value])
  }

  /** The entries of a manifest file that agrees with its reference. */
  function ReadManifest(k: Contracts, kind: Kind, reference: Reference, tree: Tree): Option<seq<Entry>> {
    if reference.path !in tree then None
    else
      var lines := Lines(tree[reference.path]);
      if k.sha256(tree[reference.path]) != reference.sha256 || |lines| != reference.records then None
      else ReadLines(k, kind, lines)
  }

  lemma {:induction false} BadLine(k: Contracts, kind: Kind, lines: seq<Bytes>, i: nat)
    requires i < |lines| && ReadLine(k, kind, lines[i]) == None
    ensures ReadLines(k, kind, lines) == None
    decreases |lines|
  {
    if i < |lines| - 1 {
      BadLine(k, kind, lines[..|lines| - 1], i);
    }
  }

  lemma LinesGrow(lines: seq<Bytes>, i: nat)
    requires i < |lines|
    ensures Flatten(lines[..i + 1]) == Flatten(lines[..i]) + lines[i]
  {
    PrefixGrows(lines, i);
    FlattenConcat(lines[..i], [lines[i]]);
    assert [lines[i]][1..] == [] && Flatten([lines[i]]) == lines[i] + Flatten([]);
  }

  lemma ReadNext(k: Contracts, kind: Kind, lines: seq<Bytes>, i: nat)
    requires i < |lines|
    ensures var init, entry := ReadLines(k, kind, lines[..i]), ReadLine(k, kind, lines[i]);
      ReadLines(k, kind, lines[..i + 1])
      == if init == None || entry == None then None else Some(init.value + [entry.value])
  {
    assert lines[..i + 1][..i] == lines[..i];
  }

  /** The first `i` lines have been hashed, counted and read. */
  ghost predicate ReadUpto(k: Contracts, kind: Kind, lines: seq<Bytes>, i: nat,
                           hashed: Bytes, count: nat, entries: seq<Entry>)
    requires i <= |lines|
  {
    hashed == Flatten(lines[..i]) && count == i && ReadLines(k, kind, lines[..i]) == Some(entries)
  }

  lemma OneMoreLine(k: Contracts, kind: Kind, lines: seq<Bytes>, i: nat,
                    hashed: Bytes, count: nat, entries: seq<Entry>)
    requires i < |lines| && ReadUpto(k, kind, lines, i, hashed, count, entries)
    ensures var entry := ReadLine(k, kind, lines[i]);
      if entry == None then ReadLines(k, kind, lines) == None
      else ReadUpto(k, kind, lines, i + 1, hashed + lines[i], count + 1, entries + [entry.value])
  {
    LinesGrow(lines, i);
    ReadNext(k, kind, lines, i);
    if ReadLine(k, kind, lines[i]) == None {
      BadLine(k, kind, lines, i);
    }
  }

  /** `_manifest_documents`: hashes, counts and reads a manifest line by line. */
  method Documents(k: Contracts, kind: Kind, reference: Reference, tree: Tree) returns (r: Result<seq<Entry>>)
    ensures r.Ok? <==> ReadManifest(k, kind, reference, tree).Some?
    ensures r.Ok? ==> Some(r.value) == ReadManifest(k, kind, reference, tree)
  {
    if reference.path !in tree {
      return Err("manifest is missing");
    }
    var lines := Lines(tree[reference.path]);
    var hashed: Bytes, count: nat, entries: seq<Entry> := [], 0, [];
    for i := 0 to |lines|
      invariant ReadUpto(k, kind, lines, i, hashed, count, entries)
    {
      OneMoreLine(k, kind, lines, i, hashed, count, entries);
      hashed := hashed + lines[i];
      var entry := ReadLine(k, kind, lines[i]);
      if entry == None {
        return Err("malformed JSONL line");
      }
      entries, count := entries + [entry.value], count + 1;
    }
    assert lines[..|lines|] == lines;
    if k.sha256(hashed) != reference.sha256 || count != reference.records {
      return Err("digest or record count does not match snapshot.json");
    }
    r := Ok(entries);
  }

  // ---------- Entries ----------

  function PlaceOf(kind: Kind, e: Entry): Identity {
    Identity(if kind == Files then e.language else None, e.path)
  }

  /** What must not occur twice in a manifest. */
  function DuplicateKey(k: Contracts, kind: Kind): Entry -> (Identity, string) {
    (e: Entry) =>
      match kind
      case Packages => (Identity(e.language, e.path), e.sha256)
      case Conflicts => (Identity(e.language, k.fold(e.path)), "")
      case Files => (Identity(e.language, e.path), "")
      case ActionScript => (Identity(None, k.fold(e.path)), "")
      case Stubs => (Identity(None, k.fold(e.path)), "")
  }

  /** The layer that a conflict names. */
  function LayerName(language: Option<string>): string {
    if language == None then "base" else "locale:" + language.value
  }

  /** Whether there is a language, and which: the base comes before every locale. */
  function LanguageKey(language: Option<string>): seq<Component> {
    if language == None then [[0], []] else [[1], CodePoints(language.value)]
  }

  /** The keys by which the assembler sorts the manifests, and of which the verifier demands that they grow. */
  function SortKey(k: Contracts, kind: Kind): Entry -> seq<Component> {
    (e: Entry) =>
      match kind
      case Packages => LanguageKey(e.language) + [[e.precedence], k.utf8(e.path)]
      case Conflicts => [CodePoints(LayerName(e.language)), k.utf8(e.path)]
      case Files => LanguageKey(e.language) + [k.utf8(e.path)]
      case ActionScript => [k.utf8(e.path)]
      case Stubs => [k.utf8(e.path)]
  }

  function OrderOf(k: Contracts, kind: Kind): (Entry, Entry) -> bool {
    (a: Entry, b: Entry) => TupleOrder()(SortKey(k, kind)(a), SortKey(k, kind)(b))
  }

  /** The base comes before every locale, and locales are ordered by the code points of their names. */
  ghost predicate EarlierLanguage(a: Option<string>, b: Option<string>) {
    b.Some? && (a == None || LesserComponent(CodePoints(a.value), CodePoints(b.value)))
  }

  lemma EarlierLanguageExactly(a: Option<string>, b: Option<string>, x: seq<Component>, y: seq<Component>)
    ensures TupleOrder()(LanguageKey(a) + x, LanguageKey(b) + y)
      <==> EarlierLanguage(a, b) || (a == b && TupleOrder()(x, y))
  {
    var p, q := LanguageKey(a), LanguageKey(b);
    assert p + x == [p[0]] + ([p[1]] + x) && q + y == [q[0]] + ([q[1]] + y);
    FirstDecides(p[0], [p[1]] + x, q[0], [q[1]] + y);
    FirstDecides(p[1], x, q[1], y);
    LesserNumber(p[0][0], q[0][0]);
    if a.Some? && b.Some? && CodePoints(a.value) == CodePoints(b.value) {
      CodePointsDiffer(a.value, b.value);
    }
  }

  /** The order of a manifest, said of the fields of its entries: layer, then precedence for packages, then path. */
  ghost predicate EntryPrecedes(k: Contracts, kind: Kind, a: Entry, b: Entry) {
    var lesserPath := LesserComponent(k.utf8(a.path), k.utf8(b.path));
    match kind
    case Packages =>
      EarlierLanguage(a.language, b.language)
      || (a.language == b.language && (a.precedence < b.precedence || (a.precedence == b.precedence && lesserPath)))
    case Conflicts =>
      var x, y := CodePoints(LayerName(a.language)), CodePoints(LayerName(b.language));
      LesserComponent(x, y) || (x == y && lesserPath)
    case Files => EarlierLanguage(a.language, b.language) || (a.language == b.language && lesserPath)
    case ActionScript => lesserPath
    case Stubs => lesserPath
  }

  lemma OrderExactly(k: Contracts, kind: Kind, a: Entry, b: Entry)
    ensures OrderOf(k, kind)(a, b) <==> EntryPrecedes(k, kind, a, b)
  {
    var p, q := k.utf8(a.path), k.utf8(b.path);
    FirstDecides(p, [], q, []);
    assert [p] + [] == [p] && [q] + [] == [q] && !TupleOrder()([], []);
    var keyOf := SortKey(k, kind);
    match kind
    case Packages =>
      assert keyOf(a) == LanguageKey(a.language) + [[a.precedence], p];
      assert keyOf(b) == LanguageKey(b.language) + [[b.precedence], q];
      FirstDecides([a.precedence], [p], [b.precedence], [q]);
      assert [[a.precedence]] + [p] == [[a.precedence], p] && [[b.precedence]] + [q] == [[b.precedence], q];
      LesserNumber(a.precedence, b.precedence);
      EarlierLanguageExactly(a.language, b.language, [[a.precedence], p], [[b.precedence], q]);
    case Conflicts =>
      var x, y := CodePoints(LayerName(a.language)), CodePoints(LayerName(b.language));
      FirstDecides(x, [p], y, [q]);
      assert [x] + [p] == keyOf(a) && [y] + [q] == keyOf(b);
    case Files =>
      assert keyOf(a) == LanguageKey(a.language) + [p] && keyOf(b) == LanguageKey(b.language) + [q];
      EarlierLanguageExactly(a.language, b.language, [p], [q]);
    case ActionScript =>
      assert keyOf(a) == [p] && keyOf(b) == [q];
    case Stubs =>
      assert keyOf(a) == [p] && keyOf(b) == [q];
  }

  /** One manifest to check, with what its entries may refer to. */
  datatype Check = Check(k: Contracts, kind: Kind, d: Descriptor, packages: seq<Entry>, files: seq<Entry>)

  predicate Admissible(c: Check, e: Entry) {
    c.k.admissible(c.kind, c.d, c.packages, c.files, e)
  }

  function KeyOf(c: Check): Entry -> (Identity, string) {
    DuplicateKey(c.k, c.kind)
  }

  ghost predicate InStrictOrder(k: Contracts, kind: Kind, entries: seq<Entry>) {
    Chained(OrderOf(k, kind), entries)
  }

  /** Manifest entries in strict order, without duplicates, each of them admissible. */
  ghost predicate Regular(c: Check, entries: seq<Entry>) {
    && InStrictOrder(c.k, c.kind, entries)
    && Distinct(Map(entries, KeyOf(c)))
    && forall e <- entries :: Admissible(c, e)
  }

  /** The payload that entries describe: size and digest by place. */
  function Expected(kind: Kind, entries: seq<Entry>): map<Identity, (nat, string)> {
    if entries == [] then map[]
    else
      var last := entries[|entries| - 1];
      Expected(kind, entries[..|entries| - 1])[PlaceOf(kind, last) := (last.size, last.sha256)]
  }

  lemma DistinctPrefix<K>(keys: seq<K>, i: nat)
    requires i < |keys|
    ensures Distinct(keys[..i + 1]) <==> Distinct(keys[..i]) && keys[i] !in keys[..i]
  {
    PrefixGrows(keys, i);
    if Distinct(keys[..i + 1]) {
      forall j | 0 <= j < i
        ensures keys[..i][j] != keys[i]
      {
        assert keys[..i + 1][j] != keys[..i + 1][i];
      }
    }
  }

  lemma RegularPrefix(c: Check, entries: seq<Entry>, i: nat)
    requires i < |entries|
    ensures Regular(c, entries[..i + 1]) <==>
              && Regular(c, entries[..i])
              && (i > 0 ==> OrderOf(c.k, c.kind)(entries[i - 1], entries[i]))
              && KeyOf(c)(entries[i]) !in Map(entries[..i], KeyOf(c))
              && Admissible(c, entries[i])
  {
    var keys := Map(entries, KeyOf(c));
    PrefixGrows(entries, i);
    ChainedPrefix(OrderOf(c.k, c.kind), entries, i);
    DistinctPrefix(keys, i);
    assert Map(entries[..i + 1], KeyOf(c)) == keys[..i + 1] && Map(entries[..i], KeyOf(c)) == keys[..i];
  }

  lemma {:induction false} RegularThroughout(c: Check, entries: seq<Entry>, i: nat)
    requires i <= |entries| && Regular(c, entries)
    ensures Regular(c, entries[..i])
    decreases |entries| - i
  {
    if i < |entries| {
      RegularThroughout(c, entries, i + 1);
      RegularPrefix(c, entries, i);
    } else {
      assert entries[..i] == entries;
    }
  }

  /** The loop variables over the entries of a manifest. */
  datatype Scan = Scan(previous: Option<Entry>, seen: set<(Identity, string)>, result: map<Identity, (nat, string)>)

  function Scanned(c: Check, s: Scan, e: Entry): Scan {
    Scan(Some(e), s.seen + {KeyOf(c)(e)}, s.result[PlaceOf(c.kind, e) := (e.size, e.sha256)])
  }

  predicate Refused(c: Check, s: Scan, e: Entry) {
    || (s.previous.Some? && !OrderOf(c.k, c.kind)(s.previous.value, e))
    || KeyOf(c)(e) in s.seen
    || !Admissible(c, e)
  }

  /** What the loop knows after these entries. */
  ghost predicate Upto(c: Check, entries: seq<Entry>, s: Scan) {
    && s.previous == (if entries == [] then None else Some(entries[|entries| - 1]))
    && (forall x :: x in s.seen <==> x in Map(entries, KeyOf(c)))
    && s.result == Expected(c.kind, entries)
    && Regular(c, entries)
  }

  lemma ScanRefuses(c: Check, entries: seq<Entry>, i: nat, s: Scan)
    requires i < |entries| && Upto(c, entries[..i], s) && Refused(c, s, entries[i])
    ensures !Regular(c, entries)
  {
    RegularPrefix(c, entries, i);
    if Regular(c, entries) {
      RegularThroughout(c, entries, i + 1);
    }
  }

  lemma ScanNext(c: Check, entries: seq<Entry>, i: nat, s: Scan)
    requires i < |entries| && Upto(c, entries[..i], s) && !Refused(c, s, entries[i])
    ensures Upto(c, entries[..i + 1], Scanned(c, s, entries[i]))
  {
    RegularPrefix(c, entries, i);
    PrefixGrows(entries, i);
    assert entries[..i + 1][..i] == entries[..i];
    assert Map(entries[..i + 1], KeyOf(c)) == Map(entries[..i], KeyOf(c)) + [KeyOf(c)(entries[i])];
  }

  /** The loops over the entries of a manifest. */
  method CheckEntries(c: Check, entries: seq<Entry>) returns (r: Result<map<Identity, (nat, string)>>)
    ensures r.Ok? <==> Regular(c, entries)
    ensures r.Ok? ==> r.value == Expected(c.kind, entries)
  {
    var ok, s := ScanAll(c, entries);
    if ok {
      r := Ok(s.result);
    } else {
      r := Err("manifest order is not deterministic, or an entry is a duplicate or not bound to its source");
    }
  }

  method ScanAll(c: Check, entries: seq<Entry>) returns (ok: bool, s: Scan)
    ensures if ok then Upto(c, entries, s) else !Regular(c, entries)
  {
    s := Scan(None, {}, map[]);
    for i := 0 to |entries|
      invariant Upto(c, entries[..i], s)
    {
      if Refused(c, s, entries[i]) {
        ScanRefuses(c, entries, i, s);
        return false, s;
      }
      ScanNext(c, entries, i, s);
      s := Scanned(c, s, entries[i]);
    }
    assert entries[..|entries|] == entries;
    ok := true;
  }
}
