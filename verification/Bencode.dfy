/**
 The bencoding of BEP 3 as `torrent.py` reads it: the canonical encoding of a value, and why a
 text can begin with the encoding of at most one value.
 */
module Bencode {
  import opened Decimal

  /** A byte is a character below 256; nothing here depends on that bound. */
  type Bytes = string

  /** A dictionary lists its entries in the order in which they were inserted. */
  datatype BValue =
    | BInt(i: int)
    | BBytes(s: Bytes)
    | BList(items: seq<BValue>)
    | BDict(entries: seq<Entry>)

  datatype Entry = Entry(key: Bytes, value: BValue)

  function IntText(i: int): Bytes {
    if i < 0 then "-" + Print(-i) else Print(i)
  }

  function EncodeBytes(s: Bytes): Bytes {
    Print(|s|) + ":" + s
  }

  function Encode(v: BValue): Bytes {
    match v
    case BInt(i) => "i" + IntText(i) + "e"
    case BBytes(s) => EncodeBytes(s)
    case BList(items) => "l" + EncodeItems(items) + "e"
    case BDict(entries) => "d" + EncodeEntries(entries) + "e"
  }

  function EncodeItems(items: seq<BValue>): Bytes {
    if items == [] then "" else Encode(items[0]) + EncodeItems(items[1..])
  }

  function EncodeEntries(entries: seq<Entry>): Bytes {
    if entries == [] then ""
    else EncodeBytes(entries[0].key) + Encode(entries[0].value) + EncodeEntries(entries[1..])
  }

  /** Python's order on byte strings. */
  predicate Less(a: Bytes, b: Bytes) {
    b != "" && (a == "" || a[0] < b[0] || (a[0] == b[0] && Less(a[1..], b[1..])))
  }

  /** At byte `k` the two differ for the first time, and `a` comes first: it ends there, or has the lesser byte. */
  ghost predicate ComesFirst(a: Bytes, b: Bytes, k: nat) {
    k <= |a| && k < |b| && a[..k] == b[..k] && (k == |a| || a[k] < b[k])
  }

  lemma {:induction false} LessIsBytewise(a: Bytes, b: Bytes)
    ensures Less(a, b) <==> exists k: nat :: ComesFirst(a, b, k)
  {
    if a != "" && b != "" && a[0] == b[0] {
      LessIsBytewise(a[1..], b[1..]);
      if Less(a, b) {
        var k: nat :| ComesFirst(a[1..], b[1..], k);
        assert a[..k + 1] == [a[0]] + a[1..][..k] && b[..k + 1] == [b[0]] + b[1..][..k];
        assert ComesFirst(a, b, k + 1);
      }
      if k: nat :| ComesFirst(a, b, k) {
        assert a[1..][..k - 1] == a[..k][1..] && b[1..][..k - 1] == b[..k][1..];
        assert ComesFirst(a[1..], b[1..], k - 1);
      }
    } else if Less(a, b) {
      assert ComesFirst(a, b, 0);
    }
  }

  predicate SortedKeys(entries: seq<Entry>) {
    forall i :: 0 < i < |entries| ==> Less(entries[i - 1].key, entries[i].key)
  }

  /** Dictionary keys are sorted and distinct throughout, and nothing is nested below `maxDepth`. */
  predicate WellFormed(v: BValue, depth: int, maxDepth: int) {
    depth <= maxDepth &&
    match v
    case BInt(_) => true
    case BBytes(_) => true
    case BList(items) => forall w | w in items :: WellFormed(w, depth + 1, maxDepth)
    case BDict(entries) => SortedKeys(entries) && forall e | e in entries :: WellFormed(e.value, depth + 1, maxDepth)
  }

  /** The number of values, the dictionary keys not counted. */
  function Count(v: BValue): nat {
    match v
    case BInt(_) => 1
    case BBytes(_) => 1
    case BList(items) => 1 + CountItems(items)
    case BDict(entries) => 1 + CountEntries(entries)
  }

  function CountItems(items: seq<BValue>): nat {
    if items == [] then 0 else Count(items[0]) + CountItems(items[1..])
  }

  function CountEntries(entries: seq<Entry>): nat {
    if entries == [] then 0 else Count(entries[0].value) + CountEntries(entries[1..])
  }

  // ---------- Encodings are prefix-free ----------

  lemma DigitsHaveNo(s: Bytes, c: char)
    requires AllDigits(s) && !IsDigit(c)
    ensures c !in s
  {
  }

  /** What comes before a delimiter is determined by the text. */
  lemma SameBeforeDelimiter(s: Bytes, t: Bytes, u: Bytes, c: char)
    requires t + [c] <= s && u + [c] <= s && c !in t && c !in u
    ensures t == u
  {
    FindFirst(s, t, c, 0);
    FindFirst(s, u, c, 0);
    assert t == s[..|t|] && u == s[..|u|];
  }

  lemma IntTextIsInjective(i: int, j: int)
    requires IntText(i) == IntText(j)
    ensures i == j
  {
    ValueOfPrint(if i < 0 then -i else i);
    ValueOfPrint(if j < 0 then -j else j);
    assert IsDigit(Print(if i < 0 then -i else i)[0]) && IsDigit(Print(if j < 0 then -j else j)[0]);
    if i < 0 && j < 0 {
      assert IntText(i)[1..] == Print(-i) && IntText(j)[1..] == Print(-j);
    }
  }

  lemma IntTextHasNo(i: int, c: char)
    requires !IsDigit(c) && c != '-'
    ensures c !in IntText(i)
  {
    DigitsHaveNo(Print(if i < 0 then -i else i), c);
  }

  lemma SameInt(i: int, j: int, s: Bytes)
    requires "i" + IntText(i) + "e" <= s && "i" + IntText(j) + "e" <= s
    ensures i == j
  {
    IntTextHasNo(i, 'e');
    IntTextHasNo(j, 'e');
    SameBeforeDelimiter(s, "i" + IntText(i), "i" + IntText(j), 'e');
    assert ("i" + IntText(i))[1..] == IntText(i) && ("i" + IntText(j))[1..] == IntText(j);
    IntTextIsInjective(i, j);
  }

  lemma SameBytes(t: Bytes, u: Bytes, s: Bytes)
    requires EncodeBytes(t) <= s && EncodeBytes(u) <= s
    ensures t == u
  {
    DigitsHaveNo(Print(|t|), ':');
    DigitsHaveNo(Print(|u|), ':');
    assert Print(|t|) + ":" <= EncodeBytes(t) && Print(|u|) + ":" <= EncodeBytes(u);
    SameBeforeDelimiter(s, Print(|t|), Print(|u|), ':');
    ValueOfPrint(|t|);
    ValueOfPrint(|u|);
    var n := |Print(|t|)| + 1;
    assert t == EncodeBytes(t)[n..] == s[n..n + |t|];
    assert u == EncodeBytes(u)[n..] == s[n..n + |u|];
  }

  /** The first byte tells the kind of a value, and none begins like the end of a list. */
  lemma FirstByte(v: BValue)
    ensures Encode(v) != ""
    ensures Encode(v)[0]
         == match v case BInt(_) => 'i' case BBytes(s) => Print(|s|)[0] case BList(_) => 'l' case BDict(_) => 'd'
    ensures v.BBytes? <==> IsDigit(Encode(v)[0])
  {
  }

  lemma AfterPrefix(a: Bytes, b: Bytes, s: Bytes)
    requires a + b <= s
    ensures a <= s && b <= s[|a|..]
  {
    assert s[|a|..|a| + |b|] == (a + b)[|a|..] == b;
  }

  /** No two values have encodings that begin the same text. */
  lemma {:induction false} SameValue(v: BValue, w: BValue, s: Bytes)
    requires Encode(v) <= s && Encode(w) <= s
    ensures v == w
    decreases |s|, 0
  {
    FirstByte(v);
    FirstByte(w);
    match v {
      case BInt(i) => SameInt(i, w.i, s);
      case BBytes(t) => SameBytes(t, w.s, s);
      case BList(items) =>
        AfterPrefix("l", EncodeItems(items) + "e", s);
        AfterPrefix("l", EncodeItems(w.items) + "e", s);
        AfterPrefix(EncodeItems(items), "e", s[1..]);
        AfterPrefix(EncodeItems(w.items), "e", s[1..]);
        ItemsPrefix(items, w.items, s[1..]);
        ItemsPrefix(w.items, items, s[1..]);
      case BDict(entries) =>
        AfterPrefix("d", EncodeEntries(entries) + "e", s);
        AfterPrefix("d", EncodeEntries(w.entries) + "e", s);
        AfterPrefix(EncodeEntries(entries), "e", s[1..]);
        AfterPrefix(EncodeEntries(w.entries), "e", s[1..]);
        EntriesPrefix(entries, w.entries, s[1..]);
        EntriesPrefix(w.entries, entries, s[1..]);
    }
  }

  /** What has been read of a list is the beginning of whatever list the text encodes. */
  lemma {:induction false} ItemsPrefix(vs: seq<BValue>, ws: seq<BValue>, s: Bytes)
    requires EncodeItems(vs) <= s && EncodeItems(ws) + "e" <= s
    ensures |vs| <= |ws| && vs == ws[..|vs|]
    decreases |s|, 1, |vs|
  {
    if vs != [] {
      var head := Encode(vs[0]);
      FirstByte(vs[0]);
      AfterPrefix(head, EncodeItems(vs[1..]), s);
      assert s[0] == head[0] != 'e';
      assert ws != [];
      assert EncodeItems(ws) + "e" == Encode(ws[0]) + (EncodeItems(ws[1..]) + "e");
      AfterPrefix(Encode(ws[0]), EncodeItems(ws[1..]) + "e", s);
      SameValue(vs[0], ws[0], s);
      ItemsPrefix(vs[1..], ws[1..], s[|head|..]);
    }
  }

  lemma ThreeParts(a: Bytes, b: Bytes, c: Bytes, end: Bytes, s: Bytes)
    requires a + b + c + end <= s
    ensures a <= s && b <= s[|a|..] && c + end <= s[|a|..][|b|..]
  {
    assert a + b + c + end == a + (b + (c + end));
    AfterPrefix(a, b + (c + end), s);
    AfterPrefix(b, c + end, s[|a|..]);
  }

  /** The text at each part of a first entry, `after` being the text after the key. */
  lemma EntryParts(entries: seq<Entry>, end: Bytes, s: Bytes) returns (after: Bytes)
    requires entries != [] && EncodeEntries(entries) + end <= s
    ensures EncodeBytes(entries[0].key) <= s && after == s[|EncodeBytes(entries[0].key)|..]
    ensures Encode(entries[0].value) <= after
    ensures EncodeEntries(entries[1..]) + end <= after[|Encode(entries[0].value)|..]
  {
    after := s[|EncodeBytes(entries[0].key)|..];
    ThreeParts(EncodeBytes(entries[0].key), Encode(entries[0].value), EncodeEntries(entries[1..]), end, s);
  }

  lemma {:induction false} EntriesPrefix(vs: seq<Entry>, ws: seq<Entry>, s: Bytes)
    requires EncodeEntries(vs) <= s && EncodeEntries(ws) + "e" <= s
    ensures |vs| <= |ws| && vs == ws[..|vs|]
    decreases |s|, 1, |vs|
  {
    if vs != [] {
      assert EncodeEntries(vs) + "" == EncodeEntries(vs);
      var after := EntryParts(vs, "", s);
      assert IsDigit(EncodeBytes(vs[0].key)[0]) && s[0] == EncodeBytes(vs[0].key)[0];
      assert ws != [];
      var after' := EntryParts(ws, "e", s);
      SameBytes(vs[0].key, ws[0].key, s);
      SameValue(vs[0].value, ws[0].value, after);
      assert EncodeEntries(vs[1..]) + "" == EncodeEntries(vs[1..]);
      EntriesPrefix(vs[1..], ws[1..], after[|Encode(vs[0].value)|..]);
    }
  }
}
