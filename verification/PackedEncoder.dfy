/**
 A reference encoder for packed sections, independent of the decoder, and the round trip: what the
 decoder reads back is the tree that was encoded.
 */
module PackedEncoder {
  import opened Wrappers
  import opened PackedSection
  import opened PackedValues

  /** A section: its own value, then its children, each a scalar or a section under a tag. */
  datatype Section = Section(value: Value, children: seq<Child>)
  datatype Child = Child(key: int, body: Body)
  datatype Body = Scalar(value: Value) | Nested(section: Section)

  ghost function U16(n: nat): seq<byte>
    requires n < 0x1_0000
  {
    [n % 0x100, n / 0x100]
  }

  /** Counts and keys are signed. */
  ghost function I16(n: int): seq<byte>
    requires -0x8000 <= n < 0x8000
  {
    if n < 0 then U16(n + 0x1_0000) else U16(n)
  }

  ghost function U32(n: nat): seq<byte>
    requires n < 0x1_0000_0000
  {
    U16(n % 0x1_0000) + U16(n / 0x1_0000)
  }

  ghost function BodyKind(body: Body): nat {
    if body.Scalar? then KindOf(body.value) else 0
  }

  /** Type of element `i`: the own value of the section first, then its children. */
  ghost function MarkKind(s: Section, i: nat): nat
    requires i <= |s.children|
  {
    if i == 0 then KindOf(s.value) else BodyKind(s.children[i - 1].body)
  }

  ghost function EncodeBody(body: Body): seq<byte>
    requires Encodable(body)
  {
    match body
    case Scalar(value) => BytesOf(value)
    case Nested(section) => EncodeSection(section)
  }

  /** The data of the section and of its first `n` children. */
  ghost function DataUpTo(s: Section, n: nat): seq<byte>
    requires n <= |s.children| && forall child <- s.children :: Encodable(child.body)
    decreases s, 0, n
  {
    if n == 0 then BytesOf(s.value) else DataUpTo(s, n - 1) + EncodeBody(s.children[n - 1].body)
  }

  ghost function Mark(s: Section, i: nat): seq<byte>
    requires i <= |s.children| && forall child <- s.children :: Encodable(child.body)
    requires |DataUpTo(s, i)| < 0x1000_0000 && MarkKind(s, i) < 16
    decreases s, 1, i
  {
    U32(|DataUpTo(s, i)| + MarkKind(s, i) * 0x1000_0000)
  }

  /** A section fits the format: counts, offsets, types and keys have room in their fields. */
  ghost predicate EncodableSection(s: Section)
    decreases s, 2
  {
    && |s.children| < 0x8000
    && KindOf(s.value) < 16 && Formed(s.value)
    && (forall child <- s.children :: -0x8000 <= child.key < 0x8000 && Encodable(child.body))
    && forall i :: 0 <= i <= |s.children| ==> |DataUpTo(s, i)| < 0x1000_0000
  }

  ghost predicate Encodable(body: Body)
    decreases body, 0
  {
    match body
    case Scalar(value) => 0 < KindOf(value) < 16 && Formed(value)
    case Nested(section) => EncodableSection(section)
  }

  /** The marks and keys of the first `n` elements. */
  ghost function Records(s: Section, n: nat): seq<byte>
    requires EncodableSection(s) && n <= |s.children|
    decreases s, 3, n
  {
    if n == 0 then [] else Records(s, n - 1) + Mark(s, n - 1) + I16(s.children[n - 1].key)
  }

  ghost function EncodeSection(s: Section): seq<byte>
    requires EncodableSection(s)
    decreases s, 4, 0
  {
    var n := |s.children|;
    I16(n) + Records(s, n) + Mark(s, n) + DataUpTo(s, n)
  }

  // ---------- What the tree shows, in terms of the tree alone ----------

  /** Values can be shown, tags are safe and depths within the limit. */
  ghost predicate Readable(c: Codec, strings: seq<string>, body: Body, depth: nat)
    decreases body, 0
  {
    && depth <= c.maxDepth
    && match body
       case Scalar(value) => Shows(c, value)
       case Nested(s) => Shows(c, s.value) && ReadableChildren(c, strings, s, |s.children|, depth)
  }

  /** The first `n` children are acceptable. */
  ghost predicate ReadableChildren(c: Codec, strings: seq<string>, s: Section, n: nat, depth: nat)
    requires n <= |s.children|
    decreases s, 0
  {
    forall i :: 0 <= i < n ==> ReadableChild(c, strings, s.children[i], depth)
  }

  ghost predicate ReadableChild(c: Codec, strings: seq<string>, child: Child, depth: nat)
    decreases child, 0
  {
    && 0 <= child.key < |strings| && c.safeTag(strings[child.key]).Some?
    && Readable(c, strings, child.body, depth + 1)
  }

  ghost function Shown(c: Codec, strings: seq<string>, name: string, body: Body, depth: nat): PackedNode
    requires Readable(c, strings, body, depth)
    decreases body, 0
  {
    match body
    case Scalar(value) => PackedNode(name, ShownText(c, value), [])
    case Nested(s) =>
      if s.value.Floats? && |s.value.floats| == 12 && s.children == [] then
        PackedNode(name, "", MatrixRows(c, s.value.floats))
      else PackedNode(name, ShownText(c, s.value), ShownChildren(c, strings, s, |s.children|, depth))
  }

  ghost function ShownChildren(c: Codec, strings: seq<string>, s: Section, n: nat, depth: nat): (r: seq<PackedNode>)
    requires n <= |s.children| && ReadableChildren(c, strings, s, n, depth)
    ensures |r| == n
    decreases s, 0, n
  {
    if n == 0 then []
    else ShownChildren(c, strings, s, n - 1, depth) + [ShownChild(c, strings, s.children[n - 1], depth)]
  }

  ghost function ShownChild(c: Codec, strings: seq<string>, child: Child, depth: nat): PackedNode
    requires ReadableChild(c, strings, child, depth)
    decreases child, 0
  {
    Shown(c, strings, c.safeTag(strings[child.key]).value, child.body, depth + 1)
  }

  // ---------- Reading the fields back ----------

  lemma U32Read(s: seq<byte>, at: nat, n: nat)
    requires at + 4 <= |s| && n < 0x1_0000_0000 && s[at..at + 4] == U32(n)
    ensures U32At(s, at) == n
  {
    var t := s[at..at + 4];
    assert t[0] == s[at] && t[1] == s[at + 1] && t[2] == s[at + 2] && t[3] == s[at + 3];
  }

  lemma I16Read(s: seq<byte>, at: nat, n: int)
    requires at + 2 <= |s| && -0x8000 <= n < 0x8000 && s[at..at + 2] == I16(n)
    ensures I16At(s, at) == n
  {
    var t := s[at..at + 2];
    assert t[0] == s[at] && t[1] == s[at + 1];
  }

  /** A piece of the middle of three parts. */
  lemma Inside(a: seq<byte>, b: seq<byte>, c: seq<byte>, i: nat, j: nat)
    requires i <= j <= |b|
    ensures (a + b + c)[|a| + i..|a| + j] == b[i..j]
  {
  }

  lemma PrefixPiece(a: seq<byte>, b: seq<byte>, i: nat, j: nat)
    requires i <= j <= |a|
    ensures (a + b)[i..j] == a[i..j]
  {
  }

  lemma {:induction false} RecordsLength(s: Section, n: nat)
    requires EncodableSection(s) && n <= |s.children|
    ensures |Records(s, n)| == 6 * n
  {
    if n > 0 {
      RecordsLength(s, n - 1);
    }
  }

  /** Record `i` holds this mark and this key. */
  ghost predicate RecordIs(records: seq<byte>, i: nat, mark: seq<byte>, key: seq<byte>) {
    |records| >= 6 * i + 6 && records[6 * i..6 * i + 4] == mark && records[6 * i + 4..6 * i + 6] == key
  }

  lemma RecordStays(init: seq<byte>, last: seq<byte>, i: nat, mark: seq<byte>, key: seq<byte>)
    requires RecordIs(init, i, mark, key)
    ensures RecordIs(init + last, i, mark, key)
  {
    PrefixPiece(init, last, 6 * i, 6 * i + 4);
    PrefixPiece(init, last, 6 * i + 4, 6 * i + 6);
  }

  lemma LastRecord(init: seq<byte>, mark: seq<byte>, key: seq<byte>, i: nat)
    requires |init| == 6 * i && |mark| == 4 && |key| == 2
    ensures RecordIs(init + mark + key, i, mark, key)
  {
    Inside(init, mark, key, 0, 4);
    Inside(init + mark, key, [], 0, 2);
    assert init + mark + key + [] == init + mark + key;
  }

  lemma {:induction false} RecordsAt(s: Section, n: nat, i: nat)
    requires EncodableSection(s) && i < n <= |s.children|
    ensures RecordIs(Records(s, n), i, Mark(s, i), I16(s.children[i].key))
  {
    var init, mark, key := Records(s, n - 1), Mark(s, n - 1), I16(s.children[n - 1].key);
    if i < n - 1 {
      RecordsAt(s, n - 1, i);
      RecordStays(init, mark, i, Mark(s, i), I16(s.children[i].key));
      RecordStays(init + mark, key, i, Mark(s, i), I16(s.children[i].key));
    } else {
      RecordsLength(s, i);
      LastRecord(init, mark, key, i);
    }
  }

  lemma EncodedLength(s: Section)
    requires EncodableSection(s)
    ensures |EncodeSection(s)| == HeaderSize(|s.children|) + |DataUpTo(s, |s.children|)|
  {
    RecordsLength(s, |s.children|);
  }

  /** Where the parts of a section lie, whatever they contain. */
  lemma PartsLie(count: seq<byte>, records: seq<byte>, last: seq<byte>, data: seq<byte>, n: nat, i: nat)
    requires |count| == 2 && |records| == 6 * n && |last| == 4 && i <= n
    ensures var s := count + records + last + data;
      && s[0..2] == count
      && s[HeaderSize(n)..] == data
      && (i == n ==> s[2 + i * 6..2 + i * 6 + 4] == last)
      && (i < n ==> s[2 + i * 6..2 + i * 6 + 4] == records[6 * i..6 * i + 4])
      && (i < n ==> s[2 + i * 6 + 4..2 + i * 6 + 6] == records[6 * i + 4..6 * i + 6])
  {
    var s := count + records + last + data;
    assert s == count + (records + last + data) == count + records + (last + data);
    PrefixPiece(count, records + last + data, 0, 2);
    assert s[HeaderSize(n)..] == data;
    if i == n {
      Inside(count + records, last, data, 0, 4);
    } else {
      Inside(count, records, last + data, 6 * i, 6 * i + 4);
      Inside(count, records, last + data, 6 * i + 4, 6 * i + 6);
    }
  }

  lemma MarkLies(s: Section, i: nat)
    requires EncodableSection(s) && i <= |s.children|
    ensures |EncodeSection(s)| >= HeaderSize(|s.children|)
    ensures EncodeSection(s)[2 + i * 6..2 + i * 6 + 4] == Mark(s, i)
    ensures i < |s.children| ==> EncodeSection(s)[2 + i * 6 + 4..2 + i * 6 + 6] == I16(s.children[i].key)
  {
    var n := |s.children|;
    EncodedLength(s);
    RecordsLength(s, n);
    if i < n {
      RecordsAt(s, n, i);
    }
    PartsLie(I16(n), Records(s, n), Mark(s, n), DataUpTo(s, n), n, i);
  }

  lemma FieldRead(section: seq<byte>, i: nat, offset: nat, kind: nat)
    requires 2 + i * 6 + 4 <= |section| && offset < 0x1000_0000 && kind < 16
    requires section[2 + i * 6..2 + i * 6 + 4] == U32(offset + kind * 0x1000_0000)
    ensures Position(section, i) == offset && Kind(section, i) == kind
  {
    U32Read(section, 2 + i * 6, offset + kind * 0x1000_0000);
  }

  lemma MarkField(s: Section, i: nat)
    requires EncodableSection(s) && i <= |s.children|
    ensures |DataUpTo(s, i)| < 0x1000_0000 && MarkKind(s, i) < 16
    ensures |EncodeSection(s)| >= HeaderSize(|s.children|)
    ensures EncodeSection(s)[2 + i * 6..2 + i * 6 + 4] == U32(|DataUpTo(s, i)| + MarkKind(s, i) * 0x1000_0000)
  {
    MarkLies(s, i);
    if i > 0 {
      assert s.children[i - 1] in s.children;
    }
  }

  /** Mark `i` of an encoded section gives back the offset and the type it was made of. */
  lemma MarkRead(s: Section, i: nat)
    requires EncodableSection(s) && i <= |s.children|
    ensures |EncodeSection(s)| >= HeaderSize(|s.children|)
    ensures Position(EncodeSection(s), i) == |DataUpTo(s, i)|
    ensures Kind(EncodeSection(s), i) == MarkKind(s, i)
  {
    MarkField(s, i);
    FieldRead(EncodeSection(s), i, |DataUpTo(s, i)|, MarkKind(s, i));
  }

  lemma KeyRead(s: Section, i: nat)
    requires EncodableSection(s) && i < |s.children|
    ensures |EncodeSection(s)| >= HeaderSize(|s.children|)
    ensures Key(EncodeSection(s), i) == s.children[i].key
  {
    MarkLies(s, i);
    I16Read(EncodeSection(s), 2 + i * 6 + 4, s.children[i].key);
  }

  lemma {:induction false} DataPrefix(s: Section, i: nat, n: nat)
    requires EncodableSection(s) && i <= n <= |s.children|
    ensures DataUpTo(s, i) <= DataUpTo(s, n)
  {
    if i < n {
      DataPrefix(s, i, n - 1);
    }
  }

  /** The position of a mark lies in the data, before that of the next. */
  lemma PositionLies(s: Section, i: nat)
    requires EncodableSection(s) && i <= |s.children|
    ensures |EncodeSection(s)| >= HeaderSize(|s.children|)
    ensures Position(EncodeSection(s), i) <= |EncodeSection(s)| - HeaderSize(|s.children|)
    ensures i < |s.children| ==> Position(EncodeSection(s), i) <= Position(EncodeSection(s), i + 1)
  {
    EncodedLength(s);
    MarkRead(s, i);
    DataPrefix(s, i, |s.children|);
    if i < |s.children| {
      MarkRead(s, i + 1);
      DataPrefix(s, i, i + 1);
    }
  }

  lemma CountRead(s: Section)
    requires EncodableSection(s)
    ensures |EncodeSection(s)| >= HeaderSize(|s.children|) >= 2 && I16At(EncodeSection(s), 0) == |s.children|
  {
    var n := |s.children|;
    EncodedLength(s);
    PartsLie(I16(n), Records(s, n), Mark(s, n), DataUpTo(s, n), n, 0);
    I16Read(EncodeSection(s), 0, n);
  }

  lemma HeaderStands(s: Section)
    requires EncodableSection(s)
    ensures HeaderIsSound(EncodeSection(s)) && ChildCount(EncodeSection(s)) == |s.children|
  {
    CountRead(s);
    forall i | 0 <= i <= |s.children|
      ensures Position(EncodeSection(s), i) <= |EncodeSection(s)| - HeaderSize(|s.children|)
      ensures i < |s.children| ==> Position(EncodeSection(s), i) <= Position(EncodeSection(s), i + 1)
    {
      PositionLies(s, i);
    }
  }

  /** The header of an encoded section is sound, and its data block is the data in order. */
  lemma HeaderRead(s: Section)
    requires EncodableSection(s)
    ensures HeaderIsSound(EncodeSection(s)) && ChildCount(EncodeSection(s)) == |s.children|
    ensures DataBlock(EncodeSection(s)) == DataUpTo(s, |s.children|)
    ensures OwnData(EncodeSection(s)) == BytesOf(s.value)
  {
    var n := |s.children|;
    HeaderStands(s);
    EncodedLength(s);
    RecordsLength(s, n);
    PartsLie(I16(n), Records(s, n), Mark(s, n), DataUpTo(s, n), n, 0);
    MarkRead(s, 0);
    DataPrefix(s, 0, n);
  }

  lemma ChildRead(s: Section, i: nat)
    requires EncodableSection(s) && i < |s.children|
    requires HeaderIsSound(EncodeSection(s)) && ChildCount(EncodeSection(s)) == |s.children|
    ensures ChildData(EncodeSection(s), i) == EncodeBody(s.children[i].body)
  {
    HeaderRead(s);
    MarkRead(s, i);
    MarkRead(s, i + 1);
    DataPrefix(s, i + 1, |s.children|);
    var block, upTo := DataUpTo(s, |s.children|), DataUpTo(s, i + 1);
    assert block[..|upTo|] == upTo == DataUpTo(s, i) + EncodeBody(s.children[i].body);
    assert block[|DataUpTo(s, i)|..|upTo|] == upTo[|DataUpTo(s, i)|..];
  }

  // ---------- The round trip ----------

  lemma MatrixValue(c: Codec, v: Value)
    requires Formed(v) && Shows(c, v)
    ensures KindOf(v) == 3 && |BytesOf(v)| == 48 <==> v.Floats? && |v.floats| == 12
    ensures v.Floats? && |v.floats| == 12 ==> Rows(c, BytesOf(v), 4) == MatrixRows(c, v.floats)
  {
    if v.Floats? {
      FloatTextsAre(c, v.floats);
      if |v.floats| == 12 {
        MatrixIsShown(c, v.floats);
      }
    }
  }

  /** The own value of a section, and what it makes of the children. */
  lemma OwnRoundTrip(c: Codec, strings: seq<string>, name: string, s: Section, depth: nat)
    requires EncodableSection(s)
    ensures DecodeValue(c, KindOf(s.value), BytesOf(s.value))
         == if Shows(c, s.value) then Some(ShownText(c, s.value)) else None
    ensures Readable(c, strings, Nested(s), depth) ==>
      Assembled(c, name, KindOf(s.value), BytesOf(s.value), ShownText(c, s.value),
                ShownChildren(c, strings, s, |s.children|, depth))
      == Shown(c, strings, name, Nested(s), depth)
  {
    ValueRoundTrip(c, s.value);
    if Shows(c, s.value) {
      MatrixValue(c, s.value);
    }
  }

  /** Decoding an encoded tree shows that tree when it is readable, and fails otherwise. */
  lemma {:induction false} RoundTrip(c: Codec, strings: seq<string>, name: string, body: Body, depth: nat)
    requires Encodable(body)
    ensures ReadNode(c, strings, name, EncodeBody(body), BodyKind(body), depth)
         == if Readable(c, strings, body, depth) then Some(Shown(c, strings, name, body, depth)) else None
    decreases body, 0
  {
    if depth <= c.maxDepth && body.Nested? {
      var s := body.section;
      var n := |s.children|;
      HeaderRead(s);
      MarkRead(s, 0);
      ChildrenRoundTrip(c, strings, s, n, depth);
      OwnRoundTrip(c, strings, name, s, depth);
    } else if body.Scalar? {
      ValueRoundTrip(c, body.value);
    }
  }

  lemma ChildRoundTrip(c: Codec, strings: seq<string>, s: Section, i: nat, depth: nat)
    requires EncodableSection(s) && i < |s.children|
    requires HeaderIsSound(EncodeSection(s)) && ChildCount(EncodeSection(s)) == |s.children|
    ensures ReadChild(c, strings, EncodeSection(s), i, depth) == ExpectedChild(c, strings, s.children[i], depth)
    decreases s, 0, 0
  {
    var child := s.children[i];
    ChildRead(s, i);
    KeyRead(s, i);
    MarkRead(s, i + 1);
    var name := ChildName(c, strings, child.key);
    if name.Some? {
      RoundTrip(c, strings, name.value, child.body, depth + 1);
    }
  }

  /** What reading children and one more child comes to. */
  ghost function WithNext(init: Option<seq<PackedNode>>, last: Option<PackedNode>): Option<seq<PackedNode>> {
    if init == None || last == None then None else Some(init.value + [last.value])
  }

  ghost function ExpectedChildren(c: Codec, strings: seq<string>, s: Section, n: nat, depth: nat):
    Option<seq<PackedNode>>
    requires n <= |s.children|
  {
    if ReadableChildren(c, strings, s, n, depth) then Some(ShownChildren(c, strings, s, n, depth)) else None
  }

  ghost function ExpectedChild(c: Codec, strings: seq<string>, child: Child, depth: nat): Option<PackedNode> {
    if ReadableChild(c, strings, child, depth) then Some(ShownChild(c, strings, child, depth)) else None
  }

  lemma ReadNext(c: Codec, strings: seq<string>, section: seq<byte>, n: nat, depth: nat)
    requires HeaderIsSound(section) && 0 < n <= ChildCount(section)
    ensures ReadChildren(c, strings, section, n, depth)
         == WithNext(ReadChildren(c, strings, section, n - 1, depth), ReadChild(c, strings, section, n - 1, depth))
  {
  }

  lemma ExpectedNext(c: Codec, strings: seq<string>, s: Section, n: nat, depth: nat)
    requires 0 < n <= |s.children|
    ensures ExpectedChildren(c, strings, s, n, depth)
         == WithNext(ExpectedChildren(c, strings, s, n - 1, depth), ExpectedChild(c, strings, s.children[n - 1], depth))
  {
    assert ReadableChildren(c, strings, s, n, depth)
      <==> ReadableChildren(c, strings, s, n - 1, depth) && ReadableChild(c, strings, s.children[n - 1], depth);
  }

  /** All of these nodes, if all are there. */
  ghost function Together(nodes: seq<Option<PackedNode>>): Option<seq<PackedNode>> {
    if nodes == [] then Some([]) else WithNext(Together(nodes[..|nodes| - 1]), nodes[|nodes| - 1])
  }

  lemma {:induction false} ReadTogether(c: Codec, strings: seq<string>, section: seq<byte>, depth: nat,
                                        nodes: seq<Option<PackedNode>>)
    requires HeaderIsSound(section) && |nodes| <= ChildCount(section)
    requires forall i :: 0 <= i < |nodes| ==> nodes[i] == ReadChild(c, strings, section, i, depth)
    ensures ReadChildren(c, strings, section, |nodes|, depth) == Together(nodes)
  {
    if nodes != [] {
      ReadTogether(c, strings, section, depth, nodes[..|nodes| - 1]);
      ReadNext(c, strings, section, |nodes|, depth);
    }
  }

  lemma {:induction false} ExpectedTogether(c: Codec, strings: seq<string>, s: Section, depth: nat,
                                            nodes: seq<Option<PackedNode>>)
    requires |nodes| <= |s.children|
    requires forall i :: 0 <= i < |nodes| ==> nodes[i] == ExpectedChild(c, strings, s.children[i], depth)
    ensures ExpectedChildren(c, strings, s, |nodes|, depth) == Together(nodes)
  {
    if nodes != [] {
      ExpectedTogether(c, strings, s, depth, nodes[..|nodes| - 1]);
      ExpectedNext(c, strings, s, |nodes|, depth);
    }
  }

  lemma {:induction false} ChildrenRoundTrip(c: Codec, strings: seq<string>, s: Section, n: nat, depth: nat)
    requires EncodableSection(s) && n <= |s.children|
    requires HeaderIsSound(EncodeSection(s)) && ChildCount(EncodeSection(s)) == |s.children|
    ensures ReadChildren(c, strings, EncodeSection(s), n, depth) == ExpectedChildren(c, strings, s, n, depth)
    decreases s, 1
  {
    var nodes := seq(n, i requires 0 <= i < n => ExpectedChild(c, strings, s.children[i], depth));
    forall i | 0 <= i < n
      ensures nodes[i] == ReadChild(c, strings, EncodeSection(s), i, depth)
    {
      ChildRoundTrip(c, strings, s, i, depth);
    }
    ReadTogether(c, strings, EncodeSection(s), depth, nodes);
    ExpectedTogether(c, strings, s, depth, nodes);
  }
}
