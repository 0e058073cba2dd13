/**
 The values of packed sections, from their own side: how each is written and what it is shown as, and
 that the decoder reads back exactly the values written.
 */
module PackedValues {
  import opened Wrappers
  import opened Sorting
  import Bencode
  import opened Decimal
  import opened PackedSection

  /**
   What a section or scalar holds: nothing of its own, text, an integer of some width, a vector of
   floats, a truth, a blob, a blob behind a marker, masked or not; or bytes that hold no such value.
   */
  datatype Value =
    | Nothing
    | Text(utf8: seq<byte>)
    | Number(n: int, width: nat)
    | Floats(floats: seq<seq<byte>>)
    | Truth(marks: seq<byte>)
    | Blob(content: seq<byte>)
    | Marked(masked: bool, content: seq<byte>)
    | Raw(kind: nat, bytes: seq<byte>)

  ghost function KindOf(v: Value): nat {
    match v
    case Nothing => 0
    case Text(_) => 1
    case Number(_, _) => 2
    case Floats(_) => 3
    case Truth(_) => 4
    case Blob(_) => 5
    case Marked(_, _) => 6
    case Raw(kind, _) => kind
  }

  /** The lowest `width` bytes of a number in two's complement, the lowest first. */
  ghost function TwosComplement(n: int, width: nat): seq<byte>
    decreases width
  {
    if width == 0 then [] else [n % 0x100] + TwosComplement(n / 0x100, width - 1)
  }

  /** The mask inverts the third, fourth, fifth and last bit of a byte. */
  ghost function Mask(content: seq<byte>): seq<byte> {
    seq(|content|, i requires 0 <= i < |content| => Flip(Flip(Flip(Flip(content[i], 0x04), 0x08), 0x10), 0x80))
  }

  ghost function BytesOf(v: Value): seq<byte> {
    match v
    case Nothing => []
    case Text(utf8) => utf8
    case Number(n, width) => TwosComplement(n, width)
    case Floats(floats) => Flatten(floats)
    case Truth(marks) => marks
    case Blob(content) => content
    case Marked(masked, content) => if masked then [1] + Mask(content) else [0] + content
    case Raw(_, bytes) => bytes
  }

  /** The least number that has no room in this many bytes. */
  ghost function Limit(width: nat): int {
    match width
    case 1 => 0x80
    case 2 => 0x8000
    case 4 => 0x8000_0000
    case 8 => 0x8000_0000_0000_0000
    case _ => 0
  }

  /** Integers take one, two, four or eight bytes, zero none as well; a vector has at most twelve floats. */
  ghost predicate Proper(v: Value) {
    match v
    case Number(n, width) => (n == 0 && width == 0) || -Limit(width) <= n < Limit(width)
    case Floats(floats) => |floats| <= 12 && forall i :: 0 <= i < |floats| ==> |floats[i]| == 4
    case Raw(_, _) => false
    case _ => true
  }

  /** Raw bytes are those that hold no proper value. */
  ghost predicate Formed(v: Value) {
    if v.Raw? then forall w :: Proper(w) ==> KindOf(w) != v.kind || BytesOf(w) != v.bytes
    else Proper(v)
  }

  /** One space between two. */
  ghost function Spaced(texts: seq<string>): string {
    if texts == [] then ""
    else if |texts| == 1 then texts[0]
    else Spaced(texts[..|texts| - 1]) + [' '] + texts[|texts| - 1]
  }

  ghost function FloatWords(c: Codec, floats: seq<seq<byte>>): seq<string> {
    seq(|floats|, i requires 0 <= i < |floats| => c.floatText(floats[i]))
  }

  /** Text has to be UTF-8 without control characters but tab, line feed and carriage return. */
  ghost predicate Shows(c: Codec, v: Value) {
    match v
    case Text(utf8) =>
      && c.utf8(utf8).Some?
      && forall ch <- c.utf8(utf8).value :: ch as int >= 0x20 || ch as int in {0x09, 0x0A, 0x0D}
    case Raw(_, _) => false
    case _ => true
  }

  ghost function ShownText(c: Codec, v: Value): string
    requires Shows(c, v)
  {
    match v
    case Nothing => ""
    case Text(utf8) => c.utf8(utf8).value
    case Number(n, _) => Bencode.IntText(n)
    case Floats(floats) => Spaced(FloatWords(c, floats))
    case Truth(marks) => if marks == [] then "false" else "true"
    case Blob(content) => c.base64(content)
    case Marked(_, content) => c.base64(content)
  }

  // ---------- Integers ----------

  /** What is left of a number above its lowest bytes. */
  ghost function Above(n: int, width: nat): int
    decreases width
  {
    if width == 0 then n else Above(n / 0x100, width - 1)
  }

  lemma {:induction false} LowAndHigh(n: int, width: nat)
    ensures |TwosComplement(n, width)| == width
    ensures n == LittleEndian(TwosComplement(n, width)) + Above(n, width) * Power256(width)
    decreases width
  {
    if width > 0 {
      LowAndHigh(n / 0x100, width - 1);
      var low, high := LittleEndian(TwosComplement(n / 0x100, width - 1)), Above(n, width);
      assert TwosComplement(n, width)[1..] == TwosComplement(n / 0x100, width - 1);
      assert high * (Power256(width - 1) * 0x100) == high * Power256(width - 1) * 0x100;
      assert n == n % 0x100 + (low + high * Power256(width - 1)) * 0x100;
    }
  }

  lemma Shift(x: int, p: int)
    ensures x * (p * 0x100) == x * p * 0x100 && (x + 1) * p == x * p + p
  {
  }

  /** The last byte decides on which half of its range a number lies. */
  lemma {:induction false} LastByteIsHighest(s: seq<byte>)
    requires s != []
    ensures s[|s| - 1] * Power256(|s| - 1) <= LittleEndian(s) < s[|s| - 1] * Power256(|s| - 1) + Power256(|s| - 1)
  {
    if |s| > 1 {
      LastByteIsHighest(s[1..]);
      Shift(s[|s| - 1], Power256(|s| - 2));
      assert Power256(|s| - 1) == Power256(|s| - 2) * 0x100;
    } else {
      assert s[1..] == [];
    }
  }

  /** Half of the numbers of a width are negative. */
  lemma LimitIsHalf(width: nat)
    requires width in {1, 2, 4, 8}
    ensures Limit(width) == 0x80 * Power256(width - 1)
  {
    assert Power256(3) == 0x100_0000 && Power256(5) == 0x100_0000 * Power256(2);
  }

  lemma Times(x: int, y: int, p: nat)
    requires x <= y
    ensures x * p <= y * p
  {
  }

  lemma Halves(n: int, low: nat, high: int, last: int, p: nat)
    requires n == low + high * (p * 0x100) && -0x80 * p <= n < 0x80 * p
    requires 0 <= last < 0x100 && last * p <= low < last * p + p
    ensures n == if last < 0x80 then low else low - p * 0x100
  {
    Times(last, 0xFF, p);
    if high >= 1 {
      Times(1, high, p * 0x100);
    } else if high <= -2 {
      Times(high, -2, p * 0x100);
    } else if last < 0x80 {
      Times(last, 0x7F, p);
    } else {
      Times(0x80, last, p);
    }
  }

  /** A number in range is read back from its two's complement. */
  lemma SignedRoundTrip(n: int, width: nat)
    requires -Limit(width) <= n < Limit(width)
    ensures var data := TwosComplement(n, width);
      |data| == width && width in {1, 2, 4, 8} && SignedLittleEndian(data) == n
  {
    var data := TwosComplement(n, width);
    LowAndHigh(n, width);
    LastByteIsHighest(data);
    LimitIsHalf(width);
    Halves(n, LittleEndian(data), Above(n, width), data[width - 1], Power256(width - 1));
  }

  lemma LowByte(b: byte, n: int)
    ensures (b + n * 0x100) % 0x100 == b && (b + n * 0x100) / 0x100 == n
  {
  }

  lemma {:induction false} TwosOfLittleEndian(data: seq<byte>, high: int)
    ensures TwosComplement(LittleEndian(data) + high * Power256(|data|), |data|) == data
  {
    if data != [] {
      var low := LittleEndian(data[1..]) + high * Power256(|data| - 1);
      Shift(high, Power256(|data| - 1));
      assert LittleEndian(data) + high * Power256(|data|) == data[0] + low * 0x100;
      LowByte(data[0], low);
      TwosOfLittleEndian(data[1..], high);
    }
  }

  lemma InHalf(low: nat, last: int, p: nat)
    requires 0 <= last < 0x100 && last * p <= low < last * p + p
    ensures -0x80 * p <= (if last < 0x80 then low else low - p * 0x100) < 0x80 * p
  {
    if last < 0x80 {
      Times(last, 0x7F, p);
    } else {
      Times(0x80, last, p);
      Times(last, 0xFF, p);
    }
  }

  /** Any bytes of such a width are the two's complement of a number in range. */
  lemma SignedIsProper(data: seq<byte>)
    requires |data| in {1, 2, 4, 8}
    ensures var v := Number(SignedLittleEndian(data), |data|); Proper(v) && BytesOf(v) == data
  {
    var width, last := |data|, data[|data| - 1];
    LastByteIsHighest(data);
    LimitIsHalf(width);
    InHalf(LittleEndian(data), last, Power256(width - 1));
    TwosOfLittleEndian(data, if last < 0x80 then 0 else -1);
  }

  // ---------- Floats ----------

  lemma {:induction false} QuadrupleLength(floats: seq<seq<byte>>)
    requires forall i :: 0 <= i < |floats| ==> |floats[i]| == 4
    ensures |Flatten(floats)| == 4 * |floats|
  {
    if floats != [] {
      QuadrupleLength(floats[1..]);
    }
  }

  lemma {:induction false} FloatTextsAre(c: Codec, floats: seq<seq<byte>>)
    requires forall i :: 0 <= i < |floats| ==> |floats[i]| == 4
    ensures |Flatten(floats)| == 4 * |floats| && FloatTexts(c, Flatten(floats)) == FloatWords(c, floats)
  {
    if floats != [] {
      FloatTextsAre(c, floats[1..]);
      assert Flatten(floats)[..4] == floats[0] && Flatten(floats)[4..] == Flatten(floats[1..]);
      assert FloatWords(c, floats) == [c.floatText(floats[0])] + FloatWords(c, floats[1..]);
    }
  }

  lemma {:induction false} JoinIsSpaced(texts: seq<string>)
    ensures Join(texts) == Spaced(texts)
  {
    if |texts| == 2 {
      assert Spaced(texts[..1]) == texts[0] && Join(texts[1..]) == texts[1];
    } else if |texts| > 2 {
      var last := texts[|texts| - 1];
      JoinIsSpaced(texts[1..]);
      JoinIsSpaced(texts[1..][..|texts| - 2]);
      JoinIsSpaced(texts[..|texts| - 1]);
      assert texts[1..][..|texts| - 2] == texts[..|texts| - 1][1..];
    }
  }

  lemma {:induction false} Quarters(data: seq<byte>) returns (floats: seq<seq<byte>>)
    requires |data| % 4 == 0
    ensures Flatten(floats) == data && |data| == 4 * |floats| && forall i :: 0 <= i < |floats| ==> |floats[i]| == 4
    decreases |data|
  {
    if data == [] {
      floats := [];
    } else {
      var rest := Quarters(data[4..]);
      floats := [data[..4]] + rest;
      assert floats[1..] == rest;
    }
  }

  // ---------- The values of the decoder ----------

  lemma Flip04(b: byte)
    ensures Flip(Flip(b, 0x04), 0x04) == b
  {
    assert (b + 0x04) / 0x04 == b / 0x04 + 1 && (b - 0x04) / 0x04 == b / 0x04 - 1;
  }

  lemma Flip08(b: byte)
    ensures Flip(Flip(b, 0x08), 0x08) == b
  {
    assert (b + 0x08) / 0x08 == b / 0x08 + 1 && (b - 0x08) / 0x08 == b / 0x08 - 1;
  }

  lemma Flip10(b: byte)
    ensures Flip(Flip(b, 0x10), 0x10) == b
  {
    assert (b + 0x10) / 0x10 == b / 0x10 + 1 && (b - 0x10) / 0x10 == b / 0x10 - 1;
  }

  lemma Flip80(b: byte)
    ensures Flip(Flip(b, 0x80), 0x80) == b
  {
    assert (b + 0x80) / 0x80 == b / 0x80 + 1 && (b - 0x80) / 0x80 == b / 0x80 - 1;
  }

  lemma MaskTwice(b: byte)
    ensures Xor9C(Flip(Flip(Flip(Flip(b, 0x04), 0x08), 0x10), 0x80)) == b
  {
    Flip80(Flip(Flip(Flip(b, 0x04), 0x08), 0x10));
    Flip10(Flip(Flip(b, 0x04), 0x08));
    Flip08(Flip(b, 0x04));
    Flip04(b);
  }

  lemma MaskedTwice(b: byte)
    ensures Flip(Flip(Flip(Flip(Xor9C(b), 0x04), 0x08), 0x10), 0x80) == b
  {
    Flip04(Flip(Flip(Flip(b, 0x80), 0x10), 0x08));
    Flip08(Flip(Flip(b, 0x80), 0x10));
    Flip10(Flip(b, 0x80));
    Flip80(b);
  }

  lemma Unmasked(content: seq<byte>)
    ensures |Mask(content)| == |content| && Unmask(Mask(content)) == content
  {
    forall i | 0 <= i < |content|
      ensures Unmask(Mask(content))[i] == content[i]
    {
      MaskTwice(content[i]);
    }
  }

  lemma Remasked(data: seq<byte>)
    ensures Mask(Unmask(data)) == data
  {
    forall i | 0 <= i < |data|
      ensures Mask(Unmask(data))[i] == data[i]
    {
      MaskedTwice(data[i]);
    }
  }

  /** Every scalar that the decoder accepts is the writing of a proper value. */
  lemma DecodedIsProper(c: Codec, kind: nat, data: seq<byte>) returns (v: Value)
    requires DecodeValue(c, kind, data).Some?
    ensures Proper(v) && KindOf(v) == kind && BytesOf(v) == data
  {
    if kind == 0 {
      v := Nothing;
    } else if kind == 1 {
      v := Text(data);
    } else if kind == 2 {
      if data == [] {
        v := Number(0, 0);
      } else {
        SignedIsProper(data);
        v := Number(SignedLittleEndian(data), |data|);
      }
    } else if kind == 3 {
      var floats := Quarters(data);
      v := Floats(floats);
    } else if kind == 4 {
      v := Truth(data);
    } else if kind == 5 {
      v := Blob(data);
    } else {
      Remasked(data[1..]);
      v := Marked(data[0] == 1, if data[0] == 0 then data[1..] else Unmask(data[1..]));
      assert [data[0]] + data[1..] == data;
    }
  }

  /** Any kind and bytes are the writing of some value, if only of one that holds nothing proper. */
  lemma EveryValue(kind: nat, data: seq<byte>) returns (v: Value)
    ensures Formed(v) && KindOf(v) == kind && BytesOf(v) == data
  {
    if w: Value :| Proper(w) && KindOf(w) == kind && BytesOf(w) == data {
      v := w;
    } else {
      v := Raw(kind, data);
    }
  }

  lemma NumberRead(c: Codec, n: int, width: nat)
    requires Proper(Number(n, width))
    ensures DecodeValue(c, 2, TwosComplement(n, width)) == Some(Bencode.IntText(n))
  {
    if width == 0 {
      assert Bencode.IntText(0) == "0";
    } else {
      SignedRoundTrip(n, width);
    }
  }

  lemma FloatsRead(c: Codec, floats: seq<seq<byte>>)
    requires Proper(Floats(floats))
    ensures DecodeValue(c, 3, Flatten(floats)) == Some(Spaced(FloatWords(c, floats)))
  {
    FloatTextsAre(c, floats);
    JoinIsSpaced(FloatWords(c, floats));
  }

  lemma TextRead(c: Codec, utf8: seq<byte>)
    ensures DecodeValue(c, 1, utf8) == if Shows(c, Text(utf8)) then c.utf8(utf8) else None
  {
    if c.utf8(utf8).Some? {
      var text := c.utf8(utf8).value;
      forall i | 0 <= i < |text|
        ensures text[i] in text
      {
      }
    }
  }

  lemma MarkedRead(c: Codec, masked: bool, content: seq<byte>)
    ensures DecodeValue(c, 6, BytesOf(Marked(masked, content))) == Some(c.base64(content))
  {
    Unmasked(content);
    var data := BytesOf(Marked(masked, content));
    assert data[1..] == if masked then Mask(content) else content;
  }

  /** The decoder shows every value that can be shown as what it is, and rejects the others. */
  lemma ValueRoundTrip(c: Codec, v: Value)
    requires Formed(v)
    ensures DecodeValue(c, KindOf(v), BytesOf(v)) == if Shows(c, v) then Some(ShownText(c, v)) else None
  {
    match v
    case Text(utf8) => TextRead(c, utf8);
    case Number(n, width) => NumberRead(c, n, width);
    case Floats(floats) => FloatsRead(c, floats);
    case Marked(masked, content) => MarkedRead(c, masked, content);
    case Raw(kind, bytes) =>
      if DecodeValue(c, kind, bytes).Some? {
        var w := DecodedIsProper(c, kind, bytes);
        assert false;
      }
    case _ =>
  }

  // ---------- Matrices ----------

  /** A matrix of twelve floats is shown as four rows of three. */
  ghost function MatrixRows(c: Codec, floats: seq<seq<byte>>): seq<PackedNode>
    requires |floats| == 12
  {
    var words := FloatWords(c, floats);
    [PackedNode("row0", words[0] + " " + words[1] + " " + words[2], []),
     PackedNode("row1", words[3] + " " + words[4] + " " + words[5], []),
     PackedNode("row2", words[6] + " " + words[7] + " " + words[8], []),
     PackedNode("row3", words[9] + " " + words[10] + " " + words[11], [])]
  }

  lemma {:induction false} FloatAt(floats: seq<seq<byte>>, i: nat, at: nat)
    requires i < |floats| && at == 4 * i && forall j :: 0 <= j < |floats| ==> |floats[j]| == 4
    ensures at + 4 <= |Flatten(floats)| && Flatten(floats)[at..at + 4] == floats[i]
  {
    QuadrupleLength(floats);
    var rest := Flatten(floats[1..]);
    if i > 0 {
      FloatAt(floats[1..], i - 1, at - 4);
      assert (floats[0] + rest)[at..at + 4] == rest[at - 4..at];
    } else {
      assert (floats[0] + rest)[0..4] == floats[0];
    }
  }

  lemma ThreeTexts(c: Codec, data: seq<byte>)
    requires |data| == 12
    ensures FloatTexts(c, data) == [c.floatText(data[0..4]), c.floatText(data[4..8]), c.floatText(data[8..12])]
  {
    assert data[4..][..4] == data[4..8] && data[4..][4..] == data[8..12] && data[8..12][..4] == data[8..12];
    assert FloatTexts(c, data[8..12]) == [c.floatText(data[8..12])] + FloatTexts(c, data[8..12][4..]);
    assert FloatTexts(c, data[4..]) == [c.floatText(data[4..8])] + FloatTexts(c, data[8..12]);
    assert FloatTexts(c, data) == [c.floatText(data[..4])] + FloatTexts(c, data[4..]);
  }

  lemma JoinThree(a: string, b: string, c: string)
    ensures Join([a, b, c]) == a + " " + b + " " + c
  {
    assert [a, b, c][1..] == [b, c] && [b, c][1..] == [c];
    assert Join([b, c]) == b + " " + Join([c]) && Join([c]) == c;
    assert a + " " + (b + " " + c) == a + " " + b + " " + c;
  }

  lemma Part(data: seq<byte>, at: nat, n: nat, i: nat)
    requires at + n <= |data| && i + 4 <= n
    ensures data[at..at + n][i..i + 4] == data[at + i..at + i + 4]
  {
    var part, left, right := data[at..at + n], data[at..at + n][i..i + 4], data[at + i..at + i + 4];
    forall k | 0 <= k < |left|
      ensures left[k] == right[k]
    {
      assert part[i + k] == data[at + (i + k)];
    }
  }

  lemma PartFloat(floats: seq<seq<byte>>, row: nat, j: nat, from: nat)
    requires |floats| == 12 && row < 4 && j < 3 && from == 4 * j
    requires forall i :: 0 <= i < |floats| ==> |floats[i]| == 4
    ensures |Flatten(floats)| == 48
    ensures Flatten(floats)[row * 12..row * 12 + 12][from..from + 4] == floats[3 * row + j]
  {
    QuadrupleLength(floats);
    FloatAt(floats, 3 * row + j, row * 12 + from);
    Part(Flatten(floats), row * 12, 12, from);
  }

  lemma ThreeFloats(c: Codec, floats: seq<seq<byte>>, row: nat)
    requires Proper(Floats(floats)) && |floats| == 12 && row < 4
    ensures |Flatten(floats)| == 48
    ensures FloatTexts(c, Flatten(floats)[row * 12..row * 12 + 12])
         == [c.floatText(floats[3 * row]), c.floatText(floats[3 * row + 1]), c.floatText(floats[3 * row + 2])]
  {
    PartFloat(floats, row, 0, 0);
    PartFloat(floats, row, 1, 4);
    PartFloat(floats, row, 2, 8);
    ThreeTexts(c, Flatten(floats)[row * 12..row * 12 + 12]);
  }

  lemma RowIs(c: Codec, floats: seq<seq<byte>>, row: nat, name: string)
    requires Proper(Floats(floats)) && |floats| == 12 && row < 4 && name == "row" + [Digit(row)]
    ensures |Flatten(floats)| == 48
    ensures var words := FloatWords(c, floats);
      Row(c, Flatten(floats), row)
      == PackedNode(name, words[3 * row] + " " + words[3 * row + 1] + " " + words[3 * row + 2], [])
  {
    ThreeFloats(c, floats, row);
    var words := FloatWords(c, floats);
    JoinThree(words[3 * row], words[3 * row + 1], words[3 * row + 2]);
  }

  lemma FourRows(c: Codec, data: seq<byte>)
    requires |data| == 48
    ensures Rows(c, data, 4) == [Row(c, data, 0), Row(c, data, 1), Row(c, data, 2), Row(c, data, 3)]
  {
    assert Rows(c, data, 2) == [Row(c, data, 0), Row(c, data, 1)];
  }

  lemma RowNames()
    ensures "row" + [Digit(0)] == "row0" && "row" + [Digit(1)] == "row1"
    ensures "row" + [Digit(2)] == "row2" && "row" + [Digit(3)] == "row3"
  {
  }

  lemma MatrixIsShown(c: Codec, floats: seq<seq<byte>>)
    requires Proper(Floats(floats)) && |floats| == 12
    ensures |Flatten(floats)| == 48 && Rows(c, Flatten(floats), 4) == MatrixRows(c, floats)
  {
    RowNames();
    RowIs(c, floats, 0, "row0");
    RowIs(c, floats, 1, "row1");
    RowIs(c, floats, 2, "row2");
    RowIs(c, floats, 3, "row3");
    FourRows(c, Flatten(floats));
  }
}
