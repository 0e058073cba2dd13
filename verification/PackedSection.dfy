/** The packed-section format that `PackedXmlDecoder` reads: what a section of bytes stands for. */
module PackedSection {
  import opened Wrappers
  import opened Decimal
  import Bencode

  type byte = b: int | 0 <= b < 256

  datatype PackedNode = PackedNode(name: string, value: string, children: seq<PackedNode>)

  /** The text conversions the decoder takes from the Python runtime, and the limits of its policy. */
  datatype Codec = Codec(
    utf8: seq<byte> -> Option<string>,
    floatText: seq<byte> -> string,
    base64: seq<byte> -> string,
    safeTag: string -> Option<string>,
    maxDepth: nat,
    maxNodes: nat)

  function Nodes(node: PackedNode): nat {
    1 + NodesOf(node.children)
  }

  function NodesOf(nodes: seq<PackedNode>): nat {
    if nodes == [] then 0 else NodesOf(nodes[..|nodes| - 1]) + Nodes(nodes[|nodes| - 1])
  }

  // ---------- Numbers ----------

  function U16At(s: seq<byte>, at: nat): nat
    requires at + 2 <= |s|
  {
    var low: int, high: int := s[at], s[at + 1];
    low + high * 0x100
  }

  function I16At(s: seq<byte>, at: nat): int
    requires at + 2 <= |s|
  {
    var n := U16At(s, at);
    if n < 0x8000 then n else n - 0x1_0000
  }

  function U32At(s: seq<byte>, at: nat): (n: nat)
    requires at + 4 <= |s|
    ensures n < 0x1_0000_0000
  {
    U16At(s, at) + U16At(s, at + 2) * 0x1_0000
  }

  function LittleEndian(s: seq<byte>): nat {
    if s == [] then 0 else s[0] + LittleEndian(s[1..]) * 0x100
  }

  function Power256(n: nat): nat {
    if n == 0 then 1 else Power256(n - 1) * 0x100
  }

  /** `int.from_bytes(raw, "little", signed=True)`. */
  function SignedLittleEndian(s: seq<byte>): int
    requires s != []
  {
    var n := LittleEndian(s);
    if s[|s| - 1] < 0x80 then n else n - Power256(|s|)
  }

  // ---------- Values ----------

  function FloatTexts(c: Codec, s: seq<byte>): seq<string> {
    if |s| < 4 then [] else [c.floatText(s[..4])] + FloatTexts(c, s[4..])
  }

  function Join(parts: seq<string>): string {
    if parts == [] then ""
    else if |parts| == 1 then parts[0]
    else parts[0] + " " + Join(parts[1..])
  }

  predicate XmlText(s: string) {
    forall i :: 0 <= i < |s| && s[i] < ' ' ==> s[i] == '\t' || s[i] == '\n' || s[i] == '\r'
  }

  function Unmask(s: seq<byte>): seq<byte> {
    seq(|s|, i requires 0 <= i < |s| => Xor9C(s[i]))
  }

  /** Inverts the bit of this weight. */
  function Flip(b: byte, weight: nat): byte
    requires weight in {0x04, 0x08, 0x10, 0x80}
  {
    if b / weight % 2 == 0 then b + weight else b - weight
  }

  /** The exclusive or with 0x9C, which has four bits. */
  function Xor9C(b: byte): byte {
    Flip(Flip(Flip(Flip(b, 0x80), 0x10), 0x08), 0x04)
  }

  /** `_decode_value`: the text of a scalar, or nothing when the decoder rejects it. */
  function DecodeValue(c: Codec, kind: nat, data: seq<byte>): Option<string> {
    if kind == 0 then if data == [] then Some("") else None
    else if kind == 1 then
      var text := c.utf8(data);
      if text.Some? && XmlText(text.value) then text else None
    else if kind == 2 then
      if data == [] then Some("0")
      else if |data| in {1, 2, 4, 8} then Some(Bencode.IntText(SignedLittleEndian(data)))
      else None
    else if kind == 3 then
      if |data| % 4 == 0 && |data| <= 48 then Some(Join(FloatTexts(c, data))) else None
    else if kind == 4 then Some(if data != [] then "true" else "false")
    else if kind == 5 then Some(c.base64(data))
    else if kind == 6 then
      if data == [] || data[0] > 1 then None
      else Some(c.base64(if data[0] == 0 then data[1..] else Unmask(data[1..])))
    else None
  }

  // ---------- Sections ----------

  function HeaderSize(count: nat): nat {
    2 + count * 6 + 4
  }

  /** Mark `i` packs the end of the data of element `i - 1` (28 bits) with its type (4 bits). */
  function Position(section: seq<byte>, i: nat): nat
    requires 2 + i * 6 + 4 <= |section|
  {
    U32At(section, 2 + i * 6) % 0x1000_0000
  }

  function Kind(section: seq<byte>, i: nat): nat
    requires 2 + i * 6 + 4 <= |section|
  {
    U32At(section, 2 + i * 6) / 0x1000_0000
  }

  function Key(section: seq<byte>, i: nat): int
    requires 2 + i * 6 + 6 <= |section|
  {
    I16At(section, 2 + i * 6 + 4)
  }

  /** The section header is complete, and the data positions ascend within the data block. */
  predicate HeaderIsSound(section: seq<byte>) {
    && |section| >= 6
    && var count := I16At(section, 0);
    && 0 <= count && HeaderSize(count) <= |section|
    && (forall i :: 0 <= i <= count ==> Position(section, i) <= |section| - HeaderSize(count))
    && (forall i, j :: 0 <= i < count && j == i + 1 ==> Position(section, i) <= Position(section, j))
  }

  function ChildCount(section: seq<byte>): (n: nat)
    requires HeaderIsSound(section)
    ensures HeaderSize(n) <= |section|
  {
    I16At(section, 0)
  }

  function DataBlock(section: seq<byte>): (block: seq<byte>)
    requires HeaderIsSound(section)
    ensures |block| < |section|
  {
    section[HeaderSize(ChildCount(section))..]
  }

  function OwnData(section: seq<byte>): seq<byte>
    requires HeaderIsSound(section)
  {
    DataBlock(section)[..Position(section, 0)]
  }

  function ChildData(section: seq<byte>, i: nat): (data: seq<byte>)
    requires HeaderIsSound(section) && i < ChildCount(section)
    ensures |data| < |section|
    ensures |data| == Position(section, i + 1) - Position(section, i)
  {
    DataBlock(section)[Position(section, i)..Position(section, i + 1)]
  }

  function ChildName(c: Codec, strings: seq<string>, key: int): Option<string> {
    if 0 <= key < |strings| then c.safeTag(strings[key]) else None
  }

  /** Twelve floats without children are a matrix, which is shown as four rows. */
  predicate IsMatrix(kind: nat, data: seq<byte>, children: seq<PackedNode>) {
    kind == 3 && |data| == 48 && children == []
  }

  function Row(c: Codec, data: seq<byte>, row: nat): PackedNode
    requires row < 4 && row * 12 + 12 <= |data|
  {
    PackedNode("row" + [Digit(row)], Join(FloatTexts(c, data[row * 12..row * 12 + 12])), [])
  }

  function Rows(c: Codec, data: seq<byte>, n: nat): (rows: seq<PackedNode>)
    requires n <= 4 && n * 12 <= |data|
    ensures |rows| == n
  {
    if n == 0 then [] else Rows(c, data, n - 1) + [Row(c, data, n - 1)]
  }

  function Assembled(c: Codec, name: string, kind: nat, data: seq<byte>, value: string,
                     children: seq<PackedNode>): PackedNode {
    if IsMatrix(kind, data, children) then PackedNode(name, "", Rows(c, data, 4))
    else PackedNode(name, value, children)
  }

  /** What a section or scalar stands for when it is read at this depth; nothing when it is rejected. */
  function ReadNode(c: Codec, strings: seq<string>, name: string, data: seq<byte>, kind: nat,
                    depth: nat): Option<PackedNode>
    decreases |data|, 0, 0
  {
    if depth > c.maxDepth then None
    else if kind != 0 then
      var value := DecodeValue(c, kind, data);
      if value == None then None else Some(PackedNode(name, value.value, []))
    else if !HeaderIsSound(data) then None
    else
      var value := DecodeValue(c, Kind(data, 0), OwnData(data));
      if value == None then None
      else
        var children := ReadChildren(c, strings, data, ChildCount(data), depth);
        if children == None then None
        else Some(Assembled(c, name, Kind(data, 0), OwnData(data), value.value, children.value))
  }

  function ReadChild(c: Codec, strings: seq<string>, section: seq<byte>, i: nat, depth: nat): Option<PackedNode>
    requires HeaderIsSound(section) && i < ChildCount(section)
    decreases |section| - 1, 1, 0
  {
    var name := ChildName(c, strings, Key(section, i));
    if name == None then None
    else ReadNode(c, strings, name.value, ChildData(section, i), Kind(section, i + 1), depth + 1)
  }

  /** The first `n` children of a section. */
  function ReadChildren(c: Codec, strings: seq<string>, section: seq<byte>, n: nat,
                        depth: nat): (r: Option<seq<PackedNode>>)
    requires HeaderIsSound(section) && n <= ChildCount(section)
    ensures r.Some? ==> |r.value| == n
    decreases |section| - 1, 2, n
  {
    if n == 0 then Some([])
    else
      var init := ReadChildren(c, strings, section, n - 1, depth);
      var last := ReadChild(c, strings, section, n - 1, depth);
      if init == None || last == None then None else Some(init.value + [last.value])
  }

  lemma {:induction false} ChildrenPrefix(c: Codec, strings: seq<string>, section: seq<byte>, i: nat, n: nat,
                                          depth: nat)
    requires HeaderIsSound(section) && i <= n <= ChildCount(section)
    requires ReadChildren(c, strings, section, n, depth).Some?
    ensures ReadChildren(c, strings, section, i, depth).Some?
    ensures ReadChildren(c, strings, section, i, depth).value == ReadChildren(c, strings, section, n, depth).value[..i]
    ensures NodesOf(ReadChildren(c, strings, section, i, depth).value)
         <= NodesOf(ReadChildren(c, strings, section, n, depth).value)
  {
    var all := ReadChildren(c, strings, section, n, depth).value;
    if i < n {
      ChildrenPrefix(c, strings, section, i, n - 1, depth);
      assert all[..n - 1] == ReadChildren(c, strings, section, n - 1, depth).value;
      assert all[..i] == all[..n - 1][..i];
    } else {
      assert all[..n] == all;
    }
  }

  // ---------- The decoder is linear ----------

  /** Each node but the first has its own six bytes in the header of its parent. */
  lemma {:induction false} NodesAreBounded(c: Codec, strings: seq<string>, name: string, data: seq<byte>, kind: nat,
                                           depth: nat)
    requires ReadNode(c, strings, name, data, kind, depth).Some?
    ensures 6 * (Nodes(ReadNode(c, strings, name, data, kind, depth).value) - 1) <= |data|
    decreases |data|, 0, 0
  {
    if kind == 0 {
      var n := ChildCount(data);
      ChildrenAreBounded(c, strings, data, n, depth);
      var children := ReadChildren(c, strings, data, n, depth).value;
      if IsMatrix(Kind(data, 0), OwnData(data), children) {
        MatrixNodes(c, OwnData(data), 4);
      }
    }
  }

  lemma {:induction false} MatrixNodes(c: Codec, data: seq<byte>, n: nat)
    requires n <= 4 && n * 12 <= |data|
    ensures NodesOf(Rows(c, data, n)) == n
  {
    if n > 0 {
      MatrixNodes(c, data, n - 1);
      assert Rows(c, data, n)[..n - 1] == Rows(c, data, n - 1);
      assert Nodes(Row(c, data, n - 1)) == 1 + NodesOf([]);
    }
  }

  lemma {:induction false} ChildrenAreBounded(c: Codec, strings: seq<string>, section: seq<byte>, n: nat, depth: nat)
    requires HeaderIsSound(section) && n <= ChildCount(section)
    requires ReadChildren(c, strings, section, n, depth).Some?
    ensures 6 * NodesOf(ReadChildren(c, strings, section, n, depth).value)
         <= 6 * n + Position(section, n) - Position(section, 0)
    decreases |section| - 1, 2, n
  {
    if n > 0 {
      ChildrenAreBounded(c, strings, section, n - 1, depth);
      var all := ReadChildren(c, strings, section, n, depth).value;
      assert all[..n - 1] == ReadChildren(c, strings, section, n - 1, depth).value;
      var name := ChildName(c, strings, Key(section, n - 1)).value;
      NodesAreBounded(c, strings, name, ChildData(section, n - 1), Kind(section, n), depth + 1);
    }
  }
}
