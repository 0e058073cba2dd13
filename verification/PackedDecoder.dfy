/** `PackedXmlDecoder`: the decoder with its node counter, over whole packed files. */
module PackedDecoder {
  import opened Wrappers
  import opened PackedSection
  import opened PackedEncoder

  const MAGIC: seq<byte> := [0x45, 0x4E, 0xA1, 0x62]
  const VERSION: byte := 0
  const MAX_STRINGS: nat := 32767

  function FindZero(data: seq<byte>, from: nat): (k: int)
    requires from <= |data|
    ensures k == -1 ==> forall j :: from <= j < |data| ==> data[j] != 0
    ensures k != -1 ==> from <= k < |data| && data[k] == 0 && forall j :: from <= j < k ==> data[j] != 0
    decreases |data| - from
  {
    if from == |data| then -1 else if data[from] == 0 then from else FindZero(data, from + 1)
  }

  /** The string table from `cursor` on, after `values`: the strings and where the section starts. */
  function ReadTable(c: Codec, data: seq<byte>, cursor: nat, values: seq<string>): (r: Option<(seq<string>, nat)>)
    requires cursor <= |data|
    ensures r.Some? ==> r.value.1 <= |data|
    decreases |data| - cursor
  {
    var end := FindZero(data, cursor);
    if end < 0 then None
    else if end == cursor then Some((values, cursor + 1))
    else
      var value := c.utf8(data[cursor..end]);
      if value == None || |values| + 1 > MAX_STRINGS then None
      else ReadTable(c, data, end + 1, values + [value.value])
  }

  /** The names as they are stored: each closed by a zero byte, and an empty one at the end. */
  function TableBytes(names: seq<seq<byte>>): seq<byte> {
    if names == [] then [0] else names[0] + [0] + TableBytes(names[1..])
  }

  predicate TableNames(c: Codec, names: seq<seq<byte>>) {
    forall name <- names :: name != [] && 0 !in name && c.utf8(name).Some?
  }

  function Texts(c: Codec, names: seq<seq<byte>>): (r: seq<string>)
    requires TableNames(c, names)
    ensures |r| == |names|
  {
    if names == [] then [] else [c.utf8(names[0]).value] + Texts(c, names[1..])
  }

  lemma FirstZero(data: seq<byte>, name: seq<byte>, from: nat)
    requires from <= |data| && name + [0] <= data[from..] && 0 !in name
    ensures FindZero(data, from) == from + |name|
    ensures data[from..from + |name|] == name
  {
    assert data[from + |name|] == (name + [0])[|name|];
    forall j | from <= j < from + |name|
      ensures data[j] != 0
    {
      assert data[j] == (name + [0])[j - from] == name[j - from];
    }
    assert data[from..from + |name|] == (name + [0])[..|name|];
  }

  lemma TableStep(data: seq<byte>, cursor: nat, names: seq<seq<byte>>)
    requires cursor <= |data| && names != [] && TableBytes(names) <= data[cursor..] && 0 !in names[0]
    ensures FindZero(data, cursor) == cursor + |names[0]| < |data|
    ensures data[cursor..cursor + |names[0]|] == names[0]
    ensures TableBytes(names[1..]) <= data[cursor + |names[0]| + 1..]
  {
    var head, rest := names[0] + [0], TableBytes(names[1..]);
    assert head <= head + rest;
    FirstZero(data, names[0], cursor);
    assert data[cursor + |head|..][..|rest|] == (head + rest)[|head|..];
  }

  lemma {:induction false} TableRoundTrip(c: Codec, data: seq<byte>, cursor: nat, names: seq<seq<byte>>,
                                          values: seq<string>)
    requires cursor <= |data| && TableBytes(names) <= data[cursor..]
    requires TableNames(c, names) && |values| + |names| <= MAX_STRINGS
    ensures ReadTable(c, data, cursor, values) == Some((values + Texts(c, names), cursor + |TableBytes(names)|))
    decreases |names|
  {
    if names == [] {
      TableEnds(c, data, cursor, values);
    } else {
      TableStep(data, cursor, names);
      ReadTableStep(c, data, cursor, names, values);
      TableRoundTrip(c, data, cursor + |names[0]| + 1, names[1..], values + [c.utf8(names[0]).value]);
      TableParts(c, names, values);
    }
  }

  lemma TableEnds(c: Codec, data: seq<byte>, cursor: nat, values: seq<string>)
    requires cursor <= |data| && [0] <= data[cursor..]
    ensures ReadTable(c, data, cursor, values) == Some((values, cursor + 1))
    ensures values + [] == values
  {
    assert [] + [0] <= data[cursor..];
    FirstZero(data, [], cursor);
  }

  lemma TableParts(c: Codec, names: seq<seq<byte>>, values: seq<string>)
    requires names != [] && TableNames(c, names) && TableNames(c, names[1..])
    ensures values + Texts(c, names) == values + [c.utf8(names[0]).value] + Texts(c, names[1..])
    ensures |TableBytes(names)| == |names[0]| + 1 + |TableBytes(names[1..])|
  {
  }

  lemma ReadTableStep(c: Codec, data: seq<byte>, cursor: nat, names: seq<seq<byte>>, values: seq<string>)
    requires names != [] && TableNames(c, names) && |values| + |names| <= MAX_STRINGS
    requires cursor <= |data| && FindZero(data, cursor) == cursor + |names[0]| < |data|
    requires data[cursor..cursor + |names[0]|] == names[0]
    ensures TableNames(c, names[1..])
    ensures ReadTable(c, data, cursor, values)
         == ReadTable(c, data, cursor + |names[0]| + 1, values + [c.utf8(names[0]).value])
  {
    assert names[0] in names;
  }

  /** What a packed file stands for: the root node, or nothing when the file is rejected. */
  function ReadFile(c: Codec, data: seq<byte>): Option<PackedNode> {
    if |data| < 6 || data[..4] != MAGIC || data[4] != VERSION then None
    else
      var table := ReadTable(c, data, 5, []);
      if table == None then None
      else ReadNode(c, table.value.0, "root", data[table.value.1..], 0, 0)
  }

  ghost function EncodeFile(names: seq<seq<byte>>, s: Section): seq<byte>
    requires EncodableSection(s)
  {
    MAGIC + [VERSION] + TableBytes(names) + EncodeSection(s)
  }

  /** A packed file written by the reference encoder shows the tree and the tags it was made of. */
  lemma FileRoundTrip(c: Codec, names: seq<seq<byte>>, s: Section)
    requires EncodableSection(s) && TableNames(c, names) && |names| <= MAX_STRINGS
    ensures ReadFile(c, EncodeFile(names, s))
         == if Readable(c, Texts(c, names), Nested(s), 0)
            then Some(Shown(c, Texts(c, names), "root", Nested(s), 0)) else None
  {
    var data, table := EncodeFile(names, s), TableBytes(names);
    assert data[..4] == MAGIC && data[4] == VERSION;
    assert data[5..] == table + EncodeSection(s);
    assert [] + Texts(c, names) == Texts(c, names);
    TableRoundTrip(c, data, 5, names, []);
    assert data[5 + |table|..] == EncodeSection(s);
    RoundTrip(c, Texts(c, names), "root", Nested(s), 0);
  }

  /** A whole file yields no more nodes than a sixth of its bytes, and one. */
  lemma FileNodesAreBounded(c: Codec, data: seq<byte>)
    requires ReadFile(c, data).Some?
    ensures 6 * (Nodes(ReadFile(c, data).value) - 1) <= |data|
  {
    var table := ReadTable(c, data, 5, []).value;
    NodesAreBounded(c, table.0, "root", data[table.1..], 0, 0);
  }

  class PackedXmlDecoder {
    const codec: Codec
    const maxBytes: nat
    var nodeCount: nat

    constructor (codec: Codec, maxBytes: nat)
      ensures this.codec == codec && this.maxBytes == maxBytes
    {
      this.codec, this.maxBytes := codec, maxBytes;
    }

    /** The result of reading a node that stands for `node`, when `count` nodes have been counted before. */
    ghost predicate Reads(r: Result<PackedNode>, node: Option<PackedNode>, count: nat)
      reads this
    {
      && (r.Ok? <==> node.Some? && count + Nodes(node.value) <= codec.maxNodes)
      && (r.Ok? ==> r.value == node.value && nodeCount == count + Nodes(node.value))
    }

    method Decode(data: seq<byte>) returns (r: Result<PackedNode>)
      modifies this
      ensures r.Ok? <==> |data| <= maxBytes && ReadFile(codec, data).Some?
                         && Nodes(ReadFile(codec, data).value) <= codec.maxNodes
      ensures r.Ok? ==> r.value == ReadFile(codec, data).value && nodeCount == Nodes(r.value)
    {
      if |data| > maxBytes {
        return Err("packed XML exceeds the configured size limit");
      }
      if |data| < 6 || data[..4] != MAGIC {
        return Err("packed XML magic is missing");
      }
      if data[4] != VERSION {
        return Err("unsupported packed XML version");
      }
      var table :- ReadStringTable(data, 5);
      nodeCount := 0;
      r := Node("root", data[table.1..], 0, table.0, 0);
    }

    method ReadStringTable(data: seq<byte>, start: nat) returns (r: Result<(seq<string>, nat)>)
      requires start <= |data|
      ensures r.Ok? <==> ReadTable(codec, data, start, []).Some?
      ensures r.Ok? ==> r.value == ReadTable(codec, data, start, []).value
    {
      var values: seq<string> := [];
      var cursor := start;
      while true
        invariant cursor <= |data|
        invariant ReadTable(codec, data, start, []) == ReadTable(codec, data, cursor, values)
        decreases |data| - cursor
      {
        var end := FindZero(data, cursor);
        if end < 0 {
          return Err("packed XML string table is not terminated");
        }
        if end == cursor {
          return Ok((values, cursor + 1));
        }
        var value := codec.utf8(data[cursor..end]);
        if value == None {
          return Err("packed XML tag is not UTF-8");
        }
        values := values + [value.value];
        if |values| > MAX_STRINGS {
          return Err("packed XML string table is too large");
        }
        cursor := end + 1;
      }
    }

    method Node(name: string, section: seq<byte>, kind: nat, strings: seq<string>, depth: nat)
      returns (r: Result<PackedNode>)
      modifies this`nodeCount
      ensures Reads(r, ReadNode(codec, strings, name, section, kind, depth), old(nodeCount))
      decreases |section|, 0
    {
      ghost var before := nodeCount;
      nodeCount := nodeCount + 1;
      if nodeCount > codec.maxNodes {
        return Err("packed XML node count exceeds policy");
      }
      if depth > codec.maxDepth {
        return Err("packed XML nesting exceeds policy");
      }
      if kind != 0 {
        var scalar := DecodeValue(codec, kind, section);
        if scalar == None {
          return Err("packed XML value is invalid");
        }
        return Ok(PackedNode(name, scalar.value, []));
      }
      if |section| < 6 {
        return Err("packed XML section header is truncated");
      }
      var childCount := I16At(section, 0);
      if childCount < 0 {
        return Err("packed XML section has a negative child count");
      }
      if HeaderSize(childCount) > |section| {
        return Err("packed XML child records are truncated");
      }
      if !HeaderIsSound(section) {
        return Err("packed XML data positions are out of bounds or not monotonic");
      }
      var ownKind, ownData := Kind(section, 0), OwnData(section);
      var value := DecodeValue(codec, ownKind, ownData);
      if value == None {
        return Err("packed XML value is invalid");
      }
      var children :- Children(section, strings, depth);
      if IsMatrix(ownKind, ownData, children) {
        MatrixNodes(codec, ownData, 4);
        for row := 0 to 4
          invariant nodeCount == before + 1 + row <= codec.maxNodes
        {
          nodeCount := nodeCount + 1;
          if nodeCount > codec.maxNodes {
            return Err("packed XML node count exceeds policy");
          }
        }
        return Ok(PackedNode(name, "", Rows(codec, ownData, 4)));
      }
      r := Ok(PackedNode(name, value.value, children));
    }

    /** One more child, and what it leaves to be said about all of them. */
    lemma NextChild(section: seq<byte>, strings: seq<string>, depth: nat, index: nat, children: seq<PackedNode>)
      requires HeaderIsSound(section) && index < ChildCount(section)
      requires ReadChildren(codec, strings, section, index, depth) == Some(children)
      ensures var child := ReadChild(codec, strings, section, index, depth);
        var all := ReadChildren(codec, strings, section, ChildCount(section), depth);
        && (child.Some? ==> ReadChildren(codec, strings, section, index + 1, depth) == Some(children + [child.value])
                            && NodesOf(children + [child.value]) == NodesOf(children) + Nodes(child.value))
        && (all.Some? ==> child.Some? && NodesOf(children + [child.value]) <= NodesOf(all.value))
    {
      var child := ReadChild(codec, strings, section, index, depth);
      if child.Some? {
        assert (children + [child.value])[..index] == children;
      }
      if ReadChildren(codec, strings, section, ChildCount(section), depth).Some? {
        ChildrenPrefix(codec, strings, section, index + 1, ChildCount(section), depth);
      }
    }

    /** The loop over the child records, in order. */
    method Children(section: seq<byte>, strings: seq<string>, depth: nat) returns (r: Result<seq<PackedNode>>)
      requires HeaderIsSound(section) && nodeCount <= codec.maxNodes
      modifies this`nodeCount
      ensures var all := ReadChildren(codec, strings, section, ChildCount(section), depth);
        && (r.Ok? <==> all.Some? && old(nodeCount) + NodesOf(all.value) <= codec.maxNodes)
        && (r.Ok? ==> r.value == all.value && nodeCount == old(nodeCount) + NodesOf(all.value))
      decreases |section| - 1, 1
    {
      ghost var before := nodeCount;
      var children: seq<PackedNode> := [];
      var count := ChildCount(section);
      for index := 0 to count
        invariant ReadChildren(codec, strings, section, index, depth) == Some(children)
        invariant nodeCount == before + NodesOf(children) <= codec.maxNodes
      {
        NextChild(section, strings, depth, index, children);
        var name := ChildName(codec, strings, Key(section, index));
        if name == None {
          return Err("packed XML child references an unknown or invalid tag");
        }
        var child :- Node(name.value, ChildData(section, index), Kind(section, index + 1), strings, depth + 1);
        children := children + [child];
      }
      r := Ok(children);
    }
  }
}