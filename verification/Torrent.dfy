/** `parse_torrent`: from the accepted bencoded value to the metainfo, whose info hash covers the info span. */
module Torrent {
  import opened Wrappers
  import opened Sorting
  import opened Bencode
  import opened TorrentParser

  datatype TorrentFile = TorrentFile(path: seq<Bytes>, size: nat, sourceSha1: Option<Bytes>, padding: bool)

  datatype Metainfo = Metainfo(
    infoHash: Bytes, name: Bytes, multiFile: bool, pieceLength: nat, pieceCount: nat, pieces: Bytes,
    files: seq<TorrentFile>, totalSize: nat)

  predicate SafeComponent(c: Bytes) {
    && 0 < |c| <= 255 && c != "." && c != ".."
    && forall i :: 0 <= i < |c| ==> c[i] != '/' && c[i] != '\\' && ' ' <= c[i] && c[i] as int != 127
  }

  /** The checks of `BytesPath`: what `bytes_path` accepts. */
  predicate SafePath(path: seq<Bytes>) {
    && path != []
    && (forall i :: 0 <= i < |path| ==> SafeComponent(path[i]))
    && SumBy(path, (c: Bytes) => |c| + 1) <= 4096
  }

  /** An optional SHA-1 field, absent or twenty bytes long. */
  predicate Sha1Field(fields: seq<Entry>, sha1: Option<Bytes>) {
    match Lookup(fields, "sha1")
    case None => sha1 == None
    case Some(v) => v.BBytes? && |v.s| == 20 && sha1 == Some(v.s)
  }

  predicate NaturalField(fields: seq<Entry>, key: Bytes, n: int) {
    n >= 0 && Lookup(fields, key) == Some(BInt(n))
  }

  /** The attribute string of a file, empty when absent. */
  predicate Attributes(fields: seq<Entry>, attributes: Bytes) {
    match Lookup(fields, "attr")
    case None => attributes == ""
    case Some(v) => v == BBytes(attributes)
  }

  function AsValue(): Bytes -> BValue {
    (c: Bytes) => BBytes(c)
  }

  /** The entry of a multi-file layout that describes `file`. */
  ghost predicate DescribesFile(raw: BValue, file: TorrentFile) {
    && raw.BDict?
    && NaturalField(raw.entries, "length", file.size)
    && Lookup(raw.entries, "path") == Some(BList(Map(file.path, AsValue())))
    && SafePath(file.path)
    && Sha1Field(raw.entries, file.sourceSha1)
    && exists attributes :: Attributes(raw.entries, attributes) && 'l' !in attributes
                            && file.padding == ('p' in attributes)
  }

  ghost predicate DescribesFiles(raw: seq<BValue>, files: seq<TorrentFile>) {
    |raw| == |files| && forall i :: 0 <= i < |raw| ==> DescribesFile(raw[i], files[i])
  }

  /** The files of either layout, given the info dictionary and the name. */
  ghost predicate DescribesLayout(
    info: seq<Entry>, limits: Limits, name: Bytes, multiFile: bool, files: seq<TorrentFile>)
  {
    match (Lookup(info, "files"), Lookup(info, "length"))
    case (Some(BList(raw)), None) => multiFile && 0 < |raw| <= limits.maxFiles && DescribesFiles(raw, files)
    case (None, Some(BInt(size))) =>
      && !multiFile && |files| == 1
      && files[0].path == [name] && files[0].size == size && !files[0].padding
      && Sha1Field(info, files[0].sourceSha1)
    case _ => false
  }

  function SizeOf(): TorrentFile -> nat {
    (f: TorrentFile) => f.size
  }

  /** Whole pieces, at least one and not too many, of a positive length. */
  predicate DescribesPieces(info: seq<Entry>, limits: Limits, length: int, count: int, pieces: Bytes) {
    && length > 0 && Lookup(info, "piece length") == Some(BInt(length))
    && Lookup(info, "pieces") == Some(BBytes(pieces))
    && |pieces| == 20 * count && 0 < count <= limits.maxPieces
  }

  /** The metainfo `m` is what a torrent with this root value says. */
  ghost predicate Describes(root: BValue, limits: Limits, sha1: Bytes -> Bytes, m: Metainfo) {
    && root.BDict?
    && Lookup(root.entries, "info").Some?
    && var info := Lookup(root.entries, "info").value;
    && info.BDict?
    && m.infoHash == sha1(Encode(info))
    && Lookup(info.entries, "name") == Some(BBytes(m.name)) && SafePath([m.name])
    && DescribesPieces(info.entries, limits, m.pieceLength, m.pieceCount, m.pieces)
    && DescribesLayout(info.entries, limits, m.name, m.multiFile, m.files)
    && m.totalSize == SumBy(m.files, SizeOf())
    && Covers(m.pieceCount, m.pieceLength, m.totalSize)
    && DistinctPaths(m.files)
  }

  /** Pieces of this length hold the payload, which is not empty, without a piece to spare. */
  predicate Covers(count: nat, length: nat, total: nat) {
    total > 0 && (count - 1) * length < total <= count * length
  }

  predicate DistinctPaths(files: seq<TorrentFile>) {
    forall i, j :: 0 <= i < j < |files| ==> files[i].path != files[j].path
  }

  method ReadPath(raw: seq<BValue>) returns (r: Result<seq<Bytes>>)
    ensures r.Ok? ==> Map(r.value, AsValue()) == raw
    ensures r.Err? ==> forall path :: Map(path, AsValue()) != raw
  {
    var path: seq<Bytes> := [];
    for i := 0 to |raw|
      invariant Map(path, AsValue()) == raw[..i]
    {
      if !raw[i].BBytes? {
        forall p
          ensures Map(p, AsValue()) != raw
        {
          if |p| == |raw| {
            assert Map(p, AsValue())[i].BBytes?;
          }
        }
        return Err("torrent field 'file.path component' must be bytes");
      }
      path := path + [raw[i].s];
    }
    r := Ok(path);
  }

  method ReadSha1(fields: seq<Entry>) returns (r: Result<Option<Bytes>>)
    ensures r.Ok? ==> Sha1Field(fields, r.value)
    ensures r.Err? ==> forall sha1 :: !Sha1Field(fields, sha1)
  {
    var value := Lookup(fields, "sha1");
    if value == None {
      return Ok(None);
    }
    if !value.value.BBytes? || |value.value.s| != 20 {
      return Err("torrent file SHA-1 must contain 20 bytes");
    }
    r := Ok(Some(value.value.s));
  }

  /** One round of the loop over a multi-file layout. */
  method ReadFile(raw: BValue) returns (r: Result<TorrentFile>)
    ensures r.Ok? ==> DescribesFile(raw, r.value)
    ensures r.Err? ==> forall file :: !DescribesFile(raw, file)
  {
    if !raw.BDict? {
      return Err("torrent file must be a dictionary");
    }
    var fields := raw.entries;
    var size := Lookup(fields, "length");
    if size == None || !size.value.BInt? || size.value.i < 0 {
      return Err("torrent file length must be a non-negative integer");
    }
    var rawPath := Lookup(fields, "path");
    if rawPath == None || !rawPath.value.BList? {
      return Err("torrent field 'file.path' must be a list");
    }
    var path :- ReadPath(rawPath.value.items);
    forall p | Map(p, AsValue()) == rawPath.value.items
      ensures p == path
    {
      forall i | 0 <= i < |p|
        ensures p[i] == path[i]
      {
        assert Map(p, AsValue())[i] == Map(path, AsValue())[i];
      }
    }
    if !SafePath(path) {
      return Err("unsafe torrent path");
    }
    var attributesValue := Lookup(fields, "attr");
    if attributesValue != None && !attributesValue.value.BBytes? {
      return Err("torrent field 'file.attr' must be bytes");
    }
    var attributes := if attributesValue == None then "" else attributesValue.value.s;
    assert Attributes(fields, attributes);
    if 'l' in attributes {
      return Err("torrent contains a symlink entry");
    }
    var sha1 :- ReadSha1(fields);
    r := Ok(TorrentFile(path, size.value.i, sha1, 'p' in attributes));
  }

  method ReadFiles(raw: seq<BValue>) returns (r: Result<seq<TorrentFile>>)
    ensures r.Ok? ==> DescribesFiles(raw, r.value)
    ensures r.Err? ==> forall files :: !DescribesFiles(raw, files)
  {
    var files: seq<TorrentFile> := [];
    for i := 0 to |raw|
      invariant DescribesFiles(raw[..i], files)
    {
      var file :- ReadFile(raw[i]);
      files := files + [file];
    }
    assert raw[..|raw|] == raw;
    r := Ok(files);
  }

  lemma SameFile(raw: BValue, f: TorrentFile, g: TorrentFile)
    requires DescribesFile(raw, f) && DescribesFile(raw, g)
    ensures f == g
  {
    assert Map(f.path, AsValue()) == Map(g.path, AsValue());
    forall i | 0 <= i < |f.path|
      ensures f.path[i] == g.path[i]
    {
      assert Map(f.path, AsValue())[i] == Map(g.path, AsValue())[i];
    }
  }

  lemma SameLayout(info: seq<Entry>, limits: Limits, name: Bytes, multi: bool, files: seq<TorrentFile>,
                   multi': bool, files': seq<TorrentFile>)
    requires DescribesLayout(info, limits, name, multi, files) && DescribesLayout(info, limits, name, multi', files')
    ensures multi == multi' && files == files'
  {
    if multi {
      var raw := Lookup(info, "files").value.items;
      forall i | 0 <= i < |raw|
        ensures files[i] == files'[i]
      {
        SameFile(raw[i], files[i], files'[i]);
      }
    } else {
      assert files[0] == files'[0];
    }
  }

  /** A torrent says only one thing: two metainfos that describe the same root agree. */
  lemma DescriptionIsUnique(root: BValue, limits: Limits, sha1: Bytes -> Bytes, m: Metainfo, n: Metainfo)
    requires Describes(root, limits, sha1, m) && Describes(root, limits, sha1, n)
    ensures m == n
  {
    SameLayout(Lookup(root.entries, "info").value.entries, limits, m.name, m.multiFile, m.files, n.multiFile, n.files);
  }

  method ReadLayout(info: seq<Entry>, limits: Limits, name: Bytes) returns (r: Result<(bool, seq<TorrentFile>)>)
    ensures r.Ok? ==> DescribesLayout(info, limits, name, r.value.0, r.value.1)
    ensures r.Err? ==> forall multi, files :: !DescribesLayout(info, limits, name, multi, files)
  {
    var hasFiles, hasLength := Lookup(info, "files").Some?, Lookup(info, "length").Some?;
    if hasFiles == hasLength {
      return Err("torrent must use exactly one single/multi-file layout");
    }
    if hasFiles {
      var rawFiles := Lookup(info, "files").value;
      if !rawFiles.BList? || rawFiles.items == [] || |rawFiles.items| > limits.maxFiles {
        return Err("torrent file count is empty or exceeds the limit");
      }
      var files :- ReadFiles(rawFiles.items);
      r := Ok((true, files));
    } else {
      var size := Lookup(info, "length").value;
      if !size.BInt? || size.i < 0 {
        return Err("torrent file length must be a non-negative integer");
      }
      var own :- ReadSha1(info);
      r := Ok((false, [TorrentFile([name], size.i, own, false)]));
    }
  }

  lemma MulStep(x: int, y: int, c: nat)
    requires x < y
    ensures x * c <= (y - 1) * c
  {
    assert (y - 1 - x) * c >= 0;
    assert (y - 1) * c == (y - 1 - x) * c + x * c;
  }

  /** The expected number of pieces is the only one that covers the payload. */
  lemma PieceCount(count: nat, length: nat, total: nat)
    requires total > 0 && length > 0
    ensures Covers(count, length, total) <==> count == (total + length - 1) / length
  {
    var expected := (total + length - 1) / length;
    assert total + length - 1 == expected * length + (total + length - 1) % length;
    assert (expected - 1) * length == expected * length - length;
    if count < expected {
      MulStep(count, expected, length);
    } else if count > expected {
      MulStep(expected, count, length);
    }
  }

  datatype Pieces = Pieces(length: nat, count: nat, digests: Bytes)

  method ReadPieces(info: seq<Entry>, limits: Limits) returns (r: Result<Pieces>)
    ensures r.Ok? ==> DescribesPieces(info, limits, r.value.length, r.value.count, r.value.digests)
    ensures r.Err? ==> forall length, count, digests :: !DescribesPieces(info, limits, length, count, digests)
  {
    var pieceLength := Lookup(info, "piece length");
    if pieceLength == None || !pieceLength.value.BInt? || pieceLength.value.i <= 0 {
      return Err("torrent piece length must be positive");
    }
    var pieces := Lookup(info, "pieces");
    if pieces == None || !pieces.value.BBytes? || pieces.value.s == "" || |pieces.value.s| % 20 != 0 {
      return Err("torrent pieces must contain complete SHA-1 digests");
    }
    var pieceCount := |pieces.value.s| / 20;
    if pieceCount > limits.maxPieces {
      return Err("torrent piece count exceeds the limit");
    }
    r := Ok(Pieces(pieceLength.value.i, pieceCount, pieces.value.s));
  }

  /** `parse_torrent` on an accepted root value, given the text of the info span. */
  method ReadMetainfo(root: BValue, infoText: Bytes, limits: Limits, sha1: Bytes -> Bytes) returns (r: Result<Metainfo>)
    requires root.BDict? && Lookup(root.entries, "info").Some?
    requires infoText == Encode(Lookup(root.entries, "info").value)
    ensures r.Ok? ==> Describes(root, limits, sha1, r.value)
    ensures r.Err? ==> forall m :: !Describes(root, limits, sha1, m)
  {
    var infoValue := Lookup(root.entries, "info").value;
    if !infoValue.BDict? {
      return Err("torrent field 'info' must be a dictionary");
    }
    var info := infoValue.entries;
    var name := Lookup(info, "name");
    if name == None || !name.value.BBytes? || !SafePath([name.value.s]) {
      return Err("unsafe torrent name");
    }
    var pieces :- ReadPieces(info, limits);
    var layout :- ReadLayout(info, limits, name.value.s);
    forall m | Describes(root, limits, sha1, m)
      ensures m.files == layout.1
    {
      SameLayout(info, limits, name.value.s, layout.0, layout.1, m.multiFile, m.files);
    }
    var totalSize := SumBy(layout.1, SizeOf());
    if totalSize <= 0 {
      return Err("torrent payload must not be empty");
    }
    PieceCount(pieces.count, pieces.length, totalSize);
    if pieces.count != (totalSize + pieces.length - 1) / pieces.length {
      return Err("torrent piece hashes do not cover the payload");
    }
    if !DistinctPaths(layout.1) {
      return Err("torrent contains duplicate file paths");
    }
    r := Ok(Metainfo(sha1(infoText), name.value.s, layout.0, pieces.length, pieces.count, pieces.digests,
                     layout.1, totalSize));
  }

  /** `parse_torrent`: exactly the torrents that describe some metainfo are read, each as that metainfo. */
  method ParseTorrent(data: Bytes, limits: Limits, sha1: Bytes -> Bytes) returns (r: Result<Metainfo>)
    ensures r.Ok? ==> exists root :: Accepted(data, limits, root) && Describes(root, limits, sha1, r.value)
    ensures r.Err? ==> forall root, m :: Accepted(data, limits, root) ==> !Describes(root, limits, sha1, m)
  {
    var parser := new BencodeParser(data, limits);
    var root :- parser.Parse();
    forall other | Accepted(data, limits, other)
      ensures other == root
    {
      AcceptedValueIsUnique(data, limits, root, other);
    }
    if !root.BDict? || Lookup(root.entries, "info") == None {
      return Err("required torrent field 'info' is missing");
    }
    var span := parser.infoSpan.value;
    r := ReadMetainfo(root, data[span.0..span.1], limits, sha1);
  }
}