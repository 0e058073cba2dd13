/** `MoCatalogueConverter`: from the bytes of an MO file to PO text that is known to read back. */
module MoConverter {
  import opened Wrappers
  import opened PackedSection
  import opened PoText
  import opened PoCatalogue

  type Decoder = seq<byte> -> Option<string>

  /** The charset lookup, the UTF-8 length of a text, and the size limits of the policy. */
  datatype Setting = Setting(decoder: seq<byte> -> Option<Decoder>, utf8Length: string -> nat,
                             maxBytes: nat, maxOutput: nat)

  datatype RawEntry = RawEntry(original: seq<byte>, translation: seq<byte>)

  const LITTLE_MAGIC: seq<byte> := [0xDE, 0x12, 0x04, 0x95]
  const BIG_MAGIC: seq<byte> := [0x95, 0x04, 0x12, 0xDE]
  const MAX_MESSAGES: nat := 10_000_000

  /** `struct.unpack` of one unsigned word in either byte order. */
  function Word(little: bool, s: seq<byte>, at: nat): (n: nat)
    requires at + 4 <= |s|
    ensures n < 0x1_0000_0000
  {
    if little then U32At(s, at) else U32At([s[at + 3], s[at + 2], s[at + 1], s[at]], 0)
  }

  /** String `i` of the table at `table`: its length and then its position, or nothing past the end of the file. */
  function StringAt(little: bool, data: seq<byte>, table: nat, i: nat): Option<seq<byte>>
    requires table + i * 8 + 8 <= |data|
  {
    var length, position := Word(little, data, table + i * 8), Word(little, data, table + i * 8 + 4);
    if position + length > |data| then None else Some(data[position..position + length])
  }

  /** The header of an MO file that the converter accepts. */
  predicate HeaderIsSound(data: seq<byte>) {
    && |data| >= 28
    && (data[..4] == LITTLE_MAGIC || data[..4] == BIG_MAGIC)
    && var little := data[..4] == LITTLE_MAGIC;
    && Word(little, data, 4) / 0x1_0000 <= 1
    && Word(little, data, 8) <= MAX_MESSAGES
    && Word(little, data, 12) + Word(little, data, 8) * 8 <= |data|
    && Word(little, data, 16) + Word(little, data, 8) * 8 <= |data|
  }

  /** The entries are those the two tables of the file list, in their order. */
  predicate Lists(data: seq<byte>, entries: seq<RawEntry>) {
    && HeaderIsSound(data)
    && var little := data[..4] == LITTLE_MAGIC;
    && |entries| == Word(little, data, 8)
    && TablesHold(little, data, Word(little, data, 12), Word(little, data, 16), entries)
  }

  /** The tables at these positions begin with these entries. */
  predicate TablesHold(little: bool, data: seq<byte>, originals: nat, translations: nat, entries: seq<RawEntry>)
    requires originals + |entries| * 8 <= |data| && translations + |entries| * 8 <= |data|
  {
    forall i :: 0 <= i < |entries| ==>
      && StringAt(little, data, originals, i) == Some(entries[i].original)
      && StringAt(little, data, translations, i) == Some(entries[i].translation)
  }

  /** `_parse_raw`. */
  method ParseRaw(data: seq<byte>) returns (r: Result<seq<RawEntry>>)
    ensures r.Ok? ==> Lists(data, r.value)
    ensures r.Err? ==> forall entries :: !Lists(data, entries)
  {
    if |data| < 28 {
      return Err("MO catalogue header is truncated");
    }
    if data[..4] != LITTLE_MAGIC && data[..4] != BIG_MAGIC {
      return Err("MO catalogue magic is invalid");
    }
    var little := data[..4] == LITTLE_MAGIC;
    var revision, count := Word(little, data, 4), Word(little, data, 8);
    var originals, translations := Word(little, data, 12), Word(little, data, 16);
    if revision / 0x1_0000 > 1 {
      return Err("unsupported MO major revision");
    }
    if count > MAX_MESSAGES {
      return Err("MO message count exceeds policy");
    }
    if originals + count * 8 > |data| || translations + count * 8 > |data| {
      return Err("MO string table is out of bounds");
    }
    r := ReadTables(little, data, originals, translations, count);
  }

  /** The loop of `_parse_raw` over the two tables. */
  method ReadTables(little: bool, data: seq<byte>, originals: nat, translations: nat,
                    count: nat) returns (r: Result<seq<RawEntry>>)
    requires originals + count * 8 <= |data| && translations + count * 8 <= |data|
    ensures r.Ok? ==> |r.value| == count && TablesHold(little, data, originals, translations, r.value)
    ensures r.Err? ==> forall entries ::
                         |entries| == count ==> !TablesHold(little, data, originals, translations, entries)
  {
    var entries: seq<RawEntry> := [];
    for index := 0 to count
      invariant |entries| == index
      invariant TablesHold(little, data, originals, translations, entries)
    {
      var original := StringAt(little, data, originals, index);
      var translation := StringAt(little, data, translations, index);
      if original == None || translation == None {
        return Err("MO message string is out of bounds");
      }
      entries := entries + [RawEntry(original.value, translation.value)];
    }
    r := Ok(entries);
  }

  /** `split(b"\0")`. */
  function SplitAt(s: seq<byte>, separator: byte): (parts: seq<seq<byte>>)
    ensures parts != []
  {
    if s == [] then [[]]
    else
      var rest := SplitAt(s[1..], separator);
      if s[0] == separator then [[]] + rest else [[s[0]] + rest[0]] + rest[1..]
  }

  function DecodeAll(decode: Decoder, parts: seq<seq<byte>>): (r: Option<seq<string>>)
    ensures r.Some? ==> |r.value| == |parts|
  {
    if parts == [] then Some([])
    else
      var first, rest := decode(parts[0]), DecodeAll(decode, parts[1..]);
      if first == None || rest == None then None else Some([first.value] + rest.value)
  }

  /** The context stands before the first EOT byte of the message id. */
  function ContextLength(s: seq<byte>): (k: nat)
    ensures k <= |s| && (k < |s| ==> s[k] == 4) && forall i :: 0 <= i < k ==> s[i] != 4
  {
    if s == [] then 0 else if s[0] == 4 then 0 else 1 + ContextLength(s[1..])
  }

  /** `_decode_entry`. */
  function DecodeEntry(raw: RawEntry, decode: Decoder): (r: Option<MoEntry>)
    ensures r.Some? ==> WellFormed(r.value)
  {
    var parts := SplitAt(raw.original, 0);
    if |parts| > 2 then None
    else
      var k := ContextLength(parts[0]);
      var hasContext := k < |parts[0]|;
      var context := if hasContext then decode(parts[0][..k]) else None;
      var msgid := decode(if hasContext then parts[0][k + 1..] else parts[0]);
      var plural := if |parts| == 2 then decode(parts[1]) else None;
      var translations := DecodeAll(decode, SplitAt(raw.translation, 0));
      if (hasContext && context == None) || msgid == None || (|parts| == 2 && plural == None) || translations == None
      then None
      else if plural == None && |translations.value| != 1 then None
      else Some(MoEntry(context, msgid.value, plural, translations.value))
  }

  function DecodeEntries(raw: seq<RawEntry>, decode: Decoder): (r: Option<seq<MoEntry>>)
    ensures r.Some? ==> |r.value| == |raw| && forall e <- r.value :: WellFormed(e)
  {
    if raw == [] then Some([])
    else
      var init, last := DecodeEntries(raw[..|raw| - 1], decode), DecodeEntry(raw[|raw| - 1], decode);
      if init == None || last == None then None else Some(init.value + [last.value])
  }

  /** The translation of the empty message, which carries the charset. */
  function HeaderOf(raw: seq<RawEntry>): seq<byte> {
    if raw == [] then [] else if raw[0].original == [] then raw[0].translation else HeaderOf(raw[1..])
  }

  /** The catalogue that an MO file holds. */
  ghost predicate Holds(data: seq<byte>, setting: Setting, entries: seq<MoEntry>) {
    exists raw :: Lists(data, raw) && setting.decoder(HeaderOf(raw)).Some?
                  && DecodeEntries(raw, setting.decoder(HeaderOf(raw)).value) == Some(entries)
  }

  /** `_parse_rendered`. */
  method ParseRendered(value: string) returns (r: Option<seq<MoEntry>>)
    ensures r == Parsed(value)
  {
    var groups := SplitGaps(StripNewlines(value));
    var result: seq<MoEntry> := [];
    for g := 0 to |groups|
      invariant ParseGroups(groups[..g]) == Some(result)
    {
      ghost var upTo := groups[..g + 1];
      assert upTo[..g] == groups[..g] && upTo[g] == groups[g];
      var lines := SplitLines(groups[g]);
      var f := NO_FIELDS;
      for l := 0 to |lines|
        invariant ParseLines(lines, NO_FIELDS) == ParseLines(lines[l..], f)
      {
        assert lines[l..][1..] == lines[l + 1..];
        var d := ParseLine(lines[l]);
        var next := if d == None then None else Accept(f, d.value);
        if next == None {
          RejectedGroup(groups, g);
          return None;
        }
        f := next.value;
      }
      var entry := Finish(f);
      if entry == None {
        RejectedGroup(groups, g);
        return None;
      }
      result := result + [entry.value];
    }
    assert groups[..|groups|] == groups;
    r := Some(result);
  }

  lemma {:induction false} RejectedGroup(groups: seq<string>, g: nat)
    requires g < |groups| && ParseGroup(groups[g]) == None
    ensures ParseGroups(groups) == None
    decreases |groups|
  {
    if g < |groups| - 1 {
      RejectedGroup(groups[..|groups| - 1], g);
    }
  }

  /**
   `convert`: a catalogue is converted exactly when it has an entry, none of its strings has a line
   break that JSON leaves as it is, and the output is not too long; the text then reads back as it.
   */
  method Convert(data: seq<byte>, setting: Setting) returns (r: Result<string>)
    ensures r.Ok? ==> exists entries :: Holds(data, setting, entries) && Parsed(r.value) == Some(entries)
                                        && (forall e <- entries :: WellFormed(e)) && r.value == Render(entries)
    ensures r.Err? && |data| <= setting.maxBytes ==>
      forall entries :: Holds(data, setting, entries) && (forall e <- entries :: WellFormed(e)) ==>
        entries == [] || (exists e <- entries :: !CleanEntry(e))
        || setting.utf8Length(Render(entries)) > setting.maxOutput
  {
    if |data| > setting.maxBytes {
      return Err("MO catalogue exceeds the configured size limit");
    }
    var raw :- ParseRaw(data);
    forall other | Lists(data, other)
      ensures other == raw
    {
      SameEntries(data, raw, other);
    }
    var decoder := setting.decoder(HeaderOf(raw));
    if decoder == None {
      return Err("MO catalogue declares unknown charset");
    }
    var entries := DecodeEntries(raw, decoder.value);
    if entries == None {
      return Err("MO message is invalid");
    }
    var rendered := Render(entries.value);
    RenderedIsRead(entries.value);
    if setting.utf8Length(rendered) > setting.maxOutput {
      return Err("PO catalogue output exceeds the configured size limit");
    }
    var back := ParseRendered(rendered);
    if back != Some(entries.value) {
      return Err("PO catalogue round-trip verification failed");
    }
    r := Ok(rendered);
  }

  /** The tables of a file list one catalogue only. */
  lemma SameEntries(data: seq<byte>, a: seq<RawEntry>, b: seq<RawEntry>)
    requires Lists(data, a) && Lists(data, b)
    ensures a == b
  {
    var little := data[..4] == LITTLE_MAGIC;
    SameTables(little, data, Word(little, data, 12), Word(little, data, 16), a, b);
  }

  lemma SameTables(little: bool, data: seq<byte>, originals: nat, translations: nat, a: seq<RawEntry>, b: seq<RawEntry>)
    requires |a| == |b| && originals + |a| * 8 <= |data| && translations + |a| * 8 <= |data|
    requires TablesHold(little, data, originals, translations, a)
    requires TablesHold(little, data, originals, translations, b)
    ensures a == b
  {
    forall i | 0 <= i < |a|
      ensures a[i] == b[i]
    {
      assert Some(a[i].original) == Some(b[i].original);
    }
  }
}
