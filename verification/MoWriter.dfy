/**
 MO files from their own side: how messages are laid out in entries and files, and that the converter
 reads back exactly the messages written.
 */
module MoWriter {
  import opened Wrappers
  import opened PackedSection
  import opened PoCatalogue
  import opened MoConverter
  import PackedEncoder
  import Sorting

  /** A message as bytes: its context and plural form, if it has them, and its translations. */
  datatype Message = Message(context: Option<seq<byte>>, id: seq<byte>, plural: Option<seq<byte>>,
                             translations: seq<seq<byte>>)

  /** Zero bytes separate the parts of a message, and an EOT byte ends its context. */
  ghost predicate Plain(m: Message) {
    && (m.context.Some? ==> 0 !in m.context.value && 4 !in m.context.value)
    && 0 !in m.id && (m.context == None ==> 4 !in m.id)
    && (m.plural.Some? ==> 0 !in m.plural.value)
    && m.translations != [] && forall i :: 0 <= i < |m.translations| ==> 0 !in m.translations[i]
  }

  ghost function Original(m: Message): seq<byte> {
    (if m.context.Some? then m.context.value + [4] else []) + m.id
    + if m.plural.Some? then [0] + m.plural.value else []
  }

  ghost function Joined(parts: seq<seq<byte>>): seq<byte>
    requires parts != []
  {
    if |parts| == 1 then parts[0] else parts[0] + [0] + Joined(parts[1..])
  }

  ghost function Written(m: Message): RawEntry
    requires Plain(m)
  {
    RawEntry(Original(m), Joined(m.translations))
  }

  /** The text of a message, when each of its parts can be decoded; only a plural has several translations. */
  ghost predicate Reads(m: Message, decode: Decoder, e: MoEntry) {
    && decode(m.id) == Some(e.msgid)
    && (m.context.Some? <==> e.context.Some?) && (m.plural.Some? <==> e.plural.Some?)
    && (m.context.Some? ==> decode(m.context.value) == e.context)
    && (m.plural.Some? ==> decode(m.plural.value) == e.plural)
    && |e.translations| == |m.translations| && (m.plural == None ==> |m.translations| == 1)
    && forall i :: 0 <= i < |m.translations| ==> decode(m.translations[i]) == Some(e.translations[i])
  }

  // ---------- Reading an entry back ----------

  lemma {:induction false} SplitPart(part: seq<byte>)
    requires 0 !in part
    ensures SplitAt(part, 0) == [part]
  {
    if part != [] {
      assert forall b :: b in part[1..] ==> b in part;
      SplitPart(part[1..]);
      assert [part[0]] + part[1..] == part;
    }
  }

  lemma {:induction false} SplitFirst(part: seq<byte>, rest: seq<byte>)
    requires 0 !in part
    ensures SplitAt(part + [0] + rest, 0) == [part] + SplitAt(rest, 0)
  {
    var all := part + [0] + rest;
    if part == [] {
      assert all[1..] == rest;
      assert [[]] + SplitAt(rest, 0) == [part] + SplitAt(rest, 0);
    } else {
      assert forall b :: b in part[1..] ==> b in part;
      SplitFirst(part[1..], rest);
      assert all[1..] == part[1..] + [0] + rest;
      assert [part[0]] + part[1..] == part;
      assert ([part[1..]] + SplitAt(rest, 0))[1..] == SplitAt(rest, 0);
    }
  }

  lemma {:induction false} SplitJoined(parts: seq<seq<byte>>)
    requires parts != [] && forall i :: 0 <= i < |parts| ==> 0 !in parts[i]
    ensures SplitAt(Joined(parts), 0) == parts
  {
    if |parts| == 1 {
      SplitPart(parts[0]);
    } else {
      SplitJoined(parts[1..]);
      SplitFirst(parts[0], Joined(parts[1..]));
      assert [parts[0]] + parts[1..] == parts;
    }
  }

  lemma {:induction false} ContextEnds(context: seq<byte>, rest: seq<byte>)
    requires 4 !in context
    ensures ContextLength(context + [4] + rest) == |context|
  {
    var all := context + [4] + rest;
    assert all[|context|] == 4;
    if context != [] {
      assert forall b :: b in context[1..] ==> b in context;
      ContextEnds(context[1..], rest);
      assert all[1..] == context[1..] + [4] + rest;
    }
  }

  lemma NoContext(id: seq<byte>)
    requires 4 !in id
    ensures ContextLength(id) == |id|
  {
  }

  /** The part of a message id before its plural. */
  ghost function Head(m: Message): seq<byte> {
    if m.context.Some? then m.context.value + [4] + m.id else m.id
  }

  lemma HeadAndPlural(m: Message)
    requires Plain(m)
    ensures SplitAt(Original(m), 0) == if m.plural.Some? then [Head(m), m.plural.value] else [Head(m)]
  {
    assert 0 !in Head(m);
    if m.plural.Some? {
      assert Original(m) == Head(m) + [0] + m.plural.value;
      SplitFirst(Head(m), m.plural.value);
      SplitPart(m.plural.value);
    } else {
      assert Original(m) == Head(m);
      SplitPart(Head(m));
    }
  }

  lemma ContextAndId(m: Message)
    requires Plain(m)
    ensures var k := ContextLength(Head(m));
      && (k < |Head(m)| <==> m.context.Some?)
      && (m.context.Some? ==> Head(m)[..k] == m.context.value && Head(m)[k + 1..] == m.id)
  {
    if m.context.Some? {
      ContextEnds(m.context.value, m.id);
    } else {
      NoContext(m.id);
    }
  }

  lemma {:induction false} AllDecoded(decode: Decoder, parts: seq<seq<byte>>, texts: seq<string>)
    ensures DecodeAll(decode, parts) == Some(texts)
      <==> |texts| == |parts| && forall i :: 0 <= i < |parts| ==> decode(parts[i]) == Some(texts[i])
  {
    if parts != [] && texts != [] {
      AllDecoded(decode, parts[1..], texts[1..]);
      assert texts == [texts[0]] + texts[1..];
    }
  }

  /** An entry is read as the message that was written, and as nothing else. */
  lemma MessageRoundTrip(m: Message, decode: Decoder, e: MoEntry)
    requires Plain(m)
    ensures DecodeEntry(Written(m), decode) == Some(e) <==> Reads(m, decode, e)
  {
    HeadAndPlural(m);
    ContextAndId(m);
    SplitJoined(m.translations);
    AllDecoded(decode, m.translations, e.translations);
  }

  // ---------- Files ----------

  /** One word in either byte order. */
  ghost function Four(little: bool, n: nat): seq<byte>
    requires n < 0x1_0000_0000
  {
    var a, b, c, d := n % 0x100, n / 0x100 % 0x100, n / 0x1_0000 % 0x100, n / 0x100_0000;
    if little then [a, b, c, d] else [d, c, b, a]
  }

  /** The first `n` strings, one after the other. */
  ghost function Pool(strings: seq<seq<byte>>, n: nat): seq<byte>
    requires n <= |strings|
  {
    if n == 0 then [] else Pool(strings, n - 1) + strings[n - 1]
  }

  ghost function All(strings: seq<seq<byte>>): seq<byte> {
    Pool(strings, |strings|)
  }

  /** Lengths and positions have room in their words. */
  ghost predicate Fits(strings: seq<seq<byte>>, base: nat) {
    forall i {:trigger HasRoom(strings, base, i)} :: 0 <= i < |strings| ==> HasRoom(strings, base, i)
  }

  ghost predicate HasRoom(strings: seq<seq<byte>>, base: nat, i: nat)
    requires i < |strings|
  {
    base + |Pool(strings, i)| + |strings[i]| < 0x1_0000_0000
  }

  /** The entries of a table for the first `n` strings: length, and position when the first of them lies at `base`. */
  ghost function EntriesUpTo(little: bool, strings: seq<seq<byte>>, base: nat, n: nat): (entries: seq<seq<byte>>)
    requires n <= |strings| && Fits(strings, base)
    ensures |entries| == n && forall i :: 0 <= i < n ==> |entries[i]| == 8
  {
    if n == 0 then []
    else
      assert HasRoom(strings, base, n - 1);
      EntriesUpTo(little, strings, base, n - 1)
      + [Four(little, |strings[n - 1]|) + Four(little, base + |Pool(strings, n - 1)|)]
  }

  ghost function Entries(little: bool, strings: seq<seq<byte>>, base: nat): (entries: seq<seq<byte>>)
    requires Fits(strings, base)
    ensures |entries| == |strings| && forall i :: 0 <= i < |entries| ==> |entries[i]| == 8
  {
    EntriesUpTo(little, strings, base, |strings|)
  }

  /** The originals, and after them the translations. */
  ghost function StringsOf(raw: seq<RawEntry>): (strings: seq<seq<byte>>)
    ensures |strings| == 2 * |raw|
  {
    seq(2 * |raw|, i requires 0 <= i < 2 * |raw| =>
      if i < |raw| then raw[i].original else raw[i - |raw|].translation)
  }

  ghost predicate AreStrings(raw: seq<RawEntry>, strings: seq<seq<byte>>) {
    && |strings| == 2 * |raw|
    && forall i :: 0 <= i < |raw| ==> strings[i] == raw[i].original && strings[|raw| + i] == raw[i].translation
  }

  /** The strings of `count` messages are not too many or too long for the format. */
  ghost predicate FitFile(count: nat, strings: seq<seq<byte>>) {
    |strings| == 2 * count && count <= MAX_MESSAGES && Fits(strings, 28 + 16 * count)
  }

  ghost function WordsOf(little: bool, numbers: seq<nat>): (words: seq<seq<byte>>)
    requires forall i :: 0 <= i < |numbers| ==> numbers[i] < 0x1_0000_0000
    ensures |words| == |numbers| && forall i :: 0 <= i < |words| ==> |words[i]| == 4
  {
    seq(|numbers|, i requires 0 <= i < |numbers| => Four(little, numbers[i]))
  }

  /** Revision, number of messages, where the two tables lie, and an empty hash table. */
  ghost function HeaderNumbers(count: nat): seq<nat> {
    [0, count, 28, 28 + 8 * count, 0, 28 + 16 * count]
  }

  ghost function Magic(little: bool): seq<byte> {
    if little then LITTLE_MAGIC else BIG_MAGIC
  }

  ghost function Header(little: bool, count: nat): seq<byte>
    requires count <= MAX_MESSAGES
  {
    Magic(little) + All(WordsOf(little, HeaderNumbers(count)))
  }

  /** A file: its header, the table of the originals, that of the translations, and the strings. */
  ghost function FileOf(little: bool, count: nat, strings: seq<seq<byte>>): seq<byte>
    requires FitFile(count, strings)
  {
    Header(little, count) + All(Entries(little, strings, 28 + 16 * count)) + All(strings)
  }

  lemma FourDigits(n: nat)
    requires n < 0x1_0000_0000
    ensures n / 0x100_0000 < 0x100
    ensures n == n % 0x100 + n / 0x100 % 0x100 * 0x100
                 + (n / 0x1_0000 % 0x100 + n / 0x100_0000 * 0x100) * 0x1_0000
  {
    assert n / 0x1_0000 == n / 0x100 / 0x100 && n / 0x100_0000 == n / 0x1_0000 / 0x100;
  }

  lemma FourRead(little: bool, s: seq<byte>, at: nat, n: nat)
    requires at + 4 <= |s| && n < 0x1_0000_0000 && s[at..at + 4] == Four(little, n)
    ensures Word(little, s, at) == n
  {
    var t := s[at..at + 4];
    assert t[0] == s[at] && t[1] == s[at + 1] && t[2] == s[at + 2] && t[3] == s[at + 3];
    FourDigits(n);
  }

  lemma EntryRead(little: bool, s: seq<byte>, at: nat, length: nat, position: nat)
    requires at + 8 <= |s| && length < 0x1_0000_0000 && position < 0x1_0000_0000
    requires s[at..at + 8] == Four(little, length) + Four(little, position)
    ensures Word(little, s, at) == length && Word(little, s, at + 4) == position
  {
    var t := s[at..at + 8];
    assert t[..4] == s[at..at + 4] && t[4..] == s[at + 4..at + 8];
    FourRead(little, s, at, length);
    FourRead(little, s, at + 4, position);
  }

  lemma {:induction false} PoolLength(parts: seq<seq<byte>>, size: nat, n: nat)
    requires n <= |parts| && forall i :: 0 <= i < |parts| ==> |parts[i]| == size
    ensures |Pool(parts, n)| == n * size
  {
    if n > 0 {
      PoolLength(parts, size, n - 1);
    }
  }

  lemma {:induction false} PoolAt(strings: seq<seq<byte>>, n: nat, i: nat)
    requires i < n <= |strings|
    ensures |Pool(strings, i)| + |strings[i]| <= |Pool(strings, n)|
    ensures Pool(strings, n)[|Pool(strings, i)|..|Pool(strings, i)| + |strings[i]|] == strings[i]
  {
    var init, last := Pool(strings, n - 1), strings[n - 1];
    if i < n - 1 {
      PoolAt(strings, n - 1, i);
      PackedEncoder.PrefixPiece(init, last, |Pool(strings, i)|, |Pool(strings, i)| + |strings[i]|);
    } else {
      PackedEncoder.Inside(init, last, [], 0, |last|);
      assert init + last + [] == init + last;
    }
  }

  /** Parts of one size lie one after the other between what comes before and after them. */
  lemma PartLies(before: seq<byte>, parts: seq<seq<byte>>, after: seq<byte>, size: nat, i: nat, at: nat)
    requires i < |parts| && at == |before| + i * size && forall j :: 0 <= j < |parts| ==> |parts[j]| == size
    ensures |All(parts)| == |parts| * size && at + size <= |before| + |parts| * size
    ensures (before + All(parts) + after)[at..at + size] == parts[i]
  {
    PoolLength(parts, size, |parts|);
    PoolLength(parts, size, i);
    PoolAt(parts, |parts|, i);
    PackedEncoder.Inside(before, All(parts), after, i * size, i * size + size);
  }

  lemma Behind(front: seq<byte>, back: seq<byte>, at: nat, piece: seq<byte>)
    requires at + |piece| <= |back| && back[at..at + |piece|] == piece
    ensures (front + back)[|front| + at..|front| + at + |piece|] == piece
  {
    assert (front + back)[|front| + at..|front| + at + |piece|] == back[at..at + |piece|];
  }

  lemma StringLies(front: seq<byte>, strings: seq<seq<byte>>, i: nat, at: nat)
    requires i < |strings| && at == |front| + |Pool(strings, i)|
    ensures at + |strings[i]| <= |front + All(strings)|
    ensures (front + All(strings))[at..at + |strings[i]|] == strings[i]
  {
    PoolAt(strings, |strings|, i);
    Behind(front, All(strings), |Pool(strings, i)|, strings[i]);
  }

  lemma NumberRead(little: bool, numbers: seq<nat>, rest: seq<byte>, i: nat, at: nat)
    requires forall j :: 0 <= j < |numbers| ==> numbers[j] < 0x1_0000_0000
    requires i < |numbers| && at == 4 + i * 4
    ensures var data := Magic(little) + All(WordsOf(little, numbers)) + rest;
      at + 4 <= |data| && Word(little, data, at) == numbers[i]
  {
    PartLies(Magic(little), WordsOf(little, numbers), rest, 4, i, at);
    FourRead(little, Magic(little) + All(WordsOf(little, numbers)) + rest, at, numbers[i]);
  }

  /** A file with such a header has these tables. */
  ghost predicate Headed(little: bool, data: seq<byte>, count: nat) {
    && |data| >= 28 && data[..4] == Magic(little)
    && Word(little, data, 4) == 0 && Word(little, data, 8) == count
    && Word(little, data, 12) == 28 && Word(little, data, 16) == 28 + 8 * count
  }

  lemma HeaderRead(little: bool, count: nat, rest: seq<byte>)
    requires count <= MAX_MESSAGES
    ensures |Header(little, count)| == 28 && Headed(little, Header(little, count) + rest, count)
  {
    var numbers := HeaderNumbers(count);
    PoolLength(WordsOf(little, numbers), 4, |numbers|);
    NumberRead(little, numbers, rest, 0, 4);
    NumberRead(little, numbers, rest, 1, 8);
    NumberRead(little, numbers, rest, 2, 12);
    NumberRead(little, numbers, rest, 3, 16);
  }

  lemma {:induction false} EntryIs(little: bool, strings: seq<seq<byte>>, base: nat, i: nat, n: nat)
    requires Fits(strings, base) && i < n <= |strings|
    ensures |strings[i]| < 0x1_0000_0000 && base + |Pool(strings, i)| < 0x1_0000_0000
    ensures EntriesUpTo(little, strings, base, n)[i]
         == Four(little, |strings[i]|) + Four(little, base + |Pool(strings, i)|)
  {
    assert HasRoom(strings, base, i);
    if i < n - 1 {
      EntryIs(little, strings, base, i, n - 1);
    }
  }

  lemma StringIsThere(little: bool, data: seq<byte>, table: nat, k: nat, length: nat, position: nat)
    requires table + k * 8 + 8 <= |data| && position + length <= |data|
    requires Word(little, data, table + k * 8) == length && Word(little, data, table + k * 8 + 4) == position
    ensures StringAt(little, data, table, k) == Some(data[position..position + length])
  {
  }

  lemma TableEntryLies(little: bool, header: seq<byte>, strings: seq<seq<byte>>, base: nat, pool: seq<byte>, i: nat,
                       at: nat, position: nat)
    requires |header| == 28 && Fits(strings, base) && i < |strings|
    requires at == 28 + i * 8 && position == base + |Pool(strings, i)|
    ensures |All(Entries(little, strings, base))| == |strings| * 8
    ensures |strings[i]| < 0x1_0000_0000 && position < 0x1_0000_0000
    ensures at + 8 <= |header + All(Entries(little, strings, base)) + pool|
    ensures (header + All(Entries(little, strings, base)) + pool)[at..at + 8]
         == Four(little, |strings[i]|) + Four(little, position)
  {
    PartLies(header, Entries(little, strings, base), pool, 8, i, at);
    EntryIs(little, strings, base, i, |strings|);
  }

  /** An entry leads to the string that lies where it says. */
  lemma EntryLeads(little: bool, data: seq<byte>, table: nat, k: nat, at: nat, position: nat, s: seq<byte>)
    requires at == table + k * 8
    requires at + 8 <= |data| && position + |s| <= |data| && data[position..position + |s|] == s
    requires |s| < 0x1_0000_0000 && position < 0x1_0000_0000
    requires data[at..at + 8] == Four(little, |s|) + Four(little, position)
    ensures Leads(little, data, table, k, s)
  {
    EntryRead(little, data, at, |s|, position);
    StringIsThere(little, data, table, k, |s|, position);
  }

  /** String `i` lies where entry `k` of a table that begins there says, whatever the header. */
  lemma StringLiesThere(little: bool, header: seq<byte>, strings: seq<seq<byte>>, base: nat, i: nat, table: nat, k: nat)
    requires |header| == 28 && Fits(strings, base) && base == 28 + |strings| * 8
    requires i < |strings| && table + k * 8 == 28 + i * 8
    ensures Leads(little, header + All(Entries(little, strings, base)) + All(strings), table, k, strings[i])
  {
    var at, position := table + k * 8, base + |Pool(strings, i)|;
    var front := header + All(Entries(little, strings, base));
    TableEntryLies(little, header, strings, base, All(strings), i, at, position);
    StringLies(front, strings, i, position);
    EntryLeads(little, front + All(strings), table, k, at, position, strings[i]);
  }

  ghost predicate Leads(little: bool, data: seq<byte>, table: nat, k: nat, s: seq<byte>) {
    table + k * 8 + 8 <= |data| && StringAt(little, data, table, k) == Some(s)
  }

  lemma FileHolds(little: bool, count: nat, strings: seq<seq<byte>>, i: nat, table: nat, k: nat)
    requires FitFile(count, strings) && i < 2 * count && table + k * 8 == 28 + i * 8
    ensures Leads(little, FileOf(little, count, strings), table, k, strings[i])
  {
    HeaderRead(little, count, []);
    StringLiesThere(little, Header(little, count), strings, 28 + 16 * count, i, table, k);
  }

  lemma FileIsHeaded(little: bool, count: nat, strings: seq<seq<byte>>)
    requires FitFile(count, strings)
    ensures var data := FileOf(little, count, strings);
      |data| >= 28 + 16 * count && Headed(little, data, count)
  {
    var entries, pool := Entries(little, strings, 28 + 16 * count), All(strings);
    Sorting.Associate(Header(little, count), All(entries), pool);
    HeaderRead(little, count, All(entries) + pool);
    PoolLength(entries, 8, |entries|);
  }

  lemma MagicDecides(little: bool)
    ensures |Magic(little)| == 4 && (Magic(little) == LITTLE_MAGIC <==> little)
  {
    assert LITTLE_MAGIC[0] != BIG_MAGIC[0];
  }

  lemma ListedWhenHeld(little: bool, data: seq<byte>, raw: seq<RawEntry>)
    requires |raw| <= MAX_MESSAGES && Headed(little, data, |raw|) && |data| >= 28 + 16 * |raw|
    requires TablesHold(little, data, 28, 28 + 8 * |raw|, raw)
    ensures Lists(data, raw)
  {
    MagicDecides(little);
  }

  lemma StringsAre(raw: seq<RawEntry>)
    ensures AreStrings(raw, StringsOf(raw))
  {
  }

  /** The entry for string `i`, in the table of originals or in that of translations, leads to it. */
  ghost predicate StringLeads(little: bool, data: seq<byte>, count: nat, strings: seq<seq<byte>>, i: nat)
    requires i < |strings|
  {
    if i < count then Leads(little, data, 28, i, strings[i])
    else Leads(little, data, 28 + 8 * count, i - count, strings[i])
  }

  lemma FileEntry(little: bool, count: nat, strings: seq<seq<byte>>, i: nat)
    requires FitFile(count, strings) && i < 2 * count
    ensures StringLeads(little, FileOf(little, count, strings), count, strings, i)
  {
    if i < count {
      FileHolds(little, count, strings, i, 28, i);
    } else {
      FileHolds(little, count, strings, i, 28 + 8 * count, i - count);
    }
  }

  lemma TablesHeld(little: bool, raw: seq<RawEntry>, strings: seq<seq<byte>>, data: seq<byte>)
    requires AreStrings(raw, strings) && |data| >= 28 + 16 * |raw|
    requires forall i :: 0 <= i < |strings| ==> StringLeads(little, data, |raw|, strings, i)
    ensures TablesHold(little, data, 28, 28 + 8 * |raw|, raw)
  {
    forall i | 0 <= i < |raw|
      ensures StringAt(little, data, 28, i) == Some(raw[i].original)
      ensures StringAt(little, data, 28 + 8 * |raw|, i) == Some(raw[i].translation)
    {
      assert StringLeads(little, data, |raw|, strings, i);
      assert StringLeads(little, data, |raw|, strings, |raw| + i);
    }
  }

  lemma AllLead(little: bool, count: nat, strings: seq<seq<byte>>)
    requires FitFile(count, strings)
    ensures forall i :: 0 <= i < |strings| ==> StringLeads(little, FileOf(little, count, strings), count, strings, i)
  {
    forall i | 0 <= i < |strings|
      ensures StringLeads(little, FileOf(little, count, strings), count, strings, i)
    {
      FileEntry(little, count, strings, i);
    }
  }

  /** The converter lists exactly the entries that were written, in either byte order. */
  lemma FileRoundTrip(little: bool, raw: seq<RawEntry>)
    requires FitFile(|raw|, StringsOf(raw))
    ensures Lists(FileOf(little, |raw|, StringsOf(raw)), raw)
  {
    var strings := StringsOf(raw);
    StringsAre(raw);
    FileIsHeaded(little, |raw|, strings);
    AllLead(little, |raw|, strings);
    TablesHeld(little, raw, strings, FileOf(little, |raw|, strings));
    ListedWhenHeld(little, FileOf(little, |raw|, strings), raw);
  }

  // ---------- Catalogues ----------

  /** The entries are the messages, in their order. */
  ghost predicate AreWritten(messages: seq<Message>, raw: seq<RawEntry>) {
    && |raw| == |messages|
    && forall i :: 0 <= i < |messages| ==> Plain(messages[i]) && raw[i] == Written(messages[i])
  }

  ghost predicate AllRead(messages: seq<Message>, decode: Decoder, entries: seq<MoEntry>) {
    |entries| == |messages| && forall i :: 0 <= i < |messages| ==> Reads(messages[i], decode, entries[i])
  }

  lemma AllReadSplits(messages: seq<Message>, decode: Decoder, entries: seq<MoEntry>, n: nat)
    requires |messages| == |entries| == n + 1
    ensures AllRead(messages, decode, entries)
      <==> AllRead(messages[..n], decode, entries[..n]) && Reads(messages[n], decode, entries[n])
  {
  }

  lemma {:induction false} EntriesRoundTrip(messages: seq<Message>, raw: seq<RawEntry>, decode: Decoder,
                                            entries: seq<MoEntry>)
    requires AreWritten(messages, raw)
    ensures DecodeEntries(raw, decode) == Some(entries) <==> AllRead(messages, decode, entries)
    decreases |messages|
  {
    if |entries| == |raw| && raw != [] {
      var n := |raw| - 1;
      EntriesRoundTrip(messages[..n], raw[..n], decode, entries[..n]);
      MessageRoundTrip(messages[n], decode, entries[n]);
      AllReadSplits(messages, decode, entries, n);
      LastDecoded(raw, decode, entries, n);
    }
  }

  lemma LastDecoded(raw: seq<RawEntry>, decode: Decoder, entries: seq<MoEntry>, n: nat)
    requires |raw| == |entries| == n + 1
    ensures DecodeEntries(raw, decode) == Some(entries)
      <==> DecodeEntries(raw[..n], decode) == Some(entries[..n]) && DecodeEntry(raw[n], decode) == Some(entries[n])
  {
    assert entries == entries[..n] + [entries[n]];
  }

  /** The charset is declared by the first message without context, text and plural. */
  ghost predicate Declares(messages: seq<Message>, k: nat) {
    k < |messages| && Original(messages[k]) == [] && forall i :: 0 <= i < k ==> Original(messages[i]) != []
  }

  lemma {:induction false} DeclarationFound(messages: seq<Message>, raw: seq<RawEntry>, k: nat)
    requires AreWritten(messages, raw) && Declares(messages, k)
    ensures HeaderOf(raw) == Joined(messages[k].translations)
  {
    if k > 0 {
      DeclarationFound(messages[1..], raw[1..], k - 1);
    }
  }

  /** A file of these messages holds their texts, in the charset that they declare, and nothing else. */
  lemma CatalogueRoundTrip(little: bool, messages: seq<Message>, raw: seq<RawEntry>, k: nat, setting: Setting,
                           entries: seq<MoEntry>)
    requires AreWritten(messages, raw) && Declares(messages, k) && FitFile(|raw|, StringsOf(raw))
    ensures Holds(FileOf(little, |raw|, StringsOf(raw)), setting, entries)
      <==> var decoder := setting.decoder(Joined(messages[k].translations));
           decoder.Some? && AllRead(messages, decoder.value, entries)
  {
    var data := FileOf(little, |raw|, StringsOf(raw));
    FileRoundTrip(little, raw);
    DeclarationFound(messages, raw, k);
    forall other | Lists(data, other)
      ensures other == raw
    {
      SameEntries(data, raw, other);
    }
    var decoder := setting.decoder(HeaderOf(raw));
    if decoder.Some? {
      EntriesRoundTrip(messages, raw, decoder.value, entries);
    }
  }
}
