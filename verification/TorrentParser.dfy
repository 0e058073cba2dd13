/** The strict bencode parser of `torrent.py`, with its limits and its record of the info span. */
module TorrentParser {
  import opened Wrappers
  import opened Decimal
  import opened Sorting
  import opened Bencode

  datatype Limits = Limits(maxMetainfoBytes: nat, maxDepth: nat, maxValues: nat, maxFiles: nat, maxPieces: nat)

  /** The check `_integer` makes on the text between `i` and `e`. */
  predicate CanonicalInt(t: Bytes) {
    && t != "" && t != "-0" && t[0] != '+'
    && var unsigned := if t[0] == '-' then t[1..] else t;
    && unsigned != "" && AllDigits(unsigned)
    && !(|unsigned| > 1 && unsigned[0] == '0')
  }

  /** `int()` on a text that passed the check. */
  function IntOf(t: Bytes): int
    requires CanonicalInt(t)
  {
    if t[0] == '-' then -(Value(t[1..]) as int) else Value(t)
  }

  lemma IntOfIsExact(t: Bytes)
    requires CanonicalInt(t)
    ensures IntText(IntOf(t)) == t
  {
    var unsigned := if t[0] == '-' then t[1..] else t;
    PrintOfValue(unsigned);
    if t[0] == '-' {
      assert t == "-" + t[1..];
      assert Print(0) == "0";
    }
  }

  lemma IntTextIsCanonical(i: int)
    ensures CanonicalInt(IntText(i))
  {
    assert IsDigit(Print(if i < 0 then -i else i)[0]);
    if i < 0 {
      assert IntText(i)[1..] == Print(-i);
    }
  }

  /** A fully parsed text within the limits. */
  ghost predicate Accepted(raw: Bytes, limits: Limits, v: BValue) {
    && raw == Encode(v)
    && |raw| <= limits.maxMetainfoBytes
    && WellFormed(v, 0, limits.maxDepth)
    && Count(v) <= limits.maxValues
  }

  /** Together with `Parse` below: a text is accepted with one value at most. */
  lemma AcceptedValueIsUnique(raw: Bytes, limits: Limits, v: BValue, w: BValue)
    requires Accepted(raw, limits, v) && Accepted(raw, limits, w)
    ensures v == w
  {
    SameValue(v, w, raw);
  }

  /** A dictionary lookup. */
  function Lookup(entries: seq<Entry>, key: Bytes): Option<BValue> {
    if entries == [] then None
    else
      var last := entries[|entries| - 1];
      if last.key == key then Some(last.value) else Lookup(entries[..|entries| - 1], key)
  }

  lemma {:induction false} EncodeItemsConcat(a: seq<BValue>, b: seq<BValue>)
    ensures EncodeItems(a + b) == EncodeItems(a) + EncodeItems(b)
    ensures CountItems(a + b) == CountItems(a) + CountItems(b)
  {
    if a == [] {
      assert a + b == b;
    } else {
      assert (a + b)[1..] == a[1..] + b;
      EncodeItemsConcat(a[1..], b);
    }
  }

  lemma {:induction false} EncodeEntriesConcat(a: seq<Entry>, b: seq<Entry>)
    ensures EncodeEntries(a + b) == EncodeEntries(a) + EncodeEntries(b)
    ensures CountEntries(a + b) == CountEntries(a) + CountEntries(b)
  {
    if a == [] {
      assert a + b == b;
    } else {
      assert (a + b)[1..] == a[1..] + b;
      EncodeEntriesConcat(a[1..], b);
    }
  }

  lemma ItemsGrow(items: seq<BValue>, v: BValue)
    ensures EncodeItems(items + [v]) == EncodeItems(items) + Encode(v)
    ensures CountItems(items + [v]) == CountItems(items) + Count(v)
  {
    EncodeItemsConcat(items, [v]);
    assert EncodeItems([v]) == Encode(v) + EncodeItems([]);
  }

  lemma EntriesGrow(entries: seq<Entry>, e: Entry)
    ensures EncodeEntries(entries + [e]) == EncodeEntries(entries) + (EncodeBytes(e.key) + Encode(e.value))
    ensures CountEntries(entries + [e]) == CountEntries(entries) + Count(e.value)
  {
    EncodeEntriesConcat(entries, [e]);
    assert [e][1..] == [];
    assert EncodeEntries([e]) == EncodeBytes(e.key) + Encode(e.value) + EncodeEntries([]);
  }

  /**
   Where a partly read list stands in the text `s` after its marker, given that the text does encode
   some list: at the end of that list, or before its next item.
   */
  lemma ListStands(done: seq<BValue>, all: seq<BValue>, s: Bytes)
    requires EncodeItems(done) <= s && EncodeItems(all) + "e" <= s
    ensures |done| <= |all| && done == all[..|done|]
    ensures |done| == |all| ==> "e" <= s[|EncodeItems(done)|..]
    ensures |done| < |all| ==> Encode(all[|done|]) <= s[|EncodeItems(done)|..]
    ensures |done| < |all| ==> CountItems(done) + Count(all[|done|]) <= CountItems(all)
  {
    ItemsPrefix(done, all, s);
    var rest := all[|done|..];
    assert all == done + rest;
    EncodeItemsConcat(done, rest);
    Associate(EncodeItems(done), EncodeItems(rest), "e");
    AfterPrefix(EncodeItems(done), EncodeItems(rest) + "e", s);
    if rest != [] {
      AfterPrefix(Encode(rest[0]), EncodeItems(rest[1..]), s[|EncodeItems(done)|..]);
    }
  }

  lemma DictStands(done: seq<Entry>, all: seq<Entry>, s: Bytes)
    requires EncodeEntries(done) <= s && EncodeEntries(all) + "e" <= s
    ensures |done| <= |all| && done == all[..|done|]
    ensures |done| == |all| ==> "e" <= s[|EncodeEntries(done)|..]
    ensures |done| < |all| ==>
      var after := s[|EncodeEntries(done)|..];
      && EncodeBytes(all[|done|].key) <= after
      && Encode(all[|done|].value) <= after[|EncodeBytes(all[|done|].key)|..]
      && CountEntries(done) + Count(all[|done|].value) <= CountEntries(all)
  {
    EntriesPrefix(done, all, s);
    var rest := all[|done|..];
    assert all == done + rest;
    EncodeEntriesConcat(done, rest);
    Associate(EncodeEntries(done), EncodeEntries(rest), "e");
    AfterPrefix(EncodeEntries(done), EncodeEntries(rest) + "e", s);
    if rest != [] {
      var _ := EntryParts(rest, "e", s[|EncodeEntries(done)|..]);
    }
  }

  lemma Splice(raw: Bytes, a: nat, b: nat, c: nat)
    requires a <= b <= c <= |raw|
    ensures raw[a..c] == raw[a..b] + raw[b..c]
    ensures raw[a..][b - a..] == raw[b..]
    ensures raw[a..b] <= raw[a..]
  {
  }

  class BencodeParser {
    const raw: Bytes
    const limits: Limits
    var position: nat
    var values: nat
    var infoSpan: Option<(nat, nat)>

    constructor (raw: Bytes, limits: Limits)
      ensures this.raw == raw && this.limits == limits
      ensures position == 0 && values == 0 && infoSpan == None
    {
      this.raw, this.limits := raw, limits;
      position, values, infoSpan := 0, 0, None;
    }

    /** A value that the parser may still read at this depth, having counted `count` values so far. */
    ghost predicate Fits(v: BValue, depth: nat, count: nat) {
      WellFormed(v, depth, limits.maxDepth) && count + Count(v) <= limits.maxValues
    }

    /** The span recorded while the entries of the top-level dictionary were read. */
    ghost predicate Spans(span: Option<(nat, nat)>, entries: seq<Entry>) {
      match Lookup(entries, "info")
      case None => span == None
      case Some(info) => span.Some? && span.value.0 <= span.value.1 <= |raw|
                         && raw[span.value.0..span.value.1] == Encode(info)
    }

    method Parse() returns (r: Result<BValue>)
      requires position == 0 && values == 0 && infoSpan == None
      modifies this
      ensures r.Ok? ==> Accepted(raw, limits, r.value)
      ensures r.Ok? ==> Spans(infoSpan, if r.value.BDict? then r.value.entries else [])
      ensures r.Err? ==> forall v :: !Accepted(raw, limits, v)
    {
      if raw == "" {
        forall v { FirstByte(v); }
        return Err("torrent metainfo is empty");
      }
      if |raw| > limits.maxMetainfoBytes {
        return Err("torrent metainfo exceeds the byte limit");
      }
      r := Value(0, true);
      assert raw[0..] == raw;
      if r.Ok? {
        assert raw[0..position] == raw[..position];
        if position != |raw| {
          forall v | Accepted(raw, limits, v)
            ensures false
          {
            SameValue(r.value, v, raw);
          }
          return Err("torrent metainfo has trailing bytes");
        }
      }
    }

    /** No value that fits is encoded at `start`. */
    ghost predicate NoValue(start: nat, depth: nat, count: nat)
      requires start <= |raw|
    {
      forall v :: Fits(v, depth, count) ==> !(Encode(v) <= raw[start..])
    }

    /** The marker decides what kind of value the text can encode. */
    lemma Dispatch(start: nat, depth: nat, count: nat, v: BValue)
      requires start <= |raw| && Fits(v, depth, count) && Encode(v) <= raw[start..]
      ensures depth <= limits.maxDepth && count + 1 <= limits.maxValues && start < |raw|
      ensures v.BInt? <==> raw[start] == 'i'
      ensures v.BList? <==> raw[start] == 'l'
      ensures v.BDict? <==> raw[start] == 'd'
      ensures v.BBytes? <==> '0' <= raw[start] <= '9'
      ensures v.BList? ==> SomeList(start, depth, count)
      ensures v.BDict? ==> SomeDict(start, depth, count)
    {
      FirstByte(v);
      assert raw[start] == raw[start..][0] == Encode(v)[0];
      if v.BList? {
        assert v == BList(v.items);
      } else if v.BDict? {
        assert v == BDict(v.entries);
      }
    }

    method Value(depth: nat, topLevel: bool) returns (r: Result<BValue>)
      requires position <= |raw|
      requires topLevel ==> infoSpan == None
      modifies this
      ensures r.Ok? ==> old(position) < position <= |raw| && raw[old(position)..position] == Encode(r.value)
      ensures r.Ok? ==> Fits(r.value, depth, old(values)) && values == old(values) + Count(r.value)
      ensures r.Err? ==> NoValue(old(position), depth, old(values))
      ensures !topLevel ==> infoSpan == old(infoSpan)
      ensures r.Ok? && topLevel ==> Spans(infoSpan, if r.value.BDict? then r.value.entries else [])
      decreases |raw| - position, 1
    {
      ghost var start, count := position, values;
      forall v | Fits(v, depth, count) && Encode(v) <= raw[start..] {
        Dispatch(start, depth, count, v);
      }
      if depth > limits.maxDepth {
        return Err("bencode nesting exceeds the depth limit");
      }
      values := values + 1;
      if values > limits.maxValues {
        return Err("bencode value count exceeds the limit");
      }
      if position >= |raw| {
        return Err("unexpected end of bencode input");
      }
      var marker := raw[position];
      if marker == 'i' {
        var i :- Integer();
        r := Ok(BInt(i));
      } else if marker == 'l' {
        var items :- List(depth);
        r := Ok(BList(items));
      } else if marker == 'd' {
        var entries :- Dictionary(depth, topLevel);
        r := Ok(BDict(entries));
      } else if '0' <= marker <= '9' {
        var s :- ByteString();
        r := Ok(BBytes(s));
      } else {
        r := Err("invalid bencode marker");
      }
    }

    method Integer() returns (r: Result<int>)
      requires position < |raw| && raw[position] == 'i'
      modifies this`position
      ensures r.Ok? ==> old(position) < position <= |raw|
      ensures r.Ok? ==> raw[old(position)..position] == Encode(BInt(r.value))
      ensures r.Err? ==> NoInteger(old(position))
    {
      ghost var start := position;
      position := position + 1;
      var end := Find(raw, 'e', position);
      IntegerRefused(start, end);
      if end < 0 {
        return Err("unterminated bencode integer");
      }
      var encoded := raw[position..end];
      if !CanonicalInt(encoded) {
        return Err("non-canonical bencode integer");
      }
      position := end + 1;
      IntegerRead(start, end);
      r := Ok(IntOf(encoded));
    }

    /** The text at `start` does not begin with an integer. */
    ghost predicate NoInteger(start: nat)
      requires start <= |raw|
    {
      forall i :: !(Encode(BInt(i)) <= raw[start..])
    }

    lemma IntegerRefused(start: nat, end: int)
      requires start < |raw| && end == Find(raw, 'e', start + 1)
      ensures end == -1 || !CanonicalInt(raw[start + 1..end]) ==> NoInteger(start)
    {
      forall i | Encode(BInt(i)) <= raw[start..]
        ensures end != -1 && CanonicalInt(raw[start + 1..end])
      {
        IntegerStands(start, i);
      }
    }

    lemma IntegerRead(start: nat, end: nat)
      requires start < end < |raw| && raw[start] == 'i' && raw[end] == 'e' && CanonicalInt(raw[start + 1..end])
      ensures raw[start..end + 1] == Encode(BInt(IntOf(raw[start + 1..end])))
    {
      IntOfIsExact(raw[start + 1..end]);
      Delimited(start, end);
    }

    lemma Delimited(start: nat, end: nat)
      requires start < end < |raw|
      ensures raw[start..end + 1] == [raw[start]] + raw[start + 1..end] + [raw[end]]
    {
    }

    lemma IntegerStands(start: nat, i: int)
      requires start < |raw| && Encode(BInt(i)) <= raw[start..]
      ensures Find(raw, 'e', start + 1) != -1 && CanonicalInt(raw[start + 1..Find(raw, 'e', start + 1)])
    {
      var t := IntText(i);
      IntTextHasNo(i, 'e');
      IntTextIsCanonical(i);
      TextStands(start, t);
    }

    /** The text of an integer ends at the first `e`. */
    lemma TextStands(start: nat, t: Bytes)
      requires start < |raw| && "i" + t + "e" <= raw[start..] && 'e' !in t
      ensures Find(raw, 'e', start + 1) == start + 1 + |t| && raw[start + 1..start + 1 + |t|] == t
    {
      Associate("i", t, "e");
      AfterPrefix("i", t + "e", raw[start..]);
      assert raw[start..][1..] == raw[start + 1..];
      FindFirst(raw, t, 'e', start + 1);
      assert raw[start + 1..][..|t|] == t;
    }

    lemma BytesStand(start: nat, s: Bytes)
      requires start < |raw| && EncodeBytes(s) <= raw[start..]
      ensures Find(raw, ':', start) != -1 && Canonical(raw[start..Find(raw, ':', start)])
      ensures Find(raw, ':', start) + 1 + Decimal.Value(raw[start..Find(raw, ':', start)]) <= |raw|
    {
      var t := Print(|s|);
      DigitsHaveNo(t, ':');
      AfterPrefix(t + ":", s, raw[start..]);
      FindFirst(raw, t, ':', start);
      assert raw[start..start + |t|] == raw[start..][..|t|] == t;
      ValueOfPrint(|s|);
      assert |t| + 1 + |s| == |EncodeBytes(s)| <= |raw[start..]|;
    }

    method ByteString() returns (r: Result<Bytes>)
      requires position < |raw|
      modifies this`position
      ensures r.Ok? ==> old(position) < position <= |raw|
      ensures r.Ok? ==> raw[old(position)..position] == EncodeBytes(r.value)
      ensures r.Err? ==> forall s :: !(EncodeBytes(s) <= raw[old(position)..])
    {
      ghost var begin := position;
      var colon := Find(raw, ':', position);
      forall s | EncodeBytes(s) <= raw[begin..]
        ensures colon != -1 && Canonical(raw[begin..colon])
        ensures colon + 1 + Decimal.Value(raw[begin..colon]) <= |raw|
      {
        BytesStand(begin, s);
      }
      if colon < 0 {
        return Err("unterminated bencode byte-string length");
      }
      var encodedLength := raw[position..colon];
      if !Canonical(encodedLength) {
        return Err("non-canonical bencode byte-string length");
      }
      var length := Decimal.Value(encodedLength);
      PrintOfValue(encodedLength);
      var start := colon + 1;
      var end := start + length;
      if end > |raw| {
        return Err("bencode byte string exceeds the input");
      }
      position := end;
      assert raw[begin..end] == encodedLength + ":" + raw[start..end];
      r := Ok(raw[start..end]);
    }

    method List(depth: nat) returns (r: Result<seq<BValue>>)
      requires position < |raw| && raw[position] == 'l' && depth <= limits.maxDepth && 1 <= values <= limits.maxValues
      modifies this
      ensures r.Ok? ==> old(position) < position <= |raw| && raw[old(position)..position] == Encode(BList(r.value))
      ensures r.Ok? ==> values == old(values) + CountItems(r.value) <= limits.maxValues
      ensures r.Ok? ==> forall w :: w in r.value ==> WellFormed(w, depth + 1, limits.maxDepth)
      ensures r.Err? ==> !SomeList(old(position), depth, old(values) - 1)
      ensures infoSpan == old(infoSpan)
      decreases |raw| - position, 0
    {
      ghost var start, count := position, values;
      position := position + 1;
      var result: seq<BValue> := [];
      while true
        invariant infoSpan == old(infoSpan)
        invariant ItemsRead(start, position, depth, count, values, result)
        decreases |raw| - position
      {
        ghost var here, before := position, values;
        ListGoesOn(start, here, depth, count, values, result);
        if position >= |raw| {
          return Err("unterminated bencode list");
        }
        if raw[position] == 'e' {
          position := position + 1;
          ListEnds(start, here, depth, count, values, result);
          return Ok(result);
        }
        var item := Value(depth + 1, false);
        if item.Err? {
          return Err(item.reason);
        }
        ItemRead(start, here, position, depth, count, before, result, item.value);
        result := result + [item.value];
      }
    }

    /** A list has been read up to `here`: its items so far, and how many values there are. */
    ghost predicate ItemsRead(start: nat, here: nat, depth: nat, count: nat, values: nat, result: seq<BValue>) {
      && start < here <= |raw| && raw[start + 1..here] == EncodeItems(result)
      && 1 <= count <= values == count + CountItems(result) <= limits.maxValues
      && forall w :: w in result ==> WellFormed(w, depth + 1, limits.maxDepth)
    }

    lemma ItemRead(start: nat, here: nat, end: nat, depth: nat, count: nat, values: nat, result: seq<BValue>, v: BValue)
      requires ItemsRead(start, here, depth, count, values, result) && here <= end <= |raw|
      requires raw[here..end] == Encode(v) && WellFormed(v, depth + 1, limits.maxDepth)
      requires values + Count(v) <= limits.maxValues
      ensures ItemsRead(start, end, depth, count, values + Count(v), result + [v])
    {
      ItemsGrow(result, v);
      Splice(raw, start + 1, here, end);
    }

    lemma ListEnds(start: nat, here: nat, depth: nat, count: nat, values: nat, result: seq<BValue>)
      requires ItemsRead(start, here, depth, count, values, result)
      requires here < |raw| && raw[start] == 'l' && raw[here] == 'e'
      ensures raw[start..here + 1] == Encode(BList(result))
      ensures values == count + CountItems(result) <= limits.maxValues
      ensures forall w :: w in result ==> WellFormed(w, depth + 1, limits.maxDepth)
    {
      Delimited(start, here);
    }

    /** The text at `start` encodes some list that fits. */
    ghost predicate SomeList(start: nat, depth: nat, count: nat)
      requires start <= |raw|
    {
      exists items :: Fits(BList(items), depth, count) && Encode(BList(items)) <= raw[start..]
    }

    ghost predicate SomeDict(start: nat, depth: nat, count: nat)
      requires start <= |raw|
    {
      exists entries :: Fits(BDict(entries), depth, count) && Encode(BDict(entries)) <= raw[start..]
    }

    /** After the items read so far, a text with a list that fits has its end or another item that fits. */
    lemma ListGoesOn(start: nat, here: nat, depth: nat, count: nat, values: nat, result: seq<BValue>)
      requires ItemsRead(start, here, depth, count, values, result)
      ensures SomeList(start, depth, count - 1) ==>
        && here < |raw|
        && (raw[here] != 'e' ==> ItemFollows(depth, values, raw[here..]))
    {
      if SomeList(start, depth, count - 1) {
        var items :| Fits(BList(items), depth, count - 1) && Encode(BList(items)) <= raw[start..];
        AfterMarker('l', start, here, EncodeItems(items));
        ListStands(result, items, raw[start + 1..]);
        if |result| < |items| {
          assert items[|result|] in items;
          FirstByte(items[|result|]);
        }
      }
    }

    ghost predicate ItemFollows(depth: nat, count: nat, s: Bytes) {
      exists w :: Fits(w, depth + 1, count) && Encode(w) <= s
    }

    /** The text after the marker of a list or dictionary, and after what has been read of it. */
    lemma AfterMarker(marker: char, start: nat, here: nat, t: Bytes)
      requires start < here <= |raw| && [marker] + t + "e" <= raw[start..]
      ensures t + "e" <= raw[start + 1..]
      ensures raw[start + 1..here] <= raw[start + 1..] && raw[start + 1..][|raw[start + 1..here]|..] == raw[here..]
    {
      Associate([marker], t, "e");
      AfterPrefix([marker], t + "e", raw[start..]);
      assert raw[start..][1..] == raw[start + 1..];
      Splice(raw, start + 1, here, |raw|);
    }

    method Dictionary(depth: nat, topLevel: bool) returns (r: Result<seq<Entry>>)
      requires position < |raw| && raw[position] == 'd' && depth <= limits.maxDepth && 1 <= values <= limits.maxValues
      requires topLevel ==> infoSpan == None
      modifies this
      ensures r.Ok? ==> old(position) < position <= |raw| && raw[old(position)..position] == Encode(BDict(r.value))
      ensures r.Ok? ==> values == old(values) + CountEntries(r.value) <= limits.maxValues
      ensures r.Ok? ==> WellFormed(BDict(r.value), depth, limits.maxDepth)
      ensures r.Err? ==> !SomeDict(old(position), depth, old(values) - 1)
      ensures !topLevel ==> infoSpan == old(infoSpan)
      ensures r.Ok? && topLevel ==> Spans(infoSpan, r.value)
      decreases |raw| - position, 0
    {
      ghost var start, count := position, values;
      position := position + 1;
      var result: seq<Entry> := [];
      var previousKey: Option<Bytes> := None;
      while true
        invariant !topLevel ==> infoSpan == old(infoSpan)
        invariant topLevel ==> Spans(infoSpan, result)
        invariant EntriesRead(start, position, depth, count, values, result)
        invariant previousKey == if result == [] then None else Some(result[|result| - 1].key)
        decreases |raw| - position
      {
        ghost var here := position;
        DictGoesOn(start, here, depth, count, values, result);
        if position >= |raw| {
          return Err("unterminated bencode dictionary");
        }
        if raw[position] == 'e' {
          position := position + 1;
          DictEnds(start, here, depth, count, values, result);
          return Ok(result);
        }
        var entry := NextEntry(depth, topLevel, previousKey, start, count, result);
        if entry.Err? {
          return Err(entry.reason);
        }
        previousKey := Some(entry.value.key);
        result := result + [entry.value];
      }
    }

    /** One more entry of a dictionary that has been read up to here. */
    method NextEntry(depth: nat, topLevel: bool, previousKey: Option<Bytes>, ghost start: nat, ghost count: nat,
                     ghost result: seq<Entry>)
      returns (r: Result<Entry>)
      requires position < |raw| && depth <= limits.maxDepth
      requires EntriesRead(start, position, depth, count, values, result)
      requires previousKey == if result == [] then None else Some(result[|result| - 1].key)
      requires topLevel ==> Spans(infoSpan, result)
      modifies this
      ensures r.Ok? ==>
        old(position) < position && EntriesRead(start, position, depth, count, values, result + [r.value])
      ensures r.Err? ==> !EntryFollows(result, depth, old(values), raw[old(position)..])
      ensures !topLevel ==> infoSpan == old(infoSpan)
      ensures r.Ok? && topLevel ==> Spans(infoSpan, result + [r.value])
      decreases |raw| - position, 1
    {
      ghost var here, before := position, values;
      ghost var valueStart;
      r, valueStart := DictionaryEntry(depth, topLevel, previousKey, result);
      if r.Ok? {
        EntryRead(start, here, valueStart, position, depth, count, before, result, r.value);
      }
    }

    /** One round of the loop of `_dictionary`: a key in order, its value and the info span. */
    method DictionaryEntry(depth: nat, topLevel: bool, previousKey: Option<Bytes>, ghost result: seq<Entry>)
      returns (r: Result<Entry>, ghost valueStart: nat)
      requires position < |raw| && depth <= limits.maxDepth && 1 <= values <= limits.maxValues
      requires previousKey == if result == [] then None else Some(result[|result| - 1].key)
      modifies this
      ensures r.Ok? ==> old(position) < valueStart < position <= |raw|
      ensures r.Ok? ==> raw[old(position)..valueStart] == EncodeBytes(r.value.key)
      ensures r.Ok? ==> raw[valueStart..position] == Encode(r.value.value)
      ensures r.Ok? ==> Fits(r.value.value, depth + 1, old(values)) && values == old(values) + Count(r.value.value)
      ensures r.Ok? && result != [] ==> Less(result[|result| - 1].key, r.value.key)
      ensures r.Err? ==> !EntryFollows(result, depth, old(values), raw[old(position)..])
      ensures !topLevel ==> infoSpan == old(infoSpan)
      ensures r.Ok? && topLevel ==>
        infoSpan == if r.value.key == "info" then Some((valueStart, position)) else old(infoSpan)
      decreases |raw| - position, 0
    {
      ghost var here, before := position, values;
      valueStart := position;
      var key :- ByteString();
      forall e | Continues(e, result, depth, before, raw[here..])
        ensures e.key == key
      {
        SameBytes(e.key, key, raw[here..]);
      }
      if previousKey.Some? && !Less(previousKey.value, key) {
        return Err("bencode dictionary keys are duplicate or unsorted"), here;
      }
      valueStart := position;
      var start := position;
      Splice(raw, here, start, |raw|);
      var value :- Value(depth + 1, false);
      if topLevel && key == "info" {
        infoSpan := Some((start, position));
      }
      r := Ok(Entry(key, value));
    }

    /** A dictionary has been read up to `here`: its entries so far, and how many values there are. */
    ghost predicate EntriesRead(start: nat, here: nat, depth: nat, count: nat, values: nat, result: seq<Entry>) {
      && start < here <= |raw| && raw[start + 1..here] == EncodeEntries(result)
      && 1 <= count <= values == count + CountEntries(result) <= limits.maxValues
      && WellFormed(BDict(result), depth, limits.maxDepth)
    }

    /** The dictionary after one more entry: its text, and the lookup of its last key. */
    lemma EntryRead(start: nat, here: nat, valueStart: nat, end: nat, depth: nat, count: nat, values: nat,
                    result: seq<Entry>, e: Entry)
      requires EntriesRead(start, here, depth, count, values, result) && here <= valueStart <= end <= |raw|
      requires raw[here..valueStart] == EncodeBytes(e.key) && raw[valueStart..end] == Encode(e.value)
      requires WellFormed(e.value, depth + 1, limits.maxDepth) && values + Count(e.value) <= limits.maxValues
      requires result != [] ==> Less(result[|result| - 1].key, e.key)
      ensures EntriesRead(start, end, depth, count, values + Count(e.value), result + [e])
      ensures Lookup(result + [e], "info") == if e.key == "info" then Some(e.value) else Lookup(result, "info")
    {
      EntryText(start, here, valueStart, end, result, e);
      WellFormedGrows(depth, result, e);
      LookupLast(result, e);
    }

    lemma EntryText(start: nat, here: nat, valueStart: nat, end: nat, result: seq<Entry>, e: Entry)
      requires start < here <= valueStart <= end <= |raw| && raw[start + 1..here] == EncodeEntries(result)
      requires raw[here..valueStart] == EncodeBytes(e.key) && raw[valueStart..end] == Encode(e.value)
      ensures raw[start + 1..end] == EncodeEntries(result + [e])
      ensures CountEntries(result + [e]) == CountEntries(result) + Count(e.value)
    {
      EntriesGrow(result, e);
      Splice(raw, start + 1, here, end);
      Splice(raw, here, valueStart, end);
    }

    lemma LookupLast(result: seq<Entry>, e: Entry)
      ensures Lookup(result + [e], "info") == if e.key == "info" then Some(e.value) else Lookup(result, "info")
    {
      assert (result + [e])[..|result|] == result;
    }

    lemma WellFormedGrows(depth: nat, result: seq<Entry>, e: Entry)
      requires WellFormed(BDict(result), depth, limits.maxDepth) && WellFormed(e.value, depth + 1, limits.maxDepth)
      requires result != [] ==> Less(result[|result| - 1].key, e.key)
      ensures WellFormed(BDict(result + [e]), depth, limits.maxDepth)
    {
    }

    lemma DictEnds(start: nat, here: nat, depth: nat, count: nat, values: nat, result: seq<Entry>)
      requires EntriesRead(start, here, depth, count, values, result)
      requires here < |raw| && raw[start] == 'd' && raw[here] == 'e'
      ensures raw[start..here + 1] == Encode(BDict(result))
      ensures values == count + CountEntries(result) <= limits.maxValues
      ensures WellFormed(BDict(result), depth, limits.maxDepth)
    {
      Delimited(start, here);
    }

    /** An entry that may come next and that the text has next. */
    ghost predicate Continues(e: Entry, result: seq<Entry>, depth: nat, count: nat, s: Bytes) {
      && EncodeBytes(e.key) <= s
      && Encode(e.value) <= s[|EncodeBytes(e.key)|..]
      && Fits(e.value, depth + 1, count)
      && (result != [] ==> Less(result[|result| - 1].key, e.key))
    }

    ghost predicate EntryFollows(result: seq<Entry>, depth: nat, count: nat, s: Bytes) {
      exists e :: Continues(e, result, depth, count, s)
    }

    lemma DictGoesOn(start: nat, here: nat, depth: nat, count: nat, values: nat, result: seq<Entry>)
      requires EntriesRead(start, here, depth, count, values, result)
      ensures SomeDict(start, depth, count - 1) ==>
        && here < |raw|
        && (raw[here] != 'e' ==> EntryFollows(result, depth, values, raw[here..]))
    {
      if SomeDict(start, depth, count - 1) {
        var entries :| Fits(BDict(entries), depth, count - 1) && Encode(BDict(entries)) <= raw[start..];
        AfterMarker('d', start, here, EncodeEntries(entries));
        DictStands(result, entries, raw[start + 1..]);
        if |result| < |entries| {
          var e := entries[|result|];
          assert e in entries;
          assert Continues(e, result, depth, values, raw[here..]);
          assert IsDigit(EncodeBytes(e.key)[0]);
        }
      }
    }
  }
}
