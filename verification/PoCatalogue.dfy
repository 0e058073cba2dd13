/** `MoCatalogueConverter`: rendering decoded MO entries as PO text, and reading the text back. */
module PoCatalogue {
  import opened Wrappers
  import opened Decimal
  import opened PoText

  datatype MoEntry = MoEntry(context: Option<string>, msgid: string, plural: Option<string>, translations: seq<string>)

  /** What `_decode_entry` produces: one translation without a plural, at least one with it. */
  predicate WellFormed(e: MoEntry) {
    e.translations != [] && (e.plural == None ==> |e.translations| == 1)
  }

  /** One line of the output. */
  datatype Directive = Directive(key: string, value: string)

  function Line(d: Directive): string {
    d.key + " " + Quote(d.value)
  }

  function PluralKey(i: nat): string {
    "msgstr[" + Print(i) + "]"
  }

  function PluralDirectives(translations: seq<string>, n: nat): (ds: seq<Directive>)
    requires n <= |translations|
    ensures |ds| == n
  {
    if n == 0 then []
    else PluralDirectives(translations, n - 1) + [Directive(PluralKey(n - 1), translations[n - 1])]
  }

  function HeadDirectives(e: MoEntry): seq<Directive> {
    (if e.context == None then [] else [Directive("msgctxt", e.context.value)]) + [Directive("msgid", e.msgid)]
  }

  function Directives(e: MoEntry): seq<Directive>
    requires WellFormed(e)
  {
    HeadDirectives(e) +
    if e.plural == None then [Directive("msgstr", e.translations[0])]
    else [Directive("msgid_plural", e.plural.value)] + PluralDirectives(e.translations, |e.translations|)
  }

  function Lines(ds: seq<Directive>): (lines: seq<string>)
    ensures |lines| == |ds|
    ensures forall i :: 0 <= i < |ds| ==> lines[i] == Line(ds[i])
  {
    seq(|ds|, i requires 0 <= i < |ds| => Line(ds[i]))
  }

  function Group(e: MoEntry): string
    requires WellFormed(e)
  {
    JoinWith(Lines(Directives(e)), "\n")
  }

  function Groups(entries: seq<MoEntry>): (groups: seq<string>)
    requires forall e <- entries :: WellFormed(e)
    ensures |groups| == |entries|
    ensures forall i :: 0 <= i < |entries| ==> groups[i] == Group(entries[i])
  {
    seq(|entries|, i requires 0 <= i < |entries| => Group(entries[i]))
  }

  /** `_render`, as text. */
  function Render(entries: seq<MoEntry>): string
    requires forall e <- entries :: WellFormed(e)
  {
    JoinWith(Groups(entries), "\n\n") + "\n"
  }

  // ---------- Reading ----------

  datatype Fields = Fields(fields: map<string, string>, translations: map<nat, string>)

  /** `partition(" ")` and `json.loads` on one line. */
  function ParseLine(line: string): Option<Directive> {
    var k := Find(line, ' ', 0);
    if k < 0 then None
    else
      var value := Loads(line[k + 1..]);
      if value == None then None else Some(Directive(line[..k], value.value))
  }

  predicate IsPluralKey(key: string) {
    "msgstr[" <= key && key[|key| - 1] == ']'
  }

  /** `int(key[7:-1])`, on digits. */
  function PluralIndex(key: string): Option<nat>
    requires IsPluralKey(key)
  {
    if |key| < 8 then None
    else
      var digits := key[7..|key| - 1];
      if digits != "" && AllDigits(digits) then Some(Value(digits)) else None
  }

  function Accept(f: Fields, d: Directive): Option<Fields> {
    if IsPluralKey(d.key) then
      var i := PluralIndex(d.key);
      if i == None then None else Some(f.(translations := f.translations[i.value := d.value]))
    else if d.key in f.fields then None
    else Some(f.(fields := f.fields[d.key := d.value]))
  }

  function ParseLines(lines: seq<string>, f: Fields): Option<Fields> {
    if lines == [] then Some(f)
    else
      var d := ParseLine(lines[0]);
      if d == None then None
      else
        var next := Accept(f, d.value);
        if next == None then None else ParseLines(lines[1..], next.value)
  }

  /** `sorted(translations) == range(len(translations))`: the keys are as many as the numbers below. */
  predicate Consecutive(m: map<nat, string>) {
    forall k :: 0 <= k < |m| ==> k in m
  }

  function InOrder(m: map<nat, string>): (s: seq<string>)
    requires Consecutive(m)
  {
    seq(|m|, i requires 0 <= i < |m| => m[i])
  }

  function Field(f: Fields, key: string): Option<string> {
    if key in f.fields then Some(f.fields[key]) else None
  }

  function Finish(f: Fields): Option<MoEntry> {
    var context, plural := Field(f, "msgctxt"), Field(f, "msgid_plural");
    if "msgid" !in f.fields then None
    else if plural == None then
      if "msgstr" !in f.fields || f.translations != map[] then None
      else Some(MoEntry(context, f.fields["msgid"], plural, [f.fields["msgstr"]]))
    else if "msgstr" in f.fields || !Consecutive(f.translations) then None
    else Some(MoEntry(context, f.fields["msgid"], plural, InOrder(f.translations)))
  }

  const NO_FIELDS := Fields(map[], map[])

  function ParseGroup(group: string): Option<MoEntry> {
    var f := ParseLines(SplitLines(group), NO_FIELDS);
    if f == None then None else Finish(f.value)
  }

  function ParseGroups(groups: seq<string>): Option<seq<MoEntry>> {
    if groups == [] then Some([])
    else
      var init, last := ParseGroups(groups[..|groups| - 1]), ParseGroup(groups[|groups| - 1]);
      if init == None || last == None then None else Some(init.value + [last.value])
  }

  /** What `_parse_rendered` makes of a text. */
  function Parsed(text: string): Option<seq<MoEntry>> {
    ParseGroups(SplitGaps(StripNewlines(text)))
  }

  // ---------- One line ----------

  predicate SoundKey(key: string) {
    key != "" && forall i :: 0 <= i < |key| ==> key[i] > ' ' && !IsBreak(key[i])
  }

  lemma KeysAreSound(i: nat)
    ensures SoundKey(PluralKey(i))
  {
    assert AllDigits(Print(i));
  }

  /** A directive is read back from its line. */
  lemma LineIsRead(d: Directive)
    requires SoundKey(d.key)
    ensures ParseLine(Line(d)) == Some(d)
  {
    var line := Line(d);
    assert line == d.key + [' '] + Quote(d.value);
    assert line[0..] == line;
    FindFirst(line, d.key, ' ', 0);
    assert line[..|d.key|] == d.key && line[|d.key| + 1..] == Quote(d.value);
    LoadsQuote(d.value);
  }

  /** A line cut short inside its string is rejected. */
  lemma CutLineIsRejected(key: string, part: string)
    requires SoundKey(key)
    ensures ParseLine(key + " \"" + Escape(part)) == None
  {
    var line := key + " \"" + Escape(part);
    assert line == key + [' '] + ("\"" + Escape(part));
    assert line[0..] == line;
    FindFirst(line, key, ' ', 0);
    assert line[|key| + 1..] == "\"" + Escape(part);
    LoadsQuote(part);
  }

  lemma LineShape(d: Directive)
    requires SoundKey(d.key)
    ensures Line(d) != "" && forall j :: 0 <= j < |Line(d)| ==> Line(d)[j] != '\n'
    ensures Clean(d.value) ==> Unbroken(Line(d))
  {
    NoNewline(d.value);
    EscapedBreaks(d.value);
  }

  lemma {:induction false} NoNewline(s: string)
    ensures forall j :: 0 <= j < |Escape(s)| ==> Escape(s)[j] != '\n'
  {
    if s != "" {
      NoNewline(s[1..]);
    }
  }

  // ---------- The lines of one entry ----------

  predicate SoundKeys(ds: seq<Directive>) {
    forall i :: 0 <= i < |ds| ==> SoundKey(ds[i].key)
  }

  lemma {:induction false} PluralKeysAreSound(translations: seq<string>, n: nat)
    requires n <= |translations|
    ensures SoundKeys(PluralDirectives(translations, n))
    ensures forall i :: 0 <= i < n ==> PluralDirectives(translations, n)[i] == Directive(PluralKey(i), translations[i])
  {
    if n > 0 {
      PluralKeysAreSound(translations, n - 1);
      KeysAreSound(n - 1);
    }
  }

  lemma DirectivesAreSound(e: MoEntry)
    requires WellFormed(e)
    ensures SoundKeys(Directives(e))
  {
    if e.plural.Some? {
      PluralKeysAreSound(e.translations, |e.translations|);
    }
  }

  function AcceptAll(ds: seq<Directive>, f: Fields): Option<Fields> {
    if ds == [] then Some(f)
    else
      var next := Accept(f, ds[0]);
      if next == None then None else AcceptAll(ds[1..], next.value)
  }

  lemma {:induction false} LinesAreRead(ds: seq<Directive>, f: Fields)
    requires SoundKeys(ds)
    ensures ParseLines(Lines(ds), f) == AcceptAll(ds, f)
    decreases |ds|
  {
    if ds != [] {
      LineIsRead(ds[0]);
      assert Lines(ds)[1..] == Lines(ds[1..]);
      if Accept(f, ds[0]).Some? {
        LinesAreRead(ds[1..], Accept(f, ds[0]).value);
      }
    }
  }

  lemma {:induction false} AcceptConcat(a: seq<Directive>, b: seq<Directive>, f: Fields)
    ensures AcceptAll(a + b, f) == var g := AcceptAll(a, f); if g == None then None else AcceptAll(b, g.value)
    decreases |a|
  {
    if a == [] {
      assert a + b == b;
    } else {
      assert (a + b)[1..] == a[1..] + b;
      if Accept(f, a[0]).Some? {
        AcceptConcat(a[1..], b, Accept(f, a[0]).value);
      }
    }
  }

  function Numbered(translations: seq<string>, n: nat): (m: map<nat, string>)
    requires n <= |translations|
    ensures |m| == n
    ensures forall k: nat :: k in m <==> k < n
    ensures forall k :: k in m ==> m[k] == translations[k]
  {
    if n == 0 then map[] else Numbered(translations, n - 1)[n - 1 := translations[n - 1]]
  }

  lemma PluralKeyIsRead(i: nat)
    ensures IsPluralKey(PluralKey(i)) && PluralIndex(PluralKey(i)) == Some(i)
  {
    var key := PluralKey(i);
    assert key[7..|key| - 1] == Print(i);
    ValueOfPrint(i);
  }

  lemma PluralIsAccepted(translations: seq<string>, n: nat, f: Fields)
    requires n < |translations| && f.translations == Numbered(translations, n)
    ensures AcceptAll([Directive(PluralKey(n), translations[n])], f)
         == Some(f.(translations := Numbered(translations, n + 1)))
  {
    PluralKeyIsRead(n);
    var d := Directive(PluralKey(n), translations[n]);
    assert [d][1..] == [];
    assert Accept(f, d) == Some(f.(translations := Numbered(translations, n + 1)));
  }

  lemma {:induction false} PluralsAreRead(translations: seq<string>, n: nat, f: Fields)
    requires n <= |translations| && f.translations == map[]
    ensures AcceptAll(PluralDirectives(translations, n), f) == Some(f.(translations := Numbered(translations, n)))
  {
    if n > 0 {
      PluralsAreRead(translations, n - 1, f);
      AcceptConcat(PluralDirectives(translations, n - 1), [Directive(PluralKey(n - 1), translations[n - 1])], f);
      PluralIsAccepted(translations, n - 1, f.(translations := Numbered(translations, n - 1)));
    }
  }

  /** The fields an entry leaves behind once all its lines have been read. */
  function FieldsOf(e: MoEntry): Fields
    requires WellFormed(e)
  {
    var head := if e.context == None then map["msgid" := e.msgid]
                else map["msgctxt" := e.context.value, "msgid" := e.msgid];
    if e.plural == None then Fields(head["msgstr" := e.translations[0]], map[])
    else Fields(head["msgid_plural" := e.plural.value], Numbered(e.translations, |e.translations|))
  }

  lemma NotPlural(key: string)
    requires key in {"msgctxt", "msgid", "msgstr", "msgid_plural"}
    ensures !IsPluralKey(key)
  {
  }

  lemma OneAccepted(d: Directive, rest: seq<Directive>, f: Fields)
    requires d.key in {"msgctxt", "msgid", "msgstr", "msgid_plural"} && d.key !in f.fields
    ensures AcceptAll([d] + rest, f) == AcceptAll(rest, f.(fields := f.fields[d.key := d.value]))
  {
    NotPlural(d.key);
    assert ([d] + rest)[1..] == rest;
  }

  lemma HeadIsRead(e: MoEntry, rest: seq<Directive>)
    ensures AcceptAll(HeadDirectives(e) + rest, NO_FIELDS)
         == AcceptAll(rest, Fields(if e.context == None then map["msgid" := e.msgid]
                                   else map["msgctxt" := e.context.value, "msgid" := e.msgid], map[]))
  {
    var id := Directive("msgid", e.msgid);
    if e.context == None {
      assert HeadDirectives(e) + rest == [id] + rest;
      OneAccepted(id, rest, NO_FIELDS);
    } else {
      var context := Directive("msgctxt", e.context.value);
      assert HeadDirectives(e) + rest == [context] + ([id] + rest);
      OneAccepted(context, [id] + rest, NO_FIELDS);
      OneAccepted(id, rest, Fields(map["msgctxt" := e.context.value], map[]));
    }
  }

  lemma EntryIsAccepted(e: MoEntry)
    requires WellFormed(e)
    ensures AcceptAll(Directives(e), NO_FIELDS) == Some(FieldsOf(e))
  {
    var head := Fields(if e.context == None then map["msgid" := e.msgid]
                       else map["msgctxt" := e.context.value, "msgid" := e.msgid], map[]);
    if e.plural == None {
      var last := Directive("msgstr", e.translations[0]);
      HeadIsRead(e, [last]);
      assert [last] + [] == [last];
      OneAccepted(last, [], head);
    } else {
      var plurals := PluralDirectives(e.translations, |e.translations|);
      var plural := Directive("msgid_plural", e.plural.value);
      HeadIsRead(e, [plural] + plurals);
      OneAccepted(plural, plurals, head);
      PluralsAreRead(e.translations, |e.translations|, head.(fields := head.fields["msgid_plural" := e.plural.value]));
    }
  }

  lemma EntryIsFinished(e: MoEntry)
    requires WellFormed(e)
    ensures Finish(FieldsOf(e)) == Some(e)
  {
    if e.plural == None {
      assert e.translations == [e.translations[0]];
    } else {
      assert InOrder(Numbered(e.translations, |e.translations|)) == e.translations;
    }
  }

  // ---------- One group ----------

  ghost predicate CleanEntry(e: MoEntry)
    requires WellFormed(e)
  {
    forall i :: 0 <= i < |Directives(e)| ==> Clean(Directives(e)[i].value)
  }

  lemma CleanGroupIsRead(e: MoEntry)
    requires WellFormed(e) && CleanEntry(e)
    ensures ParseGroup(Group(e)) == Some(e)
  {
    var ds := Directives(e);
    DirectivesAreSound(e);
    forall i | 0 <= i < |ds|
      ensures Lines(ds)[i] != "" && Unbroken(Lines(ds)[i])
    {
      LineShape(ds[i]);
    }
    SplitJoined(Lines(ds));
    LinesAreRead(ds, NO_FIELDS);
    EntryIsAccepted(e);
    EntryIsFinished(e);
  }

  /** The first wide break of a string, and what stands before and after it. */
  lemma WideBreakIn(s: string) returns (before: string, c: char, after: string)
    requires !Clean(s)
    ensures s == before + [c] + after && Clean(before) && IsWideBreak(c)
  {
    var k: nat := 0;
    while !IsWideBreak(s[k])
      invariant k < |s| && Clean(s[..k]) && exists i :: k <= i < |s| && IsWideBreak(s[i])
      decreases |s| - k
    {
      assert s[..k + 1] == s[..k] + [s[k]];
      k := k + 1;
    }
    before, c, after := s[..k], s[k], s[k + 1..];
  }

  lemma {:induction false} EscapeConcat(a: string, b: string)
    ensures Escape(a + b) == Escape(a) + Escape(b)
  {
    if a == "" {
      assert a + b == b;
    } else {
      assert (a + b)[1..] == a[1..] + b;
      EscapeConcat(a[1..], b);
    }
  }

  lemma FirstFragment(part: string, c: char, tail: string)
    requires Unbroken(part) && IsBreak(c)
    ensures SplitLines(part + [c] + tail) != [] && SplitLines(part + [c] + tail)[0] == part
  {
    FirstBreakAfter(part, c, tail);
    assert (part + [c] + tail)[..|part|] == part;
  }

  lemma EscapeAround(before: string, c: char, after: string)
    requires IsWideBreak(c)
    ensures Escape(before + [c] + after) == Escape(before) + [c] + Escape(after)
  {
    EscapeConcat(before + [c], after);
    EscapeConcat(before, [c]);
    EscapeWide(c);
  }

  lemma EscapeWide(c: char)
    requires IsWideBreak(c)
    ensures Escape([c]) == [c]
  {
    assert EscapeChar(c) == [c] && [c][1..] == "";
  }

  lemma Regroup(key: string, a: string, b: string, c: string, rest: string)
    ensures key + " " + ("\"" + (a + b + c) + "\"") + rest == key + " \"" + a + b + (c + "\"" + rest)
  {
  }

  /** Where a line with a wide break in its string is cut. */
  lemma LineIsCut(d: Directive, rest: string) returns (before: string, c: char, tail: string)
    requires SoundKey(d.key) && !Clean(d.value)
    ensures IsBreak(c) && Clean(before)
    ensures Line(d) + rest == d.key + " \"" + Escape(before) + [c] + tail
  {
    var after;
    before, c, after := WideBreakIn(d.value);
    EscapeAround(before, c, after);
    tail := Escape(after) + "\"" + rest;
    Regroup(d.key, Escape(before), [c], Escape(after), rest);
  }

  /** A line with a wide break in its string is cut there, and the first part is rejected. */
  lemma BrokenLineIsRejected(d: Directive, rest: string, f: Fields)
    requires SoundKey(d.key) && !Clean(d.value)
    ensures ParseLines(SplitLines(Line(d) + rest), f) == None
  {
    var before, c, tail := LineIsCut(d, rest);
    EscapedBreaks(before);
    FirstFragment(d.key + " \"" + Escape(before), c, tail);
    CutLineIsRejected(d.key, before);
  }

  lemma TailHasBreak(ds: seq<Directive>)
    requires ds != [] && Clean(ds[0].value) && exists i :: 0 <= i < |ds| && !Clean(ds[i].value)
    ensures |ds| > 1 && exists i :: 0 <= i < |ds[1..]| && !Clean(ds[1..][i].value)
  {
    var i :| 0 <= i < |ds| && !Clean(ds[i].value);
    assert ds[1..][i - 1] == ds[i];
  }

  lemma CleanLineIsPassed(ds: seq<Directive>, f: Fields)
    requires SoundKeys(ds) && |ds| > 1 && Clean(ds[0].value)
    ensures ParseLines(SplitLines(JoinWith(Lines(ds), "\n")), f)
         == if Accept(f, ds[0]) == None then None
            else ParseLines(SplitLines(JoinWith(Lines(ds[1..]), "\n")), Accept(f, ds[0]).value)
  {
    LineShape(ds[0]);
    LineIsRead(ds[0]);
    assert Lines(ds)[1..] == Lines(ds[1..]);
    SplitFirstLine(Line(ds[0]), JoinWith(Lines(ds[1..]), "\n"));
  }

  lemma {:induction false} UncleanLinesAreRejected(ds: seq<Directive>, f: Fields)
    requires SoundKeys(ds) && exists i :: 0 <= i < |ds| && !Clean(ds[i].value)
    ensures ParseLines(SplitLines(JoinWith(Lines(ds), "\n")), f) == None
    decreases |ds|
  {
    if Clean(ds[0].value) {
      TailHasBreak(ds);
      CleanLineIsPassed(ds, f);
      if Accept(f, ds[0]).Some? {
        UncleanLinesAreRejected(ds[1..], Accept(f, ds[0]).value);
      }
    } else {
      var rest := FirstLineOff(ds);
      BrokenLineIsRejected(ds[0], rest, f);
    }
  }

  lemma FirstLineOff(ds: seq<Directive>) returns (rest: string)
    requires ds != []
    ensures JoinWith(Lines(ds), "\n") == Line(ds[0]) + rest
  {
    rest := if |ds| == 1 then "" else "\n" + JoinWith(Lines(ds)[1..], "\n");
  }

  lemma GroupIsParagraph(e: MoEntry)
    requires WellFormed(e)
    ensures Paragraph(Group(e))
  {
    var ds := Directives(e);
    DirectivesAreSound(e);
    forall i | 0 <= i < |ds|
      ensures Lines(ds)[i] != "" && forall j :: 0 <= j < |Lines(ds)[i]| ==> Lines(ds)[i][j] != '\n'
    {
      LineShape(ds[i]);
    }
    LinesMakeParagraph(Lines(ds));
  }

  lemma GroupIsRead(e: MoEntry)
    requires WellFormed(e)
    ensures ParseGroup(Group(e)) == if CleanEntry(e) then Some(e) else None
  {
    if CleanEntry(e) {
      CleanGroupIsRead(e);
    } else {
      DirectivesAreSound(e);
      UncleanLinesAreRejected(Directives(e), NO_FIELDS);
    }
  }

  lemma OneMoreGroup(groups: seq<string>, group: string)
    ensures var init, last := ParseGroups(groups), ParseGroup(group);
      ParseGroups(groups + [group]) == if init == None || last == None then None else Some(init.value + [last.value])
  {
    assert (groups + [group])[..|groups|] == groups;
  }

  ghost predicate AllClean(entries: seq<MoEntry>)
    requires forall e <- entries :: WellFormed(e)
  {
    forall e <- entries :: CleanEntry(e)
  }

  lemma {:induction false} GroupsAreRead(entries: seq<MoEntry>)
    requires forall e <- entries :: WellFormed(e)
    ensures ParseGroups(Groups(entries)) == if AllClean(entries) then Some(entries) else None
  {
    if entries != [] {
      var init, last := entries[..|entries| - 1], entries[|entries| - 1];
      assert entries == init + [last];
      assert Groups(entries) == Groups(init) + [Group(last)];
      assert AllClean(entries) <==> AllClean(init) && CleanEntry(last);
      GroupsAreRead(init);
      GroupIsRead(last);
      OneMoreGroup(Groups(init), Group(last));
    }
  }

  // ---------- The whole catalogue ----------

  /**
   The text of a catalogue is read back as that catalogue exactly when it has an entry and no string
   in it has one of the line breaks that JSON leaves as they are; it is rejected otherwise.
   */
  lemma RenderedIsRead(entries: seq<MoEntry>)
    requires forall e <- entries :: WellFormed(e)
    ensures Parsed(Render(entries))
         == if entries != [] && AllClean(entries) then Some(entries) else None
  {
    if entries == [] {
      NothingIsRejected();
    } else {
      var groups := Groups(entries);
      forall i | 0 <= i < |groups|
        ensures Paragraph(groups[i])
      {
        GroupIsParagraph(entries[i]);
      }
      JoinedIsSplit(groups);
      GroupsAreRead(entries);
    }
  }

  lemma NothingIsRejected()
    ensures Parsed(Render([])) == None
  {
    assert JoinWith(Groups([]), "\n\n") == "";
    assert StripNewlines("\n") == "" by { assert "\n"[..0] == ""; }
    assert SplitGaps("") == [""];
    assert [""][..0] == [];
    assert ParseGroups([""]) == None;
  }

  lemma JoinedIsSplit(groups: seq<string>)
    requires groups != [] && forall i :: 0 <= i < |groups| ==> Paragraph(groups[i])
    ensures SplitGaps(StripNewlines(JoinWith(groups, "\n\n") + "\n")) == groups
  {
    var text := JoinWith(groups, "\n\n");
    JoinedEnd(groups);
    Stripped(text);
    SplitParagraphs(groups);
  }

  lemma Stripped(text: string)
    requires text != "" && text[|text| - 1] != '\n'
    ensures StripNewlines(text + "\n") == text
  {
    assert (text + "\n")[..|text|] == text;
  }
}
