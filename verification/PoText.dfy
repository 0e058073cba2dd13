/** The text primitives that the PO writer and reader of `MoCatalogueConverter` are made of. */
module PoText {
  import opened Wrappers

  // ---------- JSON strings, section 7 of RFC 8259, as `json` writes and reads them ----------

  function HexDigit(n: nat): char
    requires n < 16
  {
    "0123456789abcdef"[n]
  }

  function HexValue(c: char): Option<nat> {
    if '0' <= c <= '9' then Some(c as int - '0' as int)
    else if 'a' <= c <= 'f' then Some(c as int - 'a' as int + 10)
    else if 'A' <= c <= 'F' then Some(c as int - 'A' as int + 10)
    else None
  }

  /** `json.dumps(..., ensure_ascii=False)` on one character. */
  function EscapeChar(c: char): string {
    var n := c as int;
    if c == '"' then "\\\""
    else if c == '\\' then "\\\\"
    else if n == 8 then "\\b"
    else if n == 12 then "\\f"
    else if c == '\n' then "\\n"
    else if c == '\r' then "\\r"
    else if c == '\t' then "\\t"
    else if n < 0x20 then "\\u00" + [HexDigit(n / 16), HexDigit(n % 16)]
    else [c]
  }

  function Escape(s: string): string {
    if s == "" then "" else EscapeChar(s[0]) + Escape(s[1..])
  }

  function Quote(s: string): string {
    "\"" + Escape(s) + "\""
  }

  predicate IsSpace(c: char) {
    c == ' ' || c == '\t' || c == '\n' || c == '\r'
  }

  predicate AllSpace(s: string) {
    forall i :: 0 <= i < |s| ==> IsSpace(s[i])
  }

  /** The character after a backslash, or nothing for `u` and for anything JSON does not define. */
  function SimpleEscape(c: char): Option<char> {
    if c == '"' || c == '\\' || c == '/' then Some(c)
    else if c == 'b' then Some(8 as char)
    else if c == 'f' then Some(12 as char)
    else if c == 'n' then Some('\n')
    else if c == 'r' then Some('\r')
    else if c == 't' then Some('\t')
    else None
  }

  function Prepend(c: char, rest: Option<string>): Option<string> {
    if rest == None then None else Some([c] + rest.value)
  }

  /** The text after the opening quote, up to the closing quote and nothing but space after it. */
  function Unescape(t: string): Option<string> {
    if t == "" then None
    else if t[0] == '"' then if AllSpace(t[1..]) then Some("") else None
    else if t[0] < ' ' then None
    else if t[0] != '\\' then Prepend(t[0], Unescape(t[1..]))
    else if |t| < 2 then None
    else if SimpleEscape(t[1]).Some? then Prepend(SimpleEscape(t[1]).value, Unescape(t[2..]))
    else if t[1] == 'u' && |t| >= 6 && FourHex(t[2..6]).Some? then Prepend(FourHex(t[2..6]).value, Unescape(t[6..]))
    else None
  }

  /** The character of a `\u` escape; surrogates are no characters on their own. */
  function FourHex(h: string): Option<char>
    requires |h| == 4
  {
    var a, b, c, d := HexValue(h[0]), HexValue(h[1]), HexValue(h[2]), HexValue(h[3]);
    if a == None || b == None || c == None || d == None then None
    else
      var n := a.value * 0x1000 + b.value * 0x100 + c.value * 0x10 + d.value;
      if n < 0xD800 || 0xE000 <= n < 0x1_0000 then Some(n as char) else None
  }

  /** `json.loads`, where only a string is a usable result. */
  function Loads(raw: string): Option<string> {
    if raw == "" then None
    else if IsSpace(raw[0]) then Loads(raw[1..])
    else if raw[0] == '"' then Unescape(raw[1..])
    else None
  }

  lemma FourHexOf(n: nat)
    requires n < 0x20
    ensures FourHex(['0', '0', HexDigit(n / 16), HexDigit(n % 16)]) == Some(n as char)
  {
  }

  lemma UnescapeCode(n: nat, rest: string)
    requires n < 0x20
    ensures Unescape(['\\', 'u', '0', '0', HexDigit(n / 16), HexDigit(n % 16)] + rest)
         == Prepend(n as char, Unescape(rest))
  {
    var t := ['\\', 'u', '0', '0', HexDigit(n / 16), HexDigit(n % 16)] + rest;
    FourHexOf(n);
    assert t[6..] == rest && t[2..6] == ['0', '0', HexDigit(n / 16), HexDigit(n % 16)];
  }

  lemma UnescapeSimple(x: char, rest: string)
    requires SimpleEscape(x).Some?
    ensures Unescape(['\\', x] + rest) == Prepend(SimpleEscape(x).value, Unescape(rest))
  {
    assert (['\\', x] + rest)[2..] == rest;
  }

  lemma UnescapePlain(c: char, rest: string)
    requires c as int >= 0x20 && c != '"' && c != '\\'
    ensures Unescape([c] + rest) == Prepend(c, Unescape(rest))
  {
    assert ([c] + rest)[1..] == rest;
  }

  /** The letter of a two-character escape, if the character has one. */
  function Letter(c: char): Option<char> {
    var n := c as int;
    if c == '"' || c == '\\' then Some(c)
    else if n == 8 then Some('b')
    else if n == 12 then Some('f')
    else if c == '\n' then Some('n')
    else if c == '\r' then Some('r')
    else if c == '\t' then Some('t')
    else None
  }

  lemma EscapeShape(c: char)
    ensures Letter(c).Some? ==> EscapeChar(c) == ['\\', Letter(c).value] && SimpleEscape(Letter(c).value) == Some(c)
    ensures Letter(c) == None && c as int < 0x20 ==>
              EscapeChar(c) == ['\\', 'u', '0', '0', HexDigit(c as int / 16), HexDigit(c as int % 16)]
    ensures Letter(c) == None && c as int >= 0x20 ==> EscapeChar(c) == [c] && c != '"' && c != '\\'
  {
  }

  lemma UnescapeChar(c: char, rest: string)
    ensures Unescape(EscapeChar(c) + rest) == Prepend(c, Unescape(rest))
  {
    EscapeShape(c);
    if Letter(c).Some? {
      UnescapeSimple(Letter(c).value, rest);
    } else if c as int < 0x20 {
      UnescapeCode(c as int, rest);
    } else {
      UnescapePlain(c, rest);
    }
  }

  function Extend(s: string, rest: Option<string>): Option<string> {
    if rest == None then None else Some(s + rest.value)
  }

  lemma ExtendStep(s: string, rest: Option<string>)
    ensures s != "" ==> Prepend(s[0], Extend(s[1..], rest)) == Extend(s, rest)
    ensures Extend("", rest) == rest
  {
    if rest.Some? {
      assert "" + rest.value == rest.value;
      if s != "" {
        assert [s[0]] + (s[1..] + rest.value) == s + rest.value;
      }
    }
  }

  lemma EscapeStep(s: string, rest: string)
    requires s != ""
    ensures Escape(s) + rest == EscapeChar(s[0]) + (Escape(s[1..]) + rest)
  {
  }

  lemma {:induction false} UnescapeEscape(s: string, rest: string)
    ensures Unescape(Escape(s) + rest) == Extend(s, Unescape(rest))
  {
    ExtendStep(s, Unescape(rest));
    if s == "" {
      assert Escape(s) + rest == rest;
    } else {
      UnescapeEscape(s[1..], rest);
      EscapeStep(s, rest);
      UnescapeChar(s[0], Escape(s[1..]) + rest);
    }
  }

  /** A quoted string is read back; cut short anywhere between two characters, it is not a string. */
  lemma LoadsQuote(s: string)
    ensures Loads(Quote(s)) == Some(s)
    ensures Loads("\"" + Escape(s)) == None
  {
    UnescapeEscape(s, "\"");
    UnescapeEscape(s, "");
    assert Quote(s)[1..] == Escape(s) + "\"";
    assert ("\"" + Escape(s))[1..] == Escape(s) + "";
    assert s + "" == s;
  }

  // ---------- Lines ----------

  /** The characters at which `str.splitlines` breaks. */
  predicate IsBreak(c: char) {
    var n := c as int;
    10 <= n <= 13 || 28 <= n <= 30 || IsWideBreak(c)
  }

  /** Those of them that JSON does not escape: U+0085, U+2028 and U+2029. */
  predicate IsWideBreak(c: char) {
    c as int == 0x85 || c as int == 0x2028 || c as int == 0x2029
  }

  predicate Unbroken(s: string) {
    forall i :: 0 <= i < |s| ==> !IsBreak(s[i])
  }

  /** The strings that survive the writer and the reader. */
  predicate Clean(s: string) {
    forall i :: 0 <= i < |s| ==> !IsWideBreak(s[i])
  }

  function FirstBreak(s: string): (k: nat)
    ensures k <= |s| && forall i :: 0 <= i < k ==> !IsBreak(s[i])
    ensures k < |s| ==> IsBreak(s[k])
  {
    if s == "" then 0
    else if IsBreak(s[0]) then 0
    else 1 + FirstBreak(s[1..])
  }

  function SplitLines(s: string): seq<string> {
    if s == "" then []
    else
      var k := FirstBreak(s);
      if k == |s| then [s]
      else if s[k] == '\r' && k + 1 < |s| && s[k + 1] == '\n' then [s[..k]] + SplitLines(s[k + 2..])
      else [s[..k]] + SplitLines(s[k + 1..])
  }

  /** An unbroken part ends at the first break after it. */
  lemma FirstBreakAfter(part: string, c: char, rest: string)
    requires Unbroken(part) && IsBreak(c)
    ensures FirstBreak(part + [c] + rest) == |part|
  {
    var s := part + [c] + rest;
    assert s[|part|] == c;
    forall i | 0 <= i < |part|
      ensures !IsBreak(s[i])
    {
      assert s[i] == part[i];
    }
  }

  function JoinWith(parts: seq<string>, separator: string): string {
    if parts == [] then ""
    else if |parts| == 1 then parts[0]
    else parts[0] + separator + JoinWith(parts[1..], separator)
  }

  lemma SplitFirstLine(line: string, rest: string)
    requires Unbroken(line)
    ensures SplitLines(line + "\n" + rest) == [line] + SplitLines(rest)
  {
    var s := line + "\n" + rest;
    assert s == line + ['\n'] + rest;
    FirstBreakAfter(line, '\n', rest);
    assert s[..|line|] == line && s[|line| + 1..] == rest;
  }

  lemma SplitLastLine(line: string)
    requires Unbroken(line) && line != ""
    ensures SplitLines(line) == [line]
  {
    assert FirstBreak(line) == |line|;
  }

  predicate WholeLine(line: string) {
    line != "" && Unbroken(line)
  }

  lemma JoinFirst(parts: seq<string>, separator: string)
    requires |parts| > 1
    ensures JoinWith(parts, separator) == parts[0] + separator + JoinWith(parts[1..], separator)
  {
  }

  /** Lines that are joined are split again. */
  lemma {:induction false} SplitJoined(lines: seq<string>)
    requires forall i :: 0 <= i < |lines| ==> WholeLine(lines[i])
    ensures SplitLines(JoinWith(lines, "\n")) == lines
  {
    if |lines| == 1 {
      SplitLastLine(lines[0]);
      assert lines == [lines[0]];
    } else if lines != [] {
      SplitJoined(lines[1..]);
      JoinFirst(lines, "\n");
      SplitFirstLine(lines[0], JoinWith(lines[1..], "\n"));
    }
  }

  lemma {:induction false} EscapedBreaks(s: string)
    ensures Clean(s) ==> Unbroken(Escape(s))
  {
    if s != "" && Clean(s) {
      assert Clean(s[1..]);
      EscapedBreaks(s[1..]);
      assert !IsWideBreak(s[0]);
      EscapedBreak(s[0]);
    }
  }

  lemma EscapedBreak(c: char)
    ensures !IsWideBreak(c) ==> Unbroken(EscapeChar(c))
  {
    EscapeShape(c);
  }

  // ---------- Paragraphs ----------

  /** The start of the first empty line, or the length of the text. */
  function FirstGap(s: string): (k: nat)
    ensures k <= |s|
    ensures k < |s| ==> k + 1 < |s| && s[k] == '\n' && s[k + 1] == '\n'
  {
    if |s| < 2 then |s|
    else if s[0] == '\n' && s[1] == '\n' then 0
    else
      var k := FirstGap(s[1..]);
      assert k < |s[1..]| ==> s[1..][k] == s[k + 1] && s[1..][k + 1] == s[k + 2];
      k + 1
  }

  /** `split("\n\n")`. */
  function SplitGaps(s: string): seq<string> {
    var k := FirstGap(s);
    if k == |s| then [s] else [s[..k]] + SplitGaps(s[k + 2..])
  }

  function StripNewlines(s: string): string {
    if s != "" && s[|s| - 1] == '\n' then StripNewlines(s[..|s| - 1]) else s
  }

  /** A paragraph neither begins nor ends with a line break and has no empty line. */
  predicate Paragraph(s: string) {
    && s != "" && s[0] != '\n' && s[|s| - 1] != '\n'
    && forall i :: 0 <= i < |s| - 1 ==> !(s[i] == '\n' && s[i + 1] == '\n')
  }

  lemma {:induction false} FirstGapAfter(part: string, rest: string)
    requires part != "" && part[|part| - 1] != '\n'
    requires forall i :: 0 <= i < |part| - 1 ==> !(part[i] == '\n' && part[i + 1] == '\n')
    ensures FirstGap(part + "\n\n" + rest) == |part|
    ensures FirstGap(part) == |part|
  {
    var s := part + "\n\n" + rest;
    assert s[0] == part[0] && s[1] == if |part| > 1 then part[1] else '\n';
    if |part| == 1 {
      assert s[1..] == "\n\n" + rest;
      assert s[1..][0] == s[1..][1] == '\n';
    } else {
      FirstGapAfter(part[1..], rest);
      assert s[1..] == part[1..] + "\n\n" + rest;
    }
  }

  lemma SplitLastParagraph(part: string)
    requires Paragraph(part)
    ensures SplitGaps(part) == [part]
  {
    FirstGapAfter(part, "");
  }

  lemma SplitFirstParagraph(part: string, rest: string)
    requires Paragraph(part)
    ensures SplitGaps(part + "\n\n" + rest) == [part] + SplitGaps(rest)
  {
    var s := part + "\n\n" + rest;
    FirstGapAfter(part, rest);
    assert s[..|part|] == part && s[|part| + 2..] == rest;
  }

  /** Paragraphs that are joined by empty lines are split again. */
  lemma {:induction false} SplitParagraphs(parts: seq<string>)
    requires parts != [] && forall i :: 0 <= i < |parts| ==> Paragraph(parts[i])
    ensures SplitGaps(JoinWith(parts, "\n\n")) == parts
  {
    if |parts| == 1 {
      SplitLastParagraph(parts[0]);
      assert parts == [parts[0]];
    } else {
      var rest := JoinWith(parts[1..], "\n\n");
      SplitParagraphs(parts[1..]);
      SplitFirstParagraph(parts[0], rest);
      JoinFirst(parts, "\n\n");
    }
  }

  /** The last character of joined paragraphs is that of the last one. */
  lemma {:induction false} JoinedEnd(parts: seq<string>)
    requires parts != [] && forall i :: 0 <= i < |parts| ==> Paragraph(parts[i])
    ensures var s := JoinWith(parts, "\n\n"); s != "" && s[|s| - 1] != '\n'
  {
    if |parts| > 1 {
      JoinedEnd(parts[1..]);
    }
  }

  /** Joined unbroken lines make a paragraph. */
  lemma {:induction false} LinesMakeParagraph(lines: seq<string>)
    requires lines != []
    requires forall i :: 0 <= i < |lines| ==> lines[i] != "" && forall j :: 0 <= j < |lines[i]| ==> lines[i][j] != '\n'
    ensures Paragraph(JoinWith(lines, "\n"))
  {
    if |lines| > 1 {
      var rest := JoinWith(lines[1..], "\n");
      LinesMakeParagraph(lines[1..]);
      var s := lines[0] + "\n" + rest;
      forall i | 0 <= i < |s| - 1
        ensures !(s[i] == '\n' && s[i + 1] == '\n')
      {
        if i < |lines[0]| {
          assert s[i] == lines[0][i];
        } else if i == |lines[0]| {
          assert s[i + 1] == rest[0];
        } else {
          assert s[i] == rest[i - |lines[0]| - 1] && s[i + 1] == rest[i - |lines[0]|];
        }
      }
    }
  }
}
