/** `bytes_path_to_disk` of `client_tree.py`: byte paths as names on disk, without two of them meeting. */
module DiskPaths {
  type Byte = n: int | 0 <= n < 256

  /** Letters, digits and `._-~`, which percent encoding leaves as they are. */
  predicate Safe(b: Byte) {
    || 'a' as int <= b <= 'z' as int || 'A' as int <= b <= 'Z' as int || '0' as int <= b <= '9' as int
    || b == '.' as int || b == '_' as int || b == '-' as int || b == '~' as int
  }

  function Hex(n: int): char
    requires 0 <= n < 16
  {
    "0123456789ABCDEF"[n]
  }

  function QuoteByte(b: Byte): string {
    if Safe(b) then [b as char] else ['%', Hex(b / 16), Hex(b % 16)]
  }

  /** `quote_from_bytes` of one component. */
  function Quote(component: seq<Byte>): string {
    if component == [] then "" else QuoteByte(component[0]) + Quote(component[1..])
  }

  /** The components, quoted and joined by slashes. */
  function OnDisk(components: seq<seq<Byte>>): string
    requires components != []
  {
    if |components| == 1 then Quote(components[0])
    else Quote(components[0]) + "/" + OnDisk(components[1..])
  }

  lemma HexIsInjective(m: int, n: int)
    requires 0 <= m < 16 && 0 <= n < 16 && Hex(m) == Hex(n)
    ensures m == n
  {
  }

  lemma {:induction false} QuotedHasNoSlash(component: seq<Byte>)
    ensures '/' !in Quote(component)
  {
    if component != [] {
      QuotedHasNoSlash(component[1..]);
      assert '/' !in QuoteByte(component[0]);
    }
  }

  /** The first byte of a quoted text can be told, and what follows it. */
  lemma QuotedByte(a: Byte, s: string, b: Byte, t: string)
    requires QuoteByte(a) + s == QuoteByte(b) + t
    ensures a == b && s == t
  {
    var x, y := QuoteByte(a) + s, QuoteByte(b) + t;
    assert x[0] == QuoteByte(a)[0] && y[0] == QuoteByte(b)[0];
    assert Safe(a) == Safe(b);
    if !Safe(a) {
      assert x[1] == Hex(a / 16) && y[1] == Hex(b / 16) && x[2] == Hex(a % 16) && y[2] == Hex(b % 16);
      HexIsInjective(a / 16, b / 16);
      HexIsInjective(a % 16, b % 16);
    }
    assert s == x[|QuoteByte(a)|..] && t == y[|QuoteByte(b)|..];
  }

  lemma {:induction false} QuoteIsInjective(a: seq<Byte>, b: seq<Byte>)
    requires Quote(a) == Quote(b)
    ensures a == b
  {
    if a != [] && b != [] {
      QuotedByte(a[0], Quote(a[1..]), b[0], Quote(b[1..]));
      QuoteIsInjective(a[1..], b[1..]);
      assert a == [a[0]] + a[1..] && b == [b[0]] + b[1..];
    }
  }

  /** Texts without a slash are told apart before the first slash. */
  lemma BeforeSlash(p: string, s: string, q: string, t: string)
    requires '/' !in p && '/' !in q && p + "/" + s == q + "/" + t
    ensures p == q && s == t
  {
    var x, y := p + "/" + s, q + "/" + t;
    assert x[|p|] == '/' && y[|q|] == '/';
    assert forall i :: 0 <= i < |p| ==> x[i] == p[i] != '/';
    assert forall i :: 0 <= i < |q| ==> y[i] == q[i] != '/';
    assert |p| == |q|;
    assert p == x[..|p|] && q == y[..|q|] && s == x[|p| + 1..] && t == y[|q| + 1..];
  }

  lemma SlashOnlyBetween(components: seq<seq<Byte>>)
    requires components != []
    ensures '/' in OnDisk(components) <==> |components| > 1
  {
    QuotedHasNoSlash(components[0]);
    if |components| > 1 {
      assert OnDisk(components)[|Quote(components[0])|] == '/';
    }
  }

  /** Different byte paths have different names on disk. */
  lemma {:induction false} OnDiskIsInjective(a: seq<seq<Byte>>, b: seq<seq<Byte>>)
    requires a != [] && b != []
    ensures OnDisk(a) == OnDisk(b) <==> a == b
  {
    if OnDisk(a) == OnDisk(b) {
      SlashOnlyBetween(a);
      SlashOnlyBetween(b);
      if |a| == 1 {
        QuoteIsInjective(a[0], b[0]);
      } else {
        QuotedHasNoSlash(a[0]);
        QuotedHasNoSlash(b[0]);
        BeforeSlash(Quote(a[0]), OnDisk(a[1..]), Quote(b[0]), OnDisk(b[1..]));
        QuoteIsInjective(a[0], b[0]);
        OnDiskIsInjective(a[1..], b[1..]);
        assert a == [a[0]] + a[1..] && b == [b[0]] + b[1..];
      }
    }
  }
}
