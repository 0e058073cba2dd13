/** Decimal text: what Python prints for a natural number, and the value `int()` reads from digits. */
module Decimal {
  predicate IsDigit(c: char) {
    '0' <= c <= '9'
  }

  predicate AllDigits(s: string) {
    forall i :: 0 <= i < |s| ==> IsDigit(s[i])
  }

  /** Digits without a redundant leading zero. */
  predicate Canonical(s: string) {
    s != "" && AllDigits(s) && (|s| > 1 ==> s[0] != '0')
  }

  function Digit(n: nat): (c: char)
    requires n < 10
    ensures IsDigit(c) && c as int - '0' as int == n
  {
    '0' + n as char
  }

  function DigitOf(c: char): (n: nat)
    requires IsDigit(c)
    ensures n < 10 && Digit(n) == c
  {
    c as int - '0' as int
  }

  function Value(s: string): nat
    requires AllDigits(s)
  {
    if s == "" then 0 else Value(s[..|s| - 1]) * 10 + DigitOf(s[|s| - 1])
  }

  function Print(n: nat): (s: string)
    ensures Canonical(s)
    ensures s[0] == '0' ==> n == 0
  {
    if n < 10 then [Digit(n)] else Print(n / 10) + [Digit(n % 10)]
  }

  lemma {:induction false} ValueOfPrint(n: nat)
    ensures Value(Print(n)) == n
  {
    if n >= 10 {
      ValueOfPrint(n / 10);
      assert Print(n)[..|Print(n)| - 1] == Print(n / 10);
    } else {
      assert Print(n)[..0] == "";
    }
  }

  lemma {:induction false} PrintOfValue(s: string)
    requires Canonical(s)
    ensures Print(Value(s)) == s
  {
    var init, last := s[..|s| - 1], s[|s| - 1];
    assert s == init + [last];
    if init == "" {
      assert Value(s) == DigitOf(last);
    } else {
      PrintOfValue(init);
      assert Print(0)[0] == '0';
    }
  }

  /** The position of the first `c` at or after `from`, or -1: `bytes.find`. */
  function Find(s: string, c: char, from: nat): (k: int)
    requires from <= |s|
    ensures k == -1 ==> forall j :: from <= j < |s| ==> s[j] != c
    ensures k != -1 ==> from <= k < |s| && s[k] == c && forall j :: from <= j < k ==> s[j] != c
    decreases |s| - from
  {
    if from == |s| then -1
    else if s[from] == c then from
    else Find(s, c, from + 1)
  }

  /** A delimiter that does not occur before it is the first one. */
  lemma FindFirst(s: string, t: string, c: char, from: nat)
    requires from <= |s| && t + [c] <= s[from..] && c !in t
    ensures Find(s, c, from) == from + |t|
  {
    assert s[from + |t|] == (t + [c])[|t|];
    forall j | from <= j < from + |t|
      ensures s[j] != c
    {
      assert s[j] == (t + [c])[j - from] == t[j - from];
    }
  }
}
