/** Python's order of sequences and tuples, and the keys by which the manifests of a snapshot are sorted. */
module ManifestOrder {
  import opened Sorting

  ghost predicate StrictTotal<T(!new)>(less: (T, T) -> bool) {
    && (forall x :: !less(x, x))
    && (forall x, y :: x != y ==> less(x, y) || less(y, x))
    && forall x, y, z :: less(x, y) && less(y, z) ==> less(x, z)
  }

  /** The first difference decides, and a sequence comes before its continuations. */
  predicate Precedes<T(==)>(less: (T, T) -> bool, a: seq<T>, b: seq<T>) {
    if b == [] then false
    else if a == [] then true
    else if a[0] != b[0] then less(a[0], b[0])
    else Precedes(less, a[1..], b[1..])
  }

  /** At element `k` the two differ for the first time: `a` ends there, or has the lesser element. */
  ghost predicate Decides<T>(less: (T, T) -> bool, a: seq<T>, b: seq<T>, k: nat) {
    k <= |a| && k < |b| && a[..k] == b[..k] && (k == |a| || (a[k] != b[k] && less(a[k], b[k])))
  }

  lemma {:induction false} PrecedesExactly<T>(less: (T, T) -> bool, a: seq<T>, b: seq<T>)
    ensures Precedes(less, a, b) <==> exists k: nat :: Decides(less, a, b, k)
  {
    if a != [] && b != [] && a[0] == b[0] {
      PrecedesExactly(less, a[1..], b[1..]);
      if Precedes(less, a, b) {
        var k: nat :| Decides(less, a[1..], b[1..], k);
        assert a[..k + 1] == [a[0]] + a[1..][..k] && b[..k + 1] == [b[0]] + b[1..][..k];
        assert Decides(less, a, b, k + 1);
      }
      if k: nat :| Decides(less, a, b, k) {
        assert a[1..][..k - 1] == a[..k][1..] && b[1..][..k - 1] == b[..k][1..];
        assert Decides(less, a[1..], b[1..], k - 1);
      }
    } else if Precedes(less, a, b) {
      assert Decides(less, a, b, 0);
    }
  }

  function Lexicographic<T(==)>(less: (T, T) -> bool): (seq<T>, seq<T>) -> bool {
    (a, b) => Precedes(less, a, b)
  }

  lemma {:induction false} NeverBeforeItself<T(!new)>(less: (T, T) -> bool, a: seq<T>)
    ensures !Precedes(less, a, a)
  {
    if a != [] {
      NeverBeforeItself(less, a[1..]);
    }
  }

  lemma {:induction false} OneComesFirst<T(!new)>(less: (T, T) -> bool, a: seq<T>, b: seq<T>)
    requires StrictTotal(less) && a != b
    ensures Precedes(less, a, b) || Precedes(less, b, a)
  {
    if a != [] && b != [] && a[0] == b[0] {
      assert a == [a[0]] + a[1..] && b == [b[0]] + b[1..];
      OneComesFirst(less, a[1..], b[1..]);
    }
  }

  lemma {:induction false} OrderChains<T(!new)>(less: (T, T) -> bool, a: seq<T>, b: seq<T>, c: seq<T>)
    requires StrictTotal(less) && Precedes(less, a, b) && Precedes(less, b, c)
    ensures Precedes(less, a, c)
  {
    if a != [] && a[0] == b[0] && b[0] == c[0] {
      OrderChains(less, a[1..], b[1..], c[1..]);
    }
  }

  /** Sequences are strictly and totally ordered whenever their elements are. */
  lemma LexicographicIsTotal<T(!new)>(less: (T, T) -> bool)
    requires StrictTotal(less)
    ensures StrictTotal(Lexicographic(less))
  {
    var order := Lexicographic(less);
    forall a
      ensures !order(a, a)
    {
      NeverBeforeItself(less, a);
    }
    forall a, b | a != b
      ensures order(a, b) || order(b, a)
    {
      OneComesFirst(less, a, b);
    }
    forall a, b, c | order(a, b) && order(b, c)
      ensures order(a, c)
    {
      OrderChains(less, a, b, c);
    }
  }

  /** Every element comes before the next. */
  ghost predicate Chained<T>(before: (T, T) -> bool, s: seq<T>) {
    forall i :: 0 < i < |s| ==> before(s[i - 1], s[i])
  }

  lemma ChainedPrefix<T>(before: (T, T) -> bool, s: seq<T>, i: nat)
    requires i < |s|
    ensures Chained(before, s[..i + 1]) <==> Chained(before, s[..i]) && (i > 0 ==> before(s[i - 1], s[i]))
  {
    assert forall j :: 0 <= j < i ==> s[..i][j] == s[j];
    assert forall j :: 0 <= j <= i ==> s[..i + 1][j] == s[j];
    if Chained(before, s[..i + 1]) && i > 0 {
      assert before(s[..i + 1][i - 1], s[..i + 1][i]);
    }
  }

  /** A component of a key: a flag, a number, the code points of a string or the bytes of a path. */
  type Component = seq<nat>

  function NumberOrder(): (nat, nat) -> bool {
    (a: nat, b: nat) => a < b
  }

  function TupleOrder(): (seq<Component>, seq<Component>) -> bool {
    Lexicographic(Lexicographic(NumberOrder()))
  }

  /** Within a component, the first differing number decides, or the shorter component comes first. */
  ghost predicate LesserComponent(a: Component, b: Component) {
    exists l: nat :: l <= |a| && l < |b| && a[..l] == b[..l] && (l == |a| || a[l] < b[l])
  }

  /** Tuples are ordered by their first differing component, and components by their first differing number. */
  lemma TupleOrderExactly(a: seq<Component>, b: seq<Component>)
    ensures TupleOrder()(a, b)
      <==> exists k: nat :: k <= |a| && k < |b| && a[..k] == b[..k] && (k == |a| || LesserComponent(a[k], b[k]))
  {
    var components := Lexicographic(NumberOrder());
    PrecedesExactly(components, a, b);
    forall x: Component, y: Component
      ensures components(x, y) <==> LesserComponent(x, y)
    {
      ComponentOrderExactly(x, y);
    }
    forall x: Component
      ensures !components(x, x)
    {
      NeverBeforeItself(NumberOrder(), x);
    }
    if TupleOrder()(a, b) {
      var k: nat :| Decides(components, a, b, k);
    }
    if k: nat :| k <= |a| && k < |b| && a[..k] == b[..k] && (k == |a| || LesserComponent(a[k], b[k])) {
      assert Decides(components, a, b, k);
    }
  }

  lemma ComponentOrderExactly(a: Component, b: Component)
    ensures Lexicographic(NumberOrder())(a, b) <==> LesserComponent(a, b)
  {
    PrecedesExactly(NumberOrder(), a, b);
    if LesserComponent(a, b) {
      var l: nat :| l <= |a| && l < |b| && a[..l] == b[..l] && (l == |a| || a[l] < b[l]);
      assert Decides(NumberOrder(), a, b, l);
    }
  }

  /** Tuples of one length: the first components decide, or the rest does where these are the same. */
  lemma FirstDecides(x: Component, a: seq<Component>, y: Component, b: seq<Component>)
    ensures TupleOrder()([x] + a, [y] + b) <==> LesserComponent(x, y) || (x == y && TupleOrder()(a, b))
  {
    ComponentOrderExactly(x, y);
    NeverBeforeItself(NumberOrder(), x);
    assert ([x] + a)[1..] == a && ([y] + b)[1..] == b;
  }

  lemma LesserNumber(m: nat, n: nat)
    ensures LesserComponent([m], [n]) <==> m < n
  {
    ComponentOrderExactly([m], [n]);
  }

  lemma TupleOrderIsTotal()
    ensures StrictTotal(TupleOrder())
  {
    LexicographicIsTotal(NumberOrder());
    LexicographicIsTotal(Lexicographic(NumberOrder()));
  }

  function CodePoints(s: string): (r: Component)
    ensures |r| == |s|
  {
    seq(|s|, i requires 0 <= i < |s| => s[i] as nat)
  }

  lemma CodePointsDiffer(a: string, b: string)
    requires CodePoints(a) == CodePoints(b)
    ensures a == b
  {
    forall i | 0 <= i < |a|
      ensures a[i] == b[i]
    {
      assert CodePoints(a)[i] == CodePoints(b)[i];
    }
  }

  /** What a sort by `key` keeps in order: no key after a greater one. */
  function ByKey<T>(key: T -> seq<Component>): (T, T) -> bool {
    (x, y) => !TupleOrder()(key(y), key(x))
  }

  lemma AtMostChains(a: seq<Component>, b: seq<Component>, c: seq<Component>)
    requires !TupleOrder()(b, a) && !TupleOrder()(c, b)
    ensures !TupleOrder()(c, a)
  {
    TupleOrderIsTotal();
    if a != b && b != c {
      assert TupleOrder()(a, b) && TupleOrder()(b, c) && TupleOrder()(a, c);
      assert TupleOrder()(c, a) ==> TupleOrder()(a, a);
    }
  }

  lemma ByKeyIsTotal<T(!new)>(key: T -> seq<Component>)
    ensures Total(ByKey(key))
  {
    TupleOrderIsTotal();
    var le := ByKey(key);
    forall x, y, z | le(x, y) && le(y, z)
      ensures le(x, z)
    {
      AtMostChains(key(x), key(y), key(z));
    }
  }
}
