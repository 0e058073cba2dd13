/** Python's `sorted`, and sums over sequences: what the schedulers and indexes are built on. */
module Sorting {
  ghost predicate Total<T(!new)>(le: (T, T) -> bool) {
    && (forall x, y :: le(x, y) || le(y, x))
    && (forall x, y, z :: le(x, y) && le(y, z) ==> le(x, z))
  }

  ghost predicate Ascending<T>(s: seq<T>, le: (T, T) -> bool) {
    forall i, j :: 0 <= i < j < |s| ==> le(s[i], s[j])
  }

  /** Places `x` before the first element that does not precede it, which keeps the sort stable. */
  function Insert<T>(x: T, s: seq<T>, le: (T, T) -> bool): (r: seq<T>)
    ensures multiset(r) == multiset{x} + multiset(s)
  {
    if s == [] then [x]
    else if le(x, s[0]) then [x] + s
    else
      assert s == [s[0]] + s[1..];
      [s[0]] + Insert(x, s[1..], le)
  }

  function Sort<T>(s: seq<T>, le: (T, T) -> bool): (r: seq<T>)
    ensures multiset(r) == multiset(s)
    ensures |r| == |s|
  {
    if s == [] then []
    else
      assert s == [s[0]] + s[1..];
      var r := Insert(s[0], Sort(s[1..], le), le);
      assert |r| == |multiset(r)| == |multiset(s)| == |s|;
      r
  }

  lemma {:induction false} InsertAscends<T(!new)>(x: T, s: seq<T>, le: (T, T) -> bool)
    requires Total(le) && Ascending(s, le)
    ensures Ascending(Insert(x, s, le), le)
  {
    if s != [] && !le(x, s[0]) {
      InsertAscends(x, s[1..], le);
      var tail := Insert(x, s[1..], le);
      forall y | y in tail
        ensures le(s[0], y)
      {
        assert y in multiset(tail);
        if y != x {
          assert y in s[1..];
        }
      }
    }
  }

  lemma {:induction false} SortAscends<T(!new)>(s: seq<T>, le: (T, T) -> bool)
    requires Total(le)
    ensures Ascending(Sort(s, le), le)
  {
    if s != [] {
      SortAscends(s[1..], le);
      InsertAscends(s[0], Sort(s[1..], le), le);
    }
  }

  /** No two of the elements tie. */
  ghost predicate Tieless<T>(elements: set<T>, le: (T, T) -> bool) {
    forall x, y | x in elements && y in elements :: le(x, y) && le(y, x) ==> x == y
  }

  lemma HeadIsLeast<T>(s: seq<T>, x: T, le: (T, T) -> bool)
    requires Ascending(s, le) && x in s
    ensures x == s[0] || le(s[0], x)
  {
  }

  /** Two ascending arrangements of the same elements start with the same one. */
  lemma SameHead<T(!new)>(a: seq<T>, b: seq<T>, elements: set<T>, le: (T, T) -> bool)
    requires multiset(a) == multiset(b) && a != [] && b != []
    requires Ascending(a, le) && Ascending(b, le)
    requires Tieless(elements, le) && forall x :: x in a ==> x in elements
    ensures a[0] == b[0]
  {
    SameMembers(a, b);
    assert a[0] in b && b[0] in a;
    HeadIsLeast(a, b[0], le);
    HeadIsLeast(b, a[0], le);
  }

  lemma TailAscends<T>(s: seq<T>, le: (T, T) -> bool)
    requires s != [] && Ascending(s, le)
    ensures Ascending(s[1..], le)
  {
  }

  lemma HeadAndTail<T>(s: seq<T>)
    requires s != []
    ensures multiset(s) == multiset{s[0]} + multiset(s[1..])
  {
    assert s == [s[0]] + s[1..];
  }

  lemma SameTail<T>(a: seq<T>, b: seq<T>)
    requires a != [] && b != [] && a[0] == b[0] && multiset(a) == multiset(b)
    ensures multiset(a[1..]) == multiset(b[1..])
  {
    HeadAndTail(a);
    HeadAndTail(b);
    assert multiset(a[1..]) == multiset(a) - multiset{a[0]};
    assert multiset(b[1..]) == multiset(b) - multiset{b[0]};
  }

  /** An arrangement sorted by an order without ties depends only on the elements arranged. */
  lemma {:induction false} SortedIsUnique<T(!new)>(a: seq<T>, b: seq<T>, elements: set<T>, le: (T, T) -> bool)
    requires multiset(a) == multiset(b)
    requires Ascending(a, le) && Ascending(b, le)
    requires Tieless(elements, le) && forall x :: x in a ==> x in elements
    ensures a == b
  {
    assert |a| == |multiset(a)| == |multiset(b)| == |b|;
    if a != [] {
      SameHead(a, b, elements, le);
      SameTail(a, b);
      TailAscends(a, le);
      TailAscends(b, le);
      SortedIsUnique(a[1..], b[1..], elements, le);
      assert a == [a[0]] + a[1..] && b == [b[0]] + b[1..];
    }
  }

  lemma PrefixGrows<T>(s: seq<T>, i: nat)
    requires i < |s|
    ensures s[..i + 1] == s[..i] + [s[i]]
  {
  }

  lemma Associate<T>(a: seq<T>, b: seq<T>, c: seq<T>)
    ensures (a + b) + c == a + (b + c)
  {
  }

  lemma SameMembers<T(!new)>(a: seq<T>, b: seq<T>)
    requires multiset(a) == multiset(b)
    ensures forall x :: x in a <==> x in b
  {
    forall x
      ensures x in a <==> x in b
    {
      assert x in multiset(a) <==> x in multiset(b);
    }
  }

  /** Takes one occurrence of `x` out of a sequence. */
  lemma TakeOut<T>(s: seq<T>, x: T) returns (k: nat)
    requires x in multiset(s)
    ensures k < |s| && s[k] == x
    ensures multiset(s[..k] + s[k + 1..]) == multiset(s) - multiset{x}
  {
    k :| 0 <= k < |s| && s[k] == x;
    assert s == s[..k] + ([x] + s[k + 1..]);
  }

  function SumBy<T>(s: seq<T>, f: T -> nat): nat {
    if s == [] then 0 else SumBy(s[..|s| - 1], f) + f(s[|s| - 1])
  }

  lemma SumByAppend<T>(s: seq<T>, x: T, f: T -> nat)
    ensures SumBy(s + [x], f) == SumBy(s, f) + f(x)
  {
    assert (s + [x])[..|s|] == s;
  }

  lemma {:induction false} SumByConcat<T>(a: seq<T>, b: seq<T>, f: T -> nat)
    ensures SumBy(a + b, f) == SumBy(a, f) + SumBy(b, f)
  {
    if b == [] {
      assert a + b == a;
    } else {
      var init, last := b[..|b| - 1], b[|b| - 1];
      assert a + b == (a + init) + [last] && b == init + [last];
      SumByConcat(a, init, f);
      SumByAppend(a + init, last, f);
      SumByAppend(init, last, f);
    }
  }

  lemma SumByMiddle<T>(left: seq<T>, x: T, right: seq<T>, f: T -> nat)
    ensures SumBy(left + [x] + right, f) == SumBy(left + right, f) + f(x)
  {
    SumByConcat(left + [x], right, f);
    SumByAppend(left, x, f);
    SumByConcat(left, right, f);
  }

  lemma SplitAt<T>(s: seq<T>, k: nat)
    requires k < |s|
    ensures s == s[..k] + [s[k]] + s[k + 1..]
  {
  }

  lemma SumByTakeOut<T>(s: seq<T>, k: nat, f: T -> nat)
    requires k < |s|
    ensures SumBy(s, f) == SumBy(s[..k] + s[k + 1..], f) + f(s[k])
  {
    SplitAt(s, k);
    SumByMiddle(s[..k], s[k], s[k + 1..], f);
  }

  /** A sum does not depend on the order of its terms. */
  lemma {:induction false} SumByPermutation<T>(a: seq<T>, b: seq<T>, f: T -> nat)
    requires multiset(a) == multiset(b)
    ensures SumBy(a, f) == SumBy(b, f)
  {
    if a == [] {
      assert |multiset(b)| == 0;
    } else {
      var last := |a| - 1;
      assert a == a[..last] + [a[last]];
      var k := TakeOut(b, a[last]);
      SumByPermutation(a[..last], b[..k] + b[k + 1..], f);
      SumByTakeOut(b, k, f);
    }
  }

  function Flatten<T>(parts: seq<seq<T>>): seq<T> {
    if parts == [] then [] else parts[0] + Flatten(parts[1..])
  }

  lemma {:induction false} FlattenConcat<T>(a: seq<seq<T>>, b: seq<seq<T>>)
    ensures Flatten(a + b) == Flatten(a) + Flatten(b)
  {
    if a == [] {
      assert a + b == b;
    } else {
      assert (a + b)[1..] == a[1..] + b;
      FlattenConcat(a[1..], b);
    }
  }

  lemma FlattenSplit<T>(parts: seq<seq<T>>, k: nat)
    requires k < |parts|
    ensures Flatten(parts) == Flatten(parts[..k]) + parts[k] + Flatten(parts[k + 1..])
  {
    assert parts == parts[..k] + parts[k..];
    FlattenConcat(parts[..k], parts[k..]);
    assert parts[k..][1..] == parts[k + 1..];
  }

  /** Adding an element to one part adds it to the whole. */
  lemma FlattenGrow<T>(parts: seq<seq<T>>, k: nat, x: T)
    requires k < |parts|
    ensures multiset(Flatten(parts[k := parts[k] + [x]])) == multiset(Flatten(parts)) + multiset{x}
  {
    var grown := parts[k := parts[k] + [x]];
    FlattenSplit(parts, k);
    FlattenSplit(grown, k);
    assert grown[..k] == parts[..k] && grown[k + 1..] == parts[k + 1..];
  }

  /** Rearranging the parts rearranges the whole. */
  lemma {:induction false} FlattenPermutation<T>(a: seq<seq<T>>, b: seq<seq<T>>)
    requires multiset(a) == multiset(b)
    ensures multiset(Flatten(a)) == multiset(Flatten(b))
  {
    if a == [] {
      assert |multiset(b)| == 0;
    } else {
      assert a == [a[0]] + a[1..];
      var k := TakeOut(b, a[0]);
      var rest := b[..k] + b[k + 1..];
      assert multiset(a[1..]) == multiset(a) - multiset{a[0]};
      FlattenPermutation(a[1..], rest);
      FlattenSplit(b, k);
      FlattenConcat(b[..k], b[k + 1..]);
    }
  }

  /** Rearranging within the parts rearranges the whole. */
  lemma {:induction false} FlattenPointwise<T>(a: seq<seq<T>>, b: seq<seq<T>>)
    requires |a| == |b| && forall i :: 0 <= i < |a| ==> multiset(a[i]) == multiset(b[i])
    ensures multiset(Flatten(a)) == multiset(Flatten(b))
  {
    if a != [] {
      FlattenPointwise(a[1..], b[1..]);
    }
  }

  function Map<A, B>(s: seq<A>, f: A -> B): (r: seq<B>)
    ensures |r| == |s|
    ensures forall i :: 0 <= i < |s| ==> r[i] == f(s[i])
  {
    seq(|s|, i requires 0 <= i < |s| => f(s[i]))
  }

  lemma MapTakeOut<A, B>(s: seq<A>, k: nat, f: A -> B)
    requires k < |s|
    ensures multiset(Map(s, f)) == multiset(Map(s[..k] + s[k + 1..], f)) + multiset{f(s[k])}
  {
    assert Map(s, f) == Map(s[..k], f) + [f(s[k])] + Map(s[k + 1..], f);
    assert Map(s[..k] + s[k + 1..], f) == Map(s[..k], f) + Map(s[k + 1..], f);
  }

  lemma {:induction false} MapPermutation<A, B>(a: seq<A>, b: seq<A>, f: A -> B)
    requires multiset(a) == multiset(b)
    ensures multiset(Map(a, f)) == multiset(Map(b, f))
  {
    if a == [] {
      assert |multiset(b)| == 0;
    } else {
      var x := a[0];
      var j := TakeOut(a, x);
      var k := TakeOut(b, x);
      MapTakeOut(a, j, f);
      MapTakeOut(b, k, f);
      MapPermutation(a[..j] + a[j + 1..], b[..k] + b[k + 1..], f);
    }
  }
}
