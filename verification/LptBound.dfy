/**
 Graham's bound for largest-first list scheduling, stated over assignments: `a[i]` is the bin that
 item `i` of weight `w[i]` is placed in.
 */
module LptBound {
  /** Weight that the first `n` items put into bin `b`. */
  function Load(w: seq<nat>, a: seq<nat>, b: nat, n: nat): nat
    requires n <= |w| && n <= |a|
  {
    if n == 0 then 0
    else Load(w, a, b, n - 1) + if a[n - 1] == b then w[n - 1] else 0
  }

  function Total(w: seq<nat>, n: nat): nat
    requires n <= |w|
  {
    if n == 0 then 0 else Total(w, n - 1) + w[n - 1]
  }

  /** Combined load of the first `m` bins. */
  function BinSum(w: seq<nat>, a: seq<nat>, m: nat, n: nat): nat
    requires n <= |w| && n <= |a|
  {
    if m == 0 then 0 else BinSum(w, a, m - 1, n) + Load(w, a, m - 1, n)
  }

  ghost predicate Descending(w: seq<nat>) {
    forall i, j :: 0 <= i <= j < |w| ==> w[i] >= w[j]
  }

  ghost predicate Assigns(a: seq<nat>, m: nat, n: nat) {
    |a| >= n && forall i :: 0 <= i < n ==> a[i] < m
  }

  /** Every item goes to a bin that is least loaded at that moment. */
  ghost predicate Greedy(w: seq<nat>, a: seq<nat>, m: nat, n: nat)
    requires n <= |w|
  {
    Assigns(a, m, n) && forall i :: 0 <= i < n ==> LeastLoaded(w, a, m, i, a[i])
  }

  ghost predicate LeastLoaded(w: seq<nat>, a: seq<nat>, m: nat, i: nat, chosen: nat)
    requires i <= |w| && i <= |a|
  {
    forall b :: 0 <= b < m ==> Load(w, a, chosen, i) <= Load(w, a, b, i)
  }

  ghost predicate Within(w: seq<nat>, a: seq<nat>, m: nat, n: nat, limit: nat)
    requires n <= |w| && n <= |a|
  {
    forall b :: 0 <= b < m ==> Load(w, a, b, n) <= limit
  }

  lemma {:induction false} BinSumStep(w: seq<nat>, a: seq<nat>, m: nat, n: nat)
    requires n < |w| && n < |a|
    ensures BinSum(w, a, m, n + 1) == BinSum(w, a, m, n) + if a[n] < m then w[n] else 0
  {
    if m > 0 {
      BinSumStep(w, a, m - 1, n);
    }
  }

  /** Conservation: the bins together hold exactly what was assigned. */
  lemma {:induction false} BinsHoldTotal(w: seq<nat>, a: seq<nat>, m: nat, n: nat)
    requires n <= |w| && Assigns(a, m, n)
    ensures BinSum(w, a, m, n) == Total(w, n)
  {
    if n == 0 {
      EmptyBins(w, a, m);
    } else {
      BinsHoldTotal(w, a, m, n - 1);
      BinSumStep(w, a, m, n - 1);
    }
  }

  lemma {:induction false} EmptyBins(w: seq<nat>, a: seq<nat>, m: nat)
    ensures BinSum(w, a, m, 0) == 0
  {
    if m > 0 {
      EmptyBins(w, a, m - 1);
    }
  }

  lemma {:induction false} BinSumAtLeast(w: seq<nat>, a: seq<nat>, m: nat, n: nat, low: nat)
    requires n <= |w| && n <= |a|
    requires forall b :: 0 <= b < m ==> low <= Load(w, a, b, n)
    ensures m * low <= BinSum(w, a, m, n)
  {
    if m > 0 {
      BinSumAtLeast(w, a, m - 1, n, low);
      assert m * low == (m - 1) * low + low;
    }
  }

  lemma {:induction false} BinSumAtMost(w: seq<nat>, a: seq<nat>, m: nat, n: nat, high: nat)
    requires n <= |w| && n <= |a|
    requires Within(w, a, m, n, high)
    ensures BinSum(w, a, m, n) <= m * high
  {
    if m > 0 {
      BinSumAtMost(w, a, m - 1, n, high);
      assert m * high == (m - 1) * high + high;
    }
  }

  lemma {:induction false} LoadGrows(w: seq<nat>, a: seq<nat>, b: nat, n: nat, n': nat)
    requires n <= n' <= |w| && n' <= |a|
    ensures Load(w, a, b, n) <= Load(w, a, b, n')
  {
    if n < n' {
      LoadGrows(w, a, b, n, n' - 1);
    }
  }

  /** The last item in a bin that carries any weight. */
  lemma {:induction false} LastIn(w: seq<nat>, a: seq<nat>, b: nat, n: nat) returns (i: nat)
    requires n <= |w| && n <= |a| && Load(w, a, b, n) > 0
    ensures i < n && a[i] == b
    ensures Load(w, a, b, n) == Load(w, a, b, i) + w[i]
    ensures Load(w, a, b, n) == Load(w, a, b, i + 1)
  {
    i := n - 1;
    if a[i] != b {
      i := LastIn(w, a, b, n - 1);
    }
  }

  /** Items sharing a bin weigh no more than the bin. */
  lemma PairFits(w: seq<nat>, a: seq<nat>, n: nat, i: nat, j: nat)
    requires i < j < n <= |w| && n <= |a| && a[i] == a[j]
    ensures w[i] + w[j] <= Load(w, a, a[j], n)
  {
    LoadGrows(w, a, a[j], i + 1, j);
    LoadGrows(w, a, a[j], j + 1, n);
  }

  lemma TripleFits(w: seq<nat>, a: seq<nat>, n: nat, h: nat, i: nat, j: nat)
    requires h < i < j < n <= |w| && n <= |a| && a[h] == a[i] == a[j]
    ensures w[h] + w[i] + w[j] <= Load(w, a, a[j], n)
  {
    PairFits(w, a, j, h, i);
    LoadGrows(w, a, a[j], j + 1, n);
  }

  lemma WithinPrefix(w: seq<nat>, a: seq<nat>, m: nat, n: nat, n': nat, limit: nat)
    requires n <= n' <= |w| && n' <= |a| && Within(w, a, m, n', limit)
    ensures Within(w, a, m, n, limit)
  {
    forall b | 0 <= b < m
      ensures Load(w, a, b, n) <= limit
    {
      LoadGrows(w, a, b, n, n');
    }
  }

  lemma Distribute(m: nat, x: nat, y: nat)
    ensures m * (x + y) == m * x + (m - 1) * y + y
  {
  }

  /** List scheduling bound, for any order of the items: m L <= total + (m - 1) (last item). */
  lemma ListBound(w: seq<nat>, a: seq<nat>, m: nat, j: nat)
    requires j < |w| && Greedy(w, a, m, j + 1)
    ensures m * Load(w, a, a[j], j + 1) <= Total(w, j + 1) + (m - 1) * w[j]
  {
    LowShare(w, a, m, j);
    ListArithmetic(m, Load(w, a, a[j], j), w[j], Total(w, j), Load(w, a, a[j], j + 1), Total(w, j + 1));
  }

  /** The bin chosen for an item holds at most its share of those before it. */
  lemma LowShare(w: seq<nat>, a: seq<nat>, m: nat, j: nat)
    requires j < |w| && Greedy(w, a, m, j + 1)
    ensures m * Load(w, a, a[j], j) <= Total(w, j)
  {
    assert LeastLoaded(w, a, m, j, a[j]);
    BinSumAtLeast(w, a, m, j, Load(w, a, a[j], j));
    BinsHoldTotal(w, a, m, j);
  }

  lemma ListArithmetic(m: nat, low: nat, x: nat, before: nat, load: nat, total: nat)
    requires m * low <= before && load == low + x && total == before + x
    ensures m * load <= total + (m - 1) * x
  {
    Distribute(m, low, x);
  }

  /** Item `i` is the only one among the first `k` in its bin. */
  predicate Alone(a: seq<nat>, k: nat, i: nat)
    requires i < k <= |a|
  {
    forall i' :: 0 <= i' < k && i' != i ==> a[i'] != a[i]
  }

  /** Counts an item twice when it has a bin to itself, so that every occupied bin counts two. */
  function Tokens(a: seq<nat>, k: nat): (t: seq<nat>)
    requires k < |a|
    ensures |t| == k + 1 && t[k] == 1
    ensures forall i :: 0 <= i < k ==> t[i] == if Alone(a, k, i) then 2 else 1
  {
    seq(k, i requires 0 <= i < k => if Alone(a, k, i) then 2 else 1) + [1]
  }

  lemma BinCountsTwo(w: seq<nat>, a: seq<nat>, k: nat, b: nat)
    requires k < |w| && k < |a| && Load(w, a, b, k) > 0
    ensures Load(Tokens(a, k), a, b, k) >= 2
  {
    var t := Tokens(a, k);
    var i := LastIn(w, a, b, k);
    LoadGrows(t, a, b, i + 1, k);
    if !Alone(a, k, i) {
      var i' :| 0 <= i' < k && i' != i && a[i'] == a[i];
      PairFits(t, a, k, if i < i' then i else i', if i < i' then i' else i);
    }
  }

  /** An item alone in a full enough bin cannot share one with any item up to `k`. */
  lemma AloneIsBig(w: seq<nat>, a: seq<nat>, m: nat, k: nat, limit: nat, i: nat)
    requires i < k < |w| && Greedy(w, a, m, k + 1)
    requires Load(w, a, a[k], k + 1) > limit
    requires Alone(a, k, i)
    ensures w[i] + w[k] > limit
  {
    assert LeastLoaded(w, a, m, k, a[k]);
    AloneLoad(w, a, k, i);
  }

  lemma {:induction false} AloneLoad(w: seq<nat>, a: seq<nat>, k: nat, i: nat)
    requires i < k <= |w| && k <= |a| && Alone(a, k, i)
    ensures Load(w, a, a[i], k) == w[i]
  {
    if i == k - 1 {
      NoneLoad(w, a, a[i], i);
    } else {
      AloneLoad(w, a, k - 1, i);
    }
  }

  lemma {:induction false} NoneLoad(w: seq<nat>, a: seq<nat>, b: nat, n: nat)
    requires n <= |w| && n <= |a| && forall i :: 0 <= i < n ==> a[i] != b
    ensures Load(w, a, b, n) == 0
  {
    if n > 0 {
      NoneLoad(w, a, b, n - 1);
    }
  }

  /** No bin of an assignment within the limit can hold three tokens. */
  lemma OtherBinCountsTwo(w: seq<nat>, a: seq<nat>, o: seq<nat>, m: nat, k: nat, limit: nat, b: nat)
    requires k < |w| && Descending(w) && Greedy(w, a, m, k + 1)
    requires Load(w, a, a[k], k + 1) > limit && 3 * w[k] > limit
    requires Assigns(o, m, k + 1) && b < m && Load(w, o, b, k + 1) <= limit
    ensures Load(Tokens(a, k), o, b, k + 1) <= 2
  {
    var t := Tokens(a, k);
    if Load(t, o, b, k + 1) > 2 {
      var j := LastIn(t, o, b, k + 1);
      var i := LastIn(t, o, b, j);
      PairFits(w, o, k + 1, i, j);
      if t[j] == 2 {
        AloneIsBig(w, a, m, k, limit, j);
      } else if t[i] == 2 {
        AloneIsBig(w, a, m, k, limit, i);
      } else {
        var h := LastIn(t, o, b, i);
        TripleFits(w, o, k + 1, h, i, j);
      }
    }
  }

  lemma GreedyTokens(w: seq<nat>, a: seq<nat>, m: nat, k: nat, limit: nat)
    requires k < |w| && Greedy(w, a, m, k + 1)
    requires w[k] <= limit < Load(w, a, a[k], k + 1)
    ensures Total(Tokens(a, k), k) >= m * 2
  {
    var t := Tokens(a, k);
    assert LeastLoaded(w, a, m, k, a[k]);
    forall b | 0 <= b < m
      ensures 2 <= Load(t, a, b, k)
    {
      assert Load(w, a, a[k], k) <= Load(w, a, b, k);
      BinCountsTwo(w, a, k, b);
    }
    BinSumAtLeast(t, a, m, k, 2);
    BinsHoldTotal(t, a, m, k);
  }

  lemma OtherTokens(w: seq<nat>, a: seq<nat>, o: seq<nat>, m: nat, k: nat, n: nat, limit: nat)
    requires k + 1 == n <= |w| && Descending(w) && Greedy(w, a, m, n)
    requires Load(w, a, a[k], n) > limit && 3 * w[k] > limit
    requires Assigns(o, m, n) && Within(w, o, m, n, limit)
    ensures Total(Tokens(a, k), n) <= m * 2
  {
    var t := Tokens(a, k);
    forall b | 0 <= b < m
      ensures Load(t, o, b, n) <= 2
    {
      assert Load(w, o, b, n) <= limit;
      OtherBinCountsTwo(w, a, o, m, k, limit, b);
    }
    BinSumAtMost(t, o, m, n, 2);
    BinsHoldTotal(t, o, m, n);
  }

  /**
   When every item weighs more than a third of the limit, greedy placement never exceeds a limit
   that some other assignment keeps: counting tokens, the first item to exceed it would be one more
   than the other assignment has room for.
   */
  lemma BigItemsFit(w: seq<nat>, a: seq<nat>, o: seq<nat>, m: nat, k: nat, limit: nat)
    requires k < |w| && Descending(w) && Greedy(w, a, m, k + 1)
    requires 3 * w[k] > limit
    requires Assigns(o, m, k + 1) && Within(w, o, m, k + 1, limit)
    ensures Load(w, a, a[k], k + 1) <= limit
  {
    if Load(w, a, a[k], k + 1) > limit {
      assert w[k] <= Load(w, o, o[k], k + 1) <= limit;
      GreedyTokens(w, a, m, k, limit);
      OtherTokens(w, a, o, m, k, k + 1, limit);
      assert false;
    }
  }

  lemma MulMonotone(c: nat, x: nat, y: nat)
    requires x <= y
    ensures c * x <= c * y
  {
  }

  lemma SmallItemArithmetic(m: nat, load: nat, limit: nat, last: nat)
    requires m > 0 && m * load <= m * limit + (m - 1) * last && 3 * last <= limit
    ensures 3 * m * load <= (4 * m - 1) * limit
  {
    MulMonotone(m - 1, 3 * last, limit);
    assert 3 * m * load == 3 * (m * load);
    assert (m - 1) * (3 * last) == 3 * ((m - 1) * last);
    assert (4 * m - 1) * limit == 3 * (m * limit) + (m - 1) * limit;
  }

  lemma BigItemArithmetic(m: nat, load: nat, limit: nat)
    requires m > 0 && load <= limit
    ensures 3 * m * load <= (4 * m - 1) * limit
  {
    MulMonotone(3 * m, load, limit);
    assert (4 * m - 1) * limit == 3 * m * limit + (m - 1) * limit;
  }

  /** Graham's bound: no other assignment into m bins beats largest-first by more than 4/3 - 1/(3m). */
  lemma LargestFirstBound(w: seq<nat>, a: seq<nat>, o: seq<nat>, m: nat, limit: nat, b: nat)
    requires Descending(w) && Greedy(w, a, m, |w|) && b < m
    requires Assigns(o, m, |w|) && Within(w, o, m, |w|, limit)
    ensures 3 * m * Load(w, a, b, |w|) <= (4 * m - 1) * limit
  {
    var load := Load(w, a, b, |w|);
    if load == 0 {
      BigItemArithmetic(m, load, limit);
    } else {
      var j := LastIn(w, a, b, |w|);
      WithinPrefix(w, o, m, j + 1, |w|, limit);
      if 3 * w[j] > limit {
        BigItemsFit(w, a, o, m, j, limit);
        BigItemArithmetic(m, load, limit);
      } else {
        ListBound(w, a, m, j);
        BinSumAtMost(w, o, m, j + 1, limit);
        BinsHoldTotal(w, o, m, j + 1);
        SmallItemArithmetic(m, load, limit, w[j]);
      }
    }
  }
}
