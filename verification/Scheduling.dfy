/** The work schedulers of `readable.py`: largest-first balancing with and without a batch capacity. */
module Scheduling {
  import opened Sorting
  import opened LptBound

  /** A heap entry: a bucket and its load. `heapq` orders these tuples lexicographically. */
  datatype Entry = Entry(load: nat, index: nat)

  predicate Before(x: Entry, y: Entry) {
    x.load < y.load || (x.load == y.load && x.index <= y.index)
  }

  /** `heapq.heappop` on entries with distinct indices. */
  method PopLeast(heap: set<Entry>) returns (top: Entry, rest: set<Entry>)
    requires heap != {}
    ensures top in heap && rest == heap - {top}
    ensures forall e :: e in heap ==> Before(top, e)
  {
    top :| top in heap;
    var unseen := heap - {top};
    while unseen != {}
      invariant top in heap && unseen <= heap
      invariant forall e :: e in heap - unseen ==> Before(top, e)
      decreases unseen
    {
      var e :| e in unseen;
      ghost var seen := heap - unseen;
      if !Before(top, e) {
        top := e;
      }
      unseen := unseen - {e};
      assert heap - unseen == seen + {e};
    }
    rest := heap - {top};
  }

  function Range(n: nat): (r: seq<nat>)
    ensures |r| == n
    ensures forall i :: 0 <= i < n ==> r[i] == i
  {
    seq(n, i requires 0 <= i < n => i)
  }

  function Enumerate<T>(values: seq<T>): (r: seq<(nat, T)>)
    ensures |r| == |values|
    ensures forall i :: 0 <= i < |values| ==> r[i] == (i, values[i])
  {
    seq(|values|, i requires 0 <= i < |values| => (i, values[i]))
  }

  function LoadAt(loads: seq<nat>, i: nat): nat {
    if i < |loads| then loads[i] else 0
  }

  /** The final order of the buckets: by decreasing load, then by index. */
  predicate Heavier(loads: seq<nat>, i: nat, j: nat) {
    LoadAt(loads, i) > LoadAt(loads, j) || (LoadAt(loads, i) == LoadAt(loads, j) && i <= j)
  }

  function BucketAt<T>(buckets: seq<seq<T>>, i: nat): seq<T> {
    if i < |buckets| then buckets[i] else []
  }

  /** The buckets in their final order, with the parts and their loads rearranged but not changed. */
  method Ordered<T>(buckets: seq<seq<T>>, loads: seq<nat>, ghost size: T -> nat) returns (chunks: seq<seq<T>>)
    requires |loads| == |buckets|
    requires forall b :: 0 <= b < |buckets| ==> loads[b] == SumBy(buckets[b], size)
    ensures multiset(chunks) == multiset(buckets)
    ensures |chunks| == |buckets|
    ensures forall i, j :: 0 <= i < j < |chunks| ==> SumBy(chunks[i], size) >= SumBy(chunks[j], size)
  {
    var indices := Sort<nat>(Range(|loads|), HeavierFirst(loads));
    chunks := Map<nat, seq<T>>(indices, Pick(buckets));
    Rearranged(buckets, loads, indices);
    OrderedByLoad(buckets, loads, size, indices);
  }

  function HeavierFirst(loads: seq<nat>): (nat, nat) -> bool {
    (i: nat, j: nat) => Heavier(loads, i, j)
  }

  function Pick<T>(buckets: seq<seq<T>>): nat -> seq<T> {
    (i: nat) => BucketAt(buckets, i)
  }

  lemma Rearranged<T>(buckets: seq<seq<T>>, loads: seq<nat>, indices: seq<nat>)
    requires |loads| == |buckets| && multiset(indices) == multiset(Range(|loads|))
    ensures multiset(Map<nat, seq<T>>(indices, Pick(buckets))) == multiset(buckets)
  {
    MapPermutation<nat, seq<T>>(indices, Range(|loads|), Pick(buckets));
    assert Map(Range(|loads|), Pick(buckets)) == buckets;
  }

  lemma OrderedByLoad<T>(buckets: seq<seq<T>>, loads: seq<nat>, size: T -> nat, indices: seq<nat>)
    requires |loads| == |buckets| && indices == Sort<nat>(Range(|loads|), HeavierFirst(loads))
    requires forall b :: 0 <= b < |buckets| ==> loads[b] == SumBy(buckets[b], size)
    ensures var chunks := Map<nat, seq<T>>(indices, Pick(buckets));
      forall i, j :: 0 <= i < j < |chunks| ==> SumBy(chunks[i], size) >= SumBy(chunks[j], size)
  {
    SortAscends(Range(|loads|), HeavierFirst(loads));
    SameMembers(indices, Range(|loads|));
    forall i | 0 <= i < |indices|
      ensures indices[i] < |loads|
    {
      assert indices[i] in indices;
    }
  }

  /** The order in which items are placed: by decreasing size, then by position in the input. */
  function LargestFirst<T>(size: T -> nat): ((nat, T), (nat, T)) -> bool {
    (x: (nat, T), y: (nat, T)) => size(x.1) > size(y.1) || (size(x.1) == size(y.1) && x.0 <= y.0)
  }

  function Sizes<T>(items: seq<(nat, T)>, size: T -> nat): (w: seq<nat>)
    ensures |w| == |items|
    ensures forall k :: 0 <= k < |items| ==> w[k] == size(items[k].1)
  {
    Map(items, (p: (nat, T)) => size(p.1))
  }

  /** An assignment of input positions to bins, read in the order of `items`. */
  function Bins<T>(items: seq<(nat, T)>, o: seq<nat>): (a: seq<nat>)
    ensures |a| == |items|
    ensures forall k :: 0 <= k < |items| ==> a[k] == LoadAt(o, items[k].0)
  {
    Map(items, (p: (nat, T)) => LoadAt(o, p.0))
  }

  /** The contribution of one item to bin `b`. */
  function ShareOf<T>(size: T -> nat, o: seq<nat>, b: nat, item: (nat, T)): nat {
    if LoadAt(o, item.0) == b then size(item.1) else 0
  }

  function Share<T>(size: T -> nat, o: seq<nat>, b: nat): ((nat, T)) -> nat {
    (p: (nat, T)) => ShareOf(size, o, b, p)
  }

  lemma {:induction false} LoadIsSum<T>(items: seq<(nat, T)>, size: T -> nat, o: seq<nat>, b: nat, n: nat)
    requires n <= |items|
    ensures Load(Sizes(items, size), Bins(items, o), b, n) == SumBy(items[..n], Share(size, o, b))
  {
    if n > 0 {
      LoadIsSum(items, size, o, b, n - 1);
      assert items[..n] == items[..n - 1] + [items[n - 1]];
      SumByAppend(items[..n - 1], items[n - 1], Share(size, o, b));
    }
  }

  lemma {:induction false} LoadPrefix(w: seq<nat>, a: seq<nat>, x: nat, b: nat, n: nat)
    requires n <= |w| && n <= |a|
    ensures Load(w, a + [x], b, n) == Load(w, a, b, n)
  {
    if n > 0 {
      LoadPrefix(w, a, x, b, n - 1);
    }
  }

  /** Placing the next item in a least loaded bin. */
  lemma GreedyExtends(w: seq<nat>, a: seq<nat>, x: nat, m: nat, k: nat)
    requires k == |a| < |w| && x < m && Greedy(w, a, m, k) && LeastLoaded(w, a, m, k, x)
    ensures Greedy(w, a + [x], m, k + 1)
    ensures forall b: nat :: Load(w, a + [x], b, k + 1) == Load(w, a, b, k) + if b == x then w[k] else 0
  {
    forall i | 0 <= i < k + 1
      ensures LeastLoaded(w, a + [x], m, i, (a + [x])[i])
    {
      assert LeastLoaded(w, a, m, i, (a + [x])[i]);
      forall b: nat {
        LoadPrefix(w, a, x, b, i);
      }
    }
    forall b: nat
      ensures Load(w, a + [x], b, k + 1) == Load(w, a, b, k) + if b == x then w[k] else 0
    {
      LoadPrefix(w, a, x, b, k);
    }
  }

  /** The heap holds one entry for each bucket listed, with its current load. */
  ghost predicate Tracks(heap: set<Entry>, loads: seq<nat>, open: set<nat>) {
    && (forall e :: e in heap ==> e.index in open && e.index < |loads| && e.load == loads[e.index])
    && (forall b :: b in open ==> b < |loads| && Entry(loads[b], b) in heap)
  }

  /** Every input position is assigned to one of `m` bins, none of them loaded beyond `limit`. */
  ghost predicate AssignedWithin<T>(values: seq<T>, size: T -> nat, o: seq<nat>, m: nat, limit: nat) {
    var w := Map(values, size);
    |o| == |values| && Assigns(o, m, |w|) && Within(w, o, m, |w|, limit)
  }

  /** Reading an assignment in another order of the items changes no load. */
  lemma AssignmentInOrder<T>(values: seq<T>, items: seq<(nat, T)>, size: T -> nat, o: seq<nat>, m: nat, limit: nat)
    requires multiset(items) == multiset(Enumerate(values))
    requires AssignedWithin(values, size, o, m, limit)
    ensures |items| == |values|
    ensures Assigns(Bins(items, o), m, |items|)
    ensures Within(Sizes(items, size), Bins(items, o), m, |items|, limit)
  {
    var input := Enumerate(values);
    assert |items| == |multiset(items)| == |multiset(input)| == |values|;
    forall k | 0 <= k < |items|
      ensures items[k].0 < |values|
    {
      assert items[k] in multiset(input);
    }
    forall b | 0 <= b < m
      ensures Load(Sizes(items, size), Bins(items, o), b, |items|) <= limit
    {
      LoadIsSum(items, size, o, b, |items|);
      LoadIsSum(input, size, o, b, |input|);
      assert items[..|items|] == items && input[..|input|] == input;
      SumByPermutation(items, input, Share(size, o, b));
      assert Sizes(input, size) == Map(values, size) && Bins(input, o) == o;
    }
  }

  /** No chunk is loaded more than 4/3 - 1/(3m) times what any other assignment needs. */
  ghost predicate NearOptimal<T>(values: seq<T>, size: T -> nat, chunks: seq<seq<T>>) {
    var m := |chunks|;
    forall c, o, limit: nat :: 0 <= c < m && AssignedWithin(values, size, o, m, limit) ==>
      3 * m * SumBy(chunks[c], size) <= (4 * m - 1) * limit
  }

  lemma NearOptimalReordered<T>(values: seq<T>, size: T -> nat, buckets: seq<seq<T>>, chunks: seq<seq<T>>)
    requires multiset(chunks) == multiset(buckets) && |chunks| == |buckets|
    requires NearOptimal(values, size, buckets)
    ensures NearOptimal(values, size, chunks)
  {
    forall c | 0 <= c < |chunks|
      ensures exists b :: 0 <= b < |buckets| && buckets[b] == chunks[c]
    {
      assert chunks[c] in multiset(buckets);
    }
  }

  function EmptyBuckets<T>(m: nat): (r: seq<seq<T>>)
    ensures |r| == m
    ensures forall b :: 0 <= b < m ==> r[b] == []
  {
    seq(m, _ => [])
  }

  lemma {:induction false} EmptyBucketsHoldNothing<T>(m: nat)
    ensures Flatten(EmptyBuckets<T>(m)) == []
  {
    if m > 0 {
      assert EmptyBuckets<T>(m)[1..] == EmptyBuckets<T>(m - 1);
      EmptyBucketsHoldNothing<T>(m - 1);
    }
  }

  function Second<T>(): ((nat, T)) -> T {
    (p: (nat, T)) => p.1
  }

  ghost function Indices(n: nat): (r: set<nat>)
    ensures forall b: nat :: b in r <==> b < n
  {
    if n == 0 then {} else Indices(n - 1) + {n - 1}
  }

  /** One unloaded bucket after the other. */
  function FreshHeap(n: nat): (heap: set<Entry>)
    ensures forall e :: e in heap <==> e.index < n && e.load == 0
  {
    if n == 0 then {} else FreshHeap(n - 1) + {Entry(0, n - 1)}
  }

  /** Taking the least entry out of the heap and putting its bucket back under a new load. */
  lemma TracksUpdate(heap: set<Entry>, loads: seq<nat>, open: set<nat>, top: Entry, load: nat)
    requires Tracks(heap, loads, open) && top in heap
    ensures Tracks(heap - {top} + {Entry(load, top.index)}, loads[top.index := load], open)
    ensures Tracks(heap - {top}, loads[top.index := load], open - {top.index})
  {
  }

  lemma PrefixItems<T>(items: seq<(nat, T)>, k: nat)
    requires k < |items|
    ensures Map(items[..k + 1], Second()) == Map(items[..k], Second()) + [items[k].1]
  {
  }

  /** The loads are the true sums of the buckets, which hold exactly the first `k` items. */
  ghost predicate Filled<T>(items: seq<(nat, T)>, size: T -> nat, k: nat, buckets: seq<seq<T>>, loads: seq<nat>)
    requires k <= |items|
  {
    && |buckets| == |loads|
    && (forall b :: 0 <= b < |loads| ==> loads[b] == SumBy(buckets[b], size))
    && multiset(Flatten(buckets)) == multiset(Map(items[..k], Second()))
  }

  lemma FilledStep<T>(items: seq<(nat, T)>, size: T -> nat, k: nat, buckets: seq<seq<T>>, loads: seq<nat>, chosen: nat)
    requires k < |items| && Filled(items, size, k, buckets, loads) && chosen < |loads|
    ensures Filled(items, size, k + 1, buckets[chosen := buckets[chosen] + [items[k].1]],
                   loads[chosen := loads[chosen] + size(items[k].1)])
  {
    SumByAppend(buckets[chosen], items[k].1, size);
    FlattenGrow(buckets, chosen, items[k].1);
    PrefixItems(items, k);
  }

  /** The loads are those of the greedy assignment `a`. */
  ghost predicate GreedyLoads(w: seq<nat>, a: seq<nat>, k: nat, loads: seq<nat>) {
    && k == |a| <= |w|
    && Greedy(w, a, |loads|, k)
    && forall b :: 0 <= b < |loads| ==> loads[b] == Load(w, a, b, k)
  }

  lemma GreedyStep(w: seq<nat>, a: seq<nat>, k: nat, loads: seq<nat>, heap: set<Entry>, top: Entry)
    requires GreedyLoads(w, a, k, loads) && k < |w|
    requires Tracks(heap, loads, Indices(|loads|))
    requires top in heap && forall e :: e in heap ==> Before(top, e)
    ensures GreedyLoads(w, a + [top.index], k + 1, loads[top.index := loads[top.index] + w[k]])
  {
    assert LeastLoaded(w, a, |loads|, k, top.index) by {
      forall b | 0 <= b < |loads|
        ensures Load(w, a, top.index, k) <= Load(w, a, b, k)
      {
        assert b in Indices(|loads|);
      }
    }
    GreedyExtends(w, a, top.index, |loads|, k);
  }

  /** The heap lists every bucket with its load, and the buckets hold the first `k` items. */
  ghost predicate Stacked<T>(items: seq<(nat, T)>, size: T -> nat, k: nat, buckets: seq<seq<T>>, loads: seq<nat>,
                             available: set<Entry>)
    requires k <= |items|
  {
    Filled(items, size, k, buckets, loads) && Tracks(available, loads, Indices(|loads|))
  }

  lemma StackedStep<T>(items: seq<(nat, T)>, size: T -> nat, k: nat, buckets: seq<seq<T>>, loads: seq<nat>,
                       available: set<Entry>, top: Entry)
    requires k < |items| && Stacked(items, size, k, buckets, loads, available) && top in available
    ensures top.index < |loads| == |buckets| && loads[top.index] == top.load
    ensures var value := items[k].1;
      Stacked(items, size, k + 1, buckets[top.index := buckets[top.index] + [value]],
              loads[top.index := top.load + size(value)],
              available - {top} + {Entry(top.load + size(value), top.index)})
  {
    FilledStep(items, size, k, buckets, loads, top.index);
    TracksUpdate(available, loads, Indices(|loads|), top, top.load + size(items[k].1));
  }

  lemma ChosenStep<T>(items: seq<(nat, T)>, size: T -> nat, k: nat, loads: seq<nat>, a: seq<nat>,
                      available: set<Entry>, top: Entry)
    requires k < |items| && GreedyLoads(Sizes(items, size), a, k, loads) && Tracks(available, loads, Indices(|loads|))
    requires top in available && forall e :: e in available ==> Before(top, e)
    ensures top.index < |loads|
    ensures GreedyLoads(Sizes(items, size), a + [top.index], k + 1, loads[top.index := top.load + size(items[k].1)])
  {
    GreedyStep(Sizes(items, size), a, k, loads, available, top);
  }

  /** The heap loop of `_balanced_staged_pyc_work`: each item goes to the least loaded bucket. */
  method DealOut<T>(items: seq<(nat, T)>, size: T -> nat, m: nat)
    returns (buckets: seq<seq<T>>, loads: seq<nat>, ghost a: seq<nat>)
    requires m > 0
    ensures |loads| == m
    ensures Filled(items, size, |items|, buckets, loads)
    ensures GreedyLoads(Sizes(items, size), a, |items|, loads)
  {
    buckets, loads, a := EmptyBuckets<T>(m), seq(m, _ => 0), [];
    var available := FreshHeap(m);
    EmptyBucketsHoldNothing<T>(m);
    var k := 0;
    while k < |items|
      invariant 0 <= k <= |items| && |loads| == m
      invariant Stacked(items, size, k, buckets, loads, available)
      invariant GreedyLoads(Sizes(items, size), a, k, loads)
    {
      var value := items[k].1;
      assert 0 in Indices(m);
      var top, rest := PopLeast(available);
      StackedStep(items, size, k, buckets, loads, available, top);
      ChosenStep(items, size, k, loads, a, available, top);
      buckets := buckets[top.index := buckets[top.index] + [value]];
      loads := loads[top.index := top.load + size(value)];
      available := rest + {Entry(loads[top.index], top.index)};
      a := a + [top.index];
      k := k + 1;
    }
  }

  /** The input in the order in which it is placed. */
  function PlacingOrder<T>(values: seq<T>, size: T -> nat): (items: seq<(nat, T)>)
    ensures |items| == |values| && multiset(items) == multiset(Enumerate(values))
  {
    Sort(Enumerate(values), LargestFirst(size))
  }

  lemma PlacingOrderDescends<T(!new)>(values: seq<T>, size: T -> nat)
    ensures Descending(Sizes(PlacingOrder(values, size), size))
  {
    SortAscends(Enumerate(values), LargestFirst(size));
  }

  lemma GreedyIsNearOptimal<T(!new)>(
    values: seq<T>, size: T -> nat, a: seq<nat>, buckets: seq<seq<T>>, loads: seq<nat>)
    requires Filled(PlacingOrder(values, size), size, |values|, buckets, loads)
    requires GreedyLoads(Sizes(PlacingOrder(values, size), size), a, |values|, loads)
    ensures NearOptimal(values, size, buckets)
  {
    var items, m := PlacingOrder(values, size), |buckets|;
    PlacingOrderDescends(values, size);
    forall c, o, limit: nat | 0 <= c < m && AssignedWithin(values, size, o, m, limit)
      ensures 3 * m * SumBy(buckets[c], size) <= (4 * m - 1) * limit
    {
      AssignmentInOrder(values, items, size, o, m, limit);
      LargestFirstBound(Sizes(items, size), a, Bins(items, o), m, limit, c);
    }
  }

  lemma HoldsInput<T>(values: seq<T>, items: seq<(nat, T)>, size: T -> nat, buckets: seq<seq<T>>, loads: seq<nat>)
    requires multiset(items) == multiset(Enumerate(values))
    requires Filled(items, size, |items|, buckets, loads)
    ensures multiset(Flatten(buckets)) == multiset(values)
  {
    assert items[..|items|] == items;
    MapPermutation(items, Enumerate(values), Second());
    assert Map(Enumerate(values), Second()) == values;
  }

  /** `_balanced_staged_pyc_work`: largest-first balancing into at most `8 * workers` chunks. */
  method BalancedStagedPycWork<T(!new)>(values: seq<T>, size: T -> nat, workers: int) returns (chunks: seq<seq<T>>)
    ensures values == [] ==> chunks == []
    ensures values != [] ==> |chunks| == if 1 > workers * 8 then 1
                                         else if |values| < workers * 8 then |values| else workers * 8
    ensures multiset(Flatten(chunks)) == multiset(values)
    ensures forall i, j :: 0 <= i < j < |chunks| ==> SumBy(chunks[i], size) >= SumBy(chunks[j], size)
    ensures NearOptimal(values, size, chunks)
  {
    if values == [] {
      return [];
    }
    var bound := if 1 > workers * 8 then 1 else workers * 8;
    var m := if |values| < bound then |values| else bound;
    var items := PlacingOrder(values, size);
    var buckets, loads, a := DealOut(items, size, m);
    HoldsInput(values, items, size, buckets, loads);
    GreedyIsNearOptimal(values, size, a, buckets, loads);
    chunks := Ordered(buckets, loads, size);
    FlattenPermutation(chunks, buckets);
    NearOptimalReordered(values, size, buckets, chunks);
  }

  lemma {:induction false} FlattenCapacity<T>(buckets: seq<seq<T>>, low: nat, high: nat)
    requires forall b :: 0 <= b < |buckets| ==> low <= |buckets[b]| <= high
    ensures |buckets| * low <= |Flatten(buckets)| <= |buckets| * high
  {
    if buckets != [] {
      FlattenCapacity(buckets[1..], low, high);
      Distribute(|buckets|, low, 0);
      Distribute(|buckets|, high, 0);
      assert |buckets| * low == (|buckets| - 1) * low + low;
      assert |buckets| * high == (|buckets| - 1) * high + high;
    }
  }

  /** The number of batches that hold `n` items when each holds at most `batchSize`. */
  function BatchCount(n: nat, batchSize: nat): nat
    requires batchSize > 0
  {
    (n + batchSize - 1) / batchSize
  }

  lemma BatchCountCovers(n: nat, batchSize: nat)
    requires batchSize > 0 && n > 0
    ensures BatchCount(n, batchSize) > 0
    ensures (BatchCount(n, batchSize) - 1) * batchSize < n <= BatchCount(n, batchSize) * batchSize
  {
    var c := BatchCount(n, batchSize);
    assert n + batchSize - 1 == c * batchSize + (n + batchSize - 1) % batchSize;
    assert (c - 1) * batchSize == c * batchSize - batchSize;
  }

  /** Buckets that are still below the batch capacity, which the heap lists. */
  ghost function Open<T>(buckets: seq<seq<T>>, batchSize: nat): set<nat> {
    set b | b in Indices(|buckets|) && |buckets[b]| < batchSize
  }

  ghost predicate WithinCapacity<T>(buckets: seq<seq<T>>, batchSize: nat) {
    forall b :: 0 <= b < |buckets| ==> |buckets[b]| <= batchSize
  }

  lemma HeldCount<T>(items: seq<(nat, T)>, size: T -> nat, k: nat, buckets: seq<seq<T>>, loads: seq<nat>)
    requires k <= |items| && Filled(items, size, k, buckets, loads)
    ensures |Flatten(buckets)| == k
  {
    assert |Flatten(buckets)| == |multiset(Flatten(buckets))| == |multiset(Map(items[..k], Second()))|;
  }

  /** As long as an item is left, some bucket has room: the heap is not empty when it is popped. */
  lemma HeapIsNotEmpty<T>(items: seq<(nat, T)>, size: T -> nat, k: nat, buckets: seq<seq<T>>, loads: seq<nat>,
                          batchSize: nat)
    requires k < |items| && Filled(items, size, k, buckets, loads)
    requires WithinCapacity(buckets, batchSize) && |items| <= |buckets| * batchSize
    ensures Open(buckets, batchSize) != {}
  {
    if Open(buckets, batchSize) == {} {
      forall b | 0 <= b < |buckets|
        ensures |buckets[b]| == batchSize
      {
        assert b in Indices(|buckets|);
        assert b !in Open(buckets, batchSize);
      }
      FlattenCapacity(buckets, batchSize, batchSize);
      HeldCount(items, size, k, buckets, loads);
      assert false;
    }
  }

  /** With no batch to spare, none of them stays empty. */
  lemma NoBatchIsEmpty<T>(buckets: seq<seq<T>>, batchSize: nat, b: nat)
    requires WithinCapacity(buckets, batchSize) && b < |buckets|
    requires (|buckets| - 1) * batchSize < |Flatten(buckets)|
    ensures buckets[b] != []
  {
    FlattenSplit(buckets, b);
    FlattenCapacity(buckets[..b], 0, batchSize);
    FlattenCapacity(buckets[b + 1..], 0, batchSize);
    SplitFactor(b, |buckets| - b - 1, batchSize);
  }

  lemma SplitFactor(x: nat, y: nat, c: nat)
    ensures x * c + y * c == (x + y) * c
  {
  }

  lemma CapacityStep<T>(buckets: seq<seq<T>>, batchSize: nat, chosen: nat, value: T)
    requires WithinCapacity(buckets, batchSize) && chosen in Open(buckets, batchSize)
    ensures WithinCapacity(buckets[chosen := buckets[chosen] + [value]], batchSize)
    ensures Open(buckets[chosen := buckets[chosen] + [value]], batchSize)
         == if |buckets[chosen]| + 1 < batchSize then Open(buckets, batchSize) else Open(buckets, batchSize) - {chosen}
  {
  }

  /** The items that go to bucket `b`, of the first `k` items, when `a` says where each of them goes. */
  function Assigned<T>(items: seq<(nat, T)>, a: seq<nat>, b: nat, k: nat): seq<T>
    requires k <= |items| && k <= |a|
  {
    if k == 0 then []
    else Assigned(items, a, b, k - 1) + if a[k - 1] == b then [items[k - 1].1] else []
  }

  /** Item `j` finds bucket `b` with room, under this load. */
  ghost predicate HasRoom<T>(items: seq<(nat, T)>, a: seq<nat>, j: nat, b: nat, m: nat, batchSize: nat)
    requires j <= |items| && j <= |a|
  {
    b < m && |Assigned(items, a, b, j)| < batchSize
  }

  ghost function LoadBefore<T>(items: seq<(nat, T)>, size: T -> nat, a: seq<nat>, j: nat, b: nat): nat
    requires j <= |items| && j <= |a|
  {
    SumBy(Assigned(items, a, b, j), size)
  }

  /** Item `j` goes to the bucket with room that has the least load, the first of those that have it. */
  ghost predicate GoesToLeast<T>(items: seq<(nat, T)>, size: T -> nat, a: seq<nat>, j: nat, chosen: nat, m: nat,
                                 batchSize: nat)
    requires j <= |items| && j <= |a|
  {
    && HasRoom(items, a, j, chosen, m, batchSize)
    && forall b: nat :: HasRoom(items, a, j, b, m, batchSize) ==>
         Before(Entry(LoadBefore(items, size, a, j, chosen), chosen), Entry(LoadBefore(items, size, a, j, b), b))
  }

  /** The first `k` items all go where the rule says. */
  ghost predicate FollowsRule<T>(items: seq<(nat, T)>, size: T -> nat, a: seq<nat>, k: nat, m: nat, batchSize: nat)
    requires k <= |items| && k <= |a|
  {
    k > 0 ==>
      && FollowsRule(items, size, a, k - 1, m, batchSize)
      && GoesToLeast(items, size, a, k - 1, a[k - 1], m, batchSize)
  }

  /** The first `k` items have been dealt out by that rule. */
  ghost predicate DealtWithRoom<T>(items: seq<(nat, T)>, size: T -> nat, k: nat, a: seq<nat>, buckets: seq<seq<T>>,
                                   batchSize: nat)
  {
    && k == |a| <= |items|
    && FollowsRule(items, size, a, k, |buckets|, batchSize)
    && forall b :: 0 <= b < |buckets| ==> buckets[b] == Assigned(items, a, b, k)
  }

  lemma ShorterPrefix(a: seq<nat>, c: seq<nat>, k: nat)
    requires 0 < k <= |a| && k <= |c| && a[..k] == c[..k]
    ensures a[..k - 1] == c[..k - 1] && a[k - 1] == c[k - 1]
  {
    assert a[k - 1] == a[..k][k - 1] && c[k - 1] == c[..k][k - 1];
    assert a[..k - 1] == a[..k][..k - 1] && c[..k - 1] == c[..k][..k - 1];
  }

  lemma {:induction false} AssignedPrefix<T>(items: seq<(nat, T)>, a: seq<nat>, c: seq<nat>, b: nat, k: nat)
    requires k <= |items| && k <= |a| && k <= |c| && a[..k] == c[..k]
    ensures Assigned(items, a, b, k) == Assigned(items, c, b, k)
  {
    if k > 0 {
      ShorterPrefix(a, c, k);
      AssignedPrefix(items, a, c, b, k - 1);
    }
  }

  lemma RulePrefix<T>(items: seq<(nat, T)>, size: T -> nat, a: seq<nat>, c: seq<nat>, j: nat, chosen: nat, m: nat,
                      batchSize: nat)
    requires j <= |items| && j <= |a| && j <= |c| && a[..j] == c[..j]
    requires GoesToLeast(items, size, a, j, chosen, m, batchSize)
    ensures GoesToLeast(items, size, c, j, chosen, m, batchSize)
  {
    AssignedPrefix(items, a, c, chosen, j);
    forall b: nat | HasRoom(items, c, j, b, m, batchSize)
      ensures Before(Entry(LoadBefore(items, size, c, j, chosen), chosen), Entry(LoadBefore(items, size, c, j, b), b))
    {
      AssignedPrefix(items, a, c, b, j);
      assert HasRoom(items, a, j, b, m, batchSize);
    }
  }

  /** The rule leaves no choice: it determines where every item goes, and with that every bucket. */
  lemma {:induction false} DealingIsDetermined<T>(items: seq<(nat, T)>, size: T -> nat, a: seq<nat>, c: seq<nat>,
                                                  p: seq<seq<T>>, q: seq<seq<T>>, k: nat, batchSize: nat)
    requires DealtWithRoom(items, size, k, a, p, batchSize) && DealtWithRoom(items, size, k, c, q, batchSize)
    requires |p| == |q|
    ensures a == c && p == q
  {
    SamePlaces(items, size, a, c, k, |p|, batchSize);
    assert a == a[..k] && c == c[..k];
  }

  lemma OneLeast<T>(items: seq<(nat, T)>, size: T -> nat, a: seq<nat>, j: nat, x: nat, y: nat, m: nat, batchSize: nat)
    requires j <= |items| && j <= |a|
    requires GoesToLeast(items, size, a, j, x, m, batchSize) && GoesToLeast(items, size, a, j, y, m, batchSize)
    ensures x == y
  {
    var p, q := Entry(LoadBefore(items, size, a, j, x), x), Entry(LoadBefore(items, size, a, j, y), y);
    assert Before(p, q) && Before(q, p);
  }

  lemma {:induction false} SamePlaces<T>(items: seq<(nat, T)>, size: T -> nat, a: seq<nat>, c: seq<nat>, k: nat,
                                         m: nat, batchSize: nat)
    requires k <= |a| && k <= |c| && k <= |items|
    requires FollowsRule(items, size, a, k, m, batchSize) && FollowsRule(items, size, c, k, m, batchSize)
    ensures a[..k] == c[..k]
  {
    if k > 0 {
      SamePlaces(items, size, a, c, k - 1, m, batchSize);
      RulePrefix(items, size, c, a, k - 1, c[k - 1], m, batchSize);
      OneLeast(items, size, a, k - 1, a[k - 1], c[k - 1], m, batchSize);
      PrefixGrows(a, k - 1);
      PrefixGrows(c, k - 1);
    }
  }

  lemma {:induction false} FollowsPrefix<T>(items: seq<(nat, T)>, size: T -> nat, a: seq<nat>, c: seq<nat>, k: nat,
                                            m: nat, batchSize: nat)
    requires k <= |a| && k <= |c| && k <= |items| && a[..k] == c[..k]
    requires FollowsRule(items, size, a, k, m, batchSize)
    ensures FollowsRule(items, size, c, k, m, batchSize)
  {
    if k > 0 {
      ShorterPrefix(a, c, k);
      FollowsPrefix(items, size, a, c, k - 1, m, batchSize);
      RulePrefix(items, size, a, c, k - 1, a[k - 1], m, batchSize);
    }
  }

  lemma DealtStep<T>(items: seq<(nat, T)>, size: T -> nat, k: nat, a: seq<nat>, buckets: seq<seq<T>>, loads: seq<nat>,
                     available: set<Entry>, top: Entry, batchSize: nat)
    requires k < |items| && DealtWithRoom(items, size, k, a, buckets, batchSize)
    requires Filled(items, size, k, buckets, loads) && Tracks(available, loads, Open(buckets, batchSize))
    requires top in available && forall e :: e in available ==> Before(top, e)
    ensures top.index < |buckets|
    ensures DealtWithRoom(items, size, k + 1, a + [top.index],
                          buckets[top.index := buckets[top.index] + [items[k].1]], batchSize)
  {
    TopIsLeast(items, size, k, a, buckets, loads, available, top, batchSize);
    RuleGrows(items, size, k, a, top.index, |buckets|, batchSize);
    forall b | 0 <= b < |buckets|
      ensures Assigned(items, a + [top.index], b, k + 1)
           == Assigned(items, a, b, k) + if b == top.index then [items[k].1] else []
    {
      AssignedGrows(items, a, top.index, b);
    }
  }

  lemma RuleGrows<T>(items: seq<(nat, T)>, size: T -> nat, k: nat, a: seq<nat>, x: nat, m: nat, batchSize: nat)
    requires k == |a| < |items| && FollowsRule(items, size, a, k, m, batchSize)
    requires GoesToLeast(items, size, a, k, x, m, batchSize)
    ensures FollowsRule(items, size, a + [x], k + 1, m, batchSize)
  {
    assert (a + [x])[..k] == a == a[..k];
    FollowsPrefix(items, size, a, a + [x], k, m, batchSize);
    RulePrefix(items, size, a, a + [x], k, x, m, batchSize);
  }

  lemma AssignedGrows<T>(items: seq<(nat, T)>, a: seq<nat>, x: nat, b: nat)
    requires |a| < |items|
    ensures Assigned(items, a + [x], b, |a| + 1)
         == Assigned(items, a, b, |a|) + if x == b then [items[|a|].1] else []
  {
    assert (a + [x])[..|a|] == a == a[..|a|];
    AssignedPrefix(items, a, a + [x], b, |a|);
  }

  lemma TopIsLeast<T>(items: seq<(nat, T)>, size: T -> nat, k: nat, a: seq<nat>, buckets: seq<seq<T>>,
                      loads: seq<nat>, available: set<Entry>, top: Entry, batchSize: nat)
    requires k < |items| && DealtWithRoom(items, size, k, a, buckets, batchSize)
    requires Filled(items, size, k, buckets, loads) && Tracks(available, loads, Open(buckets, batchSize))
    requires top in available && forall e :: e in available ==> Before(top, e)
    ensures top.index < |buckets| && GoesToLeast(items, size, a, k, top.index, |buckets|, batchSize)
  {
    assert top.index in Open(buckets, batchSize);
    forall b: nat | HasRoom(items, a, k, b, |buckets|, batchSize)
      ensures Before(Entry(LoadBefore(items, size, a, k, top.index), top.index),
                     Entry(LoadBefore(items, size, a, k, b), b))
    {
      assert b in Indices(|buckets|) && b in Open(buckets, batchSize);
      assert Entry(loads[b], b) in available;
    }
  }

  /** The heap lists exactly the buckets with room, which hold the first `k` items. */
  ghost predicate Limited<T>(items: seq<(nat, T)>, size: T -> nat, k: nat, buckets: seq<seq<T>>, loads: seq<nat>,
                             available: set<Entry>, batchSize: nat)
    requires k <= |items|
  {
    && Filled(items, size, k, buckets, loads)
    && WithinCapacity(buckets, batchSize)
    && Tracks(available, loads, Open(buckets, batchSize))
  }

  lemma LimitedStep<T>(items: seq<(nat, T)>, size: T -> nat, k: nat, buckets: seq<seq<T>>, loads: seq<nat>,
                       available: set<Entry>, top: Entry, batchSize: nat)
    requires k < |items| && Limited(items, size, k, buckets, loads, available, batchSize)
    requires top in available
    ensures top.index < |loads| == |buckets| && loads[top.index] == top.load
    ensures var value := items[k].1;
      var buckets' := buckets[top.index := buckets[top.index] + [value]];
      var loads' := loads[top.index := top.load + size(value)];
      var rest := available - {top};
      Limited(items, size, k + 1, buckets', loads',
              if |buckets'[top.index]| < batchSize then rest + {Entry(loads'[top.index], top.index)} else rest,
              batchSize)
  {
    var value := items[k].1;
    FilledStep(items, size, k, buckets, loads, top.index);
    CapacityStep(buckets, batchSize, top.index, value);
    TracksUpdate(available, loads, Open(buckets, batchSize), top, top.load + size(value));
  }

  /** The loop has dealt out the first `k` items by the rule, and the heap lists the buckets with room. */
  ghost predicate Dealing<T>(items: seq<(nat, T)>, size: T -> nat, k: nat, a: seq<nat>, buckets: seq<seq<T>>,
                             loads: seq<nat>, available: set<Entry>, batchSize: nat)
    requires k <= |items|
  {
    && Limited(items, size, k, buckets, loads, available, batchSize)
    && DealtWithRoom(items, size, k, a, buckets, batchSize)
  }

  lemma DealingStep<T>(items: seq<(nat, T)>, size: T -> nat, k: nat, a: seq<nat>, buckets: seq<seq<T>>,
                       loads: seq<nat>, available: set<Entry>, top: Entry, batchSize: nat,
                       buckets': seq<seq<T>>, loads': seq<nat>, available': set<Entry>)
    requires k < |items| && Dealing(items, size, k, a, buckets, loads, available, batchSize)
    requires top in available && forall e :: e in available ==> Before(top, e)
    requires top.index < |loads| == |buckets|
    requires buckets' == buckets[top.index := buckets[top.index] + [items[k].1]]
    requires loads' == loads[top.index := top.load + size(items[k].1)]
    requires available' == if |buckets'[top.index]| < batchSize
                           then available - {top} + {Entry(loads'[top.index], top.index)} else available - {top}
    ensures Dealing(items, size, k + 1, a + [top.index], buckets', loads', available', batchSize)
  {
    LimitedStep(items, size, k, buckets, loads, available, top, batchSize);
    DealtStep(items, size, k, a, buckets, loads, available, top, batchSize);
  }

  lemma NothingDealt<T>(items: seq<(nat, T)>, size: T -> nat, m: nat, batchSize: nat)
    requires batchSize > 0
    ensures Dealing(items, size, 0, [], EmptyBuckets<T>(m), seq(m, _ => 0), FreshHeap(m), batchSize)
  {
    EmptyBucketsHoldNothing<T>(m);
    assert Open(EmptyBuckets<T>(m), batchSize) == Indices(m);
  }

  lemma SomeBucketIsListed<T>(items: seq<(nat, T)>, size: T -> nat, k: nat, a: seq<nat>, buckets: seq<seq<T>>,
                              loads: seq<nat>, available: set<Entry>, m: nat, batchSize: nat)
    requires k < |items| <= m * batchSize && |buckets| == m
    requires Dealing(items, size, k, a, buckets, loads, available, batchSize)
    ensures available != {} && forall e :: e in available ==> e.index < |loads|
  {
    HeapIsNotEmpty(items, size, k, buckets, loads, batchSize);
    var b :| b in Open(buckets, batchSize);
    assert Entry(loads[b], b) in available;
  }

  /**
   The heap loop of `_balanced_pyc_batches`: each item goes to the least loaded bucket with room, and a
   bucket that is full is not put back.
   */
  method DealOutLimited<T>(items: seq<(nat, T)>, size: T -> nat, m: nat, batchSize: nat)
    returns (buckets: seq<seq<T>>, loads: seq<nat>, ghost a: seq<nat>)
    requires batchSize > 0 && |items| <= m * batchSize
    ensures |loads| == m
    ensures Filled(items, size, |items|, buckets, loads)
    ensures WithinCapacity(buckets, batchSize)
    ensures DealtWithRoom(items, size, |items|, a, buckets, batchSize)
  {
    buckets, loads, a := EmptyBuckets<T>(m), seq(m, _ => 0), [];
    var available := FreshHeap(m);
    NothingDealt(items, size, m, batchSize);
    var k := 0;
    while k < |items|
      invariant 0 <= k <= |items| && |loads| == |buckets| == m
      invariant Dealing(items, size, k, a, buckets, loads, available, batchSize)
    {
      ghost var buckets0, loads0, available0 := buckets, loads, available;
      SomeBucketIsListed(items, size, k, a, buckets, loads, available, m, batchSize);
      var top, rest := PopLeast(available);
      buckets := buckets[top.index := buckets[top.index] + [items[k].1]];
      loads := loads[top.index := top.load + size(items[k].1)];
      available := if |buckets[top.index]| < batchSize
                   then rest + {Entry(loads[top.index], top.index)} else rest;
      DealingStep(items, size, k, a, buckets0, loads0, available0, top, batchSize, buckets, loads, available);
      a := a + [top.index];
      k := k + 1;
    }
  }

  function Keyed<T>(values: seq<T>, index: T -> nat): (r: seq<(nat, T)>)
    ensures |r| == |values| && Map(r, Second()) == values
  {
    var r := Map(values, (v: T) => (index(v), v));
    assert Map(r, Second()) == values;
    r
  }

  /** The batches are what dealing out the items by the rule makes, the heaviest first. */
  ghost predicate BatchesDealt<T(!new)>(values: seq<T>, size: T -> nat, index: T -> nat, batchSize: nat,
                                        batches: seq<seq<T>>, a: seq<nat>, buckets: seq<seq<T>>)
  {
    && DealtWithRoom(Sort(Keyed(values, index), LargestFirst(size)), size, |values|, a, buckets, batchSize)
    && multiset(batches) == multiset(buckets)
    && forall i, j :: 0 <= i < j < |batches| ==> SumBy(batches[i], size) >= SumBy(batches[j], size)
  }

  lemma HoldsKeyed<T>(values: seq<T>, index: T -> nat, items: seq<(nat, T)>, size: T -> nat,
                      buckets: seq<seq<T>>, loads: seq<nat>)
    requires multiset(items) == multiset(Keyed(values, index))
    requires Filled(items, size, |items|, buckets, loads)
    ensures multiset(Flatten(buckets)) == multiset(values) && |Flatten(buckets)| == |values|
  {
    assert items[..|items|] == items;
    MapPermutation(items, Keyed(values, index), Second());
    assert |Flatten(buckets)| == |multiset(Flatten(buckets))| == |multiset(values)|;
  }

  lemma BatchesAreFilled<T(!new)>(buckets: seq<seq<T>>, batches: seq<seq<T>>, batchSize: nat)
    requires WithinCapacity(buckets, batchSize) && multiset(batches) == multiset(buckets)
    requires (|buckets| - 1) * batchSize < |Flatten(buckets)|
    ensures forall b :: 0 <= b < |batches| ==> 1 <= |batches[b]| <= batchSize
  {
    SameMembers(batches, buckets);
    forall b | 0 <= b < |batches|
      ensures 1 <= |batches[b]| <= batchSize
    {
      assert batches[b] in batches;
      var other :| 0 <= other < |buckets| && buckets[other] == batches[b];
      NoBatchIsEmpty(buckets, batchSize, other);
    }
  }

  lemma BatchesHold<T(!new)>(values: seq<T>, index: T -> nat, items: seq<(nat, T)>, size: T -> nat,
                             buckets: seq<seq<T>>, loads: seq<nat>, batches: seq<seq<T>>, batchSize: nat)
    requires multiset(items) == multiset(Keyed(values, index)) && Filled(items, size, |items|, buckets, loads)
    requires WithinCapacity(buckets, batchSize) && (|buckets| - 1) * batchSize < |values|
    requires multiset(batches) == multiset(buckets)
    ensures multiset(Flatten(batches)) == multiset(values)
    ensures forall b :: 0 <= b < |batches| ==> 1 <= |batches[b]| <= batchSize
  {
    HoldsKeyed(values, index, items, size, buckets, loads);
    FlattenPermutation(batches, buckets);
    BatchesAreFilled(buckets, batches, batchSize);
  }

  lemma NothingToBalance<T(!new)>(values: seq<T>, size: T -> nat, index: T -> nat, batchSize: nat)
    requires batchSize > 0 && values == []
    ensures BatchCount(0, batchSize) == 0
    ensures BatchesDealt(values, size, index, batchSize, [], [], [])
  {
  }

  /** Fills `m` batches, none of which is to spare. */
  method FillBatches<T(!new)>(values: seq<T>, size: T -> nat, index: T -> nat, batchSize: nat, m: nat)
    returns (batches: seq<seq<T>>, ghost a: seq<nat>, ghost buckets: seq<seq<T>>)
    requires batchSize > 0 && (m - 1) * batchSize < |values| <= m * batchSize
    ensures |batches| == m
    ensures multiset(Flatten(batches)) == multiset(values)
    ensures forall b :: 0 <= b < |batches| ==> 1 <= |batches[b]| <= batchSize
    ensures BatchesDealt(values, size, index, batchSize, batches, a, buckets)
  {
    var items := Sort(Keyed(values, index), LargestFirst(size));
    var filled, loads;
    filled, loads, a := DealOutLimited(items, size, m, batchSize);
    buckets := filled;
    batches := Ordered(filled, loads, size);
    BatchesHold(values, index, items, size, filled, loads, batches, batchSize);
  }

  /** `_balanced_pyc_batches`: largest-first balancing into full batches of limited length. */
  method BalancedPycBatches<T(!new)>(values: seq<T>, size: T -> nat, index: T -> nat, batchSize: nat)
    returns (batches: seq<seq<T>>, ghost a: seq<nat>, ghost buckets: seq<seq<T>>)
    requires batchSize > 0
    ensures |batches| == BatchCount(|values|, batchSize)
    ensures multiset(Flatten(batches)) == multiset(values)
    ensures forall b :: 0 <= b < |batches| ==> 1 <= |batches[b]| <= batchSize
    ensures BatchesDealt(values, size, index, batchSize, batches, a, buckets)
  {
    if values == [] {
      NothingToBalance(values, size, index, batchSize);
      return [], [], [];
    }
    var m := BatchCount(|values|, batchSize);
    BatchCountCovers(|values|, batchSize);
    batches, a, buckets := FillBatches(values, size, index, batchSize, m);
  }

  /** `_chunked_work`: consecutive chunks of equal length, the last one possibly shorter. */
  function ChunkedWork<T>(values: seq<T>, workers: int): seq<seq<T>> {
    if values == [] then [] else Slices(values, ChunkSize(|values|, workers))
  }

  function ChunkSize(n: nat, workers: int): (size: nat)
    ensures size > 0
  {
    var parts := if 1 > workers * 4 then 1 else workers * 4;
    var size := BatchCount(n, parts);
    if size < 1 then 1 else size
  }

  function Slices<T>(values: seq<T>, size: nat): seq<seq<T>>
    requires size > 0
  {
    if |values| <= size then [values] else [values[..size]] + Slices(values[size..], size)
  }

  lemma {:induction false} SlicesCover<T>(values: seq<T>, size: nat)
    requires size > 0 && values != []
    ensures Flatten(Slices(values, size)) == values
    ensures forall i :: 0 <= i < |Slices(values, size)| ==> 1 <= |Slices(values, size)[i]| <= size
    ensures (|Slices(values, size)| - 1) * size < |values|
  {
    if |values| <= size {
      assert Flatten([values]) == values + Flatten([values][1..]);
    } else {
      SlicesCover(values[size..], size);
      assert Slices(values, size)[1..] == Slices(values[size..], size);
      assert (|Slices(values, size)| - 1) * size == (|Slices(values[size..], size)| - 1) * size + size;
    }
  }

  lemma FewerFactors(x: nat, y: nat, c: nat)
    requires x * c < y * c
    ensures x < y
  {
    if x >= y {
      MulMonotone(c, y, x);
    }
  }

  /** The chunks before the last have one length, which the last does not exceed. */
  ghost predicate Even<T>(chunks: seq<seq<T>>, size: nat) {
    && (forall i :: 0 <= i < |chunks| - 1 ==> |chunks[i]| == size)
    && (chunks != [] ==> 1 <= |chunks[|chunks| - 1]| <= size)
  }

  lemma {:induction false} SlicesAreEven<T>(values: seq<T>, size: nat)
    requires size > 0 && values != []
    ensures Even(Slices(values, size), size)
    decreases |values|
  {
    if |values| > size {
      SlicesAreEven(values[size..], size);
    }
  }

  /** The least chunk size with which so many chunks suffice. */
  ghost predicate LeastSize(size: nat, n: nat, parts: nat) {
    size >= 1 && n <= size * parts && (size - 1) * parts < n
  }

  /**
   Chunking keeps the order of the work and makes at most four chunks for each worker. All but the last
   have one length, and none shorter would do.
   */
  lemma ChunkedWorkCovers<T>(values: seq<T>, workers: int)
    ensures Flatten(ChunkedWork(values, workers)) == values
    ensures workers >= 1 ==> |ChunkedWork(values, workers)| <= workers * 4
    ensures forall i :: 0 <= i < |ChunkedWork(values, workers)| ==> ChunkedWork(values, workers)[i] != []
    ensures values != [] ==>
      exists size: nat :: LeastSize(size, |values|, if workers >= 1 then workers * 4 else 1)
                          && Even(ChunkedWork(values, workers), size)
  {
    if values != [] {
      var size := ChunkSize(|values|, workers);
      var parts: nat := if workers >= 1 then workers * 4 else 1;
      SlicesCover(values, size);
      SlicesAreEven(values, size);
      BatchCountCovers(|values|, parts);
      assert LeastSize(size, |values|, parts);
      if workers >= 1 {
        FewerFactors(|ChunkedWork(values, workers)| - 1, workers * 4, size);
      }
    }
  }
}
