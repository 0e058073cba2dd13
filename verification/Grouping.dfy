/** Python's `defaultdict(list)`: values gathered under their keys, the keys in order of insertion. */
module Grouping {
  import opened Sorting

  function ListAt<K(==), V>(groups: map<K, seq<V>>, key: K): seq<V> {
    if key in groups then groups[key] else []
  }

  function Lists<K(==), V>(groups: map<K, seq<V>>): K -> seq<V> {
    (key: K) => ListAt(groups, key)
  }

  predicate Distinct<K(==)>(keys: seq<K>) {
    forall i, j :: 0 <= i < j < |keys| ==> keys[i] != keys[j]
  }

  /** Values are listed under their own keys, and `keys` are the keys of the dictionary. */
  ghost predicate ProperKeys<K(!new), V>(keyOf: V -> K, keys: seq<K>, groups: map<K, seq<V>>) {
    && Distinct(keys)
    && (forall key :: key in groups <==> key in keys)
    && forall key :: key in groups ==> groups[key] != [] && forall v <- groups[key] :: keyOf(v) == key
  }

  /** The lists hold what was found, each value as often as it was found. */
  ghost predicate HoldsFound<K, V>(found: seq<V>, keys: seq<K>, groups: map<K, seq<V>>) {
    multiset(Flatten(Map(keys, Lists(groups)))) == multiset(found)
  }

  ghost predicate Grouped<K(!new), V>(keyOf: V -> K, found: seq<V>, keys: seq<K>, groups: map<K, seq<V>>) {
    ProperKeys(keyOf, keys, groups) && HoldsFound(found, keys, groups)
  }

  /** The values found under a key, in the order in which they were found. */
  function Found<K(==), V>(keyOf: V -> K, found: seq<V>, key: K): seq<V> {
    if found == [] then []
    else
      var last := found[|found| - 1];
      Found(keyOf, found[..|found| - 1], key) + if keyOf(last) == key then [last] else []
  }

  ghost predicate InOrder<K(!new), V>(keyOf: V -> K, found: seq<V>, groups: map<K, seq<V>>) {
    forall key :: ListAt(groups, key) == Found(keyOf, found, key)
  }

  lemma NothingGrouped<K(!new), V>(keyOf: V -> K, found: seq<V>, keys: seq<K>, groups: map<K, seq<V>>)
    requires found == [] && keys == [] && groups == map[]
    ensures Grouped(keyOf, found, keys, groups) && InOrder(keyOf, found, groups)
  {
    assert Map(keys, Lists(groups)) == [];
  }

  lemma OldKey<K, V>(key: K, v: V, found: seq<V>, keys: seq<K>, groups: map<K, seq<V>>)
    requires Distinct(keys) && key in keys && key in groups && HoldsFound(found, keys, groups)
    ensures HoldsFound(found + [v], keys, groups[key := groups[key] + [v]])
  {
    var k :| 0 <= k < |keys| && keys[k] == key;
    FlattenGrow(Map(keys, Lists(groups)), k, v);
    OneListGrows(k, v, keys, groups);
  }

  lemma OneListGrows<K, V>(k: nat, v: V, keys: seq<K>, groups: map<K, seq<V>>)
    requires Distinct(keys) && k < |keys| && keys[k] in groups
    ensures var lists, grown := Map(keys, Lists(groups)), groups[keys[k] := groups[keys[k]] + [v]];
      Map(keys, Lists(grown)) == lists[k := lists[k] + [v]]
  {
  }

  lemma NewKey<K, V>(key: K, v: V, found: seq<V>, keys: seq<K>, groups: map<K, seq<V>>)
    requires key !in keys && HoldsFound(found, keys, groups)
    ensures HoldsFound(found + [v], keys + [key], groups[key := [v]])
  {
    var grown := groups[key := [v]];
    var lists := Map(keys, Lists(groups));
    forall k | 0 <= k < |keys|
      ensures ListAt(grown, keys[k]) == ListAt(groups, keys[k])
    {
      assert keys[k] in keys;
    }
    assert Map(keys + [key], Lists(grown)) == lists + [[v]];
    FlattenConcat(lists, [[v]]);
    assert [[v]][1..] == [] && Flatten([[v]]) == [v] + Flatten([]);
  }

  lemma OrderGrows<K(!new), V>(keyOf: V -> K, key: K, v: V, found: seq<V>, groups: map<K, seq<V>>)
    requires InOrder(keyOf, found, groups) && keyOf(v) == key
    ensures InOrder(keyOf, found + [v], groups[key := ListAt(groups, key) + [v]])
  {
    var grown := groups[key := ListAt(groups, key) + [v]];
    assert (found + [v])[..|found|] == found;
    forall k
      ensures ListAt(grown, k) == Found(keyOf, found + [v], k)
    {
      assert ListAt(groups, k) == Found(keyOf, found, k);
    }
  }

  lemma KeysGrow<K(!new), V>(keyOf: V -> K, key: K, v: V, keys: seq<K>, groups: map<K, seq<V>>)
    requires ProperKeys(keyOf, keys, groups) && keyOf(v) == key
    ensures ProperKeys(keyOf, if key in groups then keys else keys + [key], groups[key := ListAt(groups, key) + [v]])
  {
    var grown := groups[key := ListAt(groups, key) + [v]];
    forall k | k in grown
      ensures grown[k] != [] && forall w <- grown[k] :: keyOf(w) == k
    {
    }
  }

  lemma GroupsGrow<K(!new), V>(keyOf: V -> K, key: K, v: V, found: seq<V>, keys: seq<K>, groups: map<K, seq<V>>)
    requires Grouped(keyOf, found, keys, groups) && keyOf(v) == key
    ensures Grouped(keyOf, found + [v], if key in groups then keys else keys + [key],
                    groups[key := ListAt(groups, key) + [v]])
  {
    KeysGrow(keyOf, key, v, keys, groups);
    if key in groups {
      OldKey(key, v, found, keys, groups);
    } else {
      NewKey(key, v, found, keys, groups);
      assert [] + [v] == [v];
    }
  }

  /** `groups[key].append(v)`. */
  method Append<K(==,!new), V>(ghost keyOf: V -> K, key: K, v: V, ghost found: seq<V>, keys: seq<K>,
                  groups: map<K, seq<V>>)
    returns (keys': seq<K>, groups': map<K, seq<V>>)
    requires Grouped(keyOf, found, keys, groups) && keyOf(v) == key
    ensures Grouped(keyOf, found + [v], keys', groups')
    ensures InOrder(keyOf, found, groups) ==> InOrder(keyOf, found + [v], groups')
  {
    GroupsGrow(keyOf, key, v, found, keys, groups);
    if InOrder(keyOf, found, groups) {
      OrderGrows(keyOf, key, v, found, groups);
    }
    keys' := if key in groups then keys else keys + [key];
    groups' := groups[key := ListAt(groups, key) + [v]];
  }

  /** The order of the keys does not matter. */
  lemma KeysPermute<K(!new), V>(keyOf: V -> K, found: seq<V>, keys: seq<K>, sorted: seq<K>, groups: map<K, seq<V>>)
    requires Grouped(keyOf, found, keys, groups) && multiset(sorted) == multiset(keys)
    ensures Grouped(keyOf, found, sorted, groups)
  {
    SameMembers(sorted, keys);
    DistinctPermutation(keys, sorted);
    MapPermutation(sorted, keys, Lists(groups));
    FlattenPermutation(Map(sorted, Lists(groups)), Map(keys, Lists(groups)));
  }

  lemma DistinctPermutation<K>(keys: seq<K>, sorted: seq<K>)
    requires Distinct(keys) && multiset(sorted) == multiset(keys)
    ensures Distinct(sorted)
  {
    forall i, j | 0 <= i < j < |sorted|
      ensures sorted[i] != sorted[j]
    {
      DistinctOnce(keys, sorted[i]);
      if sorted[i] == sorted[j] {
        CountedTwice(sorted, i, j);
      }
    }
  }

  lemma CountedTwice<K>(keys: seq<K>, i: nat, j: nat)
    requires i < j < |keys| && keys[i] == keys[j]
    ensures multiset(keys)[keys[i]] >= 2
  {
    assert keys == keys[..i] + [keys[i]] + keys[i + 1..j] + [keys[j]] + keys[j + 1..];
  }

  lemma {:induction false} DistinctOnce<K>(keys: seq<K>, key: K)
    requires Distinct(keys)
    ensures multiset(keys)[key] <= 1
  {
    if keys != [] {
      var init, last := keys[..|keys| - 1], keys[|keys| - 1];
      assert keys == init + [last];
      DistinctOnce(init, key);
      if last == key {
        assert key !in init;
      }
    }
  }

  /** A value that was found lies in the group of its key, and nothing else does. */
  lemma GroupMember<K(!new), V(!new)>(keyOf: V -> K, found: seq<V>, keys: seq<K>, groups: map<K, seq<V>>, key: K)
    requires Grouped(keyOf, found, keys, groups)
    ensures forall v <- found :: keyOf(v) == key ==> key in groups && v in groups[key]
    ensures key in groups ==> forall v <- groups[key] :: v in found
  {
    FlattenMember(keys, groups);
    SameMembers(Flatten(Map(keys, Lists(groups))), found);
  }

  lemma {:induction false} FlattenMember<K, V>(keys: seq<K>, groups: map<K, seq<V>>)
    ensures forall v <- Flatten(Map(keys, Lists(groups))) :: exists key <- keys :: v in ListAt(groups, key)
    ensures forall key <- keys, v <- ListAt(groups, key) :: v in Flatten(Map(keys, Lists(groups)))
  {
    if keys != [] {
      FlattenMember(keys[1..], groups);
      assert keys == [keys[0]] + keys[1..];
      assert Map(keys, Lists(groups))[1..] == Map(keys[1..], Lists(groups));
    }
  }

  lemma {:induction false} FoundCount<K, V>(keyOf: V -> K, found: seq<V>, key: K, v: V)
    ensures multiset(Found(keyOf, found, key))[v] == if keyOf(v) == key then multiset(found)[v] else 0
  {
    if found != [] {
      FoundCount(keyOf, found[..|found| - 1], key, v);
      assert found == found[..|found| - 1] + [found[|found| - 1]];
    }
  }

  lemma FoundAre<K, V(!new)>(keyOf: V -> K, found: seq<V>, key: K)
    ensures forall v :: v in Found(keyOf, found, key) <==> v in found && keyOf(v) == key
  {
    forall v
      ensures v in Found(keyOf, found, key) <==> v in found && keyOf(v) == key
    {
      FoundCount(keyOf, found, key, v);
      assert v in multiset(found) <==> v in found;
      assert v in multiset(Found(keyOf, found, key)) <==> v in Found(keyOf, found, key);
    }
  }

  lemma FoundPermutation<K, V(!new)>(keyOf: V -> K, a: seq<V>, b: seq<V>, key: K)
    requires multiset(a) == multiset(b)
    ensures multiset(Found(keyOf, a, key)) == multiset(Found(keyOf, b, key))
  {
    forall v
      ensures multiset(Found(keyOf, a, key))[v] == multiset(Found(keyOf, b, key))[v]
    {
      FoundCount(keyOf, a, key, v);
      FoundCount(keyOf, b, key, v);
    }
  }

  lemma {:induction false} FoundConcat<K, V>(keyOf: V -> K, a: seq<V>, b: seq<V>, key: K)
    ensures Found(keyOf, a + b, key) == Found(keyOf, a, key) + Found(keyOf, b, key)
  {
    if b == [] {
      assert a + b == a;
    } else {
      assert (a + b)[..|a + b| - 1] == a + b[..|b| - 1];
      FoundConcat(keyOf, a, b[..|b| - 1], key);
    }
  }

  /** Mapping what was found finds it among what is mapped. */
  lemma {:induction false} FoundMap<K, L, V, W>(keyOf: V -> K, key: K, f: V -> W, keyOf': W -> L, key': L, s: seq<V>)
    requires forall v <- s :: keyOf'(f(v)) == key' <==> keyOf(v) == key
    ensures Found(keyOf', Map(s, f), key') == Map(Found(keyOf, s, key), f)
  {
    if s != [] {
      FoundMap(keyOf, key, f, keyOf', key', s[..|s| - 1]);
      assert Map(s, f)[..|s| - 1] == Map(s[..|s| - 1], f);
    }
  }
}
