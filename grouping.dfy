/**
 * Partitioning a sequence of (key, value) entries into a map from key to the values under it,
 * as `acc[key] ??= []; acc[key].push(value)` does when run over the entries in order.
 * The archive groups (year, post) entries, the topics page (tag slug, post) entries.
 */
module Grouping {
  import opened Sequences

  /** The values of the entries, in order. */
  function Values<K, V>(entries: seq<(K, V)>): (r: seq<V>)
    ensures |r| == |entries|
  {
    seq(|entries|, i requires 0 <= i < |entries| => entries[i].1)
  }

  /** The values filed under `k`, in entry order. */
  function Bucket<K(==), V>(entries: seq<(K, V)>, k: K): seq<V> {
    if entries == [] then []
    else
      var last := entries[|entries| - 1];
      var rest := Bucket(entries[..|entries| - 1], k);
      if last.0 == k then rest + [last.1] else rest
  }

  /** The keys that occur in the entries. */
  function KeySet<K, V>(entries: seq<(K, V)>): set<K> {
    if entries == [] then {} else KeySet(entries[..|entries| - 1]) + {entries[|entries| - 1].0}
  }

  /** The grouping: one bucket per key that occurs. */
  function Groups<K(==), V>(entries: seq<(K, V)>): map<K, seq<V>> {
    map k | k in KeySet(entries) :: Bucket(entries, k)
  }

  /** One more entry: its key's bucket, created empty if missing, gets the value appended. */
  lemma GroupsSnoc<K, V>(entries: seq<(K, V)>, e: (K, V))
    ensures var g := Groups(entries);
      Groups(entries + [e]) == g[e.0 := (if e.0 in g then g[e.0] else []) + [e.1]]
  {
    var all := entries + [e];
    assert all[..|entries|] == entries;
    var g := Groups(entries);
    var g' := g[e.0 := (if e.0 in g then g[e.0] else []) + [e.1]];
    assert KeySet(all) == KeySet(entries) + {e.0};
    forall k | k in KeySet(all) ensures Groups(all)[k] == g'[k] {
      if k == e.0 && e.0 !in g {
        BucketEmpty(entries, k);
      }
    }
  }

  /** A key has a non-empty bucket exactly when it occurs. */
  lemma {:induction false} BucketEmpty<K, V>(entries: seq<(K, V)>, k: K)
    ensures Bucket(entries, k) == [] <==> k !in KeySet(entries)
  {
    if entries != [] {
      BucketEmpty(entries[..|entries| - 1], k);
    }
  }

  /** A bucket holds each value exactly as often as the entries pair it with that key. */
  lemma {:induction false} BucketCount<K, V>(entries: seq<(K, V)>, k: K, v: V)
    ensures multiset(Bucket(entries, k))[v] == multiset(entries)[(k, v)]
  {
    if entries != [] {
      var init := entries[..|entries| - 1];
      assert entries == init + [entries[|entries| - 1]];
      BucketCount(init, k, v);
    }
  }

  /** A bucket lists its values in entry order. */
  lemma {:induction false} BucketOrder<K, V>(entries: seq<(K, V)>, k: K)
    ensures IsSubsequence(Bucket(entries, k), Values(entries))
  {
    if entries != [] {
      var init := entries[..|entries| - 1];
      var last := entries[|entries| - 1];
      BucketOrder(init, k);
      assert Values(entries) == Values(init) + [last.1];
      if last.0 == k {
        SubsequenceSnoc(Bucket(init, k), Values(init), last.1);
      } else {
        SubsequenceExtend(Bucket(init, k), Values(init), last.1);
      }
    }
  }

  // ---------------------------------------------------------------------------------------
  // Reading the groups back in some order of keys

  predicate Distinct<K(==)>(ks: seq<K>) {
    forall i, j :: 0 <= i < j < |ks| ==> ks[i] != ks[j]
  }

  /** The buckets of `ks`, one after the other. */
  function Gather<K(==), V>(entries: seq<(K, V)>, ks: seq<K>): seq<V> {
    if ks == [] then [] else Bucket(entries, ks[0]) + Gather(entries, ks[1..])
  }

  /** The values of the entries whose key is in `s`, in order. */
  function ValuesIn<K(==), V>(entries: seq<(K, V)>, s: set<K>): seq<V> {
    if entries == [] then []
    else
      var last := entries[|entries| - 1];
      var rest := ValuesIn(entries[..|entries| - 1], s);
      if last.0 in s then rest + [last.1] else rest
  }

  lemma {:induction false} ValuesInSplit<K, V>(entries: seq<(K, V)>, k: K, s: set<K>)
    requires k !in s
    ensures multiset(ValuesIn(entries, {k} + s)) == multiset(Bucket(entries, k)) + multiset(ValuesIn(entries, s))
  {
    if entries != [] {
      ValuesInSplit(entries[..|entries| - 1], k, s);
    }
  }

  lemma {:induction false} ValuesInAll<K, V>(entries: seq<(K, V)>, s: set<K>)
    requires KeySet(entries) <= s
    ensures ValuesIn(entries, s) == Values(entries)
  {
    if entries != [] {
      var init := entries[..|entries| - 1];
      ValuesInAll(init, s);
      assert Values(entries) == Values(init) + [entries[|entries| - 1].1];
    }
  }

  lemma {:induction false} ValuesInNone<K, V>(entries: seq<(K, V)>)
    ensures ValuesIn(entries, {}) == []
  {
    if entries != [] {
      ValuesInNone(entries[..|entries| - 1]);
    }
  }

  lemma {:induction false} GatherIsValuesIn<K, V>(entries: seq<(K, V)>, ks: seq<K>)
    requires Distinct(ks)
    ensures multiset(Gather(entries, ks)) == multiset(ValuesIn(entries, set k | k in ks))
  {
    if ks == [] {
      ValuesInNone(entries);
      assert (set k | k in ks) == {};
    } else {
      var rest := ks[1..];
      assert Distinct(rest) by {
        forall i, j | 0 <= i < j < |rest| ensures rest[i] != rest[j] {
          assert rest[i] == ks[i + 1] && rest[j] == ks[j + 1];
        }
      }
      GatherIsValuesIn(entries, rest);
      assert ks[0] !in (set k | k in rest) by {
        forall i | 0 <= i < |rest| ensures rest[i] != ks[0] {
          assert rest[i] == ks[i + 1];
        }
      }
      assert (set k | k in ks) == {ks[0]} + (set k | k in rest) by {
        assert ks == [ks[0]] + rest;
      }
      ValuesInSplit(entries, ks[0], set k | k in rest);
    }
  }

  /**
   * Listing the buckets of every key once, in any order, lists every value exactly as often
   * as it occurs in the entries: nothing is lost or duplicated by the grouping.
   */
  lemma GatherPermutation<K, V>(entries: seq<(K, V)>, ks: seq<K>)
    requires Distinct(ks) && forall k :: k in KeySet(entries) ==> k in ks
    ensures multiset(Gather(entries, ks)) == multiset(Values(entries))
    ensures |Gather(entries, ks)| == |entries|
  {
    GatherIsValuesIn(entries, ks);
    ValuesInAll(entries, set k | k in ks);
    assert |multiset(Gather(entries, ks))| == |multiset(Values(entries))|;
  }
}
