/** Counting by key, as both charts do it: a `reduce` that bumps
    `acc[key] = (acc[key] || 0) + 1` on a plain record, followed by
    `Object.entries`, which lists the record's keys in insertion order (for
    keys that do not look like array indices). */
module Tally {

  import opened Seqs

  /** One `[key, count]` pair of `Object.entries`. */
  datatype Entry<K> = Entry(name: K, count: nat)

  /** The key of every item, in order. */
  function Keys<T, K>(items: seq<T>, key: T -> K): seq<K> {
    seq(|items|, i requires 0 <= i < |items| => key(items[i]))
  }

  /** The entries for `names`, each with its multiplicity in `m`. */
  function EntriesFor<K>(names: seq<K>, m: multiset<K>): seq<Entry<K>> {
    if names == [] then [] else [Entry(names[0], m[names[0]])] + EntriesFor(names[1..], m)
  }

  /** The counts by key: one entry per distinct key in order of first
      occurrence, with the number of items having that key. */
  function Tallied<T, K(==,!new)>(items: seq<T>, key: T -> K): seq<Entry<K>> {
    var keys := Keys(items, key);
    EntriesFor(Distinct(keys), multiset(keys))
  }

  function SumCounts<K>(entries: seq<Entry<K>>): nat {
    if entries == [] then 0 else entries[0].count + SumCounts(entries[1..])
  }

  function Names<K>(entries: seq<Entry<K>>): seq<K> {
    seq(|entries|, i requires 0 <= i < |entries| => entries[i].name)
  }

  lemma {:induction false} EntriesForAt<K>(names: seq<K>, m: multiset<K>)
    ensures |EntriesFor(names, m)| == |names|
    ensures forall j :: 0 <= j < |names| ==> EntriesFor(names, m)[j] == Entry(names[j], m[names[j]])
  {
    if names != [] {
      EntriesForAt(names[1..], m);
    }
  }

  /** The reduce and the entries conversion: `counts` is the record, `order`
      its keys in insertion order. */
  method CountBy<T, K(==,!new)>(items: seq<T>, key: T -> K) returns (entries: seq<Entry<K>>)
    ensures entries == Tallied(items, key)
  {
    var order: seq<K> := [];
    var counts: map<K, nat> := map[];
    ghost var seen: seq<K> := [];
    for i := 0 to |items|
      invariant seen == Keys(items[..i], key)
      invariant order == Distinct(seen)
      invariant forall k :: k in counts <==> k in order
      invariant forall k :: k in counts ==> counts[k] == multiset(seen)[k]
    {
      var k := key(items[i]);
      KeysSnoc(items, key, i);
      DistinctSnoc(seen, k);
      var prior := if k in counts then counts[k] else 0;
      if k !in counts {
        order := order + [k];
      }
      counts := counts[k := prior + 1];
      seen := seen + [k];
    }
    assert items[..|items|] == items;
    entries := seq(|order|, j requires 0 <= j < |order| => Entry(order[j], counts[order[j]]));
    EntriesForAt(order, multiset(Keys(items, key)));
  }

  /** The keys of one more item are the keys so far and the new item's key. */
  lemma KeysSnoc<T, K>(items: seq<T>, key: T -> K, i: nat)
    requires i < |items|
    ensures Keys(items[..i + 1], key) == Keys(items[..i], key) + [key(items[i])]
  {
  }

  /** Each entry counts exactly the items with its key, so no count is zero;
      the names are distinct and are exactly the keys that occur. */
  lemma TalliedCounts<T, K(!new)>(items: seq<T>, key: T -> K)
    ensures var entries := Tallied(items, key);
            && (forall j :: 0 <= j < |entries| ==>
                  entries[j].count == multiset(Keys(items, key))[entries[j].name] && entries[j].count > 0)
            && NoDuplicates(Names(entries))
            && forall k :: k in Names(entries) <==> exists i :: 0 <= i < |items| && key(items[i]) == k
  {
    var keys := Keys(items, key);
    EntriesForAt(Distinct(keys), multiset(keys));
    var entries := Tallied(items, key);
    assert Names(entries) == Distinct(keys);
    forall j | 0 <= j < |entries|
      ensures entries[j].count > 0
    {
      assert entries[j].name in Distinct(keys);
      assert entries[j].name in multiset(keys);
    }
    forall k
      ensures k in Names(entries) <==> exists i :: 0 <= i < |items| && key(items[i]) == k
    {
      if exists i :: 0 <= i < |items| && key(items[i]) == k {
        var i :| 0 <= i < |items| && key(items[i]) == k;
        assert keys[i] == k;
      }
    }
  }

  /** The names come in order of first occurrence of their key. */
  lemma TalliedOrder<T, K(!new)>(items: seq<T>, key: T -> K)
    ensures var keys := Keys(items, key);
            && Embeds(FirstPositions(keys), Names(Tallied(items, key)), keys)
            && forall i :: 0 <= i < |FirstPositions(keys)| ==>
                 keys[FirstPositions(keys)[i]] !in keys[..FirstPositions(keys)[i]]
  {
    var keys := Keys(items, key);
    EntriesForAt(Distinct(keys), multiset(keys));
    assert Names(Tallied(items, key)) == Distinct(keys);
    DistinctFirstOccurrences(keys);
  }

  /** Entries for the same names over multisets agreeing on those names are
      the same. */
  lemma {:induction false} EntriesForAgree<K>(names: seq<K>, m: multiset<K>, m': multiset<K>)
    requires forall k :: k in names ==> m[k] == m'[k]
    ensures EntriesFor(names, m) == EntriesFor(names, m')
  {
    if names != [] {
      assert names[0] in names;
      assert forall k :: k in names[1..] ==> k in names;
      EntriesForAgree(names[1..], m, m');
    }
  }

  /** Over distinct names covering every element of `m`, the counts add up to
      the size of `m`. */
  lemma {:induction false} SumEntriesFor<K>(names: seq<K>, m: multiset<K>)
    requires NoDuplicates(names)
    requires forall k :: k in m ==> k in names
    ensures SumCounts(EntriesFor(names, m)) == |m|
  {
    if names == [] {
      assert m == multiset{};
    } else {
      var k0 := names[0];
      var rest := m[k0 := 0];
      assert forall k :: k in names[1..] ==> k != k0 by {
        forall k | k in names[1..] ensures k != k0 {
          var j :| 0 <= j < |names[1..]| && names[1..][j] == k;
          assert names[j + 1] == k;
        }
      }
      EntriesForAgree(names[1..], m, rest);
      forall k | k in rest ensures k in names[1..] {
        assert k != k0 && k in m;
      }
      SumEntriesFor(names[1..], rest);
      assert m == rest + multiset{}[k0 := m[k0]];
    }
  }

  /** The counts add up to the number of items. */
  lemma TalliedTotal<T, K(!new)>(items: seq<T>, key: T -> K)
    ensures SumCounts(Tallied(items, key)) == |items|
  {
    var keys := Keys(items, key);
    SumEntriesFor(Distinct(keys), multiset(keys));
  }

  /** The count of a key is the number of items kept by a filter selecting
      that key. */
  lemma {:induction false} CountIsFilterLength<T(!new), K>(items: seq<T>, key: T -> K, k: K, selects: T -> bool)
    requires forall t :: selects(t) == (key(t) == k)
    ensures multiset(Keys(items, key))[k] == |Filter(items, selects)|
  {
    if items != [] {
      CountIsFilterLength(items[1..], key, k, selects);
      assert Keys(items, key) == [key(items[0])] + Keys(items[1..], key);
    }
  }
}
