/** The counting idiom of the statistics panel: a plain object used as an
    accumulator, `acc[key] = (acc[key] || 0) + 1`, read back with
    `Object.entries` / `Object.values`.

    A JavaScript object enumerates its own keys in a fixed order: keys that are
    canonical array indices (non-negative integers) first, in ascending numeric
    order, then the other string keys in the order they were created. `Counts`
    records that enumeration order next to the count under each key. */
module Tally {
  import opened Seqs

  datatype Counts<K> = Counts(keys: seq<K>, count: map<K, int>)

  /** Every key is enumerated exactly once and has a count. */
  ghost predicate WellFormed<K(!new)>(c: Counts<K>)
  {
    && NoDuplicates(c.keys)
    && (forall k :: k in c.count <==> k in c.keys)
  }

  /** Strictly increasing integer keys. */
  ghost predicate Ascending(keys: seq<int>)
  {
    forall i, j :: 0 <= i < j < |keys| ==> keys[i] < keys[j]
  }

  /** The index of the first occurrence of `k` in `xs`. */
  function FirstIndex<K(==)>(xs: seq<K>, k: K): (r: nat)
    requires k in xs
    ensures r < |xs| && xs[r] == k
    ensures forall i :: 0 <= i < r ==> xs[i] != k
  {
    if xs[0] == k then 0 else 1 + FirstIndex(xs[1..], k)
  }

  /** Appending an element does not move the first occurrence of a value already present;
      a value that was absent first occurs at the appended position. */
  lemma FirstIndexAppend<K>(xs: seq<K>, x: K, k: K)
    requires k in xs + [x]
    ensures k in xs ==> FirstIndex(xs + [x], k) == FirstIndex(xs, k)
    ensures k !in xs ==> FirstIndex(xs + [x], k) == |xs|
  {
    if k in xs {
      var b := FirstIndex(xs, k);
      assert (xs + [x])[b] == k;
      assert forall i :: 0 <= i < b ==> (xs + [x])[i] != k;
    } else {
      assert forall i :: 0 <= i < |xs| ==> (xs + [x])[i] != k;
    }
  }

  /** One `acc[k] = (acc[k] || 0) + 1` on an object whose key `k` is an ordinary
      string: a key seen for the first time is enumerated after all earlier ones. */
  function AddLast<K(==)>(c: Counts<K>, k: K): Counts<K>
  {
    var n := if k in c.count then c.count[k] else 0;
    Counts(if k in c.count then c.keys else c.keys + [k], c.count[k := n + 1])
  }

  /** `acc[k] = (acc[k] || 0) + 1` as one update of the accumulator's enumeration
      order and count map, for an ordinary string key `k`. */
  method Increment<K(==)>(keys: seq<K>, count: map<K, int>, k: K)
    returns (keys': seq<K>, count': map<K, int>)
    ensures Counts(keys', count') == AddLast(Counts(keys, count), k)
  {
    var n := if k in count then count[k] else 0;
    keys' := keys;
    if k !in count {
      keys' := keys + [k];
    }
    count' := count[k := n + 1];
  }

  /** Puts `k` into increasing `keys` before the first key greater than it. */
  function InsertAscending(keys: seq<int>, k: int): seq<int>
  {
    if keys == [] || k < keys[0] then [k] + keys
    else [keys[0]] + InsertAscending(keys[1..], k)
  }

  /** Inserting a new key into strictly increasing keys keeps them strictly increasing
      and adds exactly that key. */
  lemma {:induction false} InsertAscendingKeepsOrder(keys: seq<int>, k: int)
    requires Ascending(keys) && k !in keys
    ensures var r := InsertAscending(keys, k);
      && Ascending(r)
      && (forall x :: x in r <==> x in keys || x == k)
      && |r| == |keys| + 1
  {
    if keys != [] && k >= keys[0] {
      InsertAscendingKeepsOrder(keys[1..], k);
      var rest := InsertAscending(keys[1..], k);
      var r := [keys[0]] + rest;
      forall j | 0 <= j < |rest| ensures keys[0] < rest[j] {
        assert rest[j] in rest;
        if rest[j] != k {
          var i :| 0 <= i < |keys[1..]| && keys[1..][i] == rest[j];
          assert keys[i + 1] == rest[j];
        }
      }
      assert forall i, j :: 0 < i < j < |r| ==> r[i] == rest[i - 1] && r[j] == rest[j - 1];
    }
  }

  /** One `acc[k] = (acc[k] || 0) + 1` on an object whose key `k` is an integer: the
      object enumerates such keys in ascending order wherever they were created. */
  function AddAscending(c: Counts<int>, k: int): Counts<int>
  {
    var n := if k in c.count then c.count[k] else 0;
    Counts(if k in c.count then c.keys else InsertAscending(c.keys, k), c.count[k := n + 1])
  }

  /** `acc[k] = (acc[k] || 0) + 1` as one update of the accumulator's enumeration
      order and count map, for an integer key `k`. */
  method IncrementAscending(keys: seq<int>, count: map<int, int>, k: int)
    returns (keys': seq<int>, count': map<int, int>)
    ensures Counts(keys', count') == AddAscending(Counts(keys, count), k)
  {
    var n := if k in count then count[k] else 0;
    keys' := keys;
    if k !in count {
      keys' := InsertAscending(keys, k);
    }
    count' := count[k := n + 1];
  }

  /** `xs.reduce((acc, x) => { acc[x] = (acc[x] || 0) + 1; return acc }, {})` for string
      keys. */
  function CountInInsertionOrder<K(==)>(xs: seq<K>): Counts<K>
  {
    if xs == [] then Counts([], map[])
    else AddLast(CountInInsertionOrder(xs[..|xs| - 1]), xs[|xs| - 1])
  }

  /** The counter holds the distinct values of `xs` as its keys, each enumerated once
      and counted as often as it occurs. */
  lemma {:induction false} InsertionOrderCounts<K(!new)>(xs: seq<K>)
    ensures var c := CountInInsertionOrder(xs);
      && WellFormed(c)
      && (forall k :: k in c.count <==> k in xs)
      && (forall k :: k in c.count ==> c.count[k] == multiset(xs)[k])
  {
    if xs != [] {
      var ys := xs[..|xs| - 1];
      var x := xs[|xs| - 1];
      assert xs == ys + [x];
      InsertionOrderCounts(ys);
      var c := CountInInsertionOrder(ys);
      if x !in c.count {
        AppendFreshNoDuplicates(c.keys, x);
      }
    }
  }

  /** `keys` lists values of `xs` in the order of their first occurrence in `xs`. */
  ghost predicate InFirstOccurrenceOrder<K>(xs: seq<K>, keys: seq<K>)
  {
    && (forall k :: k in keys ==> k in xs)
    && (forall i, j :: 0 <= i < j < |keys| ==> FirstIndex(xs, keys[i]) < FirstIndex(xs, keys[j]))
  }

  lemma OrderAfterRepeat<K>(ys: seq<K>, x: K, keys: seq<K>)
    requires InFirstOccurrenceOrder(ys, keys)
    ensures InFirstOccurrenceOrder(ys + [x], keys)
  {
    forall i | 0 <= i < |keys| ensures FirstIndex(ys + [x], keys[i]) == FirstIndex(ys, keys[i]) {
      FirstIndexAppend(ys, x, keys[i]);
    }
  }

  lemma OrderAfterNew<K>(ys: seq<K>, x: K, keys: seq<K>)
    requires InFirstOccurrenceOrder(ys, keys) && x !in ys
    ensures InFirstOccurrenceOrder(ys + [x], keys + [x])
  {
    var keys' := keys + [x];
    forall i | 0 <= i < |keys| ensures FirstIndex(ys + [x], keys[i]) == FirstIndex(ys, keys[i]) {
      FirstIndexAppend(ys, x, keys[i]);
    }
    FirstIndexAppend(ys, x, x);
    assert forall i :: 0 <= i < |keys| ==> keys'[i] == keys[i];
  }

  /** The keys are enumerated in the order of their first occurrence in `xs`. */
  lemma {:induction false} InsertionOrderIsFirstOccurrence<K(!new)>(xs: seq<K>)
    ensures InFirstOccurrenceOrder(xs, CountInInsertionOrder(xs).keys)
  {
    if xs != [] {
      var ys := xs[..|xs| - 1];
      var x := xs[|xs| - 1];
      assert xs == ys + [x];
      InsertionOrderIsFirstOccurrence(ys);
      InsertionOrderCounts(ys);
      var c := CountInInsertionOrder(ys);
      assert CountInInsertionOrder(xs) == AddLast(c, x);
      if x in c.count {
        OrderAfterRepeat(ys, x, c.keys);
      } else {
        OrderAfterNew(ys, x, c.keys);
      }
    }
  }

  /** One more element is one more `AddLast` on the counter so far. */
  lemma InsertionOrderStep<K(!new)>(xs: seq<K>, x: K)
    ensures CountInInsertionOrder(xs + [x]) == AddLast(CountInInsertionOrder(xs), x)
  {
    assert (xs + [x])[..|xs|] == xs;
  }

  /** One more element is one more `AddAscending` on the counter so far. */
  lemma AscendingOrderStep(xs: seq<int>, x: int)
    ensures CountInAscendingOrder(xs + [x]) == AddAscending(CountInAscendingOrder(xs), x)
  {
    assert (xs + [x])[..|xs|] == xs;
  }

  /** `xs.reduce(...)` for integer keys. */
  function CountInAscendingOrder(xs: seq<int>): Counts<int>
  {
    if xs == [] then Counts([], map[])
    else AddAscending(CountInAscendingOrder(xs[..|xs| - 1]), xs[|xs| - 1])
  }

  /** As `InsertionOrderCounts`, with the keys enumerated in ascending order. */
  lemma {:induction false} AscendingOrderCounts(xs: seq<int>)
    ensures var c := CountInAscendingOrder(xs);
      && WellFormed(c) && Ascending(c.keys)
      && (forall k :: k in c.count <==> k in xs)
      && (forall k :: k in c.count ==> c.count[k] == multiset(xs)[k])
  {
    if xs != [] {
      var ys := xs[..|xs| - 1];
      var x := xs[|xs| - 1];
      assert xs == ys + [x];
      AscendingOrderCounts(ys);
      var c := CountInAscendingOrder(ys);
      if x !in c.count {
        InsertAscendingKeepsOrder(c.keys, x);
      }
    }
  }

  /** The sum of the counts, taken over the enumerated keys. */
  function Total<K>(keys: seq<K>, count: map<K, int>): int
    requires forall k :: k in keys ==> k in count
  {
    if keys == [] then 0 else count[keys[0]] + Total(keys[1..], count)
  }

  /** The sum, over distinct keys, of the occurrences in `m`. */
  ghost function SumOccurrences<K>(keys: seq<K>, m: multiset<K>): int
  {
    if keys == [] then 0 else m[keys[0]] + SumOccurrences(keys[1..], m)
  }

  lemma {:induction false} SumOccurrencesAddOne<K>(keys: seq<K>, m: multiset<K>, x: K)
    requires NoDuplicates(keys)
    ensures SumOccurrences(keys, m + multiset{x}) == SumOccurrences(keys, m) + (if x in keys then 1 else 0)
  {
    if keys != [] {
      NoDuplicatesTail(keys);
      SumOccurrencesAddOne(keys[1..], m, x);
    }
  }

  /** Counting every element of `xs` under distinct keys that cover `xs` accounts for
      each element exactly once. */
  lemma {:induction false} SumOccurrencesIsLength<K>(keys: seq<K>, xs: seq<K>)
    requires NoDuplicates(keys)
    requires forall x :: x in xs ==> x in keys
    ensures SumOccurrences(keys, multiset(xs)) == |xs|
  {
    if xs == [] {
      SumOccurrencesEmpty(keys);
    } else {
      var ys := xs[..|xs| - 1];
      var x := xs[|xs| - 1];
      assert xs == ys + [x];
      SumOccurrencesIsLength(keys, ys);
      SumOccurrencesAddOne(keys, multiset(ys), x);
    }
  }

  lemma {:induction false} SumOccurrencesEmpty<K>(keys: seq<K>)
    ensures SumOccurrences(keys, multiset{}) == 0
  {
    if keys != [] {
      SumOccurrencesEmpty(keys[1..]);
    }
  }

  lemma {:induction false} TotalIsSumOccurrences<K>(keys: seq<K>, count: map<K, int>, m: multiset<K>)
    requires forall k :: k in keys ==> k in count && count[k] == m[k]
    ensures Total(keys, count) == SumOccurrences(keys, m)
  {
    if keys != [] {
      TotalIsSumOccurrences(keys[1..], count, m);
    }
  }

  /** The counts of a counter that counts each element of `xs` under its own key sum
      to the length of `xs`. */
  lemma CountsSumToLength<K(!new)>(c: Counts<K>, xs: seq<K>)
    requires WellFormed(c)
    requires forall k :: k in c.count <==> k in xs
    requires forall k :: k in c.count ==> c.count[k] == multiset(xs)[k]
    ensures Total(c.keys, c.count) == |xs|
  {
    TotalIsSumOccurrences(c.keys, c.count, multiset(xs));
    SumOccurrencesIsLength(c.keys, xs);
  }

  /** The position that `Object.entries(c).sort((a, b) => b[1] - a[1])[0]` comes from:
      the sort is stable, so it is the first entry, in enumeration order, whose count
      is maximal. */
  function FirstMaxIndex<K>(keys: seq<K>, count: map<K, int>): (i: nat)
    requires |keys| > 0 && forall k :: k in keys ==> k in count
    ensures i < |keys|
    ensures forall j :: 0 <= j < |keys| ==> count[keys[j]] <= count[keys[i]]
    ensures forall j :: 0 <= j < i ==> count[keys[j]] < count[keys[i]]
  {
    if |keys| == 1 then 0
    else
      var i := FirstMaxIndex(keys[..|keys| - 1], count);
      if count[keys[|keys| - 1]] > count[keys[i]] then |keys| - 1 else i
  }

  /** `Object.entries(c).sort((a, b) => b[1] - a[1])[0]`: the key and count at
      `FirstMaxIndex`. */
  function TopEntry<K>(c: Counts<K>): (r: (K, int))
    requires |c.keys| > 0 && forall k :: k in c.keys ==> k in c.count
    ensures r.0 in c.keys && r.1 == c.count[r.0]
    ensures forall k :: k in c.keys ==> c.count[k] <= r.1
  {
    var i := FirstMaxIndex(c.keys, c.count);
    (c.keys[i], c.count[c.keys[i]])
  }

  /** On a counter of `xs`, the top entry is a value of `xs` occurring most often. */
  lemma TopEntryIsMostFrequent<K(!new)>(c: Counts<K>, xs: seq<K>)
    requires WellFormed(c) && |xs| > 0
    requires forall k :: k in c.count <==> k in xs
    requires forall k :: k in c.count ==> c.count[k] == multiset(xs)[k]
    ensures |c.keys| > 0
    ensures TopEntry(c).1 == multiset(xs)[TopEntry(c).0] > 0
    ensures forall i :: 0 <= i < |xs| ==> multiset(xs)[xs[i]] <= TopEntry(c).1
  {
    assert xs[0] in c.count;
    var p := FirstMaxIndex(c.keys, c.count);
    forall i | 0 <= i < |xs| ensures multiset(xs)[xs[i]] <= TopEntry(c).1 {
      assert xs[i] in xs;
      var j :| 0 <= j < |c.keys| && c.keys[j] == xs[i];
    }
  }

  /** A tie for the top count is won by the key that comes first in enumeration order. */
  lemma TopEntryWinsTies<K>(c: Counts<K>, k: K)
    requires |c.keys| > 0 && forall k :: k in c.keys ==> k in c.count
    requires k in c.keys && c.count[k] == TopEntry(c).1
    ensures exists i, j :: 0 <= i <= j < |c.keys| && c.keys[i] == TopEntry(c).0 && c.keys[j] == k
  {
    var p := FirstMaxIndex(c.keys, c.count);
    var j :| 0 <= j < |c.keys| && c.keys[j] == k;
    assert p <= j;
  }

  /** Counting string keys: among the values occurring most often in `xs`, the top
      entry is the one whose first occurrence comes first. */
  lemma FirstOccurringWinsTies<K(!new)>(xs: seq<K>, k: K)
    requires k in xs
    ensures |CountInInsertionOrder(xs).keys| > 0 && WellFormed(CountInInsertionOrder(xs))
    ensures TopEntry(CountInInsertionOrder(xs)).0 in xs
    ensures multiset(xs)[k] == TopEntry(CountInInsertionOrder(xs)).1 ==>
      FirstIndex(xs, TopEntry(CountInInsertionOrder(xs)).0) <= FirstIndex(xs, k)
  {
    var c := CountInInsertionOrder(xs);
    InsertionOrderCounts(xs);
    InsertionOrderIsFirstOccurrence(xs);
    TopEntryIsMostFrequent(c, xs);
    if multiset(xs)[k] == TopEntry(c).1 {
      TopEntryWinsTies(c, k);
    }
  }

  /** Counting integer keys: among the values occurring most often in `xs`, the top
      entry is the smallest. */
  lemma SmallestWinsTies(xs: seq<int>, k: int)
    requires k in xs
    ensures |CountInAscendingOrder(xs).keys| > 0 && WellFormed(CountInAscendingOrder(xs))
    ensures multiset(xs)[k] == TopEntry(CountInAscendingOrder(xs)).1 ==>
      TopEntry(CountInAscendingOrder(xs)).0 <= k
  {
    var c := CountInAscendingOrder(xs);
    AscendingOrderCounts(xs);
    TopEntryIsMostFrequent(c, xs);
    if multiset(xs)[k] == TopEntry(c).1 {
      TopEntryWinsTies(c, k);
    }
  }

  /** `Object.values(c)`: the counts in enumeration order. */
  function Values<K>(c: Counts<K>): (vs: seq<int>)
    requires forall k :: k in c.keys ==> k in c.count
    ensures |vs| == |c.keys| && forall i :: 0 <= i < |vs| ==> vs[i] == c.count[c.keys[i]]
  {
    seq(|c.keys|, i requires 0 <= i < |c.keys| => c.count[c.keys[i]])
  }

  /** `Object.entries(c)`: key and count pairs in enumeration order. */
  function Entries<K>(c: Counts<K>): (es: seq<(K, int)>)
    requires forall k :: k in c.keys ==> k in c.count
    ensures |es| == |c.keys| && forall i :: 0 <= i < |es| ==> es[i] == (c.keys[i], c.count[c.keys[i]])
  {
    seq(|c.keys|, i requires 0 <= i < |c.keys| => (c.keys[i], c.count[c.keys[i]]))
  }

  /** `Math.max(...vs)` for a non-empty `vs`: an element of `vs` that no element exceeds. */
  function MaxOf(vs: seq<int>): (m: int)
    requires |vs| > 0
    ensures m in vs
    ensures forall i :: 0 <= i < |vs| ==> vs[i] <= m
  {
    if |vs| == 1 then vs[0]
    else
      var m := MaxOf(vs[..|vs| - 1]);
      assert m in vs by { var i :| 0 <= i < |vs| - 1 && vs[..|vs| - 1][i] == m; assert vs[i] == m; }
      if vs[|vs| - 1] > m then vs[|vs| - 1] else m
  }
}
