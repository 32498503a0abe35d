/** Python's `collections.Counter` as the taggers use it: a dictionary from names to
    counts that remembers the order in which names were first added. */
module Counters {
  /** `keys` is the insertion order; `values` the counts. */
  datatype Counter<V> = Counter(keys: seq<string>, values: map<string, V>)

  ghost predicate WellFormed<V>(c: Counter<V>) {
    (forall k :: k in c.keys <==> k in c.values)
    && (forall i, j :: 0 <= i < j < |c.keys| ==> c.keys[i] != c.keys[j])
  }

  function Empty<V>(): (c: Counter<V>)
    ensures WellFormed(c) && c.keys == []
  {
    Counter([], map[])
  }

  /** `c[k] = v`: a new name goes to the end, a known one keeps its place. */
  function Put<V>(c: Counter<V>, k: string, v: V): (r: Counter<V>)
    ensures WellFormed(c) ==> WellFormed(r)
    ensures r.values == c.values[k := v]
    ensures k in c.values ==> r.keys == c.keys
    ensures k !in c.values ==> r.keys == c.keys + [k]
  {
    Counter(if k in c.values then c.keys else c.keys + [k], c.values[k := v])
  }

  /** `c[k]` on a counting `Counter`: 0 for a missing name. */
  function Count(c: Counter<nat>, k: string): nat {
    if k in c.values then c.values[k] else 0
  }

  /** The sum of the values, over the names in order. */
  function SumNat(keys: seq<string>, values: map<string, nat>): nat
    requires forall k :: k in keys ==> k in values
  {
    if keys == [] then 0 else SumNat(keys[..|keys| - 1], values) + values[keys[|keys| - 1]]
  }

  function Total(c: Counter<nat>): nat
    requires WellFormed(c)
  {
    SumNat(c.keys, c.values)
  }

  ghost predicate Positive(c: Counter<nat>) {
    forall k :: k in c.values ==> c.values[k] >= 1
  }

  /** With every count at least one, the total is positive exactly when there is a name. */
  lemma {:induction false} TotalPositive(keys: seq<string>, values: map<string, nat>)
    requires forall k :: k in keys ==> k in values && values[k] >= 1
    ensures SumNat(keys, values) > 0 <==> keys != []
    ensures SumNat(keys, values) >= |keys|
  {
    if keys != [] {
      TotalPositive(keys[..|keys| - 1], values);
    }
  }

  /** `Counter(names)`: how often each name occurs, names in order of first occurrence. */
  function Tally(names: seq<string>): (c: Counter<nat>)
    ensures WellFormed(c) && Positive(c)
  {
    if names == [] then Empty()
    else
      var c := Tally(names[..|names| - 1]);
      var n := names[|names| - 1];
      Put(c, n, Count(c, n) + 1)
  }

  /** Each name is counted as often as it occurs, and only names that occur are keys. */
  lemma {:induction false} TallyCounts(names: seq<string>, k: string)
    ensures Count(Tally(names), k) == multiset(names)[k]
    ensures k in Tally(names).values <==> k in names
  {
    if names != [] {
      var init := names[..|names| - 1];
      var n := names[|names| - 1];
      assert names == init + [n];
      TallyCounts(init, k);
      TallyCounts(init, n);
    }
  }

  /** Summing a counter after one count grew by one. */
  lemma {:induction false} SumNatBump(keys: seq<string>, values: map<string, nat>, k: string)
    requires forall x :: x in keys ==> x in values
    requires k in values
    requires forall i, j :: 0 <= i < j < |keys| ==> keys[i] != keys[j]
    ensures SumNat(keys, values[k := values[k] + 1]) == SumNat(keys, values) + (if k in keys then 1 else 0)
  {
    if keys != [] {
      var init := keys[..|keys| - 1];
      SumNatBump(init, values, k);
      assert k in keys <==> k in init || k == keys[|keys| - 1];
      if k == keys[|keys| - 1] {
        assert k !in init;
      }
    }
  }

  /** Counting one more occurrence of a name adds one to the total. */
  lemma TotalBump(c: Counter<nat>, n: string)
    requires WellFormed(c)
    ensures Total(Put(c, n, Count(c, n) + 1)) == Total(c) + 1
  {
    if n in c.values {
      SumNatBump(c.keys, c.values, n);
    } else {
      SumNatFresh(c.keys, c.values, n, 1);
    }
  }

  /** The counts of a tally add up to the number of names counted. */
  lemma {:induction false} TallyTotal(names: seq<string>)
    ensures Total(Tally(names)) == |names|
  {
    if names != [] {
      var init := names[..|names| - 1];
      var c := Tally(init);
      var n := names[|names| - 1];
      assert Tally(names) == Put(c, n, Count(c, n) + 1);
      TallyTotal(init);
      TotalBump(c, n);
    }
  }

  /** Adding a name the keys do not mention leaves the earlier sum alone. */
  lemma {:induction false} SumNatFresh(keys: seq<string>, values: map<string, nat>, k: string, v: nat)
    requires forall x :: x in keys ==> x in values
    requires k !in keys
    ensures SumNat(keys + [k], values[k := v]) == SumNat(keys, values) + v
  {
    SumNatSame(keys, values, values[k := v]);
    assert (keys + [k])[..|keys|] == keys;
  }

  lemma {:induction false} SumNatSame(keys: seq<string>, a: map<string, nat>, b: map<string, nat>)
    requires forall x :: x in keys ==> x in a && x in b && a[x] == b[x]
    ensures SumNat(keys, a) == SumNat(keys, b)
  {
    if keys != [] {
      SumNatSame(keys[..|keys| - 1], a, b);
    }
  }

  /** One entry of `for k, v in frame_counts.items(): if v > best[k]: best[k] = v`. */
  function Raise(best: Counter<nat>, k: string, v: nat): (r: Counter<nat>)
    requires WellFormed(best)
    ensures WellFormed(r)
    ensures forall j :: Count(r, j) == if j == k && v > Count(best, k) then v else Count(best, j)
  {
    if v > Count(best, k) then Put(best, k, v) else best
  }

  /** The loop over the first `i` entries of `counts`. */
  function RaiseAll(best: Counter<nat>, counts: Counter<nat>, i: nat): (r: Counter<nat>)
    requires WellFormed(best) && WellFormed(counts) && i <= |counts.keys|
    ensures WellFormed(r)
  {
    if i == 0 then best
    else
      var k := counts.keys[i - 1];
      Raise(RaiseAll(best, counts, i - 1), k, counts.values[k])
  }

  function Max(a: nat, b: nat): nat { if a >= b then a else b }

  /** After the whole loop each name holds the larger of the two counts. */
  lemma {:induction false} RaiseAllIsMax(best: Counter<nat>, counts: Counter<nat>, i: nat, j: string)
    requires WellFormed(best) && WellFormed(counts) && i <= |counts.keys|
    ensures Count(RaiseAll(best, counts, i), j) ==
              if j in counts.keys[..i] then Max(Count(best, j), Count(counts, j)) else Count(best, j)
  {
    if i > 0 {
      RaiseAllIsMax(best, counts, i - 1, j);
      var k := counts.keys[i - 1];
      assert counts.keys[..i] == counts.keys[..i - 1] + [k];
      if j == k {
        assert j !in counts.keys[..i - 1];
      }
    }
  }

  lemma RaiseAllMax(best: Counter<nat>, counts: Counter<nat>, j: string)
    requires WellFormed(best) && WellFormed(counts)
    ensures Count(RaiseAll(best, counts, |counts.keys|), j) == Max(Count(best, j), Count(counts, j))
  {
    RaiseAllIsMax(best, counts, |counts.keys|, j);
    assert counts.keys[..|counts.keys|] == counts.keys;
  }

  /** Raising keeps every count at least one. */
  lemma {:induction false} RaiseAllPositive(best: Counter<nat>, counts: Counter<nat>, i: nat)
    requires WellFormed(best) && WellFormed(counts) && i <= |counts.keys|
    requires Positive(best)
    ensures Positive(RaiseAll(best, counts, i))
  {
    if i > 0 {
      RaiseAllPositive(best, counts, i - 1);
    }
  }
}
