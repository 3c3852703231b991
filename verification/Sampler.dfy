/** SampledSize: the cumulative table of an empirical size distribution, and a draw from it. */
module Sampler {

  const DEFAULT_CELL_SIZE := 512

  datatype Bucket = Bucket(size: int, cum: real)

  predicate KeysIn(weights: map<int, real>, sizes: seq<int>) {
    forall i :: 0 <= i < |sizes| ==> sizes[i] in weights
  }

  /** The keys of positive weight, in the order given. */
  function Positive(weights: map<int, real>, sizes: seq<int>): seq<int>
    requires KeysIn(weights, sizes)
  {
    if sizes == [] then []
    else
      var s := sizes[|sizes| - 1];
      Positive(weights, sizes[..|sizes| - 1]) + (if weights[s] > 0.0 then [s] else [])
  }

  /** The total weight of a list of keys. */
  function Mass(weights: map<int, real>, keys: seq<int>): real {
    if keys == [] then 0.0
    else
      var k := keys[|keys| - 1];
      Mass(weights, keys[..|keys| - 1]) + (if k in weights then weights[k] else 0.0)
  }

  /** One bucket per key, holding the weight up to and including that key. */
  ghost predicate Tabulates(weights: map<int, real>, keys: seq<int>, table: seq<Bucket>) {
    && |table| == |keys|
    && forall i :: 0 <= i < |table| ==> table[i] == Bucket(keys[i], Mass(weights, keys[..i + 1]))
  }

  lemma TabulatesMore(weights: map<int, real>, keys: seq<int>, table: seq<Bucket>, s: int)
    requires Tabulates(weights, keys, table) && s in weights
    ensures Mass(weights, keys + [s]) == Mass(weights, keys) + weights[s]
    ensures Tabulates(weights, keys + [s], table + [Bucket(s, Mass(weights, keys) + weights[s])])
  {
    var keys' := keys + [s];
    assert keys'[..|keys|] == keys && keys'[..|keys| + 1] == keys';
    forall i | 0 <= i < |keys|
      ensures keys'[i] == keys[i] && keys'[..i + 1] == keys[..i + 1]
    {
    }
  }

  /** The table and the total after some of the sizes. */
  ghost predicate Built(weights: map<int, real>, sizes: seq<int>, table: seq<Bucket>, total: real)
    requires KeysIn(weights, sizes)
  {
    var keys := Positive(weights, sizes);
    Tabulates(weights, keys, table) && total == Mass(weights, keys)
  }

  lemma PositiveMore(weights: map<int, real>, sizes: seq<int>, i: nat)
    requires i < |sizes| && KeysIn(weights, sizes)
    ensures var keys := Positive(weights, sizes[..i]);
            Positive(weights, sizes[..i + 1]) == if weights[sizes[i]] > 0.0 then keys + [sizes[i]] else keys
  {
    assert sizes[..i + 1][..i] == sizes[..i];
  }

  lemma BuiltMore(weights: map<int, real>, sizes: seq<int>, i: nat, table: seq<Bucket>, total: real)
    requires i < |sizes| && KeysIn(weights, sizes)
    requires Built(weights, sizes[..i], table, total)
    ensures var (s, w) := (sizes[i], weights[sizes[i]]);
            if w > 0.0 then Built(weights, sizes[..i + 1], table + [Bucket(s, total + w)], total + w)
            else Built(weights, sizes[..i + 1], table, total)
  {
    var (s, keys) := (sizes[i], Positive(weights, sizes[..i]));
    PositiveMore(weights, sizes, i);
    if weights[s] > 0.0 {
      TabulatesMore(weights, keys, table, s);
    }
  }

  /** The table of a sampler, from the map's keys in sorted order. */
  method BuildTable(weights: map<int, real>, sizes: seq<int>) returns (table: seq<Bucket>, total: real)
    requires KeysIn(weights, sizes)
    ensures Built(weights, sizes, table, total)
  {
    table, total := [], 0.0;
    for i := 0 to |sizes|
      invariant Built(weights, sizes[..i], table, total)
    {
      var s := sizes[i];
      BuiltMore(weights, sizes, i, table, total);
      if weights[s] > 0.0 {
        total := total + weights[s];
        table := table + [Bucket(s, total)];
      }
    }
    assert sizes[..|sizes|] == sizes;
  }

  /** The keys of the table are those of positive weight. */
  lemma {:induction false} PositiveKeys(weights: map<int, real>, sizes: seq<int>)
    requires KeysIn(weights, sizes)
    ensures forall k :: k in Positive(weights, sizes) <==> k in sizes && weights[k] > 0.0
  {
    if sizes != [] {
      var (init, s) := (sizes[..|sizes| - 1], sizes[|sizes| - 1]);
      assert sizes == init + [s];
      PositiveKeys(weights, init);
    }
  }

  ghost predicate Increasing(keys: seq<int>) {
    forall i, j :: 0 <= i < j < |keys| ==> keys[i] < keys[j]
  }

  /** Each of them is there once, in order. */
  lemma {:induction false} PositiveIncreasing(weights: map<int, real>, sizes: seq<int>)
    requires KeysIn(weights, sizes) && Increasing(sizes)
    ensures Increasing(Positive(weights, sizes))
  {
    if sizes != [] {
      var init := sizes[..|sizes| - 1];
      PositiveIncreasing(weights, init);
      PositiveKeys(weights, init);
      var keys := Positive(weights, init);
      forall i | 0 <= i < |keys|
        ensures keys[i] < sizes[|sizes| - 1]
      {
        assert keys[i] in keys;
      }
    }
  }

  /** The point x lies in the interval of the i-th key, whose length is that key's weight. */
  ghost predicate Owns(weights: map<int, real>, keys: seq<int>, i: int, x: real) {
    && 0 <= i < |keys| && keys[i] in weights
    && Mass(weights, keys[..i]) <= x < Mass(weights, keys[..i]) + weights[keys[i]]
  }

  /** The key `size` owns the point x. */
  ghost predicate OwnedBy(weights: map<int, real>, keys: seq<int>, x: real, size: int) {
    exists i :: Owns(weights, keys, i, x) && size == keys[i]
  }

  ghost predicate AllPositive(weights: map<int, real>, keys: seq<int>) {
    forall i :: 0 <= i < |keys| ==> keys[i] in weights && weights[keys[i]] > 0.0
  }

  /**
   * One draw at the point x. Every x below the total falls in the interval of the key
   * returned; the fallback to the last key is taken only at or beyond the total.
   */
  method Draw(table: seq<Bucket>, x: real, ghost weights: map<int, real>, ghost keys: seq<int>) returns (size: int)
    requires 0.0 <= x && Tabulates(weights, keys, table) && AllPositive(weights, keys)
    ensures table == [] ==> size == DEFAULT_CELL_SIZE
    ensures x < Mass(weights, keys) ==> OwnedBy(weights, keys, x, size)
    ensures table != [] && x >= Mass(weights, keys) ==> size == keys[|keys| - 1]
  {
    if table == [] {
      return DEFAULT_CELL_SIZE;
    }
    assert keys[..|keys|] == keys;
    for i := 0 to |table|
      invariant Mass(weights, keys[..i]) <= x
    {
      assert keys[..i + 1][..i] == keys[..i];
      if x < table[i].cum {
        MassGrows(weights, keys, i + 1);
        assert Owns(weights, keys, i, x);
        return table[i].size;
      }
    }
    return table[|table| - 1].size;
  }

  lemma {:induction false} MassGrows(weights: map<int, real>, keys: seq<int>, i: nat)
    requires i <= |keys| && AllPositive(weights, keys)
    ensures Mass(weights, keys[..i]) <= Mass(weights, keys)
    decreases |keys|
  {
    if i < |keys| {
      var init := keys[..|keys| - 1];
      assert init[..i] == keys[..i];
      MassGrows(weights, init, i);
    } else {
      assert keys[..i] == keys;
    }
  }

  /** The intervals partition [0, total): no point has two owners. */
  lemma OneOwner(weights: map<int, real>, keys: seq<int>, i: int, j: int, x: real)
    requires AllPositive(weights, keys) && Owns(weights, keys, i, x) && Owns(weights, keys, j, x)
    ensures i == j
  {
    if i < j {
      EndsBefore(weights, keys, i, j, x);
    } else if j < i {
      EndsBefore(weights, keys, j, i, x);
    }
  }

  /** A later interval starts at or after the end of an earlier one. */
  lemma EndsBefore(weights: map<int, real>, keys: seq<int>, i: int, j: int, x: real)
    requires AllPositive(weights, keys) && Owns(weights, keys, i, x) && i < j < |keys|
    ensures x < Mass(weights, keys[..j])
  {
    MassGrows(weights, keys[..j], i + 1);
    assert keys[..j][..i + 1] == keys[..i + 1] && keys[..i + 1][..i] == keys[..i];
  }

  lemma {:induction false} MassOfPositive(weights: map<int, real>, keys: seq<int>)
    requires AllPositive(weights, keys)
    ensures Mass(weights, keys) >= 0.0
    ensures keys != [] ==> Mass(weights, keys) > 0.0
  {
    if |keys| > 1 {
      MassOfPositive(weights, keys[..|keys| - 1]);
    } else if |keys| == 1 {
      assert Mass(weights, keys[..0]) == 0.0;
    }
  }

  /** A random u in [0, 1) stretched over the total. */
  function Stretch(u: real, total: real): real {
    u * total
  }

  lemma BelowTotal(u: real, total: real)
    requires 0.0 <= u < 1.0 && total >= 0.0
    ensures 0.0 <= Stretch(u, total)
    ensures total > 0.0 ==> Stretch(u, total) < total
  {
    if total > 0.0 {
      assert (1.0 - u) * total > 0.0;
    }
  }

  ghost predicate NoWeight(weights: map<int, real>) {
    forall k :: k in weights ==> weights[k] <= 0.0
  }

  /** The keys of the map, sorted. */
  ghost predicate SortedKeys(weights: map<int, real>, sizes: seq<int>) {
    KeysIn(weights, sizes) && Increasing(sizes) && forall k :: k in weights ==> k in sizes
  }

  lemma TablePositive(weights: map<int, real>, sizes: seq<int>)
    requires KeysIn(weights, sizes)
    ensures AllPositive(weights, Positive(weights, sizes))
  {
    PositiveKeys(weights, sizes);
    var keys := Positive(weights, sizes);
    forall i | 0 <= i < |keys|
      ensures keys[i] in weights && weights[keys[i]] > 0.0
    {
      var k := keys[i];
      assert k in keys;
      assert k in sizes;
    }
  }

  lemma TableEmptyExactly(weights: map<int, real>, sizes: seq<int>)
    requires SortedKeys(weights, sizes)
    ensures NoWeight(weights) <==> Positive(weights, sizes) == []
  {
    PositiveKeys(weights, sizes);
    var keys := Positive(weights, sizes);
    if keys != [] {
      TablePositive(weights, sizes);
      var k := keys[0];
      assert k in weights && weights[k] > 0.0;
      assert !NoWeight(weights);
    } else {
      forall k | k in weights
        ensures weights[k] <= 0.0
      {
        assert k in sizes && k !in keys;
      }
      assert NoWeight(weights);
    }
  }

  lemma PointInside(weights: map<int, real>, keys: seq<int>, u: real)
    requires AllPositive(weights, keys) && 0.0 <= u < 1.0
    ensures 0.0 <= Stretch(u, Mass(weights, keys))
    ensures keys != [] ==> Stretch(u, Mass(weights, keys)) < Mass(weights, keys)
  {
    MassOfPositive(weights, keys);
    BelowTotal(u, Mass(weights, keys));
  }

  /** The table is not drawn from, or the key drawn owns the point x. */
  ghost predicate Drawn(weights: map<int, real>, keys: seq<int>, x: real, size: int) {
    if keys == [] then size == DEFAULT_CELL_SIZE else OwnedBy(weights, keys, x, size)
  }

  /** A draw from a finished table. */
  method DrawFrom(table: seq<Bucket>, total: real, u: real, ghost weights: map<int, real>, ghost keys: seq<int>) returns (size: int, x: real)
    requires Tabulates(weights, keys, table) && AllPositive(weights, keys)
    requires total == Mass(weights, keys) && 0.0 <= u < 1.0
    ensures x == u * total && Drawn(weights, keys, x, size)
  {
    PointInside(weights, keys, u);
    x := Stretch(u, total);
    size := Draw(table, x, weights, keys);
  }

  /**
   * SampledSize from its weights to one result, for a random u in [0, 1): the default without
   * positive weights, and otherwise the key whose interval, as long as its weight, holds the
   * point x = u * total.
   */
  method Sample(weights: map<int, real>, sizes: seq<int>, u: real) returns (size: int, total: real, x: real)
    requires SortedKeys(weights, sizes)
    requires 0.0 <= u < 1.0
    ensures total == Mass(weights, Positive(weights, sizes)) && x == u * total
    ensures var keys := Positive(weights, sizes);
            && (NoWeight(weights) <==> keys == [])
            && (keys == [] ==> size == 512)
            && (keys != [] ==> exists i ::
                  && 0 <= i < |keys| && size == keys[i] && keys[i] in weights
                  && Mass(weights, keys[..i]) <= x < Mass(weights, keys[..i]) + weights[keys[i]])
  {
    var table;
    table, total := BuildTable(weights, sizes);
    ghost var keys := Positive(weights, sizes);
    TablePositive(weights, sizes);
    TableEmptyExactly(weights, sizes);
    size, x := DrawFrom(table, total, u, weights, keys);
    OwnerFound(weights, keys, x, size);
  }

  lemma OwnerFound(weights: map<int, real>, keys: seq<int>, x: real, size: int)
    requires Drawn(weights, keys, x, size)
    ensures keys != [] ==> exists i ::
              && 0 <= i < |keys| && size == keys[i] && keys[i] in weights
              && Mass(weights, keys[..i]) <= x < Mass(weights, keys[..i]) + weights[keys[i]]
  {
    if keys != [] {
      var i :| Owns(weights, keys, i, x) && size == keys[i];
    }
  }
}
