/**
 Python's `collections.Counter` as the pipeline uses it: a dictionary from
 keys to positive counts that remembers the order in which keys were first
 inserted, updated in place by `update(iterable)` and read back in that order
 by `items()`.
 */
module Counters {

  /** The value of a counter: the keys in first-insertion order and the count
      of each. */
  datatype Tally<K(==,!new)> = Tally(order: seq<K>, counts: map<K, nat>)
  {
    /** Every key is listed once, the listed keys are exactly the counted
        ones, and no count is zero. */
    ghost predicate Valid()
    {
      && (forall i, j :: 0 <= i < j < |order| ==> order[i] != order[j])
      && (forall k :: k in counts <==> k in order)
      && (forall k :: k in counts ==> counts[k] > 0)
    }

    /** `counter[x]`: a missing key reads as zero. */
    function Get(x: K): nat
    {
      if x in counts then counts[x] else 0
    }

    /** One increment, as `update` performs it for one element: a new key goes
        to the end of the order, a known key keeps its place. */
    function Add(x: K): (r: Tally<K>)
      ensures Valid() ==> r.Valid()
      ensures forall y :: r.Get(y) == Get(y) + (if y == x then 1 else 0)
    {
      Tally(if x in counts then order else order + [x], counts[x := Get(x) + 1])
    }

    /** `update(xs)`: one increment per element of `xs`, in order. */
    function AddAll(xs: seq<K>): Tally<K>
    {
      if xs == [] then this else AddAll(xs[..|xs| - 1]).Add(xs[|xs| - 1])
    }

    /** The sum of all counts. */
    function Total(): nat
    {
      SumCounts(order, counts)
    }
  }

  function Empty<K(==,!new)>(): (t: Tally<K>)
    ensures t.Valid() && t.Total() == 0
  {
    Tally([], map[])
  }

  function SumCounts<K(==,!new)>(keys: seq<K>, counts: map<K, nat>): nat
  {
    if keys == [] then 0
    else
      var k := keys[|keys| - 1];
      SumCounts(keys[..|keys| - 1], counts) + (if k in counts then counts[k] else 0)
  }

  lemma {:induction false} SumCountsUpdateAbsent<K(!new)>(keys: seq<K>, counts: map<K, nat>, x: K, v: nat)
    requires x !in keys
    ensures SumCounts(keys, counts[x := v]) == SumCounts(keys, counts)
  {
    if keys != [] {
      SumCountsUpdateAbsent(keys[..|keys| - 1], counts, x, v);
    }
  }

  lemma {:induction false} SumCountsIncrement<K(!new)>(keys: seq<K>, counts: map<K, nat>, x: K)
    requires x in counts
    requires forall i, j :: 0 <= i < j < |keys| ==> keys[i] != keys[j]
    requires x in keys
    ensures SumCounts(keys, counts[x := counts[x] + 1]) == SumCounts(keys, counts) + 1
  {
    var init, last := keys[..|keys| - 1], keys[|keys| - 1];
    if last == x {
      assert x !in init by {
        forall i | 0 <= i < |init|
          ensures init[i] != x
        {
          assert init[i] == keys[i];
        }
      }
      SumCountsUpdateAbsent(init, counts, x, counts[x] + 1);
    } else {
      assert x in init by {
        assert keys == init + [last];
      }
      SumCountsIncrement(init, counts, x);
    }
  }

  /** Each increment adds one to the sum of the counts. */
  lemma AddTotal<K(!new)>(t: Tally<K>, x: K)
    requires t.Valid()
    ensures t.Add(x).Total() == t.Total() + 1
  {
    var r := t.Add(x);
    if x in t.counts {
      SumCountsIncrement(t.order, t.counts, x);
    } else {
      assert r.order[..|r.order| - 1] == t.order;
      SumCountsUpdateAbsent(t.order, t.counts, x, 1);
    }
  }

  /** `update(xs)` raises the count of each key by its number of
      occurrences in `xs`. */
  lemma {:induction false} AddAllGet<K(!new)>(t: Tally<K>, xs: seq<K>, y: K)
    ensures t.AddAll(xs).Get(y) == t.Get(y) + multiset(xs)[y]
  {
    if xs != [] {
      var init := xs[..|xs| - 1];
      assert xs == init + [xs[|xs| - 1]];
      AddAllGet(t, init, y);
    }
  }

  /** `update(xs)` keeps a counter well formed and keeps the keys it already
      had in front, in their order. */
  lemma {:induction false} AddAllValid<K(!new)>(t: Tally<K>, xs: seq<K>)
    requires t.Valid()
    ensures t.AddAll(xs).Valid()
    ensures |t.order| <= |t.AddAll(xs).order| && t.AddAll(xs).order[..|t.order|] == t.order
  {
    if xs != [] {
      var u := t.AddAll(xs[..|xs| - 1]);
      AddAllValid(t, xs[..|xs| - 1]);
      assert u.Add(xs[|xs| - 1]).order[..|u.order|] == u.order;
    }
  }

  /** `update(xs)` adds `|xs|` to the sum of the counts. */
  lemma {:induction false} AddAllTotal<K(!new)>(t: Tally<K>, xs: seq<K>)
    requires t.Valid()
    ensures t.AddAll(xs).Total() == t.Total() + |xs|
  {
    if xs != [] {
      var init := xs[..|xs| - 1];
      AddAllTotal(t, init);
      AddAllValid(t, init);
      AddTotal(t.AddAll(init), xs[|xs| - 1]);
    }
  }

  /** Updating with `xs` then `ys` is updating with `xs + ys`. */
  lemma {:induction false} AddAllAppend<K(!new)>(t: Tally<K>, xs: seq<K>, ys: seq<K>)
    ensures t.AddAll(xs + ys) == t.AddAll(xs).AddAll(ys)
  {
    if ys == [] {
      assert xs + ys == xs;
    } else {
      var init := ys[..|ys| - 1];
      assert (xs + ys)[..|xs + ys| - 1] == xs + init;
      AddAllAppend(t, xs, init);
    }
  }

  /** Index of the first occurrence of `y` in `xs`. */
  function FirstIndex<K(==,!new)>(xs: seq<K>, y: K): (i: nat)
    requires y in xs
    ensures i < |xs| && xs[i] == y
    ensures forall j :: 0 <= j < i ==> xs[j] != y
  {
    if xs[0] == y then 0 else 1 + FirstIndex(xs[1..], y)
  }

  /** `order` lists the distinct elements of `xs`, each once, in the order in
      which they first occur in `xs`. */
  ghost predicate FirstSeenOrder<K(!new)>(order: seq<K>, xs: seq<K>)
  {
    && (forall i, j :: 0 <= i < j < |order| ==> order[i] != order[j])
    && (forall y :: y in order <==> y in xs)
    && (forall i, j :: 0 <= i < j < |order| ==> FirstIndex(xs, order[i]) < FirstIndex(xs, order[j]))
  }

  lemma {:induction false} FirstIndexPrefix<K(!new)>(xs: seq<K>, x: K, y: K)
    requires y in xs
    ensures FirstIndex(xs + [x], y) == FirstIndex(xs, y)
  {
    if xs[0] != y {
      assert (xs + [x])[1..] == xs[1..] + [x];
      FirstIndexPrefix(xs[1..], x, y);
    }
  }

  /** Appending one element keeps a first-seen order a first-seen order,
      extended by that element if it is new. */
  lemma FirstSeenStep<K(!new)>(order: seq<K>, xs: seq<K>, x: K)
    requires FirstSeenOrder(order, xs)
    ensures FirstSeenOrder(if x in xs then order else order + [x], xs + [x])
  {
    var ys := xs + [x];
    forall y | y in xs
      ensures FirstIndex(ys, y) == FirstIndex(xs, y)
    {
      FirstIndexPrefix(xs, x, y);
    }
    if x !in xs {
      var o := order + [x];
      assert FirstIndex(ys, x) == |xs|;
      forall i, j | 0 <= i < j < |o|
        ensures FirstIndex(ys, o[i]) < FirstIndex(ys, o[j])
      {
        assert o[i] == order[i];
        if j < |order| {
          assert o[j] == order[j];
        }
      }
    }
  }

  /** A counter filled from empty by `update(xs)` lists its keys in
      first-seen order. */
  lemma {:induction false} FromEmptyOrder<K(!new)>(xs: seq<K>)
    ensures FirstSeenOrder(Empty<K>().AddAll(xs).order, xs)
  {
    if xs != [] {
      var init, x := xs[..|xs| - 1], xs[|xs| - 1];
      var t := Empty<K>().AddAll(init);
      var o := if x in init then t.order else t.order + [x];
      assert Empty<K>().AddAll(xs).order == o by {
        assert Empty<K>().AddAll(xs) == t.Add(x);
        assert x in t.counts <==> x in init by {
          AddAllValid(Empty<K>(), init);
          FromEmptyOrder(init);
          assert x in t.counts <==> x in t.order;
        }
      }
      assert FirstSeenOrder(o, xs) by {
        FromEmptyOrder(init);
        FirstSeenStep(t.order, init, x);
        assert init + [x] == xs;
      }
    }
  }

  /** A counter filled from empty by `update(xs)` counts each element by its
      number of occurrences, holds `|xs|` in all, and lists its keys in
      first-seen order. */
  lemma FromEmpty<K(!new)>(xs: seq<K>)
    ensures Empty<K>().AddAll(xs).Valid()
    ensures forall y :: Empty<K>().AddAll(xs).Get(y) == multiset(xs)[y]
    ensures Empty<K>().AddAll(xs).Total() == |xs|
    ensures FirstSeenOrder(Empty<K>().AddAll(xs).order, xs)
  {
    AddAllValid(Empty<K>(), xs);
    AddAllTotal(Empty<K>(), xs);
    FromEmptyOrder(xs);
    forall y
      ensures Empty<K>().AddAll(xs).Get(y) == multiset(xs)[y]
    {
      AddAllGet(Empty<K>(), xs, y);
    }
  }

  /** A mutable counter: the insertion-ordered dictionary of
      `collections.Counter`. */
  class Counter<K(==,!new)> {
    var order: seq<K>
    var counts: map<K, nat>

    function Value(): Tally<K>
      reads this
    {
      Tally(order, counts)
    }

    /** `Counter()` */
    constructor ()
      ensures Value() == Empty()
    {
      order := [];
      counts := map[];
    }

    /** `counter.update(xs)`: increments the count of each element of `xs`
        in turn, appending keys not seen before to the order. */
    method Update(xs: seq<K>)
      modifies this
      ensures Value() == old(Value()).AddAll(xs)
    {
      ghost var start := Value();
      var i := 0;
      while i < |xs|
        invariant 0 <= i <= |xs|
        invariant Value() == start.AddAll(xs[..i])
      {
        var x := xs[i];
        ghost var before := Value();
        assert start.AddAll(xs[..i + 1]) == before.Add(x) by {
          assert xs[..i + 1][..i] == xs[..i];
        }
        if x in counts {
          counts := counts[x := counts[x] + 1];
        } else {
          order := order + [x];
          counts := counts[x := 1];
        }
        assert Value() == before.Add(x);
        i := i + 1;
      }
      assert xs[..|xs|] == xs;
    }
  }
}
