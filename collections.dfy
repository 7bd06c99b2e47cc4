/**
 * Two JavaScript collection idioms the stores use:
 * `[...new Set(xs)]` (distinct values in order of first appearance) and a record
 * filled by `forEach` with `record[key] = value` (a later key overwrites an earlier one).
 */
module Collections {

  predicate NoDuplicates<T(==)>(xs: seq<T>) {
    forall i, j :: 0 <= i < j < |xs| ==> xs[i] != xs[j]
  }

  /**
   * `[...new Set(xs)]`: a `Set` keeps its values in insertion order and ignores a
   * value it already holds.
   */
  function Dedup<T(==)>(xs: seq<T>): (r: seq<T>)
    ensures NoDuplicates(r)
    ensures forall i :: 0 <= i < |r| ==> r[i] in xs
    ensures forall i :: 0 <= i < |xs| ==> xs[i] in r
    ensures |r| <= |xs|
  {
    if |xs| == 0 then []
    else
      var r := Dedup(xs[..|xs| - 1]);
      if xs[|xs| - 1] in r then r else r + [xs[|xs| - 1]]
  }

  /** Values already seen keep their place: de-duplicating a prefix gives a prefix. */
  lemma {:induction false} DedupPrefix<T>(xs: seq<T>, k: nat)
    requires k <= |xs|
    ensures Dedup(xs[..k]) <= Dedup(xs)
    decreases |xs| - k
  {
    if k < |xs| {
      DedupPrefix(xs[..|xs| - 1], k);
      assert xs[..|xs| - 1][..k] == xs[..k];
    } else {
      assert xs[..k] == xs;
    }
  }

  /** A list without repeated values is its own de-duplication. */
  lemma {:induction false} DedupOfDistinct<T>(xs: seq<T>)
    requires NoDuplicates(xs)
    ensures Dedup(xs) == xs
  {
    if |xs| > 0 {
      var init := xs[..|xs| - 1];
      DedupOfDistinct(init);
      assert xs[|xs| - 1] !in init;
      assert init + [xs[|xs| - 1]] == xs;
    }
  }

  /** `flatMap` over lists: the concatenation of all of them. */
  function Flatten<T>(xss: seq<seq<T>>): (r: seq<T>)
    ensures forall i, j :: 0 <= i < |xss| && 0 <= j < |xss[i]| ==> xss[i][j] in r
    ensures forall k :: 0 <= k < |r| ==> exists i :: 0 <= i < |xss| && r[k] in xss[i]
  {
    if |xss| == 0 then [] else Flatten(xss[..|xss| - 1]) + xss[|xss| - 1]
  }

  /** Flattening distributes over concatenation: the lists come out one after another, in order. */
  lemma {:induction false} FlattenAppend<T>(xss: seq<seq<T>>, yss: seq<seq<T>>)
    ensures Flatten(xss + yss) == Flatten(xss) + Flatten(yss)
    decreases |yss|
  {
    if |yss| == 0 {
      assert xss + yss == xss;
    } else {
      var init, last := yss[..|yss| - 1], yss[|yss| - 1];
      var zss := xss + yss;
      calc {
        Flatten(zss);
      == { assert zss[..|zss| - 1] == xss + init && zss[|zss| - 1] == last;
           FlattenSnoc(zss); }
        Flatten(xss + init) + last;
      == { FlattenAppend(xss, init); }
        (Flatten(xss) + Flatten(init)) + last;
      ==
        Flatten(xss) + (Flatten(init) + last);
      == { FlattenSnoc(yss); }
        Flatten(xss) + Flatten(yss);
      }
    }
  }

  lemma FlattenSnoc<T>(zss: seq<seq<T>>)
    requires |zss| > 0
    ensures Flatten(zss) == Flatten(zss[..|zss| - 1]) + zss[|zss| - 1]
  {
  }

  /** The record a `forEach` builds from `(key, value)` pairs: each assignment overwrites. */
  function LastWins<K(==), V>(pairs: seq<(K, V)>): (m: map<K, V>)
    ensures m.Keys == set i | 0 <= i < |pairs| :: pairs[i].0
  {
    if |pairs| == 0 then map[]
    else
      var init := pairs[..|pairs| - 1];
      var m := LastWins(init);
      assert (set i | 0 <= i < |pairs| :: pairs[i].0) == (set i | 0 <= i < |init| :: init[i].0) + {pairs[|pairs| - 1].0} by {
        forall i | 0 <= i < |init|
          ensures pairs[i].0 in (set i | 0 <= i < |init| :: init[i].0)
        {
          assert init[i] == pairs[i];
        }
      }
      m[pairs[|pairs| - 1].0 := pairs[|pairs| - 1].1]
  }

  /** The pair at index `i` is the last one with its key. */
  predicate IsLastFor<K(==), V>(pairs: seq<(K, V)>, i: int)
    requires 0 <= i < |pairs|
  {
    forall j :: i < j < |pairs| ==> pairs[j].0 != pairs[i].0
  }

  /** Every key ends up with the value written by its last pair. */
  lemma {:induction false} LastWinsAt<K, V>(pairs: seq<(K, V)>, i: int)
    requires 0 <= i < |pairs|
    requires IsLastFor(pairs, i)
    ensures pairs[i].0 in LastWins(pairs) && LastWins(pairs)[pairs[i].0] == pairs[i].1
    decreases |pairs|
  {
    if i < |pairs| - 1 {
      var init := pairs[..|pairs| - 1];
      assert init[i] == pairs[i];
      LastWinsAt(init, i);
    }
  }
}
