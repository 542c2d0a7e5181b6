/**
 * A Python `dict` with string keys, as an ordered sequence of entries. Python
 * dicts keep insertion order, and the pipeline's results depend on it (which
 * view is iterated first, which key a rewrite lands on), so a Dafny `map` is
 * not enough. Assigning to a present key overwrites the value in place;
 * assigning to an absent key appends an entry.
 */
module OrderedDict {

  type Dict<V> = seq<(string, V)>

  /** Every key occurs once: what a Python dict guarantees. */
  predicate Distinct<V>(d: Dict<V>)
  {
    forall i, j :: 0 <= i < j < |d| ==> d[i].0 != d[j].0
  }

  /** `k in d` */
  predicate Has<V>(d: Dict<V>, k: string)
  {
    exists i :: 0 <= i < |d| && d[i].0 == k
  }

  /** `list(d)`: the keys in iteration order. */
  function Keys<V>(d: Dict<V>): (ks: seq<string>)
    ensures |ks| == |d|
    ensures forall i :: 0 <= i < |d| ==> ks[i] == d[i].0
  {
    seq(|d|, i requires 0 <= i < |d| => d[i].0)
  }

  /** Position of the entry for `k`. */
  function IndexOf<V>(d: Dict<V>, k: string): (i: nat)
    requires Has(d, k)
    ensures i < |d| && d[i].0 == k
    ensures forall j :: 0 <= j < i ==> d[j].0 != k
  {
    if d[0].0 == k then 0
    else
      assert Has(d[1..], k) by {
        var j :| 0 <= j < |d| && d[j].0 == k;
        assert d[1..][j - 1].0 == k;
      }
      1 + IndexOf(d[1..], k)
  }

  /** `d[k]` */
  function Get<V>(d: Dict<V>, k: string): V
    requires Has(d, k)
  {
    d[IndexOf(d, k)].1
  }

  /** `d.get(k, 0.0)` */
  function GetOr(d: Dict<real>, k: string): real
  {
    if Has(d, k) then Get(d, k) else 0.0
  }

  /** `d[k] = v` */
  function Set<V>(d: Dict<V>, k: string, v: V): Dict<V>
  {
    if Has(d, k) then d[IndexOf(d, k) := (k, v)] else d + [(k, v)]
  }

  /**
   * `d[k] = v` keeps the keys distinct, adds `k` and no other key, and
   * appends `k` to the iteration order only when it was absent.
   */
  lemma SetKeys<V>(d: Dict<V>, k: string, v: V)
    ensures Distinct(d) ==> Distinct(Set(d, k, v))
    ensures forall k' :: Has(Set(d, k, v), k') <==> Has(d, k') || k' == k
    ensures Keys(Set(d, k, v)) == if Has(d, k) then Keys(d) else Keys(d) + [k]
  {
    var d' := Set(d, k, v);
    if Has(d, k) {
      var i := IndexOf(d, k);
      forall k' | Has(d', k') ensures Has(d, k') || k' == k {
        var j :| 0 <= j < |d'| && d'[j].0 == k';
        assert j != i ==> d[j].0 == k';
      }
      forall k' | Has(d, k') ensures Has(d', k') {
        var j :| 0 <= j < |d| && d[j].0 == k';
        assert d'[j].0 == k';
      }
    } else {
      assert d'[|d|].0 == k;
      forall k' | Has(d', k') && k' != k ensures Has(d, k') {
        var j :| 0 <= j < |d'| && d'[j].0 == k';
        assert d[j].0 == k';
      }
      forall k' | Has(d, k') ensures Has(d', k') {
        var j :| 0 <= j < |d| && d[j].0 == k';
        assert d'[j].0 == k';
      }
    }
  }

  /** After `d[k] = v`, `d[k]` is `v` and every other present key keeps its value. */
  lemma SetGet<V>(d: Dict<V>, k: string, v: V)
    ensures Has(Set(d, k, v), k) && Get(Set(d, k, v), k) == v
    ensures forall k' :: k' != k && Has(d, k') ==> Has(Set(d, k, v), k') && Get(Set(d, k, v), k') == Get(d, k')
  {
    var d' := Set(d, k, v);
    if Has(d, k) {
      var i := IndexOf(d, k);
      IndexOfUnique(d', k, i);
      forall k' | k' != k && Has(d, k')
        ensures Has(d', k') && IndexOf(d', k') == IndexOf(d, k')
      {
        IndexOfUnique(d', k', IndexOf(d, k'));
      }
    } else {
      forall k' | Has(d, k')
        ensures Has(d', k') && IndexOf(d', k') == IndexOf(d, k')
      {
        IndexOfUnique(d', k', IndexOf(d, k'));
      }
      IndexOfUnique(d', k, |d|);
    }
  }

  /** IndexOf is the first position holding the key. */
  lemma IndexOfUnique<V>(d: Dict<V>, k: string, i: nat)
    requires i < |d| && d[i].0 == k
    requires forall j :: 0 <= j < i ==> d[j].0 != k
    ensures Has(d, k) && IndexOf(d, k) == i
  {
    assert d[i].0 == k;
  }

  /** Assigning to an absent key appends the entry. */
  lemma SetAbsent<V>(d: Dict<V>, k: string, v: V)
    requires !Has(d, k)
    ensures Set(d, k, v) == d + [(k, v)]
  {
  }

  /** Assigning into an empty dict gives the one entry. */
  lemma SetEmpty<V>(k: string, v: V)
    ensures Set([], k, v) == [(k, v)]
  {
    var empty: Dict<V> := [];
    assert !Has(empty, k);
  }

  /** The sum of the values, in iteration order: `sum(d.values())`. */
  function Sum(d: Dict<real>): real
  {
    if d == [] then 0.0 else Sum(d[..|d| - 1]) + d[|d| - 1].1
  }

  /** Overwriting one value changes the sum by the difference. */
  lemma {:induction false} SumUpdate(d: Dict<real>, i: nat, e: (string, real))
    requires i < |d|
    ensures Sum(d[i := e]) == Sum(d) - d[i].1 + e.1
    decreases |d|
  {
    var d' := d[i := e];
    if i < |d| - 1 {
      assert d'[..|d| - 1] == d[..|d| - 1][i := e];
      SumUpdate(d[..|d| - 1], i, e);
    } else {
      assert d'[..|d| - 1] == d[..|d| - 1];
    }
  }

  /** `d[k] = v` changes the sum by the value it adds minus the one it replaces. */
  lemma SumSet(d: Dict<real>, k: string, v: real)
    ensures Sum(Set(d, k, v)) == Sum(d) - GetOr(d, k) + v
  {
    if Has(d, k) {
      SumUpdate(d, IndexOf(d, k), (k, v));
    } else {
      assert (d + [(k, v)])[..|d|] == d;
    }
  }

  /** A key is in a dict when it is in all but the last entry or is the last entry's key. */
  lemma HasLast<V>(d: Dict<V>, k: string)
    requires d != []
    ensures Has(d, k) <==> Has(d[..|d| - 1], k) || d[|d| - 1].0 == k
  {
    if Has(d, k) && d[|d| - 1].0 != k {
      var i :| 0 <= i < |d| && d[i].0 == k;
      assert d[..|d| - 1][i].0 == k;
    }
    if Has(d[..|d| - 1], k) {
      var i :| 0 <= i < |d| - 1 && d[..|d| - 1][i].0 == k;
      assert d[i].0 == k;
    }
  }

  /** Looking a key up in a dict with distinct keys: the last entry or the rest. */
  lemma GetOrLast(d: Dict<real>, k: string)
    requires d != [] && Distinct(d)
    ensures GetOr(d, k) == if d[|d| - 1].0 == k then d[|d| - 1].1 else GetOr(d[..|d| - 1], k)
  {
    var m := |d| - 1;
    HasLast(d, k);
    if d[m].0 == k {
      IndexOfUnique(d, k, m);
    } else if Has(d[..m], k) {
      var i := IndexOf(d[..m], k);
      IndexOfUnique(d, k, i);
    }
  }

  /** In a dict with distinct keys, the last key does not occur earlier. */
  lemma LastIsFresh<V>(d: Dict<V>)
    requires d != [] && Distinct(d)
    ensures !Has(d[..|d| - 1], d[|d| - 1].0)
  {
  }
}
