/**
 * The averaging step of `AdamPanoramaCubic.green_analysis`: the per-class
 * fractions of the views of one panorama are folded into one dict, each view
 * weighted by `1/n_pano`. A class seen in several views accumulates; a class
 * seen for the first time is added at the end.
 */
module Greenery {
  import opened Python
  import opened OrderedDict

  /**
   * One pass of the inner loop: class `e.0` with fraction `e.1` is added,
   * divided by `n`, to what `seg_frac` already holds for it, or stored fresh.
   */
  function Step(d: Dict<real>, e: (string, real), n: nat): Dict<real>
    requires 0 < n
  {
    if Has(d, e.0) then Set(d, e.0, Get(d, e.0) + e.1 / n as real)
    else Set(d, e.0, e.1 / n as real)
  }

  /** `seg_frac` after the loop over the classes of one view `new_frac`. */
  function AddView(acc: Dict<real>, view: Dict<real>, n: nat): Dict<real>
    requires view != [] ==> 0 < n
  {
    if view == [] then acc
    else Step(AddView(acc, view[..|view| - 1], n), view[|view| - 1], n)
  }

  /** `seg_frac` after the loop over the views, starting from `{}`. */
  function Average(views: seq<Dict<real>>, n: nat): Dict<real>
    requires views != [] ==> 0 < n
  {
    if views == [] then []
    else AddView(Average(views[..|views| - 1], n), views[|views| - 1], n)
  }

  /** Reference: the sum over views of `view.get(c, 0) / n`. */
  function ClassTotal(views: seq<Dict<real>>, c: string, n: nat): real
    requires views != [] ==> 0 < n
  {
    if views == [] then 0.0
    else ClassTotal(views[..|views| - 1], c, n) + GetOr(views[|views| - 1], c) / n as real
  }

  /** Reference: the sum over views of `sum(view.values()) / n`. */
  function ViewTotal(views: seq<Dict<real>>, n: nat): real
    requires views != [] ==> 0 < n
  {
    if views == [] then 0.0
    else ViewTotal(views[..|views| - 1], n) + Sum(views[|views| - 1]) / n as real
  }

  /** A step keeps the keys distinct and adds exactly its class. */
  lemma StepKeys(d: Dict<real>, e: (string, real), n: nat)
    requires 0 < n
    ensures Distinct(d) ==> Distinct(Step(d, e, n))
    ensures forall c :: Has(Step(d, e, n), c) <==> Has(d, c) || c == e.0
  {
    if Has(d, e.0) {
      SetKeys(d, e.0, Get(d, e.0) + e.1 / n as real);
    } else {
      SetKeys(d, e.0, e.1 / n as real);
    }
  }

  /** A step adds `e.1 / n` to the sum. */
  lemma StepSum(d: Dict<real>, e: (string, real), n: nat)
    requires 0 < n
    ensures Sum(Step(d, e, n)) == Sum(d) + e.1 / n as real
  {
    var x := e.1 / n as real;
    if Has(d, e.0) {
      assert GetOr(d, e.0) == Get(d, e.0);
    } else {
      assert GetOr(d, e.0) + x == x;
    }
    SumSet(d, e.0, GetOr(d, e.0) + x);
  }

  /** A step adds `e.1 / n` to the entry for its own class and leaves every other entry alone. */
  lemma StepValue(d: Dict<real>, e: (string, real), n: nat, c: string)
    requires 0 < n
    ensures GetOr(Step(d, e, n), c) == GetOr(d, c) + if c == e.0 then e.1 / n as real else 0.0
  {
    var v := if Has(d, e.0) then Get(d, e.0) + e.1 / n as real else e.1 / n as real;
    assert Step(d, e, n) == Set(d, e.0, v);
    SetKeys(d, e.0, v);
    SetGet(d, e.0, v);
  }

  /** Folding in a view keeps the keys distinct and adds exactly the view's keys. */
  lemma {:induction false} AddViewKeys(acc: Dict<real>, view: Dict<real>, n: nat)
    requires view != [] ==> 0 < n
    ensures Distinct(acc) ==> Distinct(AddView(acc, view, n))
    ensures forall c :: Has(AddView(acc, view, n), c) <==> Has(acc, c) || Has(view, c)
    decreases |view|
  {
    if view != [] {
      AddViewKeys(acc, view[..|view| - 1], n);
      StepKeys(AddView(acc, view[..|view| - 1], n), view[|view| - 1], n);
      forall c ensures Has(view, c) <==> Has(view[..|view| - 1], c) || view[|view| - 1].0 == c {
        HasLast(view, c);
      }
    }
  }

  /** Folding in a view adds its sum, divided by `n`, to the total. */
  lemma {:induction false} AddViewSum(acc: Dict<real>, view: Dict<real>, n: nat)
    requires 0 < n
    ensures Sum(AddView(acc, view, n)) == Sum(acc) + Sum(view) / n as real
    decreases |view|
  {
    if view != [] {
      var m := |view| - 1;
      var s, v, r := Sum(view[..m]), view[m].1, n as real;
      AddViewSum(acc, view[..m], n);
      assert A: Sum(AddView(acc, view[..m], n)) == Sum(acc) + s / r;
      StepSum(AddView(acc, view[..m], n), view[m], n);
      assert B: Sum(AddView(acc, view, n)) == Sum(AddView(acc, view[..m], n)) + v / r;
      assert C: Sum(view) == s + v;
      DivAdd(s, v, r);
      assert D: s / r + v / r == Sum(view) / r;
      assert Sum(AddView(acc, view, n)) == Sum(acc) + Sum(view) / r;
    } else {
      assert Sum(view) / n as real == 0.0;
      assert AddView(acc, view, n) == acc;
    }
  }

  /** Folding in a view adds its fraction for `c`, divided by `n`, to the entry for `c`. */
  lemma {:induction false} AddViewValue(acc: Dict<real>, view: Dict<real>, n: nat, c: string)
    requires 0 < n
    requires Distinct(view)
    ensures GetOr(AddView(acc, view, n), c) == GetOr(acc, c) + GetOr(view, c) / n as real
    decreases |view|
  {
    if view != [] {
      var m := |view| - 1;
      AddViewValue(acc, view[..m], n, c);
      AddViewValueStep(acc, view, n, c);
    } else {
      assert GetOr(view, c) / n as real == 0.0;
      assert AddView(acc, view, n) == acc;
    }
  }

  /** The inductive step of AddViewValue: the view's last class, then every other class. */
  lemma AddViewValueStep(acc: Dict<real>, view: Dict<real>, n: nat, c: string)
    requires 0 < n && view != [] && Distinct(view)
    requires GetOr(AddView(acc, view[..|view| - 1], n), c)
      == GetOr(acc, c) + GetOr(view[..|view| - 1], c) / n as real
    ensures GetOr(AddView(acc, view, n), c) == GetOr(acc, c) + GetOr(view, c) / n as real
  {
    var m, r := |view| - 1, n as real;
    var prev := AddView(acc, view[..m], n);
    StepValue(prev, view[m], n, c);
    assert AddView(acc, view, n) == Step(prev, view[m], n);
    GetOrLast(view, c);
    if view[m].0 == c {
      LastIsFresh(view);
      assert GetOr(view[..m], c) == 0.0;
      assert 0.0 / r == 0.0;
    }
  }

  /** Some view reports class `c`. */
  predicate Reported(views: seq<Dict<real>>, c: string)
  {
    exists j :: 0 <= j < |views| && Has(views[j], c)
  }

  /** A class is reported by some view when the last view or an earlier one reports it. */
  lemma ReportedLast(views: seq<Dict<real>>, c: string)
    requires views != []
    ensures Reported(views, c) <==> Reported(views[..|views| - 1], c) || Has(views[|views| - 1], c)
  {
    var m := |views| - 1;
    if Reported(views, c) && !Has(views[m], c) {
      var j :| 0 <= j < |views| && Has(views[j], c);
      assert Has(views[..m][j], c);
    }
    if Reported(views[..m], c) {
      var j :| 0 <= j < m && Has(views[..m][j], c);
      assert Has(views[j], c);
    }
  }

  /** The averaged dict has distinct keys: every class some view reports, and no other. */
  lemma {:induction false} AverageKeys(views: seq<Dict<real>>, n: nat)
    requires views != [] ==> 0 < n
    ensures Distinct(Average(views, n))
    ensures forall c :: Has(Average(views, n), c) <==> Reported(views, c)
    decreases |views|
  {
    if views != [] {
      var m := |views| - 1;
      AverageKeys(views[..m], n);
      AddViewKeys(Average(views[..m], n), views[m], n);
      forall c ensures Has(Average(views, n), c) <==> Reported(views, c) {
        ReportedLast(views, c);
      }
    }
  }

  /** The entry for class `c` is the sum over views of that view's fraction for `c`, over `n`. */
  lemma {:induction false} AverageValue(views: seq<Dict<real>>, n: nat, c: string)
    requires views != [] ==> 0 < n
    requires forall j :: 0 <= j < |views| ==> Distinct(views[j])
    ensures GetOr(Average(views, n), c) == ClassTotal(views, c, n)
    decreases |views|
  {
    if views != [] {
      var m := |views| - 1;
      AverageValue(views[..m], n, c);
      AddViewValue(Average(views[..m], n), views[m], n, c);
    }
  }

  /** The averaged fractions add up to the sum over views of each view's total, over `n`. */
  lemma {:induction false} AverageSum(views: seq<Dict<real>>, n: nat)
    requires views != [] ==> 0 < n
    ensures Sum(Average(views, n)) == ViewTotal(views, n)
    decreases |views|
  {
    if views != [] {
      var m := |views| - 1;
      AverageSum(views[..m], n);
      AddViewSum(Average(views[..m], n), views[m], n);
    }
  }

  /** `k` views each summing to one contribute `k/n`. */
  lemma {:induction false} ViewTotalOfOnes(views: seq<Dict<real>>, n: nat)
    requires 0 < n
    requires forall j :: 0 <= j < |views| ==> Sum(views[j]) == 1.0
    ensures ViewTotal(views, n) == |views| as real / n as real
    decreases |views|
  {
    if views != [] {
      var m := |views| - 1;
      ViewTotalOfOnes(views[..m], n);
      DivAdd(m as real, 1.0, n as real);
    }
  }

  /** When every view's fractions add up to one, so do the averaged ones. */
  lemma AverageSumsToOne(views: seq<Dict<real>>)
    requires views != []
    requires forall j :: 0 <= j < |views| ==> Sum(views[j]) == 1.0
    ensures Sum(Average(views, |views|)) == 1.0
  {
    AverageSum(views, |views|);
    ViewTotalOfOnes(views, |views|);
    Whole(|views| as real);
  }
}
