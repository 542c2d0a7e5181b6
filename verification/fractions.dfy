/**
 * `_corrected_fractions`: the share of an image each segmentation class
 * covers, with every pixel weighted by how close it is to the image centre.
 * Each pixel adds its weight to the slot of its class in a 200-slot array and
 * to a running total; every slot that ends up positive becomes a dict entry
 * `names[slot] -> slot weight / total`.
 */
module Fractions {
  import opened Python
  import opened OrderedDict

  /** `nclass`, the number of slots. */
  const NClass: nat := 200

  /** A label map of `ny` rows of `nx` labels, as numpy requires of a 2-d array. */
  predicate Rectangular(segMap: seq<seq<int>>)
  {
    forall r :: 0 <= r < |segMap| ==> |segMap[r]| == |segMap[0]|
  }

  /**
   * The pixel weight `(dx**2 + dy**2 + 1)**-1.5` as a function of
   * `dx**2 + dy**2`: positive, at most 1, and exactly 1 at the centre.
   */
  ghost predicate Falloff(w: real -> real)
  {
    w(0.0) == 1.0 && forall r :: 0.0 <= r ==> 0.0 < w(r) <= 1.0
  }

  /** One pixel of the label map, in row-major visiting order. */
  datatype Pixel = Pixel(row: nat, col: nat, cls: int)

  /** Row `r` of the label map as pixels. */
  function RowPixels(r: nat, row: seq<int>): (ps: seq<Pixel>)
    ensures |ps| == |row|
    ensures forall c :: 0 <= c < |row| ==> ps[c] == Pixel(r, c, row[c])
  {
    seq(|row|, c requires 0 <= c < |row| => Pixel(r, c, row[c]))
  }

  /** The pixels the nested `iy`/`ix` loops visit, in order. */
  function Pixels(rows: seq<seq<int>>): seq<Pixel>
  {
    if rows == [] then [] else Pixels(rows[..|rows| - 1]) + RowPixels(|rows| - 1, rows[|rows| - 1])
  }

  /** The pixels visited are exactly the cells of the map, each with its label. */
  lemma {:induction false} PixelsFacts(rows: seq<seq<int>>)
    ensures forall k :: 0 <= k < |Pixels(rows)| ==>
      var p := Pixels(rows)[k];
      p.row < |rows| && p.col < |rows[p.row]| && p.cls == rows[p.row][p.col]
    ensures forall r, c :: 0 <= r < |rows| && 0 <= c < |rows[r]| ==> Pixel(r, c, rows[r][c]) in Pixels(rows)
  {
    if rows != [] {
      var front := rows[..|rows| - 1];
      PixelsFacts(front);
      var last := RowPixels(|rows| - 1, rows[|rows| - 1]);
      assert Pixels(rows) == Pixels(front) + last;
      forall r, c | 0 <= r < |rows| && 0 <= c < |rows[r]|
        ensures Pixel(r, c, rows[r][c]) in Pixels(rows)
      {
        if r < |rows| - 1 {
          assert rows[r] == front[r];
          assert Pixel(r, c, front[r][c]) in Pixels(front);
        } else {
          assert last[c] == Pixel(r, c, rows[r][c]);
        }
      }
    }
  }

  /** Every pixel lies inside an `nx` by `ny` frame. */
  predicate InFrame(ps: seq<Pixel>, nx: nat, ny: nat)
  {
    forall k :: 0 <= k < |ps| ==> ps[k].row < ny && ps[k].col < nx
  }

  /** The pixels of a rectangular map lie inside its frame. */
  lemma PixelsInFrame(segMap: seq<seq<int>>, m: nat)
    requires Rectangular(segMap) && 0 < |segMap| && m <= |segMap|
    ensures InFrame(Pixels(segMap[..m]), |segMap[0]|, |segMap|)
  {
    PixelsFacts(segMap[..m]);
  }

  /**
   * The weight of a pixel: `dx = 2*ix/nx - 1` and `dy = 2*iy/ny - 1` place it
   * in [-1, 1) on each axis, and `w` turns `dx**2 + dy**2` into the weight.
   */
  function Weight(w: real -> real, p: Pixel, nx: nat, ny: nat): real
    requires p.row < ny && p.col < nx
  {
    var dx := Offset(p.col, nx);
    var dy := Offset(p.row, ny);
    w(dx * dx + dy * dy)
  }

  /** `2*i/n - 1`: where index `i` of `n` sits on the axis from -1 to 1. */
  function Offset(i: nat, n: nat): real
    requires i < n
  {
    2.0 * i as real / n as real - 1.0
  }

  /** Every pixel weighs something, and at most 1. */
  lemma WeightBounds(w: real -> real, p: Pixel, nx: nat, ny: nat)
    requires Falloff(w) && p.row < ny && p.col < nx
    ensures 0.0 < Weight(w, p, nx, ny) <= 1.0
  {
    var dx := Offset(p.col, nx);
    var dy := Offset(p.row, ny);
    assert 0.0 <= dx * dx && 0.0 <= dy * dy;
  }

  /** The centre pixel `(nx/2, ny/2)` of an even-sized image weighs exactly 1, the largest weight there is. */
  lemma CentreWeight(w: real -> real, nx: nat, ny: nat, cls: int)
    requires Falloff(w) && 0 < nx && 0 < ny && nx % 2 == 0 && ny % 2 == 0
    ensures Weight(w, Pixel(ny / 2, nx / 2, cls), nx, ny) == 1.0
    ensures forall p: Pixel :: p.row < ny && p.col < nx ==> Weight(w, p, nx, ny) <= 1.0
  {
    HalfwayIsCentre(nx);
    HalfwayIsCentre(ny);
    forall p: Pixel | p.row < ny && p.col < nx
      ensures Weight(w, p, nx, ny) <= 1.0
    {
      WeightBounds(w, p, nx, ny);
    }
  }

  /** `(r + 1)**-1.5` never grows as `r` grows. */
  ghost predicate Decreasing(w: real -> real)
  {
    forall r, s :: 0.0 <= r <= s ==> w(s) <= w(r)
  }

  /** The squared distance `dx**2 + dy**2` of a pixel from the image centre. */
  function Radius2(p: Pixel, nx: nat, ny: nat): (r2: real)
    requires p.row < ny && p.col < nx
    ensures 0.0 <= r2
  {
    var dx := Offset(p.col, nx);
    var dy := Offset(p.row, ny);
    assert 0.0 <= dx * dx && 0.0 <= dy * dy;
    dx * dx + dy * dy
  }

  /** A pixel farther from the centre weighs no more: the weight falls toward the edges. */
  lemma WeightFallsOff(w: real -> real, p: Pixel, q: Pixel, nx: nat, ny: nat)
    requires Decreasing(w) && p.row < ny && p.col < nx && q.row < ny && q.col < nx
    requires Radius2(p, nx, ny) <= Radius2(q, nx, ny)
    ensures Weight(w, q, nx, ny) <= Weight(w, p, nx, ny)
  {
    assert Weight(w, p, nx, ny) == w(Radius2(p, nx, ny));
    assert Weight(w, q, nx, ny) == w(Radius2(q, nx, ny));
  }

  /** Column `n/2` of an even width `n` sits at offset 0: `2*(n/2)/n - 1 == 0`. */
  lemma HalfwayIsCentre(n: nat)
    requires 0 < n && n % 2 == 0
    ensures Offset(n / 2, n) == 0.0
  {
    var x := n as real;
    assert 2.0 * (n / 2) as real == x;
    assert x / x == 1.0;
  }

  /** The sum of a sequence of reals, front to back. */
  function Total(xs: seq<real>): real
  {
    if xs == [] then 0.0 else Total(xs[..|xs| - 1]) + xs[|xs| - 1]
  }

  /** Changing one entry changes the sum by the difference. */
  lemma {:induction false} TotalUpdate(xs: seq<real>, i: nat, v: real)
    requires i < |xs|
    ensures Total(xs[i := v]) == Total(xs) - xs[i] + v
    decreases |xs|
  {
    var ys := xs[i := v];
    if i < |xs| - 1 {
      assert ys[..|xs| - 1] == xs[..|xs| - 1][i := v];
      TotalUpdate(xs[..|xs| - 1], i, v);
    } else {
      assert ys[..|xs| - 1] == xs[..|xs| - 1];
    }
  }

  /** Extending a prefix by one entry adds that entry. */
  lemma TotalPrefix(xs: seq<real>, i: nat)
    requires 0 < i <= |xs|
    ensures Total(xs[..i]) == Total(xs[..i - 1]) + xs[i - 1]
  {
    assert xs[..i][..i - 1] == xs[..i - 1];
  }

  /** The sum of non-negative entries is at least each entry. */
  lemma {:induction false} TotalBound(xs: seq<real>)
    requires forall j :: 0 <= j < |xs| ==> 0.0 <= xs[j]
    ensures 0.0 <= Total(xs)
    ensures forall j :: 0 <= j < |xs| ==> xs[j] <= Total(xs)
  {
    if xs != [] {
      var front := xs[..|xs| - 1];
      TotalBound(front);
      assert forall j :: 0 <= j < |front| ==> front[j] == xs[j];
    }
  }

  /** When every other entry is zero, the sum is the one entry left. */
  lemma {:induction false} TotalSingle(xs: seq<real>, l: nat)
    requires l < |xs|
    requires forall j :: 0 <= j < |xs| && j != l ==> xs[j] == 0.0
    ensures Total(xs) == xs[l]
  {
    var front := xs[..|xs| - 1];
    if l < |xs| - 1 {
      TotalSingle(front, l);
    } else {
      TotalZero(front);
    }
  }

  /** A sequence of zeros sums to zero. */
  lemma {:induction false} TotalZero(xs: seq<real>)
    requires forall j :: 0 <= j < |xs| ==> xs[j] == 0.0
    ensures Total(xs) == 0.0
  {
    if xs != [] {
      TotalZero(xs[..|xs| - 1]);
    }
  }

  /** The state of the first loop: `seg_frac` and `tot_frac`. */
  datatype Tally = Tally(slots: seq<real>, total: real)

  /**
   * The weight of every pixel of an `nx` by `ny` image (zero outside it, where
   * the loops never go).
   */
  function PixelWeight(w: real -> real, nx: nat, ny: nat): Pixel -> real
  {
    (p: Pixel) => if p.row < ny && p.col < nx then Weight(w, p, nx, ny) else 0.0
  }

  /** Every pixel of `ps` weighs something, and at most 1. */
  predicate Weighs(ps: seq<Pixel>, weigh: Pixel -> real)
  {
    forall k :: 0 <= k < |ps| ==> 0.0 < weigh(ps[k]) <= 1.0
  }

  /** Pixels inside the frame have the weights `Falloff` promises. */
  lemma PixelWeightBounds(ps: seq<Pixel>, w: real -> real, nx: nat, ny: nat)
    requires Falloff(w) && InFrame(ps, nx, ny)
    ensures Weighs(ps, PixelWeight(w, nx, ny))
  {
    forall k | 0 <= k < |ps|
      ensures 0.0 < PixelWeight(w, nx, ny)(ps[k]) <= 1.0
    {
      WeightBounds(w, ps[k], nx, ny);
    }
  }

  /**
   * `seg_frac`, `tot_frac` after the given pixels: each adds its weight to
   * slot `seg_frac[label]` (numpy indexing: labels in [-200, 200), negative
   * ones counting from the end; any other label raises IndexError) and to the
   * total.
   */
  function Accumulate(ps: seq<Pixel>, weigh: Pixel -> real): (r: Result<Tally>)
    ensures r.Ok? ==> |r.value.slots| == NClass
    ensures r.Err? ==> r.error == IndexError
  {
    if ps == [] then Ok(Tally(seq(NClass, _ => 0.0), 0.0))
    else
      match Accumulate(ps[..|ps| - 1], weigh)
      case Err(e) => Err(e)
      case Ok(t) => AddPixel(t, ps[|ps| - 1], weigh)
  }

  /** One pixel of the first loop: its weight goes to its slot and to the total. */
  function AddPixel(t: Tally, p: Pixel, weigh: Pixel -> real): (r: Result<Tally>)
    requires |t.slots| == NClass
    ensures r.Ok? ==> |r.value.slots| == NClass
    ensures r.Err? ==> r.error == IndexError
  {
    match PyIndex(p.cls, NClass)
    case None => Err(IndexError)
    case Some(s) => Ok(Tally(t.slots[s := t.slots[s] + weigh(p)], t.total + weigh(p)))
  }

  /** Accumulation fails exactly when some label is outside [-200, 200). */
  lemma {:induction false} AccumulateFails(ps: seq<Pixel>, weigh: Pixel -> real)
    ensures Accumulate(ps, weigh).Err? <==> exists k :: 0 <= k < |ps| && PyIndex(ps[k].cls, NClass).None?
  {
    if ps != [] {
      var front := ps[..|ps| - 1];
      AccumulateFails(front, weigh);
      assert forall k :: 0 <= k < |front| ==> front[k] == ps[k];
    }
  }

  /** Some pixel's label indexes slot `s`. */
  predicate Indexes(ps: seq<Pixel>, s: nat)
  {
    exists k :: 0 <= k < |ps| && PyIndex(ps[k].cls, NClass) == Some(s)
  }

  /** One more pixel: its weight goes to its slot and to the total, nothing else changes. */
  lemma AccumulateStep(ps: seq<Pixel>, weigh: Pixel -> real)
    requires ps != [] && Accumulate(ps, weigh).Ok?
    ensures Accumulate(ps[..|ps| - 1], weigh).Ok? && PyIndex(ps[|ps| - 1].cls, NClass).Some?
    ensures Accumulate(ps, weigh) == AddPixel(Accumulate(ps[..|ps| - 1], weigh).value, ps[|ps| - 1], weigh)
  {
  }

  /** Appending a pixel with a valid label adds its weight to its slot and to the total. */
  lemma AccumulateAppend(ps: seq<Pixel>, p: Pixel, weigh: Pixel -> real)
    requires PyIndex(p.cls, NClass).Some? && Accumulate(ps, weigh).Ok?
    ensures var t, s := Accumulate(ps, weigh).value, PyIndex(p.cls, NClass).value;
      Accumulate(ps + [p], weigh) == Ok(Tally(t.slots[s := t.slots[s] + weigh(p)], t.total + weigh(p)))
  {
    var qs := ps + [p];
    assert qs[..|qs| - 1] == ps && qs[|qs| - 1] == p;
  }

  /** Dropping the last pixel keeps the weights in range. */
  lemma WeighsPrefix(ps: seq<Pixel>, weigh: Pixel -> real)
    requires Weighs(ps, weigh) && ps != []
    ensures Weighs(ps[..|ps| - 1], weigh) && 0.0 < weigh(ps[|ps| - 1]) <= 1.0
  {
    assert forall k :: 0 <= k < |ps| - 1 ==> ps[..|ps| - 1][k] == ps[k];
  }

  /** After the first loop no slot is negative, and some pixel makes the total positive. */
  lemma {:induction false} TallyNonNegative(ps: seq<Pixel>, weigh: Pixel -> real)
    requires Weighs(ps, weigh) && Accumulate(ps, weigh).Ok?
    ensures var t := Accumulate(ps, weigh).value;
      && (forall s :: 0 <= s < NClass ==> 0.0 <= t.slots[s])
      && 0.0 <= t.total
      && (ps != [] ==> 0.0 < t.total)
  {
    if ps != [] {
      AccumulateStep(ps, weigh);
      WeighsPrefix(ps, weigh);
      TallyNonNegative(ps[..|ps| - 1], weigh);
    }
  }

  /** After the first loop the slots add up to the total. */
  lemma {:induction false} TallySum(ps: seq<Pixel>, weigh: Pixel -> real)
    requires Accumulate(ps, weigh).Ok?
    ensures Total(Accumulate(ps, weigh).value.slots) == Accumulate(ps, weigh).value.total
  {
    if ps == [] {
      TotalZero(seq(NClass, _ => 0.0));
    } else {
      AccumulateStep(ps, weigh);
      var front := ps[..|ps| - 1];
      var p := ps[|ps| - 1];
      TallySum(front, weigh);
      var t := Accumulate(front, weigh).value;
      var s := PyIndex(p.cls, NClass).value;
      TotalUpdate(t.slots, s, t.slots[s] + weigh(p));
    }
  }

  /** After the first loop no slot is negative and the slots add up to the total. */
  lemma TallyTotal(ps: seq<Pixel>, weigh: Pixel -> real)
    requires Weighs(ps, weigh) && Accumulate(ps, weigh).Ok?
    ensures var t := Accumulate(ps, weigh).value;
      && (forall s :: 0 <= s < NClass ==> 0.0 <= t.slots[s])
      && Total(t.slots) == t.total
      && (ps != [] ==> 0.0 < t.total)
  {
    TallyNonNegative(ps, weigh);
    TallySum(ps, weigh);
  }

  /** Some pixel indexes `s` when the last one does or an earlier one does. */
  lemma IndexesLast(ps: seq<Pixel>, s: nat)
    requires ps != []
    ensures Indexes(ps, s) <==> Indexes(ps[..|ps| - 1], s) || PyIndex(ps[|ps| - 1].cls, NClass) == Some(s)
  {
    var m := |ps| - 1;
    if Indexes(ps, s) && PyIndex(ps[m].cls, NClass) != Some(s) {
      var k :| 0 <= k < |ps| && PyIndex(ps[k].cls, NClass) == Some(s);
      assert ps[..m][k] == ps[k];
    }
    if Indexes(ps[..m], s) {
      var k :| 0 <= k < m && PyIndex(ps[..m][k].cls, NClass) == Some(s);
      assert ps[k] == ps[..m][k];
    }
  }

  /** After the first loop a slot is positive exactly when some pixel's label indexes it. */
  lemma {:induction false} TallyOccurs(ps: seq<Pixel>, weigh: Pixel -> real, s: nat)
    requires Weighs(ps, weigh) && Accumulate(ps, weigh).Ok? && s < NClass
    ensures 0.0 < Accumulate(ps, weigh).value.slots[s] <==> Indexes(ps, s)
  {
    if ps != [] {
      AccumulateStep(ps, weigh);
      WeighsPrefix(ps, weigh);
      var front := ps[..|ps| - 1];
      TallyOccurs(front, weigh, s);
      TallyNonNegative(front, weigh);
      IndexesLast(ps, s);
    }
  }

  /** Positive slots, each at most the total: what the first loop leaves for the second. */
  predicate Shares(slots: seq<real>, total: real)
  {
    forall j :: 0 <= j < |slots| ==> 0.0 <= slots[j] && (0.0 < slots[j] ==> slots[j] <= total)
  }

  /**
   * The dict the second loop builds from the first `i` slots: each positive
   * slot `j` sets `names[j]` to its share of the total, a later slot
   * overwriting an earlier one of the same name; a positive slot past the
   * end of `names` raises IndexError.
   */
  function Normalise(slots: seq<real>, total: real, names: seq<string>, i: nat): (r: Result<Dict<real>>)
    requires Shares(slots, total) && i <= |slots|
    ensures r.Err? ==> r.error == IndexError
  {
    if i == 0 then Ok([])
    else
      match Normalise(slots, total, names, i - 1)
      case Err(e) => Err(e)
      case Ok(d) =>
        if 0.0 < slots[i - 1] then
          if i - 1 < |names| then Ok(Set(d, names[i - 1], slots[i - 1] / total)) else Err(IndexError)
        else Ok(d)
  }

  /** Some positive slot among the first `i` has no name. */
  predicate Unnamed(slots: seq<real>, names: seq<string>, i: nat)
    requires i <= |slots|
  {
    exists j :: 0 <= j < i && 0.0 < slots[j] && |names| <= j
  }

  /** Some positive slot among the first `i` is named `k`. */
  predicate Named(slots: seq<real>, names: seq<string>, i: nat, k: string)
    requires i <= |slots|
  {
    exists j :: 0 <= j < i && 0.0 < slots[j] && j < |names| && names[j] == k
  }

  /** Slot `i - 1` is unnamed, or an earlier one is. */
  lemma UnnamedLast(slots: seq<real>, names: seq<string>, i: nat)
    requires 0 < i <= |slots|
    ensures Unnamed(slots, names, i) <==> Unnamed(slots, names, i - 1) || (0.0 < slots[i - 1] && |names| <= i - 1)
  {
    if Unnamed(slots, names, i) {
      var j :| 0 <= j < i && 0.0 < slots[j] && |names| <= j;
      if j < i - 1 {
        assert Unnamed(slots, names, i - 1);
      }
    }
  }

  /** Slot `i - 1` is named `k`, or an earlier one is. */
  lemma NamedLast(slots: seq<real>, names: seq<string>, i: nat, k: string)
    requires 0 < i <= |slots|
    ensures Named(slots, names, i, k) <==>
      Named(slots, names, i - 1, k) || (0.0 < slots[i - 1] && i - 1 < |names| && names[i - 1] == k)
  {
    if Named(slots, names, i, k) {
      var j :| 0 <= j < i && 0.0 < slots[j] && j < |names| && names[j] == k;
      if j < i - 1 {
        assert Named(slots, names, i - 1, k);
      }
    }
  }

  /** The second loop fails exactly when a positive slot has no name. */
  lemma {:induction false} NormaliseFails(slots: seq<real>, total: real, names: seq<string>, i: nat)
    requires Shares(slots, total) && i <= |slots|
    ensures Normalise(slots, total, names, i).Err? <==> Unnamed(slots, names, i)
  {
    if i > 0 {
      NormaliseFails(slots, total, names, i - 1);
      UnnamedLast(slots, names, i);
    }
  }

  /** The keys are the names of the positive slots, each once. */
  lemma {:induction false} NormaliseKeys(slots: seq<real>, total: real, names: seq<string>, i: nat)
    requires Shares(slots, total) && i <= |slots| && Normalise(slots, total, names, i).Ok?
    ensures Distinct(Normalise(slots, total, names, i).value)
    ensures forall k :: Has(Normalise(slots, total, names, i).value, k) <==> Named(slots, names, i, k)
  {
    if i > 0 {
      NormaliseStep(slots, total, names, i);
      NormaliseKeys(slots, total, names, i - 1);
      var d := Normalise(slots, total, names, i - 1).value;
      if 0.0 < slots[i - 1] {
        SetKeys(d, names[i - 1], slots[i - 1] / total);
      }
      forall k ensures Has(Normalise(slots, total, names, i).value, k) <==> Named(slots, names, i, k) {
        NamedLast(slots, names, i, k);
      }
    }
  }

  /** Every value is a share in (0, 1]. */
  lemma {:induction false} NormaliseBounds(slots: seq<real>, total: real, names: seq<string>, i: nat)
    requires Shares(slots, total) && i <= |slots| && Normalise(slots, total, names, i).Ok?
    ensures var d := Normalise(slots, total, names, i).value;
      forall j :: 0 <= j < |d| ==> 0.0 < d[j].1 <= 1.0
  {
    if i > 0 {
      NormaliseStep(slots, total, names, i);
      NormaliseBounds(slots, total, names, i - 1);
      if 0.0 < slots[i - 1] {
        ShareBounds(slots[i - 1], total);
      }
    }
  }

  /** One more slot: a positive one sets its name, a zero one changes nothing. */
  lemma NormaliseStep(slots: seq<real>, total: real, names: seq<string>, i: nat)
    requires Shares(slots, total) && 0 < i <= |slots| && Normalise(slots, total, names, i).Ok?
    ensures Normalise(slots, total, names, i - 1).Ok?
    ensures 0.0 < slots[i - 1] ==> i - 1 < |names| && 0.0 < total
    ensures var d := Normalise(slots, total, names, i - 1).value;
      Normalise(slots, total, names, i).value
        == if 0.0 < slots[i - 1] then Set(d, names[i - 1], slots[i - 1] / total) else d
  {
  }

  /** A prefix of a successful second loop succeeds too, and a zero slot changes nothing. */
  lemma NormalisePrefix(slots: seq<real>, total: real, names: seq<string>, i: nat)
    requires Shares(slots, total) && 0 < i <= |slots| && Normalise(slots, total, names, i).Ok?
    ensures Normalise(slots, total, names, i - 1).Ok?
    ensures 0.0 < slots[i - 1] ==> i - 1 < |names| && 0.0 < total
    ensures slots[i - 1] == 0.0 ==> Normalise(slots, total, names, i) == Normalise(slots, total, names, i - 1)
  {
  }

  /** A positive part of a total is a share in (0, 1]. */
  lemma ShareBounds(x: real, t: real)
    requires 0.0 < x <= t
    ensures 0.0 < x / t <= 1.0
  {
    assert x / t * t == x;
  }

  /** The first `m` names are pairwise different. */
  predicate DistinctNames(names: seq<string>, m: nat)
  {
    forall a, b :: 0 <= a < b < |names| && b < m ==> names[a] != names[b]
  }

  /** With distinct names nothing is overwritten: each positive slot's name maps to that slot's share. */
  lemma {:induction false} NormaliseValues(slots: seq<real>, total: real, names: seq<string>, i: nat)
    requires Shares(slots, total) && i <= |slots| && Normalise(slots, total, names, i).Ok?
    requires DistinctNames(names, i)
    ensures var d := Normalise(slots, total, names, i).value;
      forall j :: 0 <= j < i && j < |names| && 0.0 < slots[j] ==> Has(d, names[j]) && Get(d, names[j]) == slots[j] / total
  {
    if i > 0 {
      NormaliseStep(slots, total, names, i);
      NormaliseValues(slots, total, names, i - 1);
      if 0.0 < slots[i - 1] {
        var d := Normalise(slots, total, names, i - 1).value;
        SetKeys(d, names[i - 1], slots[i - 1] / total);
        SetGet(d, names[i - 1], slots[i - 1] / total);
      }
    }
  }

  /** With distinct names the values add up to the slots' sum over the total. */
  lemma {:induction false} NormaliseSum(slots: seq<real>, total: real, names: seq<string>, i: nat)
    requires Shares(slots, total) && i <= |slots| && Normalise(slots, total, names, i).Ok?
    requires DistinctNames(names, i) && 0.0 < total
    ensures Sum(Normalise(slots, total, names, i).value) == Total(slots[..i]) / total
  {
    if i > 0 {
      NormalisePrefix(slots, total, names, i);
      NormaliseSum(slots, total, names, i - 1);
      TotalPrefix(slots, i);
      if 0.0 < slots[i - 1] {
        NewShareAdds(slots, total, names, i);
      }
    }
  }

  /** A positive slot with a fresh name adds its share to the sum. */
  lemma NewShareAdds(slots: seq<real>, total: real, names: seq<string>, i: nat)
    requires Shares(slots, total) && 0 < i <= |slots| && i - 1 < |names| && Normalise(slots, total, names, i - 1).Ok?
    requires DistinctNames(names, i) && 0.0 < total && 0.0 < slots[i - 1]
    requires Sum(Normalise(slots, total, names, i - 1).value) == Total(slots[..i - 1]) / total
    ensures Normalise(slots, total, names, i).Ok?
    ensures Sum(Normalise(slots, total, names, i).value) == (Total(slots[..i - 1]) + slots[i - 1]) / total
  {
    var d := Normalise(slots, total, names, i - 1).value;
    FreshName(slots, total, names, i - 1);
    SumSet(d, names[i - 1], slots[i - 1] / total);
    DivAdd(Total(slots[..i - 1]), slots[i - 1], total);
  }

  /** With distinct names, the name of slot `i` is not yet a key after `i` slots. */
  lemma FreshName(slots: seq<real>, total: real, names: seq<string>, i: nat)
    requires Shares(slots, total) && i < |slots| && i < |names| && Normalise(slots, total, names, i).Ok?
    requires DistinctNames(names, i + 1)
    ensures !Has(Normalise(slots, total, names, i).value, names[i])
  {
    NormaliseKeys(slots, total, names, i);
  }

  /** A single positive slot `l` yields the one entry `names[l]` with its share. */
  lemma {:induction false} NormaliseSingle(slots: seq<real>, total: real, names: seq<string>, l: nat, i: nat)
    requires Shares(slots, total) && i <= |slots| && l < |slots| && l < |names|
    requires forall j :: 0 <= j < |slots| && j != l ==> slots[j] == 0.0
    requires 0.0 < slots[l]
    ensures Normalise(slots, total, names, i) == if i <= l then Ok([]) else Ok([(names[l], slots[l] / total)])
  {
    if i > 0 {
      NormaliseSingle(slots, total, names, l, i - 1);
      if i - 1 == l {
        SetEmpty(names[l], slots[l] / total);
      }
    }
  }

  /** Some pixel's label indexes slot `s`. */
  predicate Occurs(segMap: seq<seq<int>>, s: nat)
  {
    exists r, c :: 0 <= r < |segMap| && 0 <= c < |segMap[r]| && PyIndex(segMap[r][c], NClass) == Some(s)
  }

  /** Every label can index the 200 slots. */
  predicate LabelsInRange(segMap: seq<seq<int>>)
  {
    forall r, c :: 0 <= r < |segMap| && 0 <= c < |segMap[r]| ==> -(NClass as int) <= segMap[r][c] < NClass
  }

  /** `seg_frac`, `tot_frac` after the first loop over a whole non-empty map. */
  function TallyOf(segMap: seq<seq<int>>, w: real -> real): (r: Result<Tally>)
    requires Rectangular(segMap) && segMap != []
    ensures r.Ok? ==> |r.value.slots| == NClass
    ensures r.Err? ==> r.error == IndexError
  {
    Accumulate(Pixels(segMap), PixelWeight(w, |segMap[0]|, |segMap|))
  }

  /** Occurrence of a slot in the map is occurrence among the visited pixels. */
  lemma OccursInPixels(segMap: seq<seq<int>>, s: nat)
    ensures Occurs(segMap, s) <==> Indexes(Pixels(segMap), s)
  {
    PixelsFacts(segMap);
    var ps := Pixels(segMap);
    if Occurs(segMap, s) {
      var r, c :| 0 <= r < |segMap| && 0 <= c < |segMap[r]| && PyIndex(segMap[r][c], NClass) == Some(s);
      var k :| 0 <= k < |ps| && ps[k] == Pixel(r, c, segMap[r][c]);
    }
  }

  /** The first loop raises exactly when some label is outside [-200, 200). */
  lemma TallyOfFails(segMap: seq<seq<int>>, w: real -> real)
    requires Rectangular(segMap) && segMap != []
    ensures TallyOf(segMap, w).Err? <==> !LabelsInRange(segMap)
  {
    var ps := Pixels(segMap);
    PixelsFacts(segMap);
    AccumulateFails(ps, PixelWeight(w, |segMap[0]|, |segMap|));
    if !LabelsInRange(segMap) {
      var r, c :| 0 <= r < |segMap| && 0 <= c < |segMap[r]| && !(-(NClass as int) <= segMap[r][c] < NClass);
      var k :| 0 <= k < |ps| && ps[k] == Pixel(r, c, segMap[r][c]);
      assert PyIndex(ps[k].cls, NClass).None?;
    }
  }

  /**
   * After the first loop over a whole map: the slots are shares of the total
   * and add up to it, a slot is positive exactly when its class occurs, and
   * an image with at least one pixel has a positive total.
   */
  lemma TallyOfFacts(segMap: seq<seq<int>>, w: real -> real)
    requires Rectangular(segMap) && segMap != [] && Falloff(w) && TallyOf(segMap, w).Ok?
    ensures var t := TallyOf(segMap, w).value;
      && Shares(t.slots, t.total)
      && Total(t.slots) == t.total
      && (forall s :: 0 <= s < NClass ==> (0.0 < t.slots[s] <==> Occurs(segMap, s)))
      && (0 < |segMap[0]| ==> 0.0 < t.total)
  {
    var ps := Pixels(segMap);
    assert segMap[..|segMap|] == segMap;
    PixelsInFrame(segMap, |segMap|);
    PixelWeightBounds(ps, w, |segMap[0]|, |segMap|);
    var t := TallyOf(segMap, w).value;
    TallyTotal(ps, PixelWeight(w, |segMap[0]|, |segMap|));
    TotalBound(t.slots);
    forall s | 0 <= s < NClass
      ensures 0.0 < t.slots[s] <==> Occurs(segMap, s)
    {
      TallyOfOccurs(segMap, w, s);
    }
    if 0 < |segMap[0]| {
      PixelsFacts(segMap);
      assert Pixel(0, 0, segMap[0][0]) in ps;
    }
  }

  /** A slot is positive after the first loop exactly when its class occurs in the map. */
  lemma TallyOfOccurs(segMap: seq<seq<int>>, w: real -> real, s: nat)
    requires Rectangular(segMap) && segMap != [] && Falloff(w) && TallyOf(segMap, w).Ok? && s < NClass
    ensures 0.0 < TallyOf(segMap, w).value.slots[s] <==> Occurs(segMap, s)
  {
    assert segMap[..|segMap|] == segMap;
    PixelsInFrame(segMap, |segMap|);
    var ps := Pixels(segMap);
    PixelWeightBounds(ps, w, |segMap[0]|, |segMap|);
    TallyOccurs(ps, PixelWeight(w, |segMap[0]|, |segMap|), s);
    OccursInPixels(segMap, s);
  }

  /**
   * `_corrected_fractions(seg_map, names)`: an empty map has no second axis
   * (`seg_map.shape[1]` raises IndexError); otherwise both loops.
   */
  function Fractions(segMap: seq<seq<int>>, names: seq<string>, w: real -> real): Result<Dict<real>>
    requires Rectangular(segMap) && Falloff(w)
  {
    if segMap == [] then Err(IndexError)
    else
      match TallyOf(segMap, w)
      case Err(e) => Err(e)
      case Ok(t) =>
        TallyOfFacts(segMap, w);
        Normalise(t.slots, t.total, names, NClass)
  }

  /**
   * When `_corrected_fractions` raises: on an empty map, on a label outside
   * [-200, 200), and on a class that occurs but has no name.
   */
  lemma FractionsFail(segMap: seq<seq<int>>, names: seq<string>, w: real -> real)
    requires Rectangular(segMap) && Falloff(w)
    ensures Fractions(segMap, names, w).Err? <==>
      segMap == [] || !LabelsInRange(segMap) || exists s :: 0 <= s < NClass && Occurs(segMap, s) && |names| <= s
  {
    if segMap != [] {
      TallyOfFails(segMap, w);
      if LabelsInRange(segMap) {
        var t := TallyOf(segMap, w).value;
        TallyOfFacts(segMap, w);
        NormaliseFails(t.slots, t.total, names, NClass);
        if Unnamed(t.slots, names, NClass) {
          var j :| 0 <= j < NClass && 0.0 < t.slots[j] && |names| <= j;
          assert Occurs(segMap, j);
        }
      }
    }
  }

  /**
   * The result holds one key per class that occurs in the map (its name),
   * no other key, and every value is a share in (0, 1].
   */
  lemma FractionsKeys(segMap: seq<seq<int>>, names: seq<string>, w: real -> real)
    requires Rectangular(segMap) && Falloff(w) && Fractions(segMap, names, w).Ok?
    ensures var d := Fractions(segMap, names, w).value;
      && Distinct(d)
      && (forall k :: Has(d, k) <==> exists s :: 0 <= s < NClass && Occurs(segMap, s) && s < |names| && names[s] == k)
      && (forall k :: Has(d, k) ==> 0.0 < Get(d, k) <= 1.0)
  {
    var t := TallyOf(segMap, w).value;
    TallyOfFacts(segMap, w);
    NormaliseKeys(t.slots, t.total, names, NClass);
    NormaliseBounds(t.slots, t.total, names, NClass);
    var d := Fractions(segMap, names, w).value;
    forall k | Has(d, k) ensures 0.0 < Get(d, k) <= 1.0 {
      assert d[IndexOf(d, k)].1 == Get(d, k);
    }
    forall k ensures Named(t.slots, names, NClass, k) <==>
      exists s :: 0 <= s < NClass && Occurs(segMap, s) && s < |names| && names[s] == k
    {
      if Named(t.slots, names, NClass, k) {
        var j :| 0 <= j < NClass && 0.0 < t.slots[j] && j < |names| && names[j] == k;
        assert Occurs(segMap, j);
      }
    }
  }

  /** With distinct names, the fractions of a non-empty image add up to 1. */
  lemma FractionsSumToOne(segMap: seq<seq<int>>, names: seq<string>, w: real -> real)
    requires Rectangular(segMap) && Falloff(w) && Fractions(segMap, names, w).Ok?
    requires 0 < |segMap[0]| && DistinctNames(names, NClass)
    ensures Sum(Fractions(segMap, names, w).value) == 1.0
  {
    var t := TallyOf(segMap, w).value;
    TallyOfFacts(segMap, w);
    NormaliseSum(t.slots, t.total, names, NClass);
    assert t.slots[..NClass] == t.slots;
    Whole(t.total);
  }

  /** With distinct names, each class that occurs maps to its slot's share of the total. */
  lemma FractionsValues(segMap: seq<seq<int>>, names: seq<string>, w: real -> real)
    requires Rectangular(segMap) && Falloff(w) && Fractions(segMap, names, w).Ok?
    requires DistinctNames(names, NClass)
    ensures var d, t := Fractions(segMap, names, w).value, TallyOf(segMap, w).value;
      forall s :: 0 <= s < NClass && s < |names| && Occurs(segMap, s) ==>
        Has(d, names[s]) && 0.0 < t.total && Get(d, names[s]) == t.slots[s] / t.total
  {
    var t := TallyOf(segMap, w).value;
    TallyOfFacts(segMap, w);
    NormaliseValues(t.slots, t.total, names, NClass);
  }

  /**
   * An image of one label `l` gives that label's class the whole share:
   * `{names[s]: 1.0}`, where a negative label indexes slot `s = 200 + l`.
   */
  lemma FractionsUniform(segMap: seq<seq<int>>, names: seq<string>, w: real -> real, l: int)
    requires Rectangular(segMap) && Falloff(w) && 0 < |segMap| && 0 < |segMap[0]|
    requires forall r, c :: 0 <= r < |segMap| && 0 <= c < |segMap[r]| ==> segMap[r][c] == l
    requires -(NClass as int) <= l < NClass && PyIndex(l, NClass).value < |names|
    ensures Fractions(segMap, names, w) == Ok([(names[PyIndex(l, NClass).value], 1.0)])
  {
    var s := PyIndex(l, NClass).value;
    TallyOfFails(segMap, w);
    var t := TallyOf(segMap, w).value;
    TallyOfFacts(segMap, w);
    assert forall r, c :: 0 <= r < |segMap| && 0 <= c < |segMap[r]| ==> PyIndex(segMap[r][c], NClass) == Some(s);
    assert PyIndex(segMap[0][0], NClass) == Some(s);
    TotalSingle(t.slots, s);
    NormaliseSingle(t.slots, t.total, names, s, NClass);
    Whole(t.total);
  }

  /** `_corrected_fractions(seg_map, names)`, proved against `Fractions`. */
  method CorrectedFractions(segMap: seq<seq<int>>, names: seq<string>, w: real -> real)
    returns (r: Result<Dict<real>>)
    requires Rectangular(segMap) && Falloff(w)
    ensures r == Fractions(segMap, names, w)
  {
    if |segMap| == 0 {
      return Err(IndexError);
    }
    var segFrac, totFrac, failed := WeighPixels(segMap, w);
    if failed {
      return Err(IndexError);
    }
    TallyOfFacts(segMap, w);
    r := ShareOut(segFrac, totFrac, names);
  }

  /** The first loop: every pixel's weight into its class slot and into the total. */
  method WeighPixels(segMap: seq<seq<int>>, w: real -> real)
    returns (segFrac: array<real>, totFrac: real, failed: bool)
    requires Rectangular(segMap) && segMap != []
    ensures fresh(segFrac)
    ensures failed <==> TallyOf(segMap, w).Err?
    ensures !failed ==> TallyOf(segMap, w) == Ok(Tally(segFrac[..], totFrac))
  {
    var ny := |segMap|;
    var nx := |segMap[0]|;
    ghost var weigh := PixelWeight(w, nx, ny);
    segFrac := new real[NClass](_ => 0.0);
    totFrac := 0.0;
    failed := false;
    assert segMap[..0] == [];
    assert segFrac[..] == seq(NClass, _ => 0.0);
    for iy := 0 to ny
      invariant Accumulate(Pixels(segMap[..iy]), weigh) == Ok(Tally(segFrac[..], totFrac))
    {
      totFrac, failed := WeighRow(segMap, w, iy, segFrac, totFrac);
      if failed {
        return;
      }
    }
    assert segMap[..ny] == segMap;
  }

  /** One pass of the inner `ix` loop, over row `iy`. */
  method WeighRow(segMap: seq<seq<int>>, w: real -> real, iy: nat, segFrac: array<real>, totFrac0: real)
    returns (totFrac: real, failed: bool)
    requires Rectangular(segMap) && iy < |segMap| && segFrac.Length == NClass
    requires Accumulate(Pixels(segMap[..iy]), PixelWeight(w, |segMap[0]|, |segMap|)) == Ok(Tally(segFrac[..], totFrac0))
    modifies segFrac
    ensures failed ==> TallyOf(segMap, w).Err?
    ensures !failed ==>
      Accumulate(Pixels(segMap[..iy + 1]), PixelWeight(w, |segMap[0]|, |segMap|)) == Ok(Tally(segFrac[..], totFrac))
  {
    var ny := |segMap|;
    var nx := |segMap[0]|;
    ghost var weigh := PixelWeight(w, nx, ny);
    totFrac, failed := totFrac0, false;
    ghost var done := Pixels(segMap[..iy]);
    assert done + RowPixels(iy, segMap[iy][..0]) == done;
    for ix := 0 to nx
      invariant Accumulate(done + RowPixels(iy, segMap[iy][..ix]), weigh) == Ok(Tally(segFrac[..], totFrac))
    {
      var p := Pixel(iy, ix, segMap[iy][ix]);
      ghost var before := done + RowPixels(iy, segMap[iy][..ix]);
      RowPixelsSnoc(done, iy, segMap[iy], ix);
      totFrac, failed := WeighPixel(p, nx, ny, w, segFrac, totFrac, before);
      if failed {
        AccumulateStopsAt(segMap, weigh, iy, ix);
        return;
      }
    }
    PixelsNextRow(segMap, iy);
  }

  /** The visited pixels grow by one as the inner loop moves on by one column. */
  lemma RowPixelsSnoc(done: seq<Pixel>, r: nat, row: seq<int>, ix: nat)
    requires ix < |row|
    ensures done + RowPixels(r, row[..ix + 1]) == done + RowPixels(r, row[..ix]) + [Pixel(r, ix, row[ix])]
  {
    assert RowPixels(r, row[..ix + 1]) == RowPixels(r, row[..ix]) + [Pixel(r, ix, row[ix])];
  }

  /** After the inner loop over row `iy`, the visited pixels are those of rows `0 .. iy`. */
  lemma PixelsNextRow(segMap: seq<seq<int>>, iy: nat)
    requires Rectangular(segMap) && iy < |segMap|
    ensures Pixels(segMap[..iy]) + RowPixels(iy, segMap[iy][..|segMap[0]|]) == Pixels(segMap[..iy + 1])
  {
    assert segMap[..iy + 1][..iy] == segMap[..iy];
    assert segMap[iy][..|segMap[0]|] == segMap[iy];
  }

  /**
   * One pass of the inner loop: the pixel's weight goes to its slot and to
   * `tot_frac`, or its label raises IndexError.
   */
  method WeighPixel(p: Pixel, nx: nat, ny: nat, w: real -> real, segFrac: array<real>, totFrac0: real,
                    ghost before: seq<Pixel>)
    returns (totFrac: real, failed: bool)
    requires segFrac.Length == NClass && p.row < ny && p.col < nx
    requires Accumulate(before, PixelWeight(w, nx, ny)) == Ok(Tally(segFrac[..], totFrac0))
    modifies segFrac
    ensures failed <==> PyIndex(p.cls, NClass).None?
    ensures !failed ==> Accumulate(before + [p], PixelWeight(w, nx, ny)) == Ok(Tally(segFrac[..], totFrac))
  {
    var fac := Weight(w, p, nx, ny);
    var slot := PyIndex(p.cls, NClass);
    if slot.None? {
      return totFrac0, true;
    }
    assert fac == PixelWeight(w, nx, ny)(p);
    AccumulateAppend(before, p, PixelWeight(w, nx, ny));
    var s := slot.value;
    ghost var slots := segFrac[..];
    segFrac[s] := segFrac[s] + fac;
    totFrac, failed := totFrac0 + fac, false;
    assert segFrac[..] == slots[s := slots[s] + fac];
  }

  /** The second loop: a dict entry for every positive slot, its share of the total. */
  method ShareOut(segFrac: array<real>, totFrac: real, names: seq<string>) returns (r: Result<Dict<real>>)
    requires segFrac.Length == NClass && Shares(segFrac[..], totFrac)
    ensures r == Normalise(segFrac[..], totFrac, names, NClass)
  {
    var d: Dict<real> := [];
    for i := 0 to NClass
      invariant Normalise(segFrac[..], totFrac, names, i) == Ok(d)
    {
      if segFrac[i] > 0.0 {
        if i >= |names| {
          NormaliseFails(segFrac[..], totFrac, names, NClass);
          return Err(IndexError);
        }
        d := Set(d, names[i], segFrac[i] / totFrac);
      }
    }
    return Ok(d);
  }

  /** A label that cannot index the slots makes the whole image fail. */
  lemma AccumulateStopsAt(segMap: seq<seq<int>>, weigh: Pixel -> real, iy: nat, ix: nat)
    requires iy < |segMap| && ix < |segMap[iy]| && PyIndex(segMap[iy][ix], NClass).None?
    ensures Accumulate(Pixels(segMap), weigh) == Err(IndexError)
  {
    PixelsFacts(segMap);
    AccumulateFails(Pixels(segMap), weigh);
    var k :| 0 <= k < |Pixels(segMap)| && Pixels(segMap)[k] == Pixel(iy, ix, segMap[iy][ix]);
  }
}
