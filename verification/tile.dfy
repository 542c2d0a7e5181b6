/**
 * The tile manager: a bounding box in south-west / north-east order, a
 * `2^level` by `2^level` grid over it, and the choice of one panorama per
 * occupied grid cell, the one nearest the cell's south-west corner.
 *
 * x is longitude and y is latitude throughout, as in the source.
 */
module Tile {
  import opened Python
  import opened Records

  /** The grid `load` lays over the box: `n` cells per axis of size `dx` by `dy`. */
  datatype Grid = Grid(n: nat, xStart: real, yStart: real, dx: real, dy: real)

  /** Neither cell size is zero, so `(x - x_start)/dx` does not raise. */
  predicate Divisible(g: Grid)
  {
    g.dx != 0.0 && g.dy != 0.0
  }

  /** Every entry carries a longitude and a latitude. */
  predicate AllPositioned(meta: seq<Meta>)
  {
    forall i :: 0 <= i < |meta| ==> HasPosition(meta[i])
  }

  /** What the bucketing needs: positions everywhere, and non-zero cell sizes once there is a point. */
  predicate Bucketable(meta: seq<Meta>, g: Grid)
  {
    AllPositioned(meta) && (meta != [] ==> Divisible(g))
  }

  /**
   * `sample_list[ix][iy]` for a point: both indices truncated toward zero,
   * then Python list indexing, so an index in [-n, -1] wraps to the far end
   * and anything outside [-n, n) raises IndexError and drops the point (None).
   */
  function CellOf(p: Meta, g: Grid): Option<(nat, nat)>
    requires HasPosition(p) && Divisible(g)
  {
    var ix := PyIndex(Trunc((Longitude(p) - g.xStart) / g.dx), g.n);
    var iy := PyIndex(Trunc((Latitude(p) - g.yStart) / g.dy), g.n);
    if ix.Some? && iy.Some? then Some((ix.value, iy.value)) else None
  }

  /**
   * `sample_list[a][b]` once the first `|meta|` entries are enumerated: the
   * indices of the entries that land in cell (a, b), in enumeration order.
   */
  function Bucket(meta: seq<Meta>, g: Grid, a: nat, b: nat): (bucket: seq<nat>)
    requires Bucketable(meta, g)
    ensures forall k :: 0 <= k < |bucket| ==> bucket[k] < |meta|
  {
    if meta == [] then []
    else
      var last := |meta| - 1;
      assert forall i :: 0 <= i < last ==> meta[..last][i] == meta[i];
      Bucket(meta[..last], g, a, b) + (if CellOf(meta[last], g) == Some((a, b)) then [last] else [])
  }

  /**
   * A bucket lists, in increasing (enumeration) order, exactly the entries
   * whose cell is (a, b); so each entry is in at most one bucket.
   */
  lemma {:induction false} BucketFacts(meta: seq<Meta>, g: Grid, a: nat, b: nat)
    requires Bucketable(meta, g)
    ensures forall k, l :: 0 <= k < l < |Bucket(meta, g, a, b)| ==> Bucket(meta, g, a, b)[k] < Bucket(meta, g, a, b)[l]
    ensures forall i :: 0 <= i < |meta| ==> (i in Bucket(meta, g, a, b) <==> CellOf(meta[i], g) == Some((a, b)))
  {
    if meta != [] {
      var last := |meta| - 1;
      assert forall i :: 0 <= i < last ==> meta[..last][i] == meta[i];
      BucketFacts(meta[..last], g, a, b);
    }
  }

  /** Enumerating one more entry appends its index to the bucket of its cell. */
  lemma BucketGrow(meta: seq<Meta>, g: Grid, i: nat, a: nat, b: nat)
    requires i < |meta| && Bucketable(meta[..i + 1], g) && Bucketable(meta[..i], g)
    ensures HasPosition(meta[i]) && Divisible(g)
    ensures Bucket(meta[..i + 1], g, a, b)
      == Bucket(meta[..i], g, a, b) + if CellOf(meta[i], g) == Some((a, b)) then [i] else []
  {
    assert meta[..i + 1][..i] == meta[..i];
    assert meta[..i + 1][i] == meta[i];
  }

  /** The latitude-scaled squared distance of a point from a cell's base corner. */
  function Dist(p: Meta, xBase: real, yBase: real, xFac: real): real
    requires HasPosition(p)
  {
    var ddx := (Longitude(p) - xBase) * xFac;
    var ddy := Latitude(p) - yBase;
    ddx * ddx + ddy * ddy
  }

  /** `10.0**10`, the starting value of `min_dist`. */
  const Far: real := 10000000000.0

  /** Every candidate index points at a positioned entry. */
  predicate Candidates(meta: seq<Meta>, cands: seq<nat>)
  {
    forall k :: 0 <= k < |cands| ==> cands[k] < |meta| && HasPosition(meta[cands[k]])
  }

  /**
   * `(idx_min, min_dist)` after scanning `cands` from `(-1, 10**10)` and
   * taking a candidate only when it is strictly closer.
   */
  function Nearest(meta: seq<Meta>, cands: seq<nat>, xBase: real, yBase: real, xFac: real): (int, real)
    requires Candidates(meta, cands)
  {
    if cands == [] then (-1, Far)
    else
      var last := cands[|cands| - 1];
      var prev := Nearest(meta, cands[..|cands| - 1], xBase, yBase, xFac);
      var d := Dist(meta[last], xBase, yBase, xFac);
      if d < prev.1 then (last, d) else prev
  }

  /**
   * Position `p` of `cands` holds a candidate at distance `m`, no candidate is
   * nearer, and every candidate before `p` is strictly farther.
   */
  predicate FirstMinimumAt(meta: seq<Meta>, cands: seq<nat>, p: int, m: real, xBase: real, yBase: real, xFac: real)
    requires Candidates(meta, cands)
  {
    && 0 <= p < |cands|
    && m == Dist(meta[cands[p]], xBase, yBase, xFac)
    && (forall k :: 0 <= k < |cands| ==> m <= Dist(meta[cands[k]], xBase, yBase, xFac))
    && (forall k :: 0 <= k < p ==> m < Dist(meta[cands[k]], xBase, yBase, xFac))
  }

  /**
   * The scan returns -1 exactly when no candidate is nearer than 10**10;
   * otherwise it returns a candidate at the smallest distance, the first one
   * in list order among equals, with its distance.
   */
  lemma {:induction false} NearestIsFirstMinimum(meta: seq<Meta>, cands: seq<nat>, xBase: real, yBase: real, xFac: real)
    requires Candidates(meta, cands)
    ensures Nearest(meta, cands, xBase, yBase, xFac).0 == -1 <==>
      forall k :: 0 <= k < |cands| ==> Far <= Dist(meta[cands[k]], xBase, yBase, xFac)
    ensures Nearest(meta, cands, xBase, yBase, xFac).0 == -1 ==> Nearest(meta, cands, xBase, yBase, xFac).1 == Far
    ensures Nearest(meta, cands, xBase, yBase, xFac).0 != -1 ==>
      Nearest(meta, cands, xBase, yBase, xFac).1 < Far
      && exists p :: FirstMinimumAt(meta, cands, p, Nearest(meta, cands, xBase, yBase, xFac).1, xBase, yBase, xFac)
                     && cands[p] == Nearest(meta, cands, xBase, yBase, xFac).0
    decreases |cands|
  {
    if cands != [] {
      var front := cands[..|cands| - 1];
      assert forall k :: 0 <= k < |front| ==> front[k] == cands[k];
      NearestIsFirstMinimum(meta, front, xBase, yBase, xFac);
      var (id, m) := Nearest(meta, front, xBase, yBase, xFac);
      var last := |cands| - 1;
      var d := Dist(meta[cands[last]], xBase, yBase, xFac);
      if d < m {
        assert FirstMinimumAt(meta, cands, last, d, xBase, yBase, xFac);
      } else if id != -1 {
        var p :| FirstMinimumAt(meta, front, p, m, xBase, yBase, xFac) && front[p] == id;
        assert FirstMinimumAt(meta, cands, p, m, xBase, yBase, xFac) && cands[p] == id;
      }
    }
  }

  /** The south-west corner of column `a`: `x_start + dx*a`. */
  function XBase(g: Grid, a: nat): real
  {
    g.xStart + g.dx * a as real
  }

  /** The south-west corner of row `b`: `y_start + dy*b`. */
  function YBase(g: Grid, b: nat): real
  {
    g.yStart + g.dy * b as real
  }

  /**
   * The id cell (a, b) contributes when it is not empty; `cosLat` gives the
   * longitude scale `cos(pi*y/180)` at a latitude.
   */
  function Pick(meta: seq<Meta>, g: Grid, cosLat: real -> real, a: nat, b: nat): int
    requires Bucketable(meta, g)
  {
    Nearest(meta, Bucket(meta, g, a, b), XBase(g, a), YBase(g, b), cosLat(YBase(g, b))).0
  }

  /** A non-negative pick is an entry of the cell it was picked for. */
  lemma PickInCell(meta: seq<Meta>, g: Grid, cosLat: real -> real, a: nat, b: nat)
    requires Bucketable(meta, g)
    ensures var id := Pick(meta, g, cosLat, a, b);
      0 <= id ==> id < |meta| && CellOf(meta[id], g) == Some((a, b))
  {
    var cands := Bucket(meta, g, a, b);
    BucketFacts(meta, g, a, b);
    NearestIsFirstMinimum(meta, cands, XBase(g, a), YBase(g, b), cosLat(YBase(g, b)));
  }

  /*
   * The nested `ix`/`iy` loops, stated over any occupancy test and any
   * per-cell choice; `Selected` below instantiates them with the buckets and
   * the nearest-to-corner pick.
   */

  /** The ids column `a` emits for rows `0 .. m-1` (the inner `iy` loop). */
  function Column(occupied: (nat, nat) -> bool, pick: (nat, nat) -> int, a: nat, m: nat): seq<int>
  {
    if m == 0 then []
    else Column(occupied, pick, a, m - 1) + (if occupied(a, m - 1) then [pick(a, m - 1)] else [])
  }

  /** The ids columns `0 .. m-1` emit, each over rows `0 .. n-1` (the outer `ix` loop). */
  function Sweep(occupied: (nat, nat) -> bool, pick: (nat, nat) -> int, n: nat, m: nat): seq<int>
  {
    if m == 0 then [] else Sweep(occupied, pick, n, m - 1) + Column(occupied, pick, m - 1, n)
  }

  /** The occupied cells of column `a` among rows `0 .. m-1`, bottom to top. */
  function ColumnCells(occupied: (nat, nat) -> bool, a: nat, m: nat): seq<(nat, nat)>
  {
    if m == 0 then []
    else ColumnCells(occupied, a, m - 1) + (if occupied(a, m - 1) then [(a, m - 1)] else [])
  }

  /** The occupied cells of columns `0 .. m-1`, in the order the nested loops visit them. */
  function CellOrder(occupied: (nat, nat) -> bool, n: nat, m: nat): seq<(nat, nat)>
  {
    if m == 0 then [] else CellOrder(occupied, n, m - 1) + ColumnCells(occupied, m - 1, n)
  }

  /** The set of occupied cells of columns `0 .. m-1`. */
  function OccupiedCells(occupied: (nat, nat) -> bool, n: nat, m: nat): set<(nat, nat)>
  {
    set a: nat, b: nat | a < m && b < n && occupied(a, b) :: (a, b)
  }

  /** A cell is in the set exactly when it lies in the first `m` columns and is occupied. */
  lemma InOccupied(occupied: (nat, nat) -> bool, n: nat, m: nat, c: (nat, nat))
    ensures c in OccupiedCells(occupied, n, m) <==> c.0 < m && c.1 < n && occupied(c.0, c.1)
  {
    if c.0 < m && c.1 < n && occupied(c.0, c.1) {
      var a: nat, b: nat := c.0, c.1;
      assert (a, b) in OccupiedCells(occupied, n, m);
    }
  }

  /** `p` is visited before `q`: `ix` outer, `iy` inner. */
  predicate VisitedBefore(p: (nat, nat), q: (nat, nat))
  {
    p.0 < q.0 || (p.0 == q.0 && p.1 < q.1)
  }

  /** Column `a` emits the pick of each of its occupied cells, in order. */
  lemma {:induction false} ColumnPicks(occupied: (nat, nat) -> bool, pick: (nat, nat) -> int, a: nat, m: nat)
    ensures var col, cells := Column(occupied, pick, a, m), ColumnCells(occupied, a, m);
      && |col| == |cells|
      && (forall k :: 0 <= k < |cells| ==> col[k] == pick(cells[k].0, cells[k].1))
  {
    if m > 0 {
      ColumnPicks(occupied, pick, a, m - 1);
    }
  }

  /** The occupied cells of column `a`, bottom to top, and no other. */
  lemma {:induction false} ColumnCellsFacts(occupied: (nat, nat) -> bool, a: nat, m: nat)
    ensures forall k :: 0 <= k < |ColumnCells(occupied, a, m)| ==>
      ColumnCells(occupied, a, m)[k].0 == a && ColumnCells(occupied, a, m)[k].1 < m
      && occupied(a, ColumnCells(occupied, a, m)[k].1)
    ensures forall k, l :: 0 <= k < l < |ColumnCells(occupied, a, m)| ==>
      ColumnCells(occupied, a, m)[k].1 < ColumnCells(occupied, a, m)[l].1
    ensures forall b: nat :: b < m && occupied(a, b) ==> (a, b) in ColumnCells(occupied, a, m)
  {
    if m > 0 {
      ColumnCellsFacts(occupied, a, m - 1);
    }
  }

  /** The sweep over columns `0 .. m-1` emits the pick of each occupied cell, in visiting order. */
  lemma {:induction false} SweepPicks(occupied: (nat, nat) -> bool, pick: (nat, nat) -> int, n: nat, m: nat)
    ensures var ids, cells := Sweep(occupied, pick, n, m), CellOrder(occupied, n, m);
      && |ids| == |cells|
      && (forall k :: 0 <= k < |cells| ==> ids[k] == pick(cells[k].0, cells[k].1))
  {
    if m > 0 {
      SweepPicks(occupied, pick, n, m - 1);
      ColumnPicks(occupied, pick, m - 1, n);
    }
  }

  /** The sweep over columns `0 .. m-1` visits every occupied cell exactly once, `ix` outer and `iy` inner. */
  lemma {:induction false} CellOrderFacts(occupied: (nat, nat) -> bool, n: nat, m: nat)
    ensures forall k :: 0 <= k < |CellOrder(occupied, n, m)| ==>
      CellOrder(occupied, n, m)[k] in OccupiedCells(occupied, n, m)
    ensures forall k, l :: 0 <= k < l < |CellOrder(occupied, n, m)| ==>
      VisitedBefore(CellOrder(occupied, n, m)[k], CellOrder(occupied, n, m)[l])
    ensures forall c :: c in OccupiedCells(occupied, n, m) ==> c in CellOrder(occupied, n, m)
  {
    if m > 0 {
      CellOrderFacts(occupied, n, m - 1);
      ColumnCellsFacts(occupied, m - 1, n);
      var cells := CellOrder(occupied, n, m);
      var before, here := CellOrder(occupied, n, m - 1), ColumnCells(occupied, m - 1, n);
      assert cells == before + here;
      forall k | 0 <= k < |cells|
        ensures cells[k] in OccupiedCells(occupied, n, m)
      {
        if k < |before| {
          assert cells[k] == before[k];
          InOccupied(occupied, n, m - 1, before[k]);
        } else {
          assert cells[k] == here[k - |before|];
        }
        InOccupied(occupied, n, m, cells[k]);
      }
      forall k, l | 0 <= k < l < |cells|
        ensures VisitedBefore(cells[k], cells[l])
      {
        if l < |before| {
          assert cells[k] == before[k] && cells[l] == before[l];
        } else if |before| <= k {
          assert cells[k] == here[k - |before|] && cells[l] == here[l - |before|];
        } else {
          assert cells[k] == before[k];
          InOccupied(occupied, n, m - 1, before[k]);
          assert cells[l] == here[l - |before|];
        }
      }
      forall c | c in OccupiedCells(occupied, n, m)
        ensures c in cells
      {
        if c.0 < m - 1 {
          assert c in OccupiedCells(occupied, n, m - 1);
        } else {
          assert c in here;
        }
      }
    }
  }

  /** A sequence without repeats has as many entries as the set of its entries. */
  lemma {:induction false} DistinctCardinality<T>(xs: seq<T>)
    requires forall k, l :: 0 <= k < l < |xs| ==> xs[k] != xs[l]
    ensures |set x | x in xs| == |xs|
  {
    if xs != [] {
      var front := xs[..|xs| - 1];
      DistinctCardinality(front);
      assert (set x | x in xs) == (set x | x in front) + {xs[|xs| - 1]};
    }
  }

  /** The sweep emits exactly one id per occupied cell. */
  lemma SweepCount(occupied: (nat, nat) -> bool, pick: (nat, nat) -> int, n: nat)
    ensures |Sweep(occupied, pick, n, n)| == |OccupiedCells(occupied, n, n)|
  {
    SweepPicks(occupied, pick, n, n);
    CellOrderFacts(occupied, n, n);
    var cells := CellOrder(occupied, n, n);
    forall k, l | 0 <= k < l < |cells|
      ensures cells[k] != cells[l]
    {
      assert VisitedBefore(cells[k], cells[l]);
    }
    DistinctCardinality(cells);
    assert (set x | x in cells) == OccupiedCells(occupied, n, n);
  }

  /** Cell (a, b) holds at least one entry. */
  function Occupied(meta: seq<Meta>, g: Grid): (nat, nat) -> bool
    requires Bucketable(meta, g)
  {
    (a: nat, b: nat) => Bucket(meta, g, a, b) != []
  }

  /** The nearest-to-corner pick of each cell. */
  function Picker(meta: seq<Meta>, g: Grid, cosLat: real -> real): (nat, nat) -> int
    requires Bucketable(meta, g)
  {
    (a: nat, b: nat) => Pick(meta, g, cosLat, a, b)
  }

  /** `load_ids` after both loops: the pick of every occupied cell, `ix` outer and `iy` inner. */
  function Selected(meta: seq<Meta>, g: Grid, cosLat: real -> real): seq<int>
    requires Bucketable(meta, g)
  {
    Sweep(Occupied(meta, g), Picker(meta, g, cosLat), g.n, g.n)
  }

  /**
   * One id per occupied cell, in visiting order: entry `k` is the scan result
   * of the `k`-th occupied cell, so no empty cell contributes and no
   * non-negative id is emitted twice.
   */
  lemma SelectedPerCell(meta: seq<Meta>, g: Grid, cosLat: real -> real)
    requires Bucketable(meta, g)
    ensures var sel, cells := Selected(meta, g, cosLat), CellOrder(Occupied(meta, g), g.n, g.n);
      && |sel| == |cells| == |OccupiedCells(Occupied(meta, g), g.n, g.n)|
      && (forall k :: 0 <= k < |cells| ==> cells[k].0 < g.n && cells[k].1 < g.n && Bucket(meta, g, cells[k].0, cells[k].1) != [])
      && (forall k :: 0 <= k < |cells| ==> sel[k] == Pick(meta, g, cosLat, cells[k].0, cells[k].1))
      && (forall k :: 0 <= k < |cells| && 0 <= sel[k] ==> sel[k] < |meta| && CellOf(meta[sel[k]], g) == Some(cells[k]))
      && (forall k, l :: 0 <= k < l < |sel| && 0 <= sel[k] ==> sel[k] != sel[l])
  {
    var occ, pk := Occupied(meta, g), Picker(meta, g, cosLat);
    SweepPicks(occ, pk, g.n, g.n);
    CellOrderFacts(occ, g.n, g.n);
    SweepCount(occ, pk, g.n);
    var sel, cells := Selected(meta, g, cosLat), CellOrder(occ, g.n, g.n);
    forall k | 0 <= k < |cells|
      ensures sel[k] == Pick(meta, g, cosLat, cells[k].0, cells[k].1)
      ensures 0 <= sel[k] ==> sel[k] < |meta| && CellOf(meta[sel[k]], g) == Some(cells[k])
    {
      PickInCell(meta, g, cosLat, cells[k].0, cells[k].1);
    }
    forall k, l | 0 <= k < l < |sel| && 0 <= sel[k]
      ensures sel[k] != sel[l]
    {
      assert VisitedBefore(cells[k], cells[l]);
    }
  }

  /**
   * When every entry is nearer than 10**10 to the corner of the cell it lands
   * in, no cell falls back to the -1 sentinel.
   */
  lemma SelectedWithinRange(meta: seq<Meta>, g: Grid, cosLat: real -> real)
    requires Bucketable(meta, g)
    requires forall i :: 0 <= i < |meta| && CellOf(meta[i], g).Some? ==>
      var c := CellOf(meta[i], g).value;
      Dist(meta[i], XBase(g, c.0), YBase(g, c.1), cosLat(YBase(g, c.1))) < Far
    ensures forall k :: 0 <= k < |Selected(meta, g, cosLat)| ==> 0 <= Selected(meta, g, cosLat)[k]
  {
    SelectedPerCell(meta, g, cosLat);
    var sel, cells := Selected(meta, g, cosLat), CellOrder(Occupied(meta, g), g.n, g.n);
    forall k | 0 <= k < |sel|
      ensures 0 <= sel[k]
    {
      var (a, b) := cells[k];
      var cands := Bucket(meta, g, a, b);
      BucketFacts(meta, g, a, b);
      NearestIsFirstMinimum(meta, cands, XBase(g, a), YBase(g, b), cosLat(YBase(g, b)));
      assert cands[0] in cands;
    }
  }

  /**
   * How one axis offset `t = (v - start)/d` (in cell widths) picks a cell:
   * `[0, n)` by truncation, `(-1, 0)` truncates into cell 0, `(-n-1, -1]`
   * truncates to a negative index that wraps to cell `n + int(t)` at the far
   * end, and everything else raises IndexError and is dropped.
   */
  lemma AxisIndexCases(t: real, n: nat)
    ensures 0.0 <= t < n as real ==> PyIndex(Trunc(t), n) == Some(t.Floor)
    ensures -1.0 < t < 0.0 && 0 < n ==> PyIndex(Trunc(t), n) == Some(0)
    ensures -(n as real) - 1.0 < t <= -1.0 ==> PyIndex(Trunc(t), n) == Some(n + Trunc(t)) && n + Trunc(t) < n
    ensures n as real <= t || t <= -(n as real) - 1.0 ==> PyIndex(Trunc(t), n) == None
  {
    TruncTowardZero(t);
  }

  /** A point exactly on the east edge of the box (`x == x_end`) is dropped. */
  lemma EastEdgeDropped(p: Meta, g: Grid, xEnd: real)
    requires HasPosition(p) && Divisible(g) && 0 < g.n
    requires g.dx == (xEnd - g.xStart) / g.n as real
    requires Longitude(p) == xEnd
    ensures CellOf(p, g) == None
  {
    assert (Longitude(p) - g.xStart) / g.dx == g.n as real;
    AxisIndexCases(g.n as real, g.n);
  }

  /** A point exactly on the north edge of the box (`y == y_end`) is dropped. */
  lemma NorthEdgeDropped(p: Meta, g: Grid, yEnd: real)
    requires HasPosition(p) && Divisible(g) && 0 < g.n
    requires g.dy == (yEnd - g.yStart) / g.n as real
    requires Latitude(p) == yEnd
    ensures CellOf(p, g) == None
  {
    assert (Latitude(p) - g.yStart) / g.dy == g.n as real;
    AxisIndexCases(g.n as real, g.n);
  }

  /** The box as `load` reads it: `bbox = [[sw_lat, sw_long], [ne_lat, ne_long]]`. */
  datatype Box = Box(swLat: real, swLong: real, neLat: real, neLong: real)

  /** The grid `load(grid_level)` lays over the box: `2**level` cells per axis. */
  function GridOf(box: Box, level: nat): (g: Grid)
    ensures g.n == Pow2(level) && g.xStart == box.swLong && g.yStart == box.swLat
    ensures g.dx * g.n as real == box.neLong - box.swLong
    ensures g.dy * g.n as real == box.neLat - box.swLat
  {
    var n := Pow2(level);
    Grid(n, box.swLong, box.swLat, (box.neLong - box.swLong) / n as real, (box.neLat - box.swLat) / n as real)
  }

  /**
   * The exception the bucketing loop raises from entry `i` on, if any: a
   * position with fewer than two coordinates raises IndexError, and the first
   * division by a zero cell size raises ZeroDivisionError.
   */
  function ErrorFrom(meta: seq<Meta>, g: Grid, i: nat): Option<Error>
    decreases |meta| - i
  {
    if |meta| <= i then None
    else if !HasPosition(meta[i]) then Some(IndexError)
    else if !Divisible(g) then Some(ZeroDivisionError)
    else ErrorFrom(meta, g, i + 1)
  }

  /** Without an exception, every entry has a position and the cell sizes are usable. */
  lemma {:induction false} NoErrorBucketable(meta: seq<Meta>, g: Grid, i: nat)
    requires i <= |meta| && ErrorFrom(meta, g, i) == None
    ensures forall j :: i <= j < |meta| ==> HasPosition(meta[j])
    ensures i < |meta| ==> Divisible(g)
    decreases |meta| - i
  {
    if i < |meta| {
      NoErrorBucketable(meta, g, i + 1);
    }
  }

  /** What `load` ends in: the superclass load of everything, or of the given ids. */
  datatype LoadCall = LoadAll | LoadIds(ids: seq<int>)

  /** The outcome of `load(grid_level)` on metadata `meta` and box `box`. */
  function LoadOutcome(meta: seq<Meta>, box: Box, gridLevel: Option<nat>, cosLat: real -> real): Result<LoadCall>
  {
    if gridLevel.None? then Ok(LoadAll)
    else
      var g := GridOf(box, gridLevel.value);
      var err := ErrorFrom(meta, g, 0);
      if err.Some? then Err(err.value)
      else
        NoErrorBucketable(meta, g, 0);
        Ok(LoadIds(Selected(meta, g, cosLat)))
  }

  /** The smaller of two reals. */
  function Min(a: real, b: real): real
  {
    if a <= b then a else b
  }

  /** The larger of two reals. */
  function Max(a: real, b: real): real
  {
    if a <= b then b else a
  }

  /**
   * Puts a 2x2 box in south-west / north-east order in place: each column
   * (latitude, longitude) gets its smaller value in row 0 and its larger in
   * row 1, by swapping the two entries when they are out of order.
   */
  method NormalizeBox(bbox: array2<real>)
    requires bbox.Length0 == 2 && bbox.Length1 == 2
    modifies bbox
    ensures bbox[0, 0] == Min(old(bbox[0, 0]), old(bbox[1, 0])) && bbox[1, 0] == Max(old(bbox[0, 0]), old(bbox[1, 0]))
    ensures bbox[0, 1] == Min(old(bbox[0, 1]), old(bbox[1, 1])) && bbox[1, 1] == Max(old(bbox[0, 1]), old(bbox[1, 1]))
  {
    if bbox[0, 0] > bbox[1, 0] {
      var t := bbox[0, 0];
      bbox[0, 0] := bbox[1, 0];
      bbox[1, 0] := t;
    }
    if bbox[0, 1] > bbox[1, 1] {
      var t := bbox[0, 1];
      bbox[0, 1] := bbox[1, 1];
      bbox[1, 1] := t;
    }
  }

  /** Min and Max of a pair are in order and are the pair itself, possibly swapped. */
  lemma MinMaxOrdered(a: real, b: real)
    ensures Min(a, b) <= Max(a, b)
    ensures (Min(a, b), Max(a, b)) == (a, b) || (Min(a, b), Max(a, b)) == (b, a)
  {
  }

  /**
   * `bb_string`, the box in the order the data.amsterdam API wants:
   * `sw_long,ne_lat,ne_long,sw_lat`; `str` is Python's float formatting.
   */
  function BoxString(box: Box, str: real -> string): string
  {
    str(box.swLong) + "," + str(box.neLat) + "," + str(box.neLong) + "," + str(box.swLat)
  }

  /** Since a formatted float holds no comma, splitting `bb_string` on commas gives back the four fields in order. */
  lemma BoxStringFields(box: Box, str: real -> string)
    requires forall r :: ',' !in str(r)
    ensures Split(BoxString(box, str), ',') == [str(box.swLong), str(box.neLat), str(box.neLong), str(box.swLat)]
  {
    var parts := [str(box.swLong), str(box.neLat), str(box.neLong), str(box.swLat)];
    assert JoinWith(parts[3..], ',') == str(box.swLat);
    assert JoinWith(parts[2..], ',') == str(box.neLong) + [','] + str(box.swLat);
    assert JoinWith(parts[1..], ',') == str(box.neLat) + [','] + str(box.neLong) + [','] + str(box.swLat);
    assert BoxString(box, str) == JoinWith(parts, ',');
    SplitJoinWith(parts, ',');
  }

  /**
   * The tile manager. Inherited state is flattened into the class: the
   * metadata list comes from the panorama manager (`get`), and `load` ends in
   * the manager's own load, which is represented by its `LoadCall`.
   */
  class AdamPanoramaTile {
    var tileName: string
    var dataDir: string
    var bbox: array2<real>
    var bbString: string
    var metaData: seq<Meta>

    predicate Valid()
      reads this
    {
      bbox.Length0 == 2 && bbox.Length1 == 2
    }

    /** The box as the fields hold it. */
    function TheBox(): Box
      reads this, bbox
      requires Valid()
    {
      Box(bbox[0, 0], bbox[0, 1], bbox[1, 0], bbox[1, 1])
    }

    /**
     * Keeps the caller's 2x2 `bbox` (sorted in place, so the caller sees the
     * swap too), derives the tile's data directory from the manager's and
     * formats `bb_string`.
     */
    constructor (tileName: string, bbox: array2<real>, managerDataDir: string, str: real -> string)
      requires bbox.Length0 == 2 && bbox.Length1 == 2
      modifies bbox
      ensures Valid() && this.bbox == bbox
      ensures this.tileName == tileName && dataDir == PathJoin(managerDataDir, tileName) && metaData == []
      ensures TheBox() == Box(Min(old(bbox[0, 0]), old(bbox[1, 0])), Min(old(bbox[0, 1]), old(bbox[1, 1])),
                              Max(old(bbox[0, 0]), old(bbox[1, 0])), Max(old(bbox[0, 1]), old(bbox[1, 1])))
      ensures bbString == BoxString(TheBox(), str)
    {
      this.tileName := tileName;
      dataDir := PathJoin(managerDataDir, tileName);
      metaData := [];
      NormalizeBox(bbox);
      bbString := str(bbox[0, 1]) + "," + str(bbox[1, 0]) + "," + str(bbox[1, 1]) + "," + str(bbox[0, 0]);
      this.bbox := bbox;
    }

    /**
     * `load(grid_level)`: without a level, defer to the manager's load;
     * otherwise bucket the metadata into the grid and pick one entry per
     * occupied cell.
     */
    method Load(gridLevel: Option<nat>, cosLat: real -> real) returns (r: Result<LoadCall>)
      requires Valid()
      ensures r == LoadOutcome(metaData, TheBox(), gridLevel, cosLat)
    {
      if gridLevel.None? {
        return Ok(LoadAll);
      }
      var n := Pow2(gridLevel.value);
      var xStart, xEnd := bbox[0, 1], bbox[1, 1];
      var yStart, yEnd := bbox[0, 0], bbox[1, 0];
      var dx := (xEnd - xStart) / n as real;
      var dy := (yEnd - yStart) / n as real;
      var g := Grid(n, xStart, yStart, dx, dy);
      assert g == GridOf(TheBox(), gridLevel.value);
      var sampleList := FillSampleList(metaData, g);
      if sampleList.Err? {
        return Err(sampleList.error);
      }
      var loadIds := PickPerCell(metaData, g, cosLat, sampleList.value);
      return Ok(LoadIds(loadIds));
    }
  }

  /**
   * The first loop of `load`: enumerate the metadata and append each index to
   * the bucket of its cell, dropping points whose cell index is out of range.
   */
  method FillSampleList(meta: seq<Meta>, g: Grid) returns (r: Result<array2<seq<nat>>>)
    ensures r.Err? <==> ErrorFrom(meta, g, 0).Some?
    ensures r.Err? ==> r.error == ErrorFrom(meta, g, 0).value
    ensures r.Ok? ==> && fresh(r.value) && r.value.Length0 == g.n && r.value.Length1 == g.n
                      && Bucketable(meta, g)
                      && forall a, b :: 0 <= a < g.n && 0 <= b < g.n ==> r.value[a, b] == Bucket(meta, g, a, b)
  {
    var n := g.n;
    var sampleList := new seq<nat>[n, n]((a, b) => []);
    for i := 0 to |meta|
      invariant ErrorFrom(meta, g, 0) == ErrorFrom(meta, g, i)
      invariant Bucketable(meta[..i], g)
      invariant forall a, b :: 0 <= a < n && 0 <= b < n ==> sampleList[a, b] == Bucket(meta[..i], g, a, b)
    {
      var c := meta[i].coordinates;
      if |c| < 2 {
        return Err(IndexError);
      }
      if g.dx == 0.0 || g.dy == 0.0 {
        return Err(ZeroDivisionError);
      }
      var ix := PyIndex(Trunc((c[0] - g.xStart) / g.dx), n);
      var iy := PyIndex(Trunc((c[1] - g.yStart) / g.dy), n);
      assert meta[..i + 1][..i] == meta[..i];
      assert meta[..i + 1][i] == meta[i];
      assert Bucketable(meta[..i + 1], g);
      assert CellOf(meta[i], g) == if ix.Some? && iy.Some? then Some((ix.value, iy.value)) else None;
      if ix.Some? && iy.Some? {
        sampleList[ix.value, iy.value] := sampleList[ix.value, iy.value] + [i];
      }
      forall a, b | 0 <= a < n && 0 <= b < n
        ensures sampleList[a, b] == Bucket(meta[..i + 1], g, a, b)
      {
        BucketGrow(meta, g, i, a, b);
      }
    }
    assert meta[..|meta|] == meta;
    return Ok(sampleList);
  }

  /**
   * The inner scan of `load` over one cell: keep the first candidate whose
   * distance is strictly below the best so far, starting from -1 at 10**10.
   */
  method ScanCell(meta: seq<Meta>, cands: seq<nat>, xBase: real, yBase: real, xFac: real)
    returns (idxMin: int, minDist: real)
    requires Candidates(meta, cands)
    ensures (idxMin, minDist) == Nearest(meta, cands, xBase, yBase, xFac)
  {
    minDist := Far;
    idxMin := -1;
    for k := 0 to |cands|
      invariant (idxMin, minDist) == Nearest(meta, cands[..k], xBase, yBase, xFac)
    {
      var dist := Dist(meta[cands[k]], xBase, yBase, xFac);
      assert cands[..k + 1][..k] == cands[..k];
      if dist < minDist {
        idxMin := cands[k];
        minDist := dist;
      }
    }
    assert cands[..|cands|] == cands;
  }

  /**
   * The second loop of `load`: visit the cells `ix` outer, `iy` inner, skip
   * empty ones and emit the scan result of every other one.
   */
  method PickPerCell(meta: seq<Meta>, g: Grid, cosLat: real -> real, sampleList: array2<seq<nat>>)
    returns (loadIds: seq<int>)
    requires Bucketable(meta, g)
    requires sampleList.Length0 == g.n && sampleList.Length1 == g.n
    requires forall a, b :: 0 <= a < g.n && 0 <= b < g.n ==> sampleList[a, b] == Bucket(meta, g, a, b)
    ensures loadIds == Selected(meta, g, cosLat)
  {
    ghost var occupied, picker := Occupied(meta, g), Picker(meta, g, cosLat);
    forall a: nat, b: nat | a < g.n && b < g.n
      ensures CellScan(meta, g, cosLat, sampleList[a, b], occupied, picker, a, b)
    {
      PickIsScan(meta, g, cosLat, a, b);
    }
    loadIds := [];
    for ix := 0 to g.n
      invariant loadIds == Sweep(occupied, picker, g.n, ix)
    {
      var column := PickColumn(meta, g, cosLat, sampleList, ix, occupied, picker);
      loadIds := loadIds + column;
    }
  }

  /**
   * What the loops need to know about one cell: its list holds positioned
   * entries, it counts as occupied when that list is not empty, and its pick
   * is the scan of that list from the cell's corner.
   */
  predicate CellScan(meta: seq<Meta>, g: Grid, cosLat: real -> real, cands: seq<nat>,
                     occupied: (nat, nat) -> bool, picker: (nat, nat) -> int, a: nat, b: nat)
  {
    && Candidates(meta, cands)
    && occupied(a, b) == (cands != [])
    && picker(a, b) == Nearest(meta, cands, XBase(g, a), YBase(g, b), cosLat(YBase(g, b))).0
  }

  /** The buckets and the pick satisfy `CellScan` for every cell. */
  lemma PickIsScan(meta: seq<Meta>, g: Grid, cosLat: real -> real, a: nat, b: nat)
    requires Bucketable(meta, g)
    ensures CellScan(meta, g, cosLat, Bucket(meta, g, a, b), Occupied(meta, g), Picker(meta, g, cosLat), a, b)
  {
  }

  /** One pass of the inner `iy` loop of `load`, over column `ix`. */
  method PickColumn(meta: seq<Meta>, g: Grid, cosLat: real -> real, sampleList: array2<seq<nat>>, ix: nat,
                    ghost occupied: (nat, nat) -> bool, ghost picker: (nat, nat) -> int)
    returns (ids: seq<int>)
    requires ix < g.n && sampleList.Length0 == g.n && sampleList.Length1 == g.n
    requires forall b: nat :: b < g.n ==> CellScan(meta, g, cosLat, sampleList[ix, b], occupied, picker, ix, b)
    ensures ids == Column(occupied, picker, ix, g.n)
  {
    ids := [];
    for iy := 0 to g.n
      invariant ids == Column(occupied, picker, ix, iy)
    {
      var curList := sampleList[ix, iy];
      assert CellScan(meta, g, cosLat, curList, occupied, picker, ix, iy);
      if |curList| == 0 {
        assert !occupied(ix, iy);
        assert Column(occupied, picker, ix, iy + 1) == ids + [];
        continue;
      }
      var xBase := XBase(g, ix);
      var yBase := YBase(g, iy);
      var xFac := cosLat(yBase);
      var idxMin, minDist := ScanCell(meta, curList, xBase, yBase, xFac);
      assert occupied(ix, iy) && idxMin == picker(ix, iy);
      assert Column(occupied, picker, ix, iy + 1) == ids + [idxMin];
      ids := ids + [idxMin];
    }
  }
}
