/** The SVG text gate: overlapping text boxes are found through a 5 mm bucket grid instead of by comparing all pairs. */
module TextOverlap {

  /** A text box; a negative width or height is possible. */
  datatype Box = Box(content: string, x0: real, x1: real, y0: real, y1: real)

  const CELL := 5.0
  const THRESH := 0.15

  function Min(a: real, b: real): real { if a < b then a else b }
  function Max(a: real, b: real): real { if a < b then b else a }

  function Area(b: Box): real {
    Max(b.x1 - b.x0, 0.000001) * Max(b.y1 - b.y0, 0.000001)
  }

  function OverlapArea(a: Box, b: Box): real {
    var ix := Min(a.x1, b.x1) - Max(a.x0, b.x0);
    var iy := Min(a.y1, b.y1) - Max(a.y0, b.y0);
    if ix <= 0.0 || iy <= 0.0 then 0.0 else ix * iy
  }

  predicate Violates(a: Box, b: Box) {
    OverlapArea(a, b) > THRESH * Min(Area(a), Area(b))
  }

  // ---------------------------------------------------------------- what the overlap is

  predicate Inside(b: Box, x: real, y: real) {
    b.x0 < x < b.x1 && b.y0 < y < b.y1
  }

  /** The overlap is positive exactly when some point lies inside both boxes. */
  lemma OverlapMeansCommonPoint(a: Box, b: Box)
    ensures OverlapArea(a, b) > 0.0 <==> exists x: real, y: real :: Inside(a, x, y) && Inside(b, x, y)
  {
    var l, r := Max(a.x0, b.x0), Min(a.x1, b.x1);
    var t, u := Max(a.y0, b.y0), Min(a.y1, b.y1);
    if OverlapArea(a, b) > 0.0 {
      var x, y := (l + r) / 2.0, (t + u) / 2.0;
      assert Inside(a, x, y) && Inside(b, x, y);
    }
    forall x: real, y: real | Inside(a, x, y) && Inside(b, x, y) ensures OverlapArea(a, b) > 0.0 {
      CommonPointOverlaps(a, b, x, y);
    }
  }

  lemma CommonPointOverlaps(a: Box, b: Box, x: real, y: real)
    requires Inside(a, x, y) && Inside(b, x, y)
    ensures OverlapArea(a, b) > 0.0
  {
    var ix := Min(a.x1, b.x1) - Max(a.x0, b.x0);
    var iy := Min(a.y1, b.y1) - Max(a.y0, b.y0);
    assert ix > 0.0 && iy > 0.0;
    PositiveProduct(ix, iy);
    assert OverlapArea(a, b) == ix * iy;
  }

  lemma PositiveProduct(a: real, b: real)
    requires a > 0.0 && b > 0.0
    ensures a * b > 0.0
  {
  }

  lemma AreaIsPositive(b: Box)
    ensures Area(b) > 0.0
  {
    PositiveProduct(Max(b.x1 - b.x0, 0.000001), Max(b.y1 - b.y0, 0.000001));
  }

  lemma ViolationOverlaps(a: Box, b: Box)
    requires Violates(a, b)
    ensures OverlapArea(a, b) > 0.0
  {
    AreaIsPositive(a);
    AreaIsPositive(b);
  }

  /** The box two boxes have in common; it is turned inside out when there is none. */
  function Common(a: Box, b: Box): Box {
    Box("", Max(a.x0, b.x0), Min(a.x1, b.x1), Max(a.y0, b.y0), Min(a.y1, b.y1))
  }

  lemma CommonHoldsTheCommonPoints(a: Box, b: Box, x: real, y: real)
    ensures Inside(Common(a, b), x, y) <==> Inside(a, x, y) && Inside(b, x, y)
  {
  }

  /** The overlap is the width times the height of what the boxes have in common, nothing if that is no box. */
  lemma OverlapIs(a: Box, b: Box)
    ensures var c := Common(a, b);
      OverlapArea(a, b) == if c.x0 < c.x1 && c.y0 < c.y1 then (c.x1 - c.x0) * (c.y1 - c.y0) else 0.0
    ensures OverlapArea(a, b) == OverlapArea(b, a)
  {
  }

  /** An area is width times height, where neither counts as less than a millionth. */
  lemma AreaIs(b: Box)
    ensures b.x1 - b.x0 >= 0.000001 && b.y1 - b.y0 >= 0.000001 ==> Area(b) == (b.x1 - b.x0) * (b.y1 - b.y0)
    ensures b.x1 - b.x0 < 0.000001 && b.y1 - b.y0 >= 0.000001 ==> Area(b) == 0.000001 * (b.y1 - b.y0)
    ensures b.x1 - b.x0 >= 0.000001 && b.y1 - b.y0 < 0.000001 ==> Area(b) == (b.x1 - b.x0) * 0.000001
    ensures b.x1 - b.x0 < 0.000001 && b.y1 - b.y0 < 0.000001 ==> Area(b) == 0.000001 * 0.000001
  {
  }

  /** Two boxes violate the gate when their overlap is more than 15 percent of one of them. */
  lemma ViolatesIff(a: Box, b: Box)
    ensures Violates(a, b) <==> OverlapArea(a, b) > 0.15 * Area(a) || OverlapArea(a, b) > 0.15 * Area(b)
    ensures Violates(a, b) <==> Violates(b, a)
  {
    OverlapIs(a, b);
    hide OverlapArea, Area;
  }

  // ---------------------------------------------------------------- cells

  type Cell = (int, int)

  /** Floor division, for negative coordinates too. */
  function Index(x: real): int {
    (x / CELL).Floor
  }

  predicate Covers(b: Box, c: Cell) {
    Index(b.x0) <= c.0 <= Index(b.x1) && Index(b.y0) <= c.1 <= Index(b.y1)
  }

  lemma IndexIsMonotone(x: real, y: real)
    requires x <= y
    ensures Index(x) <= Index(y)
  {
    assert x / CELL <= y / CELL;
  }

  /** Boxes that overlap share a cell. */
  lemma OverlapSharesCell(a: Box, b: Box) returns (c: Cell)
    requires OverlapArea(a, b) > 0.0
    ensures Covers(a, c) && Covers(b, c)
  {
    var x, y := Max(a.x0, b.x0), Max(a.y0, b.y0);
    c := (Index(x), Index(y));
    IndexIsMonotone(a.x0, x);
    IndexIsMonotone(b.x0, x);
    IndexIsMonotone(x, a.x1);
    IndexIsMonotone(x, b.x1);
    IndexIsMonotone(a.y0, y);
    IndexIsMonotone(b.y0, y);
    IndexIsMonotone(y, a.y1);
    IndexIsMonotone(y, b.y1);
  }

  // ---------------------------------------------------------------- the grid

  type Grid = map<Cell, seq<nat>>

  function At(grid: Grid, c: Cell): seq<nat> {
    if c in grid then grid[c] else []
  }

  /** The boxes among the first `n` that cover a cell, in order. */
  function Bucket(texts: seq<Box>, n: nat, c: Cell): (r: seq<nat>)
    requires n <= |texts|
    ensures forall i :: i in r <==> 0 <= i < n && Covers(texts[i], c)
  {
    if n == 0 then [] else Bucket(texts, n - 1, c) + if Covers(texts[n - 1], c) then [n - 1] else []
  }

  lemma {:induction false} BucketIsIncreasing(texts: seq<Box>, n: nat, c: Cell)
    requires n <= |texts|
    ensures forall i, j :: 0 <= i < j < |Bucket(texts, n, c)| ==> Bucket(texts, n, c)[i] < Bucket(texts, n, c)[j]
  {
    if n > 0 {
      BucketIsIncreasing(texts, n - 1, c);
      var r := Bucket(texts, n - 1, c);
      assert forall i :: 0 <= i < |r| ==> r[i] in r;
    }
  }

  /** The cells of a box up to column `gx`, row `gy`, in the order of the two loops. */
  predicate CoversBefore(b: Box, c: Cell, gx: int, gy: int) {
    Covers(b, c) && (c.0 < gx || (c.0 == gx && c.1 < gy))
  }

  ghost predicate Filled(grid: Grid, texts: seq<Box>, n: nat)
    requires n <= |texts|
  {
    forall c {:trigger At(grid, c)} :: At(grid, c) == Bucket(texts, n, c)
  }

  ghost predicate Filling(grid: Grid, texts: seq<Box>, n: nat, gx: int, gy: int)
    requires n < |texts|
  {
    forall c {:trigger At(grid, c)} ::
        At(grid, c) == Bucket(texts, n, c) + if CoversBefore(texts[n], c, gx, gy) then [n] else []
  }

  lemma FillCell(grid: Grid, texts: seq<Box>, n: nat, gx: int, gy: int)
    requires n < |texts| && Filling(grid, texts, n, gx, gy) && Covers(texts[n], (gx, gy))
    ensures Filling(grid[(gx, gy) := At(grid, (gx, gy)) + [n]], texts, n, gx, gy + 1)
  {
    var v := grid[(gx, gy) := At(grid, (gx, gy)) + [n]];
    forall c ensures At(v, c) == Bucket(texts, n, c) + if CoversBefore(texts[n], c, gx, gy + 1) then [n] else [] {
      assert At(v, c) == if c == (gx, gy) then At(grid, c) + [n] else At(grid, c);
    }
  }

  lemma StartBox(grid: Grid, texts: seq<Box>, n: nat)
    requires n < |texts| && Filled(grid, texts, n)
    ensures Filling(grid, texts, n, Index(texts[n].x0), Index(texts[n].y0))
  {
  }

  /** The end of a column is the start of the next. */
  lemma NextColumn(grid: Grid, texts: seq<Box>, n: nat, gx: int, gy: int)
    requires n < |texts| && Filling(grid, texts, n, gx, gy) && gy > Index(texts[n].y1)
    ensures Filling(grid, texts, n, gx + 1, Index(texts[n].y0))
  {
  }

  lemma EndBox(grid: Grid, texts: seq<Box>, n: nat, gx: int)
    requires n < |texts| && Filling(grid, texts, n, gx, Index(texts[n].y0)) && gx > Index(texts[n].x1)
    ensures Filled(grid, texts, n + 1)
  {
  }

  method FillGrid(texts: seq<Box>) returns (grid: Grid)
    ensures Filled(grid, texts, |texts|)
  {
    grid := map[];
    var n := 0;
    assert Filled(grid, texts, n);
    while n < |texts|
      invariant n <= |texts| && Filled(grid, texts, n)
    {
      hide Filled, Filling, At;
      var t := texts[n];
      var gx0, gx1, gy0, gy1 := Index(t.x0), Index(t.x1), Index(t.y0), Index(t.y1);
      var gx := gx0;
      StartBox(grid, texts, n);
      while gx < gx1 + 1
        invariant gx0 <= gx && Filling(grid, texts, n, gx, gy0)
      {
        var gy := gy0;
        while gy < gy1 + 1
          invariant gy0 <= gy && Filling(grid, texts, n, gx, gy)
        {
          FillCell(grid, texts, n, gx, gy);
          grid := grid[(gx, gy) := At(grid, (gx, gy)) + [n]];
          gy := gy + 1;
        }
        NextColumn(grid, texts, n, gx, gy);
        gx := gx + 1;
      }
      EndBox(grid, texts, n, gx);
      n := n + 1;
    }
  }

  // ---------------------------------------------------------------- the gate

  type Pair = (nat, nat)

  /** All pairs, compared one by one. */
  function AllViolations(texts: seq<Box>): set<Pair> {
    set i: nat, j: nat | i < j < |texts| && Violates(texts[i], texts[j]) :: (i, j)
  }

  ghost predicate Recorded(texts: seq<Box>, checked: set<Pair>, violations: seq<Pair>) {
    && (forall p :: p in checked ==> p.0 < p.1 < |texts|)
    && (forall p :: p in violations <==> p in checked && Violates(texts[p.0], texts[p.1]))
    && (forall i, j :: 0 <= i < j < |violations| ==> violations[i] != violations[j])
  }

  /** Every pair of a bucket has been looked at. */
  ghost predicate BucketDone(bucket: seq<nat>, checked: set<Pair>) {
    forall i, j :: 0 <= i < j < |bucket| ==> (bucket[i], bucket[j]) in checked
  }

  predicate Increasing(bucket: seq<nat>, n: nat) {
    forall i, j :: 0 <= i < j < |bucket| ==> bucket[i] < bucket[j] < n
  }

  method CheckBucket(texts: seq<Box>, bucket: seq<nat>, checked: set<Pair>, violations: seq<Pair>)
    returns (checked': set<Pair>, violations': seq<Pair>)
    requires Recorded(texts, checked, violations)
    requires Increasing(bucket, |texts|)
    ensures Recorded(texts, checked', violations') && checked <= checked' && BucketDone(bucket, checked')
  {
    checked', violations' := checked, violations;
    var i := 0;
    while i < |bucket|
      invariant i <= |bucket| && Recorded(texts, checked', violations') && checked <= checked'
      invariant forall k, l :: 0 <= k < i && k < l < |bucket| ==> (bucket[k], bucket[l]) in checked'
    {
      var j := i + 1;
      while j < |bucket|
        invariant i < j <= |bucket| && Recorded(texts, checked', violations') && checked <= checked'
        invariant forall k, l :: 0 <= k < i && k < l < |bucket| ==> (bucket[k], bucket[l]) in checked'
        invariant forall l :: i < l < j ==> (bucket[i], bucket[l]) in checked'
      {
        var pair := (bucket[i], bucket[j]);
        if pair !in checked' {
          checked' := checked' + {pair};
          if OverlapArea(texts[pair.0], texts[pair.1]) > THRESH * Min(Area(texts[pair.0]), Area(texts[pair.1])) {
            violations' := violations' + [pair];
          }
        }
        j := j + 1;
      }
      i := i + 1;
    }
  }

  /** Once every bucket is done, no overlapping pair has been missed. */
  lemma EveryViolationIsChecked(texts: seq<Box>, checked: set<Pair>, i: nat, j: nat)
    requires i < j < |texts| && Violates(texts[i], texts[j])
    requires forall c :: BucketDone(Bucket(texts, |texts|, c), checked)
    ensures (i, j) in checked
  {
    ViolationOverlaps(texts[i], texts[j]);
    var c := OverlapSharesCell(texts[i], texts[j]);
    var bucket := Bucket(texts, |texts|, c);
    BucketIsIncreasing(texts, |texts|, c);
    assert BucketDone(bucket, checked);
    assert i in bucket && j in bucket;
    var k :| 0 <= k < |bucket| && bucket[k] == i;
    var l :| 0 <= l < |bucket| && bucket[l] == j;
  }

  /** A list without repetitions has as many entries as it has elements. */
  lemma {:induction false} CountDistinct(violations: seq<Pair>, all: set<Pair>)
    requires forall p :: p in violations <==> p in all
    requires forall i, j :: 0 <= i < j < |violations| ==> violations[i] != violations[j]
    ensures |violations| == |all|
    decreases |violations|
  {
    if violations == [] {
      assert all == {};
    } else {
      var p, rest := violations[0], violations[1..];
      forall q ensures q in rest <==> q in all - {p} {
        assert q in violations <==> q == p || q in rest;
      }
      CountDistinct(rest, all - {p});
    }
  }

  /** The loop over the cells. */
  method CheckCells(texts: seq<Box>, grid: Grid) returns (ghost checked: set<Pair>, violations: seq<Pair>)
    requires Filled(grid, texts, |texts|)
    ensures Recorded(texts, checked, violations) && forall c :: c in grid ==> BucketDone(grid[c], checked)
  {
    hide Filled, Recorded, Increasing;
    var seen: set<Pair> := {};
    violations := [];
    NothingRecorded(texts);
    var cells := grid.Keys;
    while cells != {}
      invariant cells <= grid.Keys && Recorded(texts, seen, violations)
      invariant forall c :: c in grid && c !in cells ==> BucketDone(grid[c], seen)
      decreases cells
    {
      var c :| c in cells;
      cells := cells - {c};
      BucketOfGrid(grid, texts, c);
      seen, violations := CheckBucket(texts, grid[c], seen, violations);
    }
    checked := seen;
  }

  lemma NothingRecorded(texts: seq<Box>)
    ensures Recorded(texts, {}, [])
  {
  }

  lemma BucketOfGrid(grid: Grid, texts: seq<Box>, c: Cell)
    requires Filled(grid, texts, |texts|) && c in grid
    ensures grid[c] == Bucket(texts, |texts|, c)
    ensures Increasing(grid[c], |texts|)
  {
    assert At(grid, c) == Bucket(texts, |texts|, c);
    BucketIsIncreasing(texts, |texts|, c);
    assert forall k :: 0 <= k < |grid[c]| ==> grid[c][k] in Bucket(texts, |texts|, c);
  }

  lemma AllCellsDone(grid: Grid, texts: seq<Box>, checked: set<Pair>, c: Cell)
    requires Filled(grid, texts, |texts|) && forall d :: d in grid ==> BucketDone(grid[d], checked)
    ensures BucketDone(Bucket(texts, |texts|, c), checked)
  {
    assert At(grid, c) == Bucket(texts, |texts|, c);
  }

  /** What was recorded over all cells is what comparing all pairs gives. */
  lemma RecordedIsAll(grid: Grid, texts: seq<Box>, checked: set<Pair>, violations: seq<Pair>, p: Pair)
    requires Filled(grid, texts, |texts|) && Recorded(texts, checked, violations)
    requires forall d :: d in grid ==> BucketDone(grid[d], checked)
    ensures p in violations <==> p in AllViolations(texts)
  {
    hide Violates, Bucket, BucketDone, Filled;
    if p in AllViolations(texts) {
      forall c ensures BucketDone(Bucket(texts, |texts|, c), checked) {
        AllCellsDone(grid, texts, checked, c);
      }
      EveryViolationIsChecked(texts, checked, p.0, p.1);
    }
  }

  lemma NoneMeansClean(texts: seq<Box>)
    ensures |AllViolations(texts)| == 0 <==> forall i, j :: 0 <= i < j < |texts| ==> !Violates(texts[i], texts[j])
  {
    hide Violates;
    forall i: nat, j: nat | i < j < |texts| && Violates(texts[i], texts[j]) ensures (i, j) in AllViolations(texts) {
    }
    if |AllViolations(texts)| != 0 {
      var p :| p in AllViolations(texts);
    }
  }

  lemma ListedIff(texts: seq<Box>, i: nat, j: nat)
    ensures (i, j) in AllViolations(texts) <==> i < j < |texts| && Violates(texts[i], texts[j])
  {
    hide Violates;
  }

  /** The grid finds what comparing all pairs finds, each pair once. */
  method Check(texts: seq<Box>) returns (violations: seq<Pair>, pass: bool)
    ensures forall i: nat, j: nat :: (i, j) in violations <==> i < j < |texts| && Violates(texts[i], texts[j])
    ensures forall i, j :: 0 <= i < j < |violations| ==> violations[i] != violations[j]
    ensures |violations| == |AllViolations(texts)|
    ensures pass <==> forall i, j :: 0 <= i < j < |texts| ==> !Violates(texts[i], texts[j])
  {
    hide Filled, AllViolations, Violates, BucketDone, Bucket;
    var grid := FillGrid(texts);
    ghost var checked;
    checked, violations := CheckCells(texts, grid);
    forall p ensures p in violations <==> p in AllViolations(texts) {
      RecordedIsAll(grid, texts, checked, violations, p);
    }
    CountDistinct(violations, AllViolations(texts));
    NoneMeansClean(texts);
    forall i: nat, j: nat ensures (i, j) in violations <==> i < j < |texts| && Violates(texts[i], texts[j]) {
      ListedIff(texts, i, j);
    }
    pass := |violations| == 0;
  }
}
