/** The numeric steps of the boulder placement example: normalise the base terrain to
    `[0, 1]`, gate the boulder noise by it, threshold the result into a placement mask and
    count the placed cells. */
module BoulderPlacement {
  import opened Fields
  import opened VisualizeNoise

  /** The example's instance: seed 42 on a 128 × 128 grid. */
  const SEED: int := 42
  const SIZE: nat := 128
  /** Cells whose terrain-aware value is strictly above this get a boulder. */
  const THRESHOLD: real := 0.2

  /** A field with at least one row, and no empty row: numpy's `min` and `max` need a
      cell. */
  predicate NonEmpty(f: Field) {
    |f| > 0 && forall i :: 0 <= i < |f| ==> |f[i]| > 0
  }

  /** `f[i][j]` is a cell of `f`. */
  predicate IsCell(f: Field, i: int, j: int) {
    0 <= i < |f| && 0 <= j < |f[i]|
  }

  // ---------------------------------------------------------------------------
  // min and max

  /** `m` is `field.min()`: the value of some cell, and no cell is smaller. */
  ghost predicate IsMinOf(f: Field, m: real) {
    && (exists i, j :: IsCell(f, i, j) && f[i][j] == m)
    && (forall i, j :: IsCell(f, i, j) ==> m <= f[i][j])
  }

  /** `m` is `field.max()`: the value of some cell, and no cell is larger. */
  ghost predicate IsMaxOf(f: Field, m: real) {
    && (exists i, j :: IsCell(f, i, j) && f[i][j] == m)
    && (forall i, j :: IsCell(f, i, j) ==> f[i][j] <= m)
  }

  /** `field.min()`, which numpy defines for every field with a cell. */
  ghost function FieldMin(f: Field): (m: real)
    requires NonEmpty(f)
    ensures IsMinOf(f, m)
  {
    MinExists(f);
    var m :| IsMinOf(f, m); m
  }

  /** `field.max()`, which numpy defines for every field with a cell. */
  ghost function FieldMax(f: Field): (m: real)
    requires NonEmpty(f)
    ensures IsMaxOf(f, m)
  {
    MaxExists(f);
    var m :| IsMaxOf(f, m); m
  }

  /** Every field with a cell has a minimum: the smaller of the first row's minimum and
      the minimum of the other rows. */
  lemma {:induction false} MinExists(f: Field)
    requires NonEmpty(f)
    ensures exists m :: IsMinOf(f, m)
  {
    var first := RowMin(f[0]);
    assert IsCell(f, 0, IndexOf(f[0], first));
    if |f| == 1 {
      assert IsMinOf(f, first);
    } else {
      MinExists(f[1..]);
      var rest :| IsMinOf(f[1..], rest);
      var k, l :| IsCell(f[1..], k, l) && f[1..][k][l] == rest;
      assert IsCell(f, k + 1, l);
      var m := if first <= rest then first else rest;
      forall i, j | IsCell(f, i, j)
        ensures m <= f[i][j]
      {
        if i > 0 {
          assert IsCell(f[1..], i - 1, j);
        }
      }
      assert IsMinOf(f, m);
    }
  }

  /** Every field with a cell has a maximum. */
  lemma {:induction false} MaxExists(f: Field)
    requires NonEmpty(f)
    ensures exists m :: IsMaxOf(f, m)
  {
    var first := RowMax(f[0]);
    assert IsCell(f, 0, IndexOf(f[0], first));
    if |f| == 1 {
      assert IsMaxOf(f, first);
    } else {
      MaxExists(f[1..]);
      var rest :| IsMaxOf(f[1..], rest);
      var k, l :| IsCell(f[1..], k, l) && f[1..][k][l] == rest;
      assert IsCell(f, k + 1, l);
      var m := if first >= rest then first else rest;
      forall i, j | IsCell(f, i, j)
        ensures f[i][j] <= m
      {
        if i > 0 {
          assert IsCell(f[1..], i - 1, j);
        }
      }
      assert IsMaxOf(f, m);
    }
  }

  function RowMin(s: seq<real>): (m: real)
    requires |s| > 0
    ensures m in s
    ensures forall k :: 0 <= k < |s| ==> m <= s[k]
  {
    if |s| == 1 then s[0]
    else var rest := RowMin(s[1..]); if s[0] <= rest then s[0] else rest
  }

  function RowMax(s: seq<real>): (m: real)
    requires |s| > 0
    ensures m in s
    ensures forall k :: 0 <= k < |s| ==> s[k] <= m
  {
    if |s| == 1 then s[0]
    else var rest := RowMax(s[1..]); if s[0] >= rest then s[0] else rest
  }

  /** A position of `x` in `s`. */
  function IndexOf(s: seq<real>, x: real): (k: nat)
    requires x in s
    ensures k < |s| && s[k] == x
  {
    if s[0] == x then 0 else 1 + IndexOf(s[1..], x)
  }

  // ---------------------------------------------------------------------------
  // The steps of the example

  /** `(x - lo) / (hi - lo)`: the position of `x` between `lo` and `hi`. */
  function Rescale(x: real, lo: real, hi: real): real
    requires lo < hi
  {
    (x - lo) / (hi - lo)
  }

  /** `(f - lo) / (hi - lo)`, cell by cell. */
  function RescaleField(f: Field, lo: real, hi: real): (r: Field)
    requires lo < hi
    ensures SameShape(r, f)
  {
    seq(|f|, i requires 0 <= i < |f| =>
      seq(|f[i]|, j requires 0 <= j < |f[i]| => Rescale(f[i][j], lo, hi)))
  }

  /** `(f - f.min()) / (f.max() - f.min())`, defined only when the field is not constant. */
  ghost function Normalize(f: Field): (r: Field)
    requires NonEmpty(f) && FieldMin(f) < FieldMax(f)
    ensures SameShape(r, f)
  {
    RescaleField(f, FieldMin(f), FieldMax(f))
  }

  /** Normalisation puts every cell in `[0, 1]`; exactly the minimal cells become 0 and
      exactly the maximal cells become 1. */
  lemma NormalizeRange(f: Field)
    requires NonEmpty(f) && FieldMin(f) < FieldMax(f)
    ensures forall i, j :: IsCell(f, i, j) ==> 0.0 <= Normalize(f)[i][j] <= 1.0
    ensures forall i, j :: IsCell(f, i, j) ==> (Normalize(f)[i][j] == 0.0 <==> f[i][j] == FieldMin(f))
    ensures forall i, j :: IsCell(f, i, j) ==> (Normalize(f)[i][j] == 1.0 <==> f[i][j] == FieldMax(f))
  {
    var lo, hi, r := FieldMin(f), FieldMax(f), Normalize(f);
    forall i, j | IsCell(f, i, j)
      ensures 0.0 <= r[i][j] <= 1.0
      ensures r[i][j] == 0.0 <==> f[i][j] == lo
      ensures r[i][j] == 1.0 <==> f[i][j] == hi
    {
      assert r[i][j] == Rescale(f[i][j], lo, hi);
      Ratio(f[i][j] - lo, hi - lo);
    }
  }

  /** Normalisation keeps the order of the cells. */
  lemma NormalizeMonotone(f: Field, i: int, j: int, k: int, l: int)
    requires NonEmpty(f) && FieldMin(f) < FieldMax(f)
    requires IsCell(f, i, j) && IsCell(f, k, l)
    ensures f[i][j] <= f[k][l] <==> Normalize(f)[i][j] <= Normalize(f)[k][l]
  {
    var lo, hi := FieldMin(f), FieldMax(f);
    assert Normalize(f)[i][j] == Rescale(f[i][j], lo, hi);
    assert Normalize(f)[k][l] == Rescale(f[k][l], lo, hi);
    RescaleMonotone(f[i][j], f[k][l], lo, hi);
  }

  lemma RescaleMonotone(x: real, y: real, lo: real, hi: real)
    requires lo < hi
    ensures x <= y <==> Rescale(x, lo, hi) <= Rescale(y, lo, hi)
  {
    var d := hi - lo;
    assert Rescale(x, lo, hi) * d == x - lo;
    assert Rescale(y, lo, hi) * d == y - lo;
    if Rescale(x, lo, hi) <= Rescale(y, lo, hi) {
      assert Rescale(x, lo, hi) * d <= Rescale(y, lo, hi) * d;
    }
  }

  lemma Ratio(x: real, d: real)
    requires 0.0 <= x <= d && 0.0 < d
    ensures 0.0 <= x / d <= 1.0
    ensures x / d == 0.0 <==> x == 0.0
    ensures x / d == 1.0 <==> x == d
  {
    assert x / d * d == x;
  }

  /** `boulder_pattern * terrain_normalized`, cell by cell. */
  function Gate(boulder: Field, terrain: Field): (r: Field)
    requires SameShape(boulder, terrain)
    ensures SameShape(r, boulder)
  {
    seq(|boulder|, i requires 0 <= i < |boulder| =>
      seq(|boulder[i]|, j requires 0 <= j < |boulder[i]| => boulder[i][j] * terrain[i][j]))
  }

  /** Gating suppresses the boulders wherever the gate is 0, keeps them unchanged where it
      is 1, and a gate in `[0, 1]` never enlarges a value. */
  lemma GateSuppresses(boulder: Field, terrain: Field)
    requires SameShape(boulder, terrain)
    ensures forall i, j :: IsCell(boulder, i, j) && terrain[i][j] == 0.0 ==>
              Gate(boulder, terrain)[i][j] == 0.0
    ensures forall i, j :: IsCell(boulder, i, j) && terrain[i][j] == 1.0 ==>
              Gate(boulder, terrain)[i][j] == boulder[i][j]
    ensures forall i, j :: IsCell(boulder, i, j) && 0.0 <= terrain[i][j] <= 1.0 ==>
              Abs(Gate(boulder, terrain)[i][j]) <= Abs(boulder[i][j])
  {
    forall i, j | IsCell(boulder, i, j) && 0.0 <= terrain[i][j] <= 1.0
      ensures Abs(Gate(boulder, terrain)[i][j]) <= Abs(boulder[i][j])
    {
      assert Gate(boulder, terrain)[i][j] == boulder[i][j] * terrain[i][j];
      GateBound(boulder[i][j], terrain[i][j]);
    }
  }

  lemma GateBound(x: real, g: real)
    requires 0.0 <= g <= 1.0
    ensures Abs(x * g) <= Abs(x)
  {
    AbsMul(x, g);
    assert Abs(x) * g <= Abs(x) * 1.0;
  }

  /** `(field > threshold).astype(float)`: 1.0 exactly where the cell is strictly above
      the threshold, 0.0 everywhere else (ties included). */
  function PlacementMask(f: Field, threshold: real): (r: Field)
    ensures SameShape(r, f)
    ensures forall i, j :: IsCell(f, i, j) ==> (r[i][j] == 1.0 <==> f[i][j] > threshold)
    ensures forall i, j :: IsCell(f, i, j) ==> (r[i][j] == 0.0 <==> f[i][j] <= threshold)
  {
    seq(|f|, i requires 0 <= i < |f| =>
      seq(|f[i]|, j requires 0 <= j < |f[i]| => if f[i][j] > threshold then 1.0 else 0.0))
  }

  // ---------------------------------------------------------------------------
  // Counting

  /** `array.size`: the product of the two dimensions. It is 0 exactly when the field has
      no row or its first row is empty. */
  function Size(f: Field): (r: nat)
    ensures r == 0 <==> f == [] || |f[0]| == 0
  {
    if |f| == 0 then 0 else |f| * |f[0]|
  }

  /** For a rectangular field, `.size` is its number of cells. */
  lemma SizeIsCellCount(f: Field)
    requires IsArray(f)
    ensures Size(f) == CellCount(f)
  {
    if f != [] {
      CellsOfGrid(f, |f|, |f[0]|);
    }
  }

  /** `np.sum(array)`, row by row. A field whose cells all lie in `[0, 1]` sums to a value
      between 0 and its number of cells. */
  function FieldSum(f: Field): (r: real)
    ensures (forall i, j :: IsCell(f, i, j) ==> 0.0 <= f[i][j] <= 1.0) ==>
              0.0 <= r <= CellCount(f) as real
  {
    if f == [] then 0.0
    else
      assert forall i, j :: IsCell(f[1..], i, j) ==> IsCell(f, i + 1, j) && f[1..][i][j] == f[i + 1][j];
      assert forall k :: 0 <= k < |f[0]| ==> IsCell(f, 0, k);
      RowSumBounds(f[0]);
      Sum(f[0]) + FieldSum(f[1..])
  }

  lemma {:induction false} RowSumBounds(s: seq<real>)
    ensures (forall k :: 0 <= k < |s| ==> 0.0 <= s[k] <= 1.0) ==> 0.0 <= Sum(s) <= |s| as real
  {
    if s != [] {
      RowSumBounds(s[1..]);
      assert forall k :: 0 <= k < |s[1..]| ==> s[1..][k] == s[k + 1];
    }
  }

  /** The number of cells strictly above `threshold`. */
  function CountAbove(f: Field, threshold: real): nat {
    if f == [] then 0 else RowCountAbove(f[0], threshold) + CountAbove(f[1..], threshold)
  }

  function RowCountAbove(s: seq<real>, threshold: real): nat {
    if s == [] then 0 else (if s[0] > threshold then 1 else 0) + RowCountAbove(s[1..], threshold)
  }

  lemma {:induction false} RowMaskSum(s: seq<real>, m: seq<real>, threshold: real)
    requires |m| == |s|
    requires forall k :: 0 <= k < |s| ==> m[k] == if s[k] > threshold then 1.0 else 0.0
    ensures Sum(m) == RowCountAbove(s, threshold) as real
    ensures RowCountAbove(s, threshold) <= |s|
  {
    if s != [] {
      RowMaskSum(s[1..], m[1..], threshold);
    }
  }

  /** Summing the mask counts the cells above the threshold, and no more cells than the
      grid holds. */
  lemma {:induction false} MaskSumIsCount(f: Field, threshold: real)
    ensures FieldSum(PlacementMask(f, threshold)) == CountAbove(f, threshold) as real
    ensures CountAbove(f, threshold) <= CellCount(f)
  {
    if f != [] {
      var m := PlacementMask(f, threshold);
      assert PlacementMask(f[1..], threshold) == m[1..];
      RowMaskSum(f[0], m[0], threshold);
      MaskSumIsCount(f[1..], threshold);
    }
  }

  /** The number of cells, row by row. */
  function CellCount(f: Field): nat {
    if f == [] then 0 else |f[0]| + CellCount(f[1..])
  }

  /** A `rows × cols` grid has `rows · cols` cells. */
  lemma {:induction false} CellsOfGrid(f: Field, rows: nat, cols: nat)
    requires IsGrid(f, rows, cols)
    ensures CellCount(f) == rows * cols
  {
    if f != [] {
      CellsOfGrid(f[1..], rows - 1, cols);
    }
  }

  /** No boulder is placed exactly when no cell lies above the threshold. */
  lemma {:induction false} CountZero(f: Field, threshold: real)
    ensures CountAbove(f, threshold) == 0 <==>
              forall i, j :: IsCell(f, i, j) ==> f[i][j] <= threshold
  {
    if f != [] {
      CountZero(f[1..], threshold);
      RowCountZero(f[0], threshold);
      assert forall i, j :: IsCell(f[1..], i, j) ==> f[1..][i][j] == f[i + 1][j];
      if CountAbove(f, threshold) != 0 && RowCountAbove(f[0], threshold) == 0 {
        var i, j :| IsCell(f[1..], i, j) && f[1..][i][j] > threshold;
        assert IsCell(f, i + 1, j);
      }
    }
  }

  lemma {:induction false} RowCountZero(s: seq<real>, threshold: real)
    ensures RowCountAbove(s, threshold) == 0 <==> forall k :: 0 <= k < |s| ==> s[k] <= threshold
  {
    if s != [] {
      RowCountZero(s[1..], threshold);
      assert forall k :: 1 <= k < |s| ==> s[k] == s[1..][k - 1];
    }
  }

  // ---------------------------------------------------------------------------
  // The pipeline

  /** What the example computes from the base terrain and the boulder pattern. */
  datatype Placement = Placement(
    terrainNormalized: Field,
    terrainAwareBoulders: Field,
    boulderPlacementMask: Field,
    totalBlocks: nat,
    boulderBlocks: real)

  /** Normalise the base terrain, gate the boulder pattern by it, threshold, count. */
  ghost function Place(baseTerrain: Field, boulderPattern: Field, threshold: real): (p: Placement)
    requires IsArray(baseTerrain) && NonEmpty(baseTerrain)
    requires FieldMin(baseTerrain) < FieldMax(baseTerrain)
    requires SameShape(boulderPattern, baseTerrain)
    ensures SameShape(p.terrainNormalized, baseTerrain)
    ensures SameShape(p.terrainAwareBoulders, baseTerrain)
    ensures SameShape(p.boulderPlacementMask, baseTerrain)
  {
    var normalized := Normalize(baseTerrain);
    var gated := Gate(boulderPattern, normalized);
    var mask := PlacementMask(gated, threshold);
    Placement(normalized, gated, mask, Size(mask), FieldSum(mask))
  }

  /** A boulder goes exactly where the boulder pattern, scaled by the normalised terrain
      height, is strictly above the threshold. */
  lemma PlaceMask(baseTerrain: Field, boulderPattern: Field, threshold: real)
    requires IsArray(baseTerrain) && NonEmpty(baseTerrain)
    requires FieldMin(baseTerrain) < FieldMax(baseTerrain)
    requires SameShape(boulderPattern, baseTerrain)
    ensures forall i, j :: IsCell(baseTerrain, i, j) ==>
              (Place(baseTerrain, boulderPattern, threshold).boulderPlacementMask[i][j] == 1.0 <==>
               boulderPattern[i][j] * Normalize(baseTerrain)[i][j] > threshold)
  {
    PlaceMaskField(baseTerrain, boulderPattern, threshold);
    MaskOfNormalizedGate(baseTerrain, boulderPattern, threshold);
  }

  /** The lowest ground gets no boulders: at a minimum cell of the base terrain the
      normalised height is 0, so with a non-negative threshold the mask there is 0.0. */
  lemma LowestGroundEmpty(baseTerrain: Field, boulderPattern: Field, threshold: real,
                          i: int, j: int)
    requires IsArray(baseTerrain) && NonEmpty(baseTerrain)
    requires FieldMin(baseTerrain) < FieldMax(baseTerrain)
    requires SameShape(boulderPattern, baseTerrain)
    requires 0.0 <= threshold
    requires IsCell(baseTerrain, i, j) && baseTerrain[i][j] == FieldMin(baseTerrain)
    ensures Place(baseTerrain, boulderPattern, threshold).boulderPlacementMask[i][j] == 0.0
  {
    var normalized := Normalize(baseTerrain);
    assert normalized[i][j] == 0.0 by {
      NormalizeRange(baseTerrain);
    }
    var gated := Gate(boulderPattern, normalized);
    assert gated[i][j] == 0.0;
    assert PlacementMask(gated, threshold)[i][j] == 0.0 by {
      assert IsCell(gated, i, j);
    }
    PlaceMaskField(baseTerrain, boulderPattern, threshold);
  }

  /** `MaskOfGate` for the normalised base terrain; kept apart from `PlaceMask` so that
      each proof stays small. */
  lemma MaskOfNormalizedGate(baseTerrain: Field, boulderPattern: Field, threshold: real)
    requires IsArray(baseTerrain) && NonEmpty(baseTerrain)
    requires FieldMin(baseTerrain) < FieldMax(baseTerrain)
    requires SameShape(boulderPattern, baseTerrain)
    ensures forall i, j :: IsCell(baseTerrain, i, j) ==>
              (PlacementMask(Gate(boulderPattern, Normalize(baseTerrain)), threshold)[i][j] == 1.0 <==>
               boulderPattern[i][j] * Normalize(baseTerrain)[i][j] > threshold)
  {
    MaskOfGate(boulderPattern, Normalize(baseTerrain), threshold);
  }

  lemma PlaceMaskField(baseTerrain: Field, boulderPattern: Field, threshold: real)
    requires IsArray(baseTerrain) && NonEmpty(baseTerrain)
    requires FieldMin(baseTerrain) < FieldMax(baseTerrain)
    requires SameShape(boulderPattern, baseTerrain)
    ensures Place(baseTerrain, boulderPattern, threshold).boulderPlacementMask
         == PlacementMask(Gate(boulderPattern, Normalize(baseTerrain)), threshold)
  {
  }

  /** Thresholding a gated field: a cell is marked exactly when its product is above the
      threshold. */
  lemma MaskOfGate(boulder: Field, terrain: Field, threshold: real)
    requires SameShape(boulder, terrain)
    ensures forall i, j :: IsCell(boulder, i, j) ==>
              (PlacementMask(Gate(boulder, terrain), threshold)[i][j] == 1.0 <==>
               boulder[i][j] * terrain[i][j] > threshold)
  {
    var gated := Gate(boulder, terrain);
    forall i, j | IsCell(boulder, i, j)
      ensures PlacementMask(gated, threshold)[i][j] == 1.0 <==> boulder[i][j] * terrain[i][j] > threshold
    {
      assert IsCell(gated, i, j);
    }
  }

  /** The total is the grid's cell count, and the placed count is the number of cells of
      the gated pattern above the threshold, never more than the total. */
  lemma PlaceTotals(baseTerrain: Field, boulderPattern: Field, threshold: real)
    requires IsArray(baseTerrain) && NonEmpty(baseTerrain)
    requires FieldMin(baseTerrain) < FieldMax(baseTerrain)
    requires SameShape(boulderPattern, baseTerrain)
    ensures Place(baseTerrain, boulderPattern, threshold).totalBlocks
         == |baseTerrain| * |baseTerrain[0]|
    ensures Place(baseTerrain, boulderPattern, threshold).boulderBlocks
         == CountAbove(Place(baseTerrain, boulderPattern, threshold).terrainAwareBoulders, threshold) as real
    ensures 0.0 <= Place(baseTerrain, boulderPattern, threshold).boulderBlocks
         <= Place(baseTerrain, boulderPattern, threshold).totalBlocks as real
  {
    var gated := Gate(boulderPattern, Normalize(baseTerrain));
    var rows, cols := |baseTerrain|, |baseTerrain[0]|;
    assert IsGrid(gated, rows, cols) by {
      assert IsGrid(baseTerrain, rows, cols);
      assert SameShape(gated, baseTerrain);
    }
    PlaceCounts(gated, threshold, rows, cols);
  }

  /** The example's inputs: a visualiser with seed 42 on a 128 × 128 grid, the
      continentalness field as base terrain and a three-octave Perlin field at scale 40 and
      persistence 0.4 as boulder pattern. When the base terrain is not constant the
      placement covers all 16384 cells. */
  method BoulderExample(pnoise2: Perlin2) returns (baseTerrain: Field, boulderPattern: Field)
    ensures baseTerrain == PerlinField(pnoise2, SEED, SIZE, 6, 0.6, 2.0, 200.0)
    ensures boulderPattern == PerlinField(pnoise2, SEED, SIZE, 3, 0.4, 2.0, 40.0)
    ensures IsGrid(baseTerrain, SIZE, SIZE) && IsGrid(boulderPattern, SIZE, SIZE)
    ensures NonEmpty(baseTerrain) && SameShape(boulderPattern, baseTerrain)
    ensures FieldMin(baseTerrain) < FieldMax(baseTerrain) ==>
              Place(baseTerrain, boulderPattern, THRESHOLD).totalBlocks == SIZE * SIZE
  {
    var visualizer := new MinecraftNoiseVisualizer(seed := SEED, size := SIZE);
    baseTerrain := visualizer.GenerateContinentalness(pnoise2);
    ghost var writes;
    boulderPattern, writes := visualizer.GeneratePerlinNoise(pnoise2, octaves := 3, scale := 40.0,
                                                             persistence := 0.4, lacunarity := 2.0);
    assert IsGrid(baseTerrain, SIZE, SIZE);
    if FieldMin(baseTerrain) < FieldMax(baseTerrain) {
      PlaceTotals(baseTerrain, boulderPattern, THRESHOLD);
    }
  }

  lemma PlaceCounts(gated: Field, threshold: real, rows: nat, cols: nat)
    requires IsGrid(gated, rows, cols)
    ensures Size(PlacementMask(gated, threshold)) == rows * cols
    ensures FieldSum(PlacementMask(gated, threshold)) == CountAbove(gated, threshold) as real
    ensures CountAbove(gated, threshold) <= rows * cols
  {
    MaskSumIsCount(gated, threshold);
    CellsOfGrid(gated, rows, cols);
    CellsOfGrid(PlacementMask(gated, threshold), rows, cols);
  }
}
