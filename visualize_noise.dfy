/** The noise generators and field transforms of `MinecraftNoiseVisualizer`.

    The coherent-noise primitives `pnoise2` and `snoise2` belong to a foreign library; they
    are parameters of the generators, so every property proved here holds whatever those
    functions compute. */
module VisualizeNoise {
  import opened Fields

  /** `pnoise2(x, y, octaves, persistence, lacunarity, repeatx, repeaty, base)` */
  type Perlin2 = (real, real, int, real, real, int, int, int) -> real

  /** `snoise2(x, y)` */
  type Simplex2 = (real, real) -> real

  /** The period the Perlin generator passes as `repeatx` and `repeaty`. */
  const REPEAT: int := 1024

  /** `x ** n` for a non-negative integer exponent; `x ** 0` is 1.0 for every `x`. */
  function Pow(x: real, n: nat): (r: real)
    ensures n == 0 ==> r == 1.0
    ensures 0.0 <= x ==> 0.0 <= r
  {
    if n == 0 then 1.0 else x * Pow(x, n - 1)
  }

  /** The sum of a sequence, first element first. */
  function Sum(s: seq<real>): real {
    if s == [] then 0.0 else s[0] + Sum(s[1..])
  }

  lemma {:induction false} SumSnoc(s: seq<real>, x: real)
    ensures Sum(s + [x]) == Sum(s) + x
  {
    if s != [] {
      assert (s + [x])[1..] == s[1..] + [x];
      SumSnoc(s[1..], x);
    }
  }

  // ---------------------------------------------------------------------------
  // Perlin: one library call per cell

  /** The value the Perlin generator stores in cell `(i, j)`. */
  function PerlinCell(pnoise2: Perlin2, seed: int, i: int, j: int, octaves: int,
                      persistence: real, lacunarity: real, scale: real): real
    requires scale != 0.0
  {
    pnoise2(i as real / scale, j as real / scale, octaves, persistence, lacunarity,
            REPEAT, REPEAT, seed)
  }

  /** The `size × size` grid the Perlin generator returns. */
  function PerlinField(pnoise2: Perlin2, seed: int, size: nat, octaves: int,
                       persistence: real, lacunarity: real, scale: real): Field
    requires scale != 0.0 || size == 0
  {
    seq(size, i requires 0 <= i < size => seq(size, j requires 0 <= j < size =>
      PerlinCell(pnoise2, seed, i, j, octaves, persistence, lacunarity, scale)))
  }

  // ---------------------------------------------------------------------------
  // Simplex: octaves accumulated by hand

  /** `k` is one of the values `range(n)` yields. */
  predicate InRange(k: int, n: int)
  {
    0 <= k < n
  }

  /** Number of passes of the octave loop: the passes `0 .. r - 1` are exactly the values
      `range(octaves)` yields, none when `octaves <= 0`. */
  function OctaveCount(octaves: int): (r: nat)
    ensures forall k: int :: InRange(k, r) <==> InRange(k, octaves)
  {
    if octaves < 0 then 0 else octaves
  }

  /** The simplex sample of cell `(i, j)` at frequency `freq`, with the raw seed added to
      both coordinates. */
  function OctaveSample(snoise2: Simplex2, seed: int, i: int, j: int, freq: real,
                        scale: real): real
    requires scale != 0.0
  {
    snoise2((i as real / scale) * freq + seed as real, (j as real / scale) * freq + seed as real)
  }

  /** What octave `k` adds to cell `(i, j)`: the sample at frequency `lacunarity ** k`
      times the amplitude `persistence ** k`. */
  function OctaveTerm(snoise2: Simplex2, seed: int, i: int, j: int, k: nat,
                      persistence: real, lacunarity: real, scale: real): real
    requires scale != 0.0
  {
    OctaveSample(snoise2, seed, i, j, Pow(lacunarity, k), scale) * Pow(persistence, k)
  }

  /** What cell `(i, j)` holds after the first `o` passes of the octave loop, each pass
      adding its term to the running value. */
  function OctaveSum(snoise2: Simplex2, seed: int, i: int, j: int, o: nat,
                     persistence: real, lacunarity: real, scale: real): real
    requires o == 0 || scale != 0.0
  {
    if o == 0 then 0.0
    else OctaveSum(snoise2, seed, i, j, o - 1, persistence, lacunarity, scale)
         + OctaveTerm(snoise2, seed, i, j, o - 1, persistence, lacunarity, scale)
  }

  /** The terms of octaves `0 .. n-1` for cell `(i, j)`. */
  function OctaveTerms(snoise2: Simplex2, seed: int, i: int, j: int, n: nat,
                       persistence: real, lacunarity: real, scale: real): seq<real>
    requires n == 0 || scale != 0.0
  {
    seq(n, k requires 0 <= k < n =>
      OctaveTerm(snoise2, seed, i, j, k, persistence, lacunarity, scale))
  }

  /** The `size × size` grid the simplex generator returns. */
  function SimplexField(snoise2: Simplex2, seed: int, size: nat, octaves: int,
                        persistence: real, lacunarity: real, scale: real): Field
    requires scale != 0.0 || octaves <= 0 || size == 0
  {
    seq(size, i requires 0 <= i < size => seq(size, j requires 0 <= j < size =>
      OctaveSum(snoise2, seed, i, j, OctaveCount(octaves), persistence, lacunarity, scale)))
  }

  /** Closed form of the accumulation: after `o` passes a cell holds the sum of the
      terms of octaves `0 .. o-1`. */
  lemma {:induction false} OctaveSumClosedForm(snoise2: Simplex2, seed: int, i: int, j: int,
                                               o: nat, persistence: real, lacunarity: real,
                                               scale: real)
    requires o == 0 || scale != 0.0
    ensures OctaveSum(snoise2, seed, i, j, o, persistence, lacunarity, scale)
         == Sum(OctaveTerms(snoise2, seed, i, j, o, persistence, lacunarity, scale))
  {
    if o > 0 {
      var prev := OctaveTerms(snoise2, seed, i, j, o - 1, persistence, lacunarity, scale);
      var last := OctaveTerm(snoise2, seed, i, j, o - 1, persistence, lacunarity, scale);
      assert OctaveTerms(snoise2, seed, i, j, o, persistence, lacunarity, scale) == prev + [last];
      OctaveSumClosedForm(snoise2, seed, i, j, o - 1, persistence, lacunarity, scale);
      SumSnoc(prev, last);
    }
  }

  /** A grid holding every cell's accumulated value is the simplex field, and each of its
      cells is the closed-form octave sum. */
  lemma SimplexFieldClosedForm(g: Field, snoise2: Simplex2, seed: int, size: nat, octaves: int,
                               persistence: real, lacunarity: real, scale: real)
    requires scale != 0.0 || octaves <= 0 || size == 0
    requires IsGrid(g, size, size)
    requires forall i, j :: 0 <= i < size && 0 <= j < size ==>
               g[i][j] == OctaveSum(snoise2, seed, i, j, OctaveCount(octaves), persistence, lacunarity, scale)
    ensures g == SimplexField(snoise2, seed, size, octaves, persistence, lacunarity, scale)
    ensures forall i, j :: 0 <= i < size && 0 <= j < size ==>
              g[i][j] == Sum(OctaveTerms(snoise2, seed, i, j, OctaveCount(octaves),
                                         persistence, lacunarity, scale))
  {
    FieldExt(g, SimplexField(snoise2, seed, size, octaves, persistence, lacunarity, scale));
    forall i, j | 0 <= i < size && 0 <= j < size
      ensures g[i][j] == Sum(OctaveTerms(snoise2, seed, i, j, OctaveCount(octaves),
                                         persistence, lacunarity, scale))
    {
      OctaveSumClosedForm(snoise2, seed, i, j, OctaveCount(octaves), persistence, lacunarity, scale);
    }
  }

  /** With `octaves <= 0` the octave loop never runs and the simplex grid is all zeros. */
  lemma SimplexNoOctaves(snoise2: Simplex2, seed: int, size: nat, octaves: int,
                         persistence: real, lacunarity: real, scale: real)
    requires octaves <= 0
    ensures IsGrid(SimplexField(snoise2, seed, size, octaves, persistence, lacunarity, scale),
                   size, size)
    ensures forall i, j :: 0 <= i < size && 0 <= j < size ==>
              SimplexField(snoise2, seed, size, octaves, persistence, lacunarity, scale)[i][j] == 0.0
  {
  }

  /** `p ** 0 + p ** 1 + ... + p ** (n-1)`; for `p = |persistence|` it is the largest total
      amplitude of `n` octaves. */
  function GeometricSum(p: real, n: nat): real {
    if n == 0 then 0.0 else GeometricSum(p, n - 1) + Pow(p, n - 1)
  }

  lemma {:induction false} AbsPow(x: real, n: nat)
    ensures Abs(Pow(x, n)) == Pow(Abs(x), n)
  {
    if n > 0 {
      AbsPow(x, n - 1);
      AbsMul(x, Pow(x, n - 1));
    }
  }

  lemma AbsMul(x: real, y: real)
    ensures Abs(x * y) == Abs(x) * Abs(y)
  {
  }

  /** Geometric series: `p ** 0 + ... + p ** (n-1)` equals `(1 - p ** n) / (1 - p)` for
      `p != 1`. */
  lemma {:induction false} GeometricSumClosedForm(p: real, n: nat)
    ensures GeometricSum(p, n) * (1.0 - p) == 1.0 - Pow(p, n)
  {
    if n > 0 {
      GeometricSumClosedForm(p, n - 1);
      GeometricStep(GeometricSum(p, n - 1), Pow(p, n - 1), p);
    }
  }

  /** For `0 <= p < 1` the total amplitude of any number of octaves stays within
      `1 / (1 - p)`. */
  lemma GeometricSumBound(p: real, n: nat)
    requires 0.0 <= p < 1.0
    ensures GeometricSum(p, n) <= 1.0 / (1.0 - p)
  {
    GeometricSumClosedForm(p, n);
    assert 0.0 <= Pow(p, n);
    BelowReciprocal(GeometricSum(p, n), 1.0 - p);
  }

  lemma BelowReciprocal(g: real, d: real)
    requires 0.0 < d && g * d <= 1.0
    ensures g <= 1.0 / d
  {
    assert g == (g * d) / d;
  }

  lemma GeometricStep(s: real, q: real, p: real)
    requires s * (1.0 - p) == 1.0 - q
    ensures (s + q) * (1.0 - p) == 1.0 - p * q
  {
  }

  lemma Triangle(x: real, y: real)
    ensures Abs(x + y) <= Abs(x) + Abs(y)
  {
  }

  lemma ScaledBound(s: real, a: real)
    requires -1.0 <= s <= 1.0
    ensures Abs(s * a) <= Abs(a)
  {
    AbsMul(s, a);
    assert Abs(s) <= 1.0;
  }

  lemma OctaveTermBound(snoise2: Simplex2, seed: int, i: int, j: int, k: nat,
                        persistence: real, lacunarity: real, scale: real)
    requires scale != 0.0
    requires forall x: real, y: real :: -1.0 <= snoise2(x, y) <= 1.0
    ensures Abs(OctaveTerm(snoise2, seed, i, j, k, persistence, lacunarity, scale))
         <= Abs(Pow(persistence, k))
  {
    var s := OctaveSample(snoise2, seed, i, j, Pow(lacunarity, k), scale);
    ScaledBound(s, Pow(persistence, k));
  }

  /** When `snoise2` stays within `[-1, 1]`, a simplex cell after `o` octaves stays within
      the total amplitude of those octaves. */
  lemma {:induction false} OctaveSumBound(snoise2: Simplex2, seed: int, i: int, j: int, o: nat,
                                          persistence: real, lacunarity: real, scale: real)
    requires o == 0 || scale != 0.0
    requires forall x: real, y: real :: -1.0 <= snoise2(x, y) <= 1.0
    ensures Abs(OctaveSum(snoise2, seed, i, j, o, persistence, lacunarity, scale))
         <= GeometricSum(Abs(persistence), o)
  {
    if o > 0 {
      OctaveSumBound(snoise2, seed, i, j, o - 1, persistence, lacunarity, scale);
      var prev := OctaveSum(snoise2, seed, i, j, o - 1, persistence, lacunarity, scale);
      var term := OctaveTerm(snoise2, seed, i, j, o - 1, persistence, lacunarity, scale);
      OctaveTermBound(snoise2, seed, i, j, o - 1, persistence, lacunarity, scale);
      AbsPow(persistence, o - 1);
      Triangle(prev, term);
    }
  }

  /** When `snoise2` stays within `[-1, 1]` and `|persistence| < 1`, every simplex cell
      stays within `1 / (1 - |persistence|)`, however many octaves are added. */
  lemma SimplexCellBound(snoise2: Simplex2, seed: int, i: int, j: int, o: nat,
                         persistence: real, lacunarity: real, scale: real)
    requires o == 0 || scale != 0.0
    requires forall x: real, y: real :: -1.0 <= snoise2(x, y) <= 1.0
    requires Abs(persistence) < 1.0
    ensures Abs(OctaveSum(snoise2, seed, i, j, o, persistence, lacunarity, scale))
         <= 1.0 / (1.0 - Abs(persistence))
  {
    OctaveSumBound(snoise2, seed, i, j, o, persistence, lacunarity, scale);
    GeometricSumBound(Abs(persistence), o);
  }

  // ---------------------------------------------------------------------------
  // Transforms

  /** The ridge fold of one value: `1 - |v|`. */
  function RidgeValue(v: real): real {
    1.0 - Abs(v)
  }

  /** `1.0 - np.abs(noise)` */
  function Ridge(noise: Field): (r: Field)
    ensures SameShape(r, noise)
  {
    seq(|noise|, i requires 0 <= i < |noise| =>
      seq(|noise[i]|, j requires 0 <= j < |noise[i]| => RidgeValue(noise[i][j])))
  }

  /** The fold never exceeds 1, and reaches 1 exactly at the zeros of the base value. */
  lemma RidgePeak(v: real)
    ensures RidgeValue(v) <= 1.0
    ensures RidgeValue(v) == 1.0 <==> v == 0.0
  {
  }

  /** A base field within `[-1, 1]` folds into a ridge field within `[0, 1]`. */
  lemma RidgeRange(noise: Field)
    requires forall i, j :: 0 <= i < |noise| && 0 <= j < |noise[i]| ==> -1.0 <= noise[i][j] <= 1.0
    ensures forall i, j :: 0 <= i < |Ridge(noise)| && 0 <= j < |Ridge(noise)[i]| ==>
              0.0 <= Ridge(noise)[i][j] <= 1.0
  {
  }

  /** `array` as a field: row `i` is `array[i, ..]`. */
  function Cells(a: array2<real>): (r: Field)
    reads a
    ensures IsGrid(r, a.Length0, a.Length1)
  {
    seq(a.Length0, i requires 0 <= i < a.Length0 reads a =>
      seq(a.Length1, j requires 0 <= j < a.Length1 reads a => a[i, j]))
  }

  /** One pass of the simplex octave loop, for octave `o`: visits the cells row by row and
      adds to each its sample at frequency `freq = lacunarity ** o`, scaled by
      `amp = persistence ** o`. */
  method AddOctave(grid: array2<real>, snoise2: Simplex2, seed: int, freq: real, amp: real,
                   scale: real, ghost o: nat, ghost persistence: real, ghost lacunarity: real)
    requires scale != 0.0 || grid.Length0 == 0 || grid.Length1 == 0
    requires freq == Pow(lacunarity, o) && amp == Pow(persistence, o)
    modifies grid
    ensures forall a, b :: 0 <= a < grid.Length0 && 0 <= b < grid.Length1 ==>
              grid[a, b] == old(grid[a, b]) + OctaveTerm(snoise2, seed, a, b, o, persistence, lacunarity, scale)
  {
    for i := 0 to grid.Length0
      invariant forall a, b :: 0 <= a < i && 0 <= b < grid.Length1 ==>
                  grid[a, b] == old(grid[a, b]) + OctaveTerm(snoise2, seed, a, b, o, persistence, lacunarity, scale)
      invariant forall a, b :: i <= a < grid.Length0 && 0 <= b < grid.Length1 ==>
                  grid[a, b] == old(grid[a, b])
    {
      for j := 0 to grid.Length1
        invariant forall a, b :: 0 <= a < i && 0 <= b < grid.Length1 ==>
                    grid[a, b] == old(grid[a, b]) + OctaveTerm(snoise2, seed, a, b, o, persistence, lacunarity, scale)
        invariant forall b :: 0 <= b < j ==>
                    grid[i, b] == old(grid[i, b]) + OctaveTerm(snoise2, seed, i, b, o, persistence, lacunarity, scale)
        invariant forall b :: j <= b < grid.Length1 ==> grid[i, b] == old(grid[i, b])
        invariant forall a, b :: i < a < grid.Length0 && 0 <= b < grid.Length1 ==>
                    grid[a, b] == old(grid[a, b])
      {
        assert OctaveSample(snoise2, seed, i, j, freq, scale) * amp
            == OctaveTerm(snoise2, seed, i, j, o, persistence, lacunarity, scale);
        grid[i, j] := grid[i, j] + OctaveSample(snoise2, seed, i, j, freq, scale) * amp;
      }
    }
  }

  /** The octave loop of the simplex generator: starting from a zeroed grid, after the
      loop every cell holds its accumulated octave sum. */
  method AccumulateOctaves(grid: array2<real>, snoise2: Simplex2, seed: int, octaves: int,
                           persistence: real, lacunarity: real, scale: real)
    requires scale != 0.0 || octaves <= 0 || grid.Length0 == 0 || grid.Length1 == 0
    requires forall a, b :: 0 <= a < grid.Length0 && 0 <= b < grid.Length1 ==> grid[a, b] == 0.0
    modifies grid
    ensures forall a, b :: 0 <= a < grid.Length0 && 0 <= b < grid.Length1 ==>
              grid[a, b] == OctaveSum(snoise2, seed, a, b, OctaveCount(octaves),
                                      persistence, lacunarity, scale)
  {
    var octave := 0;
    while octave < octaves
      invariant 0 <= octave <= OctaveCount(octaves)
      invariant forall a, b :: 0 <= a < grid.Length0 && 0 <= b < grid.Length1 ==>
                  grid[a, b] == OctaveSum(snoise2, seed, a, b, octave, persistence, lacunarity, scale)
    {
      var freq := Pow(lacunarity, octave);
      var amp := Pow(persistence, octave);
      AddOctave(grid, snoise2, seed, freq, amp, scale, octave, persistence, lacunarity);
      forall a, b | 0 <= a < grid.Length0 && 0 <= b < grid.Length1
        ensures grid[a, b] == OctaveSum(snoise2, seed, a, b, octave + 1, persistence, lacunarity, scale)
      {
      }
      octave := octave + 1;
    }
  }

  // ---------------------------------------------------------------------------
  // The visualizer

  class MinecraftNoiseVisualizer {
    /** Seed of every field this instance generates. */
    const seed: int
    /** Side of every generated grid. */
    const size: nat

    /** Stores the seed and the grid size. Reseeding numpy's global generator accepts only
        a seed in `[0, 2 ** 32)`, and has no effect on any value computed below. */
    constructor (seed: int := 12345, size: nat := 128)
      requires 0 <= seed < 0x1_0000_0000
      ensures this.seed == seed && this.size == size
    {
      this.seed := seed;
      this.size := size;
    }

    /** Fills a zeroed `size × size` grid row by row, one `pnoise2` call per cell.
        `writes` counts the assignments each cell received. */
    method GeneratePerlinNoise(pnoise2: Perlin2, octaves: int := 4, persistence: real := 0.5,
                               lacunarity: real := 2.0, scale: real := 50.0)
      returns (noiseMap: Field, ghost writes: seq<seq<nat>>)
      requires scale != 0.0 || size == 0
      ensures IsGrid(noiseMap, size, size)
      ensures forall i, j :: 0 <= i < size && 0 <= j < size ==>
                noiseMap[i][j] == pnoise2(i as real / scale, j as real / scale, octaves,
                                          persistence, lacunarity, REPEAT, REPEAT, seed)
      ensures noiseMap == PerlinField(pnoise2, seed, size, octaves, persistence, lacunarity, scale)
      ensures IsGrid(writes, size, size)
      ensures forall i, j :: 0 <= i < size && 0 <= j < size ==> writes[i][j] == 1
    {
      var n := size;
      var grid := new real[n, n]((_, _) => 0.0);
      writes := seq(n, _ => seq(n, _ => 0));
      for i := 0 to n
        invariant IsGrid(writes, n, n)
        invariant forall a, b :: 0 <= a < n && 0 <= b < n ==>
                    grid[a, b] == (if a < i then PerlinCell(pnoise2, seed, a, b, octaves, persistence, lacunarity, scale) else 0.0)
        invariant forall a, b :: 0 <= a < n && 0 <= b < n ==>
                    writes[a][b] == (if a < i then 1 else 0)
      {
        for j := 0 to n
          invariant IsGrid(writes, n, n)
          invariant forall a, b :: 0 <= a < n && 0 <= b < n ==>
                      grid[a, b] == (if a < i || (a == i && b < j)
                                     then PerlinCell(pnoise2, seed, a, b, octaves, persistence, lacunarity, scale)
                                     else 0.0)
          invariant forall a, b :: 0 <= a < n && 0 <= b < n ==>
                      writes[a][b] == (if a < i || (a == i && b < j) then 1 else 0)
        {
          grid[i, j] := pnoise2(i as real / scale, j as real / scale, octaves, persistence,
                                lacunarity, REPEAT, REPEAT, seed);
          writes := writes[i := writes[i][j := writes[i][j] + 1]];
        }
      }
      noiseMap := Cells(grid);
      FieldExt(noiseMap, PerlinField(pnoise2, seed, size, octaves, persistence, lacunarity, scale));
    }

    /** Zeroes a `size × size` grid, then for each octave adds that octave's sample of every
        cell, row by row. */
    method GenerateSimplexNoise(snoise2: Simplex2, octaves: int := 4, persistence: real := 0.5,
                                lacunarity: real := 2.0, scale: real := 50.0)
      returns (noiseMap: Field)
      requires scale != 0.0 || octaves <= 0 || size == 0
      ensures IsGrid(noiseMap, size, size)
      ensures forall i, j :: 0 <= i < size && 0 <= j < size ==>
                noiseMap[i][j] == Sum(OctaveTerms(snoise2, seed, i, j, OctaveCount(octaves),
                                                  persistence, lacunarity, scale))
      ensures noiseMap == SimplexField(snoise2, seed, size, octaves, persistence, lacunarity, scale)
    {
      var grid := new real[size, size]((_, _) => 0.0);
      AccumulateOctaves(grid, snoise2, seed, octaves, persistence, lacunarity, scale);
      noiseMap := Cells(grid);
      SimplexFieldClosedForm(noiseMap, snoise2, seed, size, octaves, persistence, lacunarity, scale);
    }

    /** Continentalness: Perlin noise with 6 octaves, scale 200, persistence 0.6. */
    method GenerateContinentalness(pnoise2: Perlin2) returns (r: Field)
      ensures r == PerlinField(pnoise2, seed, size, 6, 0.6, 2.0, 200.0)
    {
      ghost var writes;
      r, writes := GeneratePerlinNoise(pnoise2, octaves := 6, scale := 200.0, persistence := 0.6);
    }

    /** Erosion: Perlin noise with 5 octaves, scale 80, persistence 0.5. */
    method GenerateErosion(pnoise2: Perlin2) returns (r: Field)
      ensures r == PerlinField(pnoise2, seed, size, 5, 0.5, 2.0, 80.0)
    {
      ghost var writes;
      r, writes := GeneratePerlinNoise(pnoise2, octaves := 5, scale := 80.0, persistence := 0.5);
    }

    /** Ridges: the fold `1 - |v|` of Perlin noise with 4 octaves, scale 60,
        persistence 0.5. */
    method GenerateRidges(pnoise2: Perlin2) returns (r: Field)
      ensures IsGrid(r, size, size)
      ensures r == Ridge(PerlinField(pnoise2, seed, size, 4, 0.5, 2.0, 60.0))
    {
      var noise;
      ghost var writes;
      noise, writes := GeneratePerlinNoise(pnoise2, octaves := 4, scale := 60.0, persistence := 0.5);
      r := Ridge(noise);
    }

    /** `base_noise + added_noise * blend_factor`, cell by cell. */
    static function CombineNoisePatterns(baseNoise: Field, addedNoise: Field,
                                         blendFactor: real := 0.5): (r: Field)
      requires SameShape(baseNoise, addedNoise)
      ensures SameShape(r, baseNoise)
    {
      seq(|baseNoise|, i requires 0 <= i < |baseNoise| =>
        seq(|baseNoise[i]|, j requires 0 <= j < |baseNoise[i]| =>
          baseNoise[i][j] + addedNoise[i][j] * blendFactor))
    }
  }

  // ---------------------------------------------------------------------------
  // Properties of the blend

  /** A blend factor of 0 returns the base field unchanged. */
  lemma BlendZero(a: Field, b: Field)
    requires SameShape(a, b)
    ensures MinecraftNoiseVisualizer.CombineNoisePatterns(a, b, 0.0) == a
  {
    FieldExt(MinecraftNoiseVisualizer.CombineNoisePatterns(a, b, 0.0), a);
  }

  /** A blend factor of 1 is the cell-wise sum. */
  lemma BlendOne(a: Field, b: Field)
    requires SameShape(a, b)
    ensures forall i, j :: 0 <= i < |a| && 0 <= j < |a[i]| ==>
              MinecraftNoiseVisualizer.CombineNoisePatterns(a, b, 1.0)[i][j] == a[i][j] + b[i][j]
  {
  }

  /** Blending the same field twice adds the factors. */
  lemma BlendTwice(a: Field, b: Field, f: real, g: real)
    requires SameShape(a, b)
    ensures MinecraftNoiseVisualizer.CombineNoisePatterns(
              MinecraftNoiseVisualizer.CombineNoisePatterns(a, b, f), b, g)
         == MinecraftNoiseVisualizer.CombineNoisePatterns(a, b, f + g)
  {
    var once := MinecraftNoiseVisualizer.CombineNoisePatterns(a, b, f);
    var lhs := MinecraftNoiseVisualizer.CombineNoisePatterns(once, b, g);
    var rhs := MinecraftNoiseVisualizer.CombineNoisePatterns(a, b, f + g);
    forall i, j | 0 <= i < |lhs| && 0 <= j < |lhs[i]|
      ensures lhs[i][j] == rhs[i][j]
    {
      assert lhs[i][j] == a[i][j] + b[i][j] * f + b[i][j] * g;
    }
    FieldExt(lhs, rhs);
  }
}
