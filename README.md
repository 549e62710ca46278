# Minecraft noise fields, modelled in Dafny

This project models the numeric core of the Minecraft boulder-noise experiments:

- `MinecraftNoiseVisualizer` builds square noise fields. Its generators are:
  - a Perlin generator that fills the grid one library call per cell;
  - a simplex generator that adds octaves into the grid in place;
  - three presets: continentalness, erosion and ridges;
  - an additive blend of two fields.
- The boulder placement example then:
  1. normalises a base terrain to `[0, 1]`;
  2. gates a boulder pattern by it;
  3. thresholds the result into a placement mask;
  4. counts the placed cells.

The noise primitives `pnoise2` and `snoise2` come from a foreign library. They are function-typed parameters (`Perlin2`, `Simplex2`), so every property below holds whatever they compute. Floats are modelled as `real`. A field is a `seq<seq<real>>`.

The modules follow the source files:

- `Fields` (`fields.dfy`) holds the shape predicates shared by both files.
- `VisualizeNoise` (`visualize_noise.dfy`) holds the class and its generators:
  - `MinecraftNoiseVisualizer` is a class with the constant fields `seed` and `size`;
  - the two generators are methods that fill a local `array2<real>`, which is `np.zeros`, in nested loops, and return its cells as a value;
  - each generator is proved equal to a specification function (`PerlinField`, `SimplexField`);
  - the simplex octave sums are proved equal to their closed form.
- `BoulderPlacement` (`boulder_placement.dfy`) holds the pure steps of the example's `main`.

The code rejects no zero scale and gives neither an empty nor a constant field any fallback when normalising it. It does not check shapes itself: numpy broadcasts compatible shapes and raises otherwise. The model states these as preconditions:

- `scale != 0.0` wherever a cell is actually divided by the scale. Python's division raises on zero. With size 0, or for the simplex generator with `octaves <= 0`, nothing is divided, and the model accepts a zero scale there too.
- `NonEmpty(f)` for `min()` and `max()`, which raise on a zero-size array.
- `FieldMin(f) < FieldMax(f)` for normalisation.
- `SameShape` for the blend and the gate: the model requires equal shapes.

The code does not check `octaves` either: it runs `range(octaves)`, which is empty for `octaves <= 0`. The model keeps that behaviour in `OctaveCount` and `SimplexNoOctaves`.

## Model

| member | source | states |
|---|---|---|
| VisualizeNoise.MinecraftNoiseVisualizer.constructor | experiments/visualize_noise.py:19-29 | the instance keeps exactly the given seed and size; the defaults are 12345 and 128, and the seed must lie in `[0, 2 ** 32)`, the range `np.random.seed` accepts |
| VisualizeNoise.Pow | experiments/visualize_noise.py:77-78 | `x ** 0` is 1.0 for every `x`, and a power of a non-negative base is non-negative |
| VisualizeNoise.OctaveCount | experiments/visualize_noise.py:76 | the loop's passes `0 .. r - 1` are exactly the values `range(octaves)` yields, so there are none when `octaves <= 0` |
| VisualizeNoise.MinecraftNoiseVisualizer.GeneratePerlinNoise | experiments/visualize_noise.py:44-59 | returns a `size × size` grid whose cell `(i, j)` is `pnoise2(i/scale, j/scale, octaves, persistence, lacunarity, 1024, 1024, seed)`, and the ghost count shows every cell written exactly once; the result is `PerlinField` of the stored seed and size and the arguments, so equal inputs give equal grids |
| VisualizeNoise.MinecraftNoiseVisualizer.GenerateSimplexNoise | experiments/visualize_noise.py:74-87 | returns a `size × size` grid whose cell `(i, j)` is the sum over `k < octaves` of `snoise2((i/scale)·lacunarity^k + seed, (j/scale)·lacunarity^k + seed) · persistence^k`; the octave loop is `AccumulateOctaves` |
| VisualizeNoise.AccumulateOctaves | experiments/visualize_noise.py:76-85 | starting from a zeroed grid, the loop keeps the invariant that after `o` passes every cell holds the partial sum over `k < o`, so at the end every cell holds the sum over all `range(octaves)` passes; only the grid is modified |
| VisualizeNoise.AddOctave | experiments/visualize_noise.py:80-85 | one octave pass adds to every cell its sample at frequency `lacunarity^o`, scaled by `persistence^o`, to the value the cell held before |
| VisualizeNoise.OctaveSumClosedForm | experiments/visualize_noise.py:76-85 | the value a cell accumulates over `o` passes equals the sum of the `o` octave terms, in order |
| VisualizeNoise.SimplexFieldClosedForm | experiments/visualize_noise.py:74-87 | a grid whose every cell holds its accumulated value is the simplex field, and each cell is the closed-form octave sum |
| VisualizeNoise.SimplexNoOctaves | experiments/visualize_noise.py:74-76 | with `octaves <= 0` the loop does not run and the result is the all-zero `size × size` grid, whatever the scale |
| VisualizeNoise.OctaveSumBound | experiments/visualize_noise.py:76-85 | if `snoise2` stays within `[-1, 1]`, a cell after `o` octaves stays within `|persistence|^0 + … + |persistence|^(o-1)` in absolute value |
| VisualizeNoise.SimplexCellBound | experiments/visualize_noise.py:76-85 | if `snoise2` stays within `[-1, 1]` and `|persistence| < 1`, every simplex cell stays within `1 / (1 - |persistence|)` in absolute value, for any number of octaves |
| VisualizeNoise.GeometricSumBound | experiments/visualize_noise.py:78 | for `0 <= p < 1` the total amplitude `p^0 + … + p^(n-1)` is at most `1 / (1 - p)` |
| VisualizeNoise.GeometricSumClosedForm | experiments/visualize_noise.py:78 | the total of the amplitudes `p^0 … p^(n-1)`, multiplied by `1 - p`, is `1 - p^n` |
| VisualizeNoise.OctaveTermBound | experiments/visualize_noise.py:82-85 | if `snoise2` stays within `[-1, 1]`, one octave's contribution is at most its amplitude in absolute value |
| VisualizeNoise.MinecraftNoiseVisualizer.GenerateContinentalness | experiments/visualize_noise.py:94 | the result is the Perlin field with 6 octaves, persistence 0.6, lacunarity 2.0 and scale 200 |
| VisualizeNoise.MinecraftNoiseVisualizer.GenerateErosion | experiments/visualize_noise.py:101 | the result is the Perlin field with 5 octaves, persistence 0.5, lacunarity 2.0 and scale 80 |
| VisualizeNoise.MinecraftNoiseVisualizer.GenerateRidges | experiments/visualize_noise.py:108-109 | the result is `size × size`, and each of its cells is `1 - |v|` of the Perlin field with 4 octaves, persistence 0.5, lacunarity 2.0 and scale 60 |
| VisualizeNoise.Ridge | experiments/visualize_noise.py:109 | the ridge fold keeps the shape of its input |
| VisualizeNoise.RidgePeak | experiments/visualize_noise.py:109 | the fold is at most 1, and it equals 1 exactly when the base value is 0 |
| VisualizeNoise.RidgeRange | experiments/visualize_noise.py:109 | a base field within `[-1, 1]` folds into a field within `[0, 1]` |
| VisualizeNoise.MinecraftNoiseVisualizer.CombineNoisePatterns | experiments/visualize_noise.py:111-123 | the blend of two fields of one shape has that shape; the blend factor defaults to 0.5 |
| VisualizeNoise.BlendZero | experiments/visualize_noise.py:123 | a blend factor of 0 returns the base field unchanged |
| VisualizeNoise.BlendOne | experiments/visualize_noise.py:123 | a blend factor of 1 gives the cell-wise sum `a[i][j] + b[i][j]` |
| VisualizeNoise.BlendTwice | experiments/visualize_noise.py:123 | blending the same field with factor `f` and then with factor `g` equals one blend with factor `f + g` |
| BoulderPlacement.BoulderExample | experiments/example_boulder_placement.py:16-34 | with seed 42 and size 128, the base terrain is the continentalness field and the boulder pattern is the Perlin field with 3 octaves, scale 40, persistence 0.4 and lacunarity 2.0; both are 128 × 128, and a non-constant terrain gives a total of 16384 blocks |
| BoulderPlacement.FieldMin | experiments/example_boulder_placement.py:40 | `min()` is the value of some cell, and no cell is smaller |
| BoulderPlacement.FieldMax | experiments/example_boulder_placement.py:40 | `max()` is the value of some cell, and no cell is larger |
| BoulderPlacement.MinExists | experiments/example_boulder_placement.py:40 | every field with a cell has a minimum |
| BoulderPlacement.MaxExists | experiments/example_boulder_placement.py:40 | every field with a cell has a maximum |
| BoulderPlacement.Normalize | experiments/example_boulder_placement.py:40 | normalisation keeps the shape of the field |
| BoulderPlacement.RescaleField | experiments/example_boulder_placement.py:40 | the cell-wise rescaling keeps the shape of the field |
| BoulderPlacement.NormalizeRange | experiments/example_boulder_placement.py:39-40 | when `max > min`, every normalised cell lies in `[0, 1]`; a cell becomes 0 exactly when it is a minimum, and 1 exactly when it is a maximum |
| BoulderPlacement.NormalizeMonotone | experiments/example_boulder_placement.py:40 | normalisation keeps the order between any two cells, in both directions |
| BoulderPlacement.RescaleMonotone | experiments/example_boulder_placement.py:40 | `(x - lo) / (hi - lo)` preserves and reflects the order of `x` when `lo < hi` |
| BoulderPlacement.Gate | experiments/example_boulder_placement.py:43 | gating keeps the shape of the boulder pattern |
| BoulderPlacement.GateSuppresses | experiments/example_boulder_placement.py:42-43 | a gated cell is 0 wherever the terrain is 0, unchanged wherever it is 1, and never larger in absolute value than the boulder cell when the terrain is in `[0, 1]` |
| BoulderPlacement.PlacementMask | experiments/example_boulder_placement.py:47-48 | the mask has the shape of its input; a cell is 1.0 exactly when the value is strictly above the threshold and 0.0 exactly when it is not, so a tie gives 0.0 and no other value occurs |
| BoulderPlacement.MaskOfGate | experiments/example_boulder_placement.py:43-48 | thresholding a gated field marks a cell exactly when the product of its two factors is above the threshold |
| BoulderPlacement.Size | experiments/example_boulder_placement.py:113 | `.size` is the product of the two dimensions: 0 exactly when the field has no row or an empty first row |
| BoulderPlacement.SizeIsCellCount | experiments/example_boulder_placement.py:113 | `.size`, the product of the two dimensions, is the number of cells of a rectangular field |
| BoulderPlacement.FieldSum | experiments/example_boulder_placement.py:114 | `np.sum` of a field whose cells all lie in `[0, 1]`, such as a mask, is between 0 and the number of cells |
| BoulderPlacement.MaskSumIsCount | experiments/example_boulder_placement.py:114 | the `np.sum` of the mask is the number of cells above the threshold, and that number is at most the number of cells |
| BoulderPlacement.CountZero | experiments/example_boulder_placement.py:114 | no boulder is placed exactly when no cell is above the threshold |
| BoulderPlacement.CellsOfGrid | experiments/example_boulder_placement.py:113 | a `rows × cols` grid has `rows · cols` cells |
| BoulderPlacement.Place | experiments/example_boulder_placement.py:39-48 | the normalised terrain, the gated pattern and the mask all keep the shape of the base terrain |
| BoulderPlacement.PlaceMask | experiments/example_boulder_placement.py:39-48 | a boulder is placed exactly where the boulder pattern times the normalised base terrain is strictly above the threshold |
| BoulderPlacement.LowestGroundEmpty | experiments/example_boulder_placement.py:39-48 | at a minimum cell of the base terrain the normalised height is 0, so with a non-negative threshold no boulder is placed there |
| BoulderPlacement.PlaceTotals | experiments/example_boulder_placement.py:113-114 | the total is the grid's `rows × cols`; the placed count is the number of gated cells above the threshold, and it lies between 0 and the total |
| BoulderPlacement.PlaceCounts | experiments/example_boulder_placement.py:113-114 | for a `rows × cols` gated field, the mask's size is `rows · cols` and its sum is the count of cells above the threshold, which is at most `rows · cols` |

## Left out

- Plotting, colour maps, 3-D rendering and saving images (`visualize_2d`, `visualize_3d`, `visualize_comparison`, the figure in the example): presentation and file I/O.
- The command-line interface, console output and `plt.show`: I/O.
- The internals of `pnoise2` and `snoise2`. They are a foreign library and appear as function parameters, so no property relating fields of different seeds can be stated.
- The density map made with `scipy.ndimage.uniform_filter`: a foreign call whose edge policy is not visible here.
- The runtime `pip install` fallback of the example: process I/O.
- The float statistics of the example (coverage percentage, terrain mean, density maximum) and `int(boulder_blocks)` in the printout. Of the statistics, only the total and the placed count are modelled.
- IEEE-754 rounding, overflow, NaN and infinity: every float is a `real`.
- `np.random.seed` in the constructor: it reseeds a global generator that no modelled value reads, so the reseeding itself is not modelled. Its `ValueError` for a seed outside `[0, 2 ** 32)` is a precondition of the constructor.
- Fields are modelled as rectangular `seq<seq<real>>` values. The generators return a fresh value rather than a shared numpy array, so aliasing of arrays is not modelled.
- VisualizeNoise.MinecraftNoiseVisualizer.constructor: `size` is a `nat` and the seed must lie in `[0, 2 ** 32)`. In the source, a seed outside that range makes `np.random.seed` raise `ValueError` at construction, and a negative size makes the generators' `np.zeros` raise. Neither error path is modelled.
- VisualizeNoise.MinecraftNoiseVisualizer.GeneratePerlinNoise: requires `scale != 0.0 || size == 0`. A zero scale on a non-empty grid makes Python's `/` raise `ZeroDivisionError`, and that error path is not modelled.
- VisualizeNoise.MinecraftNoiseVisualizer.GenerateSimplexNoise: requires `scale != 0.0 || octaves <= 0 || size == 0`, for the same reason. Only the case where the source divides by zero is excluded.
- VisualizeNoise.MinecraftNoiseVisualizer.GenerateSimplexNoise: the ghost per-cell write count is given only for the Perlin generator. The simplex grid is specified by its values alone.
- BoulderPlacement.FieldMin / BoulderPlacement.FieldMax: require a cell. numpy's `min()`/`max()` raise `ValueError` on a zero-size array, and that path is not modelled. `Normalize` and `Place` inherit the requirement.
- BoulderPlacement.Normalize: requires `max > min`. On a constant field numpy divides by zero and yields NaN cells with a warning, and this is not modelled.
- VisualizeNoise.MinecraftNoiseVisualizer.CombineNoisePatterns: requires equal shapes. numpy broadcasting of compatible different shapes, and its `ValueError` for incompatible ones, are not modelled.
- BoulderPlacement.Gate: requires equal shapes, for the same reason.
- BoulderPlacement.BoulderExample: produces the two input fields. The normalisation, gating, mask and counts computed from them are the ghost function `Place`, because `min()` and `max()` are specified by what they return rather than computed.
