/** Two-dimensional scalar fields, the numpy arrays the noise pipeline passes around.
    Every float of the program is a `real` here: there is no rounding, no NaN and no
    infinity. */
module Fields {

  /** A scalar field: row `i` holds the cells `(i, 0)`, `(i, 1)`, ... */
  type Field = seq<seq<real>>

  /** `g` has the shape `(rows, cols)` of a two-dimensional array. */
  predicate IsGrid<T>(g: seq<seq<T>>, rows: nat, cols: nat) {
    |g| == rows && forall i :: 0 <= i < |g| ==> |g[i]| == cols
  }

  /** `f` is rectangular, as every numpy array is. */
  predicate IsArray(f: Field) {
    f != [] ==> IsGrid(f, |f|, |f[0]|)
  }

  /** `a` and `b` have the same shape, row by row. */
  predicate SameShape(a: Field, b: Field) {
    |a| == |b| && forall i :: 0 <= i < |a| ==> |a[i]| == |b[i]|
  }

  /** Two fields of one shape are equal when every cell is. */
  lemma {:induction false} FieldExt(a: Field, b: Field)
    requires SameShape(a, b)
    requires forall i, j :: 0 <= i < |a| && 0 <= j < |a[i]| ==> a[i][j] == b[i][j]
    ensures a == b
  {
    forall i | 0 <= i < |a|
      ensures a[i] == b[i]
    {
      assert |a[i]| == |b[i]|;
      assert forall j :: 0 <= j < |a[i]| ==> a[i][j] == b[i][j];
    }
  }

  /** numpy's `abs` on one cell. */
  function Abs(x: real): real {
    if x < 0.0 then -x else x
  }
}
