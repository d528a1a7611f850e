/** Grid primitives shared by the Gray-Scott and Belousov-Zhabotinsky kernels.

    A field is H rows of W columns of concentrations, indexed `Z[row][column]`.
    numpy's float32 is replaced by exact `real` arithmetic throughout. This module
    gives the modular index arithmetic behind `np.roll`, pointwise arithmetic on
    fields, field sums, clamping to [0,1] (`np.clip(x, 0, 1)`), and the view of a
    mutable `array2<real>` as a field value. */
module Grid {

  type Field = seq<seq<real>>

  // ---------------------------------------------------------------------------
  // Modular indices and np.roll
  // ---------------------------------------------------------------------------

  /** Index i reduced modulo n, as numpy does when it rolls an axis of length n.
      Python's % floors and Dafny's % is Euclidean; for n > 0 both give the
      representative in [0, n). */
  function Wrap(i: int, n: int): (r: int)
    requires n > 0
    ensures 0 <= r < n
    ensures 0 <= i < n ==> r == i
    ensures i == -1 ==> r == n - 1
    ensures i == n ==> r == 0
  {
    if i == -1 then ModUnique(i, n, -1, n - 1); i % n
    else if i == n then ModUnique(i, n, 1, 0); i % n
    else i % n
  }

  /** Euclidean division has a unique remainder. */
  lemma ModUnique(x: int, n: int, q: int, r: int)
    requires n > 0 && 0 <= r < n && x == q * n + r
    ensures x % n == r
  {
    var d := q - x / n;
    assert d * n == x % n - r;
    if d >= 1 {
      assert false;
    } else if d <= -1 {
      assert false;
    }
  }

  /** Shifting an index by a multiple of n does not change its wrapped value,
      so a wrapped index can be re-expressed through any representative. */
  lemma WrapShift(i: int, k: int, n: int)
    requires n > 0
    ensures Wrap(i + Wrap(k, n), n) == Wrap(i + k, n)
  {
    var m := Wrap(k, n);
    var q := k / n;
    assert k == q * n + m;
    var r := Wrap(i + m, n);
    var q2 := (i + m) / n;
    assert i + m == q2 * n + r;
    assert i + k == (q2 + q) * n + r by {
      assert i + k == i + m + q * n;
      assert q2 * n + r + q * n == (q2 + q) * n + r;
    }
    ModUnique(i + k, n, q2 + q, r);
  }

  /** The neighbours of index i on a cyclic axis of length n: i - 1 and i + 1
      modulo n, written without division. */
  function Prev(i: int, n: int): (r: int)
    requires 0 <= i < n
    ensures 0 <= r < n
  {
    if i == 0 then n - 1 else i - 1
  }

  function Next(i: int, n: int): (r: int)
    requires 0 <= i < n
    ensures 0 <= r < n
  {
    if i == n - 1 then 0 else i + 1
  }

  /** Prev and Next are the wrapped indices i - 1 and i + 1. */
  lemma PrevNextWrap(i: int, n: int)
    requires 0 <= i < n
    ensures Prev(i, n) == Wrap(i - 1, n) && Next(i, n) == Wrap(i + 1, n)
  {
  }

  /** `np.roll` of a sequence by k places: element i of the result is element
      (i - k) mod n of the input. */
  function Rotate<T>(xs: seq<T>, k: int): (r: seq<T>)
    ensures |r| == |xs|
    ensures forall i {:trigger r[i]} :: 0 <= i < |xs| ==> r[i] == xs[Wrap(i - k, |xs|)]
  {
    seq(|xs|, i requires 0 <= i < |xs| => xs[Wrap(i - k, |xs|)])
  }

  /** A rotation is the suffix of the input followed by its prefix. */
  lemma RotateSplit<T>(xs: seq<T>, k: int)
    requires |xs| > 0
    ensures Rotate(xs, k) == xs[Wrap(-k, |xs|)..] + xs[..Wrap(-k, |xs|)]
  {
    var n, m := |xs|, Wrap(-k, |xs|);
    var r, s := Rotate(xs, k), xs[m..] + xs[..m];
    forall i | 0 <= i < n
      ensures r[i] == s[i]
    {
      WrapShift(i, -k, n);
      if i < n - m {
        assert Wrap(i + m, n) == i + m;
      } else {
        ModUnique(i + m, n, 1, i + m - n);
      }
    }
  }

  // ---------------------------------------------------------------------------
  // Shapes
  // ---------------------------------------------------------------------------

  function Width(Z: Field): nat
  {
    if |Z| == 0 then 0 else |Z[0]|
  }

  /** Every row has the same length: a proper H x W array. */
  predicate Rect(Z: Field)
  {
    forall i :: 0 <= i < |Z| ==> |Z[i]| == Width(Z)
  }

  predicate SameShape(A: Field, B: Field)
  {
    Rect(A) && Rect(B) && |A| == |B| && Width(A) == Width(B)
  }

  /** The uniform h x w field with value c (`np.ones`, `np.zeros`). */
  function Const(h: nat, w: nat, c: real): (r: Field)
    ensures Rect(r) && |r| == h && (h > 0 ==> Width(r) == w)
    ensures forall i, j {:trigger r[i][j]} :: 0 <= i < h && 0 <= j < |r[i]| ==> r[i][j] == c
  {
    seq(h, i => seq(w, j => c))
  }

  predicate IsConst(Z: Field, c: real)
  {
    forall i, j :: 0 <= i < |Z| && 0 <= j < |Z[i]| ==> Z[i][j] == c
  }

  /** Two fields of one shape that agree cell by cell are equal. */
  lemma FieldExt(A: Field, B: Field)
    requires SameShape(A, B)
    requires forall i, j :: 0 <= i < |A| && 0 <= j < |A[i]| ==> A[i][j] == B[i][j]
    ensures A == B
  {
    forall i | 0 <= i < |A| ensures A[i] == B[i] {
      assert |A[i]| == |B[i]|;
    }
  }

  // ---------------------------------------------------------------------------
  // Pointwise arithmetic
  // ---------------------------------------------------------------------------

  function AddRow(a: seq<real>, b: seq<real>): (r: seq<real>)
    requires |a| == |b|
    ensures |r| == |a|
    ensures forall j {:trigger r[j]} :: 0 <= j < |a| ==> r[j] == a[j] + b[j]
  {
    seq(|a|, j requires 0 <= j < |a| => a[j] + b[j])
  }

  function ScaleRow(c: real, a: seq<real>): (r: seq<real>)
    ensures |r| == |a|
    ensures forall j {:trigger r[j]} :: 0 <= j < |a| ==> r[j] == c * a[j]
  {
    seq(|a|, j requires 0 <= j < |a| => c * a[j])
  }

  /** Elementwise sum of two fields of one shape (numpy `A + B`). */
  function Add(A: Field, B: Field): (r: Field)
    requires SameShape(A, B)
    ensures SameShape(r, A)
    ensures forall i, j {:trigger r[i][j]} :: 0 <= i < |A| && 0 <= j < |A[i]| ==> r[i][j] == A[i][j] + B[i][j]
  {
    seq(|A|, i requires 0 <= i < |A| => AddRow(A[i], B[i]))
  }

  /** Elementwise product with a scalar (numpy `c * A`). */
  function Scale(c: real, A: Field): (r: Field)
    requires Rect(A)
    ensures SameShape(r, A)
    ensures forall i, j {:trigger r[i][j]} :: 0 <= i < |A| && 0 <= j < |A[i]| ==> r[i][j] == c * A[i][j]
  {
    seq(|A|, i requires 0 <= i < |A| => ScaleRow(c, A[i]))
  }

  /** Sums and multiples of uniform fields are uniform. */
  lemma AddConst(A: Field, B: Field, a: real, b: real)
    requires SameShape(A, B) && IsConst(A, a) && IsConst(B, b)
    ensures IsConst(Add(A, B), a + b)
  {
  }

  lemma ScaleConst(c: real, A: Field, a: real)
    requires Rect(A) && IsConst(A, a)
    ensures IsConst(Scale(c, A), c * a)
  {
  }

  /** `np.roll(Z, k, 0)`: row i of the result is row (i - k) mod H. */
  function RollRows(Z: Field, k: int): (r: Field)
    requires Rect(Z)
    ensures SameShape(r, Z)
    ensures forall i, j {:trigger r[i][j]} :: 0 <= i < |Z| && 0 <= j < |Z[i]| ==> r[i][j] == Z[Wrap(i - k, |Z|)][j]
  {
    Rotate(Z, k)
  }

  /** `np.roll(Z, k, 1)`: column j of the result is column (j - k) mod W. */
  function RollCols(Z: Field, k: int): (r: Field)
    requires Rect(Z)
    ensures SameShape(r, Z)
    ensures forall i, j {:trigger r[i][j]} :: 0 <= i < |Z| && 0 <= j < |Z[i]| ==> r[i][j] == Z[i][Wrap(j - k, |Z[i]|)]
  {
    seq(|Z|, i requires 0 <= i < |Z| => Rotate(Z[i], k))
  }

  // ---------------------------------------------------------------------------
  // Sums
  // ---------------------------------------------------------------------------

  function SeqSum(xs: seq<real>): real
  {
    if xs == [] then 0.0 else xs[0] + SeqSum(xs[1..])
  }

  function RowSums(Z: Field): (r: seq<real>)
    ensures |r| == |Z|
  {
    seq(|Z|, i requires 0 <= i < |Z| => SeqSum(Z[i]))
  }

  /** The total of all cells of a field. */
  function GridSum(Z: Field): real
  {
    SeqSum(RowSums(Z))
  }

  lemma {:induction false} SeqSumAppend(a: seq<real>, b: seq<real>)
    ensures SeqSum(a + b) == SeqSum(a) + SeqSum(b)
  {
    if a == [] {
      assert a + b == b;
    } else {
      assert (a + b)[1..] == a[1..] + b;
      SeqSumAppend(a[1..], b);
    }
  }

  /** Rolling a sequence does not change its sum. */
  lemma SeqSumRotate(xs: seq<real>, k: int)
    ensures SeqSum(Rotate(xs, k)) == SeqSum(xs)
  {
    if |xs| > 0 {
      var m := Wrap(-k, |xs|);
      RotateSplit(xs, k);
      SeqSumAppend(xs[m..], xs[..m]);
      SeqSumAppend(xs[..m], xs[m..]);
      assert xs[..m] + xs[m..] == xs;
    } else {
      assert Rotate(xs, k) == xs;
    }
  }

  lemma {:induction false} SeqSumAddRow(a: seq<real>, b: seq<real>)
    requires |a| == |b|
    ensures SeqSum(AddRow(a, b)) == SeqSum(a) + SeqSum(b)
  {
    if a != [] {
      assert AddRow(a, b)[1..] == AddRow(a[1..], b[1..]);
      SeqSumAddRow(a[1..], b[1..]);
    }
  }

  lemma {:induction false} SeqSumScaleRow(c: real, a: seq<real>)
    ensures SeqSum(ScaleRow(c, a)) == c * SeqSum(a)
  {
    if a != [] {
      var s, t := ScaleRow(c, a)[1..], ScaleRow(c, a[1..]);
      assert |s| == |t|;
      forall j | 0 <= j < |s| ensures s[j] == t[j] {
        assert s[j] == ScaleRow(c, a)[j + 1] == c * a[j + 1];
      }
      assert s == t;
      SeqSumScaleRow(c, a[1..]);
    }
  }

  /** Sums distribute over elementwise addition of fields. */
  lemma GridSumAdd(A: Field, B: Field)
    requires SameShape(A, B)
    ensures GridSum(Add(A, B)) == GridSum(A) + GridSum(B)
  {
    forall i | 0 <= i < |A|
      ensures RowSums(Add(A, B))[i] == AddRow(RowSums(A), RowSums(B))[i]
    {
      SeqSumAddRow(A[i], B[i]);
    }
    assert RowSums(Add(A, B)) == AddRow(RowSums(A), RowSums(B));
    SeqSumAddRow(RowSums(A), RowSums(B));
  }

  /** Scaling a field scales its sum. */
  lemma GridSumScale(c: real, A: Field)
    requires Rect(A)
    ensures GridSum(Scale(c, A)) == c * GridSum(A)
  {
    forall i | 0 <= i < |A|
      ensures RowSums(Scale(c, A))[i] == ScaleRow(c, RowSums(A))[i]
    {
      SeqSumScaleRow(c, A[i]);
    }
    assert RowSums(Scale(c, A)) == ScaleRow(c, RowSums(A));
    SeqSumScaleRow(c, RowSums(A));
  }

  /** Rolling along either axis of the torus keeps the total. */
  lemma GridSumRollRows(Z: Field, k: int)
    requires Rect(Z)
    ensures GridSum(RollRows(Z, k)) == GridSum(Z)
  {
    assert RowSums(RollRows(Z, k)) == Rotate(RowSums(Z), k);
    SeqSumRotate(RowSums(Z), k);
  }

  lemma GridSumRollCols(Z: Field, k: int)
    requires Rect(Z)
    ensures GridSum(RollCols(Z, k)) == GridSum(Z)
  {
    forall i | 0 <= i < |Z|
      ensures RowSums(RollCols(Z, k))[i] == RowSums(Z)[i]
    {
      assert RollCols(Z, k)[i] == Rotate(Z[i], k);
      SeqSumRotate(Z[i], k);
    }
    assert RowSums(RollCols(Z, k)) == RowSums(Z);
  }

  // ---------------------------------------------------------------------------
  // The eight toroidal neighbours
  // ---------------------------------------------------------------------------

  /** The four orthogonal neighbours of every cell, summed:
      `np.roll(Z, 1, 0) + np.roll(Z, -1, 0) + np.roll(Z, 1, 1) + np.roll(Z, -1, 1)`. */
  function Orthogonal(Z: Field): (r: Field)
    requires Rect(Z)
    ensures SameShape(r, Z)
  {
    Add(Add(Add(RollRows(Z, 1), RollRows(Z, -1)), RollCols(Z, 1)), RollCols(Z, -1))
  }

  /** The four diagonal neighbours of every cell, summed: the four doubly
      rolled copies `np.roll(np.roll(Z, +-1, 0), +-1, 1)`. */
  function Diagonal(Z: Field): (r: Field)
    requires Rect(Z)
    ensures SameShape(r, Z)
  {
    Add(Add(Add(RollCols(RollRows(Z, 1), 1), RollCols(RollRows(Z, 1), -1)),
            RollCols(RollRows(Z, -1), 1)), RollCols(RollRows(Z, -1), -1))
  }

  /** The orthogonal and diagonal sums at one cell: the cells one row up and
      down (Prev, Next of i) and one column left and right (Prev, Next of j),
      wrapping round the torus. */
  lemma OrthogonalAt(Z: Field, i: nat, j: nat)
    requires Rect(Z) && i < |Z| && j < Width(Z)
    ensures Orthogonal(Z)[i][j]
         == Z[Prev(i, |Z|)][j] + Z[Next(i, |Z|)][j] + Z[i][Prev(j, Width(Z))] + Z[i][Next(j, Width(Z))]
  {
    PrevNextWrap(i, |Z|);
    PrevNextWrap(j, Width(Z));
    var r1, r2, c1, c2 := RollRows(Z, 1), RollRows(Z, -1), RollCols(Z, 1), RollCols(Z, -1);
    assert Add(r1, r2)[i][j] == r1[i][j] + r2[i][j];
    assert Add(Add(r1, r2), c1)[i][j] == Add(r1, r2)[i][j] + c1[i][j];
  }

  lemma DiagonalAt(Z: Field, i: nat, j: nat)
    requires Rect(Z) && i < |Z| && j < Width(Z)
    ensures Diagonal(Z)[i][j]
         == Z[Prev(i, |Z|)][Prev(j, Width(Z))] + Z[Prev(i, |Z|)][Next(j, Width(Z))]
          + Z[Next(i, |Z|)][Prev(j, Width(Z))] + Z[Next(i, |Z|)][Next(j, Width(Z))]
  {
    var H, W := |Z|, Width(Z);
    PrevNextWrap(i, H);
    PrevNextWrap(j, W);
    var up, dn, lf, rt := Prev(i, H), Next(i, H), Prev(j, W), Next(j, W);
    var r1, r2 := RollRows(Z, 1), RollRows(Z, -1);
    var d1, d2, d3, d4 := RollCols(r1, 1), RollCols(r1, -1), RollCols(r2, 1), RollCols(r2, -1);
    assert d1[i][j] == r1[i][lf] == Z[up][lf];
    assert d2[i][j] == r1[i][rt] == Z[up][rt];
    assert d3[i][j] == r2[i][lf] == Z[dn][lf];
    assert d4[i][j] == r2[i][rt] == Z[dn][rt];
    assert Add(d1, d2)[i][j] == d1[i][j] + d2[i][j];
    assert Add(Add(d1, d2), d3)[i][j] == Add(d1, d2)[i][j] + d3[i][j];
  }

  /** Each of the eight rolled copies keeps the total. */
  lemma OrthogonalSum(Z: Field)
    requires Rect(Z)
    ensures GridSum(Orthogonal(Z)) == 4.0 * GridSum(Z)
  {
    var r1, r2, c1, c2 := RollRows(Z, 1), RollRows(Z, -1), RollCols(Z, 1), RollCols(Z, -1);
    GridSumRollRows(Z, 1); GridSumRollRows(Z, -1);
    GridSumRollCols(Z, 1); GridSumRollCols(Z, -1);
    GridSumAdd(r1, r2); GridSumAdd(Add(r1, r2), c1); GridSumAdd(Add(Add(r1, r2), c1), c2);
  }

  lemma DiagonalSum(Z: Field)
    requires Rect(Z)
    ensures GridSum(Diagonal(Z)) == 4.0 * GridSum(Z)
  {
    var r1, r2 := RollRows(Z, 1), RollRows(Z, -1);
    var d1, d2, d3, d4 := RollCols(r1, 1), RollCols(r1, -1), RollCols(r2, 1), RollCols(r2, -1);
    GridSumRollRows(Z, 1); GridSumRollRows(Z, -1);
    GridSumRollCols(r1, 1); GridSumRollCols(r1, -1);
    GridSumRollCols(r2, 1); GridSumRollCols(r2, -1);
    GridSumAdd(d1, d2); GridSumAdd(Add(d1, d2), d3); GridSumAdd(Add(Add(d1, d2), d3), d4);
  }

  // ---------------------------------------------------------------------------
  // Clamping to the unit interval
  // ---------------------------------------------------------------------------

  /** `np.clip(x, 0, 1)` on one value. */
  function Clip(x: real): (r: real)
    ensures 0.0 <= r <= 1.0
    ensures 0.0 <= x <= 1.0 ==> r == x
    ensures x < 0.0 ==> r == 0.0
    ensures x > 1.0 ==> r == 1.0
  {
    if x < 0.0 then 0.0 else if x > 1.0 then 1.0 else x
  }

  function ClipRow(a: seq<real>): (r: seq<real>)
    ensures |r| == |a|
    ensures forall j {:trigger r[j]} :: 0 <= j < |a| ==> r[j] == Clip(a[j])
  {
    seq(|a|, j requires 0 <= j < |a| => Clip(a[j]))
  }

  /** `np.clip(Z, 0, 1)` on a whole field. */
  function ClipField(Z: Field): (r: Field)
    ensures |r| == |Z|
    ensures forall i {:trigger r[i]} :: 0 <= i < |Z| ==> r[i] == ClipRow(Z[i])
    ensures Rect(Z) ==> SameShape(r, Z)
  {
    seq(|Z|, i requires 0 <= i < |Z| => ClipRow(Z[i]))
  }

  /** Every value lies in [0, 1]. */
  predicate InUnit(Z: Field)
  {
    forall i, j :: 0 <= i < |Z| && 0 <= j < |Z[i]| ==> 0.0 <= Z[i][j] <= 1.0
  }

  /** Clamping lands in [0, 1] and leaves fields already in [0, 1] alone. */
  lemma ClipFieldRange(Z: Field)
    ensures InUnit(ClipField(Z))
    ensures InUnit(Z) ==> ClipField(Z) == Z
  {
    if InUnit(Z) {
      forall i | 0 <= i < |Z|
        ensures ClipField(Z)[i] == Z[i]
      {
        assert ClipRow(Z[i]) == Z[i];
      }
    }
  }

  /** Clamping twice is clamping once. */
  lemma ClipFieldIdempotent(Z: Field)
    ensures ClipField(ClipField(Z)) == ClipField(Z)
  {
    ClipFieldRange(Z);
    ClipFieldRange(ClipField(Z));
  }

  // ---------------------------------------------------------------------------
  // Arrays as fields
  // ---------------------------------------------------------------------------

  /** Field Z has the dimensions of array a. */
  predicate Fits(a: array2<real>, Z: Field)
  {
    |Z| == a.Length0 && forall i :: 0 <= i < |Z| ==> |Z[i]| == a.Length1
  }

  /** The current contents of an H x W array as a field value. */
  function Cells(a: array2<real>): (r: Field)
    reads a
    ensures Rect(r) && |r| == a.Length0 && (a.Length0 > 0 ==> Width(r) == a.Length1)
    ensures forall i, j {:trigger r[i][j]} :: 0 <= i < a.Length0 && 0 <= j < a.Length1 ==> r[i][j] == a[i, j]
  {
    seq(a.Length0, i requires 0 <= i < a.Length0 reads a =>
      seq(a.Length1, j requires 0 <= j < a.Length1 reads a => a[i, j]))
  }

  /** An array holds field Z when it has Z's dimensions and Z's values. */
  lemma CellsEqual(a: array2<real>, Z: Field)
    requires Fits(a, Z)
    requires forall i, j :: 0 <= i < a.Length0 && 0 <= j < a.Length1 ==> a[i, j] == Z[i][j]
    ensures Cells(a) == Z
  {
    var C := Cells(a);
    forall i | 0 <= i < |Z| ensures C[i] == Z[i] {
      assert |C[i]| == |Z[i]|;
    }
  }
}
