/** The Belousov-Zhabotinsky kernel of bz_kernel.py: three concentration fields
    a, b, c on a torus, each blended with the mean of its eight neighbours
    (`diffuse`) and then updated by a clamped cyclic reaction (`react`). Both
    functions build new arrays from their arguments, so they are modelled as
    functions on field values; one update of the main loop is Tick. */
module BZKernel {
  import opened Grid

  // ---------------------------------------------------------------------------
  // Diffusion
  // ---------------------------------------------------------------------------

  /** The mean of the eight toroidal neighbours of every cell (`n` in
      `diffuse`): the four orthogonal and the four diagonal rolled copies,
      summed and divided by 8. */
  function NeighbourMean(src: Field): (r: Field)
    requires Rect(src)
    ensures SameShape(r, src)
  {
    Scale(1.0 / 8.0, Add(Orthogonal(src), Diagonal(src)))
  }

  /** `diffuse(src, rate)`: `src * (1 - rate) + n * rate`. */
  function Diffuse(src: Field, rate: real): (r: Field)
    requires Rect(src)
    ensures SameShape(r, src)
  {
    Add(Scale(1.0 - rate, src), Scale(rate, NeighbourMean(src)))
  }

  /** The sum of the eight neighbours of cell (i, j) on the torus. */
  function NeighbourSum(src: Field, i: nat, j: nat): real
    requires Rect(src) && i < |src| && j < Width(src)
  {
    var H, W := |src|, Width(src);
    var up, dn, lf, rt := Prev(i, H), Next(i, H), Prev(j, W), Next(j, W);
    src[up][j] + src[dn][j] + src[i][lf] + src[i][rt]
    + src[up][lf] + src[up][rt] + src[dn][lf] + src[dn][rt]
  }

  /** Cell (i, j) of the neighbour mean is the average of the eight cells
      around (i, j) on the torus. */
  lemma NeighbourMeanAt(src: Field, i: nat, j: nat)
    requires Rect(src) && i < |src| && j < Width(src)
    ensures NeighbourMean(src)[i][j] == NeighbourSum(src, i, j) / 8.0
  {
    OrthogonalAt(src, i, j);
    DiagonalAt(src, i, j);
    var o, d := Orthogonal(src), Diagonal(src);
    assert Add(o, d)[i][j] == o[i][j] + d[i][j];
  }

  /** One cell of `src * (1 - rate) + n * rate`. */
  function Blend(s: real, m: real, rate: real): real
  {
    s * (1.0 - rate) + m * rate
  }

  /** Cell (i, j) after diffusion blends the old value with the neighbour mean. */
  lemma DiffuseAt(src: Field, rate: real, i: nat, j: nat)
    requires Rect(src) && i < |src| && j < Width(src)
    ensures Diffuse(src, rate)[i][j] == Blend(src[i][j], NeighbourMean(src)[i][j], rate)
  {
    var a, b := Scale(1.0 - rate, src), Scale(rate, NeighbourMean(src));
    assert Diffuse(src, rate)[i][j] == a[i][j] + b[i][j];
  }

  /** Rate 0 leaves the field as it is. */
  lemma DiffuseRateZero(src: Field)
    requires Rect(src)
    ensures Diffuse(src, 0.0) == src
  {
    forall i, j | 0 <= i < |src| && 0 <= j < |src[i]|
      ensures Diffuse(src, 0.0)[i][j] == src[i][j]
    {
      DiffuseAt(src, 0.0, i, j);
    }
    FieldExt(Diffuse(src, 0.0), src);
  }

  /** Rate 1 replaces every cell by the mean of its eight neighbours. */
  lemma DiffuseRateOne(src: Field)
    requires Rect(src)
    ensures Diffuse(src, 1.0) == NeighbourMean(src)
  {
    forall i, j | 0 <= i < |src| && 0 <= j < |src[i]|
      ensures Diffuse(src, 1.0)[i][j] == NeighbourMean(src)[i][j]
    {
      DiffuseAt(src, 1.0, i, j);
    }
    FieldExt(Diffuse(src, 1.0), NeighbourMean(src));
  }

  /** If every cell lies in [lo, hi], so does the mean of any cell's eight
      neighbours. */
  lemma NeighbourSumRange(src: Field, i: nat, j: nat, lo: real, hi: real)
    requires Rect(src) && i < |src| && j < Width(src)
    requires forall y, x :: 0 <= y < |src| && 0 <= x < |src[y]| ==> lo <= src[y][x] <= hi
    ensures lo <= NeighbourSum(src, i, j) / 8.0 <= hi
  {
    var H, W := |src|, Width(src);
    var up, dn, lf, rt := Prev(i, H), Next(i, H), Prev(j, W), Next(j, W);
    assert lo <= src[up][j] <= hi && lo <= src[dn][j] <= hi;
    assert lo <= src[i][lf] <= hi && lo <= src[i][rt] <= hi;
    assert lo <= src[up][lf] <= hi && lo <= src[up][rt] <= hi;
    assert lo <= src[dn][lf] <= hi && lo <= src[dn][rt] <= hi;
  }

  /** A uniform field is left as it is, whatever the rate. */
  lemma DiffuseConst(src: Field, rate: real, c: real)
    requires Rect(src) && IsConst(src, c)
    ensures IsConst(Diffuse(src, rate), c)
  {
    forall i, j | 0 <= i < |src| && 0 <= j < |src[i]|
      ensures Diffuse(src, rate)[i][j] == c
    {
      DiffuseAt(src, rate, i, j);
      NeighbourMeanAt(src, i, j);
      NeighbourSumRange(src, i, j, c, c);
      BlendSame(src[i][j], NeighbourMean(src)[i][j], rate);
    }
  }

  /** Multiplying by a factor of at most 1 does not increase a non-negative value. */
  lemma MulAtMost(x: real, y: real)
    requires 0.0 <= x && 0.0 <= y <= 1.0
    ensures 0.0 <= y * x <= x
  {
    assert (1.0 - y) * x == x - y * x;
  }

  /** Adding two bounded non-negative values. */
  lemma SumAtMost(p: real, q: real, t: real, u: real)
    requires 0.0 <= p <= t && 0.0 <= q <= u
    ensures 0.0 <= p + q <= t + u
  {
  }

  /** Blending a value with itself gives that value back, whatever the rate. */
  lemma BlendSame(s: real, m: real, rate: real)
    requires s == m
    ensures Blend(s, m, rate) == s
  {
  }

  /** A blend of two values in [0, 1] with a rate in [0, 1] stays in [0, 1]. */
  lemma BlendInUnit(s: real, m: real, rate: real)
    requires 0.0 <= s <= 1.0 && 0.0 <= m <= 1.0 && 0.0 <= rate <= 1.0
    ensures 0.0 <= Blend(s, m, rate) <= 1.0
  {
    var kept, moved := s * (1.0 - rate), m * rate;
    assert 0.0 <= kept <= 1.0 - rate by { MulAtMost(1.0 - rate, s); }
    assert 0.0 <= moved <= rate by { MulAtMost(rate, m); }
    SumAtMost(kept, moved, 1.0 - rate, rate);
  }

  /** With concentrations in [0, 1] and a rate in [0, 1], diffusion keeps
      every concentration in [0, 1]. */
  lemma DiffuseInUnit(src: Field, rate: real)
    requires Rect(src) && InUnit(src) && 0.0 <= rate <= 1.0
    ensures InUnit(Diffuse(src, rate))
  {
    forall i, j | 0 <= i < |src| && 0 <= j < |src[i]|
      ensures 0.0 <= Diffuse(src, rate)[i][j] <= 1.0
    {
      DiffuseAt(src, rate, i, j);
      NeighbourMeanAt(src, i, j);
      NeighbourSumRange(src, i, j, 0.0, 1.0);
      BlendInUnit(src[i][j], NeighbourMean(src)[i][j], rate);
    }
  }

  /** On the torus diffusion only moves material around: the total of the
      field is the same afterwards, whatever the rate. */
  lemma DiffuseSum(src: Field, rate: real)
    requires Rect(src)
    ensures GridSum(Diffuse(src, rate)) == GridSum(src)
  {
    var o, d := Orthogonal(src), Diagonal(src);
    OrthogonalSum(src);
    DiagonalSum(src);
    GridSumAdd(o, d);
    GridSumScale(1.0 / 8.0, Add(o, d));
    GridSumScale(1.0 - rate, src);
    GridSumScale(rate, NeighbourMean(src));
    GridSumAdd(Scale(1.0 - rate, src), Scale(rate, NeighbourMean(src)));
  }

  // ---------------------------------------------------------------------------
  // Reaction
  // ---------------------------------------------------------------------------

  /** The reaction weights of the command line: `-a`, `-b` and `-c`. */
  datatype Weights = Weights(pa: real, pb: real, pc: real)

  /** The new concentration of one species at one cell, before clamping: it
      grows with the species it feeds on and shrinks with its predator:
      `x + x * (gain * prey - loss * predator)`. */
  function Grow(x: real, gain: real, prey: real, loss: real, predator: real): real
  {
    x + x * (gain * prey - loss * predator)
  }

  /** `react(a, b, c, pa, pb, pc)`: a feeds on b and is eaten by c, b feeds on
      c and is eaten by a, c feeds on a and is eaten by b; every result is
      clamped to [0, 1]. */
  function React(a: Field, b: Field, c: Field, k: Weights): (r: (Field, Field, Field))
    requires SameShape(a, b) && SameShape(a, c)
    ensures SameShape(r.0, a) && SameShape(r.1, a) && SameShape(r.2, a)
    ensures forall i, j {:trigger r.0[i][j]} :: 0 <= i < |a| && 0 <= j < |a[i]| ==>
              r.0[i][j] == Clip(Grow(a[i][j], k.pa, b[i][j], k.pc, c[i][j]))
    ensures forall i, j {:trigger r.1[i][j]} :: 0 <= i < |a| && 0 <= j < |a[i]| ==>
              r.1[i][j] == Clip(Grow(b[i][j], k.pb, c[i][j], k.pa, a[i][j]))
    ensures forall i, j {:trigger r.2[i][j]} :: 0 <= i < |a| && 0 <= j < |a[i]| ==>
              r.2[i][j] == Clip(Grow(c[i][j], k.pc, a[i][j], k.pb, b[i][j]))
  {
    (seq(|a|, i requires 0 <= i < |a| =>
       seq(|a[i]|, j requires 0 <= j < |a[i]| => Clip(Grow(a[i][j], k.pa, b[i][j], k.pc, c[i][j])))),
     seq(|a|, i requires 0 <= i < |a| =>
       seq(|a[i]|, j requires 0 <= j < |a[i]| => Clip(Grow(b[i][j], k.pb, c[i][j], k.pa, a[i][j])))),
     seq(|a|, i requires 0 <= i < |a| =>
       seq(|a[i]|, j requires 0 <= j < |a[i]| => Clip(Grow(c[i][j], k.pc, a[i][j], k.pb, b[i][j])))))
  }

  /** Whatever the inputs and rates, every concentration after the reaction
      is in [0, 1]. */
  lemma ReactInUnit(a: Field, b: Field, c: Field, k: Weights)
    requires SameShape(a, b) && SameShape(a, c)
    ensures InUnit(React(a, b, c, k).0) && InUnit(React(a, b, c, k).1) && InUnit(React(a, b, c, k).2)
  {
    var r := React(a, b, c, k);
    assert forall i, j :: 0 <= i < |r.0| && 0 <= j < |r.0[i]| ==> 0.0 <= r.0[i][j] <= 1.0;
    assert forall i, j :: 0 <= i < |r.1| && 0 <= j < |r.1[i]| ==> 0.0 <= r.1[i][j] <= 1.0;
    assert forall i, j :: 0 <= i < |r.2| && 0 <= j < |r.2[i]| ==> 0.0 <= r.2[i][j] <= 1.0;
  }

  /** A species absent from a cell stays absent there: each update multiplies
      the old concentration. */
  lemma ReactAbsent(a: Field, b: Field, c: Field, k: Weights, i: nat, j: nat)
    requires SameShape(a, b) && SameShape(a, c) && i < |a| && j < Width(a)
    ensures a[i][j] == 0.0 ==> React(a, b, c, k).0[i][j] == 0.0
    ensures b[i][j] == 0.0 ==> React(a, b, c, k).1[i][j] == 0.0
    ensures c[i][j] == 0.0 ==> React(a, b, c, k).2[i][j] == 0.0
  {
  }

  // ---------------------------------------------------------------------------
  // One update of the main loop
  // ---------------------------------------------------------------------------

  /** `a = diffuse(a, D); b = diffuse(b, D); c = diffuse(c, D);
      a, b, c = react(a, b, c, PA, PB, PC)` */
  function Tick(a: Field, b: Field, c: Field, rate: real, k: Weights): (r: (Field, Field, Field))
    requires SameShape(a, b) && SameShape(a, c)
    ensures SameShape(r.0, a) && SameShape(r.1, a) && SameShape(r.2, a)
  {
    React(Diffuse(a, rate), Diffuse(b, rate), Diffuse(c, rate), k)
  }

  /** After an update every concentration is in [0, 1], whatever came in. */
  lemma TickInUnit(a: Field, b: Field, c: Field, rate: real, k: Weights)
    requires SameShape(a, b) && SameShape(a, c)
    ensures InUnit(Tick(a, b, c, rate, k).0) && InUnit(Tick(a, b, c, rate, k).1)
    ensures InUnit(Tick(a, b, c, rate, k).2)
  {
    ReactInUnit(Diffuse(a, rate), Diffuse(b, rate), Diffuse(c, rate), k);
  }

  /** A species absent everywhere stays absent everywhere: diffusion keeps the
      zero field and the reaction keeps zero cells. */
  lemma TickAbsent(a: Field, b: Field, c: Field, rate: real, k: Weights)
    requires SameShape(a, b) && SameShape(a, c)
    ensures IsConst(a, 0.0) ==> IsConst(Tick(a, b, c, rate, k).0, 0.0)
    ensures IsConst(b, 0.0) ==> IsConst(Tick(a, b, c, rate, k).1, 0.0)
    ensures IsConst(c, 0.0) ==> IsConst(Tick(a, b, c, rate, k).2, 0.0)
  {
    var da, db, dc := Diffuse(a, rate), Diffuse(b, rate), Diffuse(c, rate);
    var r := Tick(a, b, c, rate, k);
    assert r == React(da, db, dc, k);
    forall i, j | 0 <= i < |a| && 0 <= j < Width(a) {
      ReactAbsent(da, db, dc, k, i, j);
    }
    if IsConst(a, 0.0) {
      DiffuseConst(a, rate, 0.0);
    }
    if IsConst(b, 0.0) {
      DiffuseConst(b, rate, 0.0);
    }
    if IsConst(c, 0.0) {
      DiffuseConst(c, rate, 0.0);
    }
  }

  /** A spatially uniform state stays uniform: diffusion leaves it alone and
      every cell then reacts in the same way. */
  lemma TickUniform(a: Field, b: Field, c: Field, rate: real, k: Weights, x: real, y: real, z: real)
    requires SameShape(a, b) && SameShape(a, c)
    requires IsConst(a, x) && IsConst(b, y) && IsConst(c, z)
    ensures IsConst(Tick(a, b, c, rate, k).0, Clip(Grow(x, k.pa, y, k.pc, z)))
    ensures IsConst(Tick(a, b, c, rate, k).1, Clip(Grow(y, k.pb, z, k.pa, x)))
    ensures IsConst(Tick(a, b, c, rate, k).2, Clip(Grow(z, k.pc, x, k.pb, y)))
  {
    var da, db, dc := Diffuse(a, rate), Diffuse(b, rate), Diffuse(c, rate);
    DiffuseConst(a, rate, x);
    DiffuseConst(b, rate, y);
    DiffuseConst(c, rate, z);
    assert Tick(a, b, c, rate, k) == React(da, db, dc, k);
  }
}
