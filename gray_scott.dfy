/** The Gray-Scott kernel of Turing/fluctuation.py and Turing/TustingGS.py, as
    values. The two scripts define `laplacian` and `apply_neumann_boundary`
    identically and run the same two-stage (Heun) step, so both are modelled once
    here. The in-place versions that the scripts run on their arrays live in
    module GrayScottArrays and are proved equal to the functions below. */
module GrayScott {
  import opened Grid

  // ---------------------------------------------------------------------------
  // The 9-point toroidal Laplacian
  // ---------------------------------------------------------------------------

  /** The weighted 3 x 3 sum the stencil takes around cell (i, j), whose
      neighbours sit at rows up/dn and columns lf/rt: centre weight -20, the
      four orthogonal neighbours weight 4, the four diagonal ones weight 1,
      all divided by 6. */
  function Stencil9(Z: Field, i: nat, j: nat, up: nat, dn: nat, lf: nat, rt: nat): real
    requires Rect(Z) && i < |Z| && up < |Z| && dn < |Z|
    requires j < Width(Z) && lf < Width(Z) && rt < Width(Z)
  {
    (-20.0 * Z[i][j]
     + 4.0 * (Z[up][j] + Z[dn][j] + Z[i][lf] + Z[i][rt])
     + 1.0 * (Z[up][lf] + Z[up][rt] + Z[dn][lf] + Z[dn][rt])) / 6.0
  }

  /** Row i of `laplacian(Z)`: the 9-point stencil at every column, with every
      neighbour index taken modulo the grid size (toroidal addressing). */
  function LaplacianRow(Z: Field, i: nat): (r: seq<real>)
    requires Rect(Z) && i < |Z|
    ensures |r| == Width(Z)
  {
    var H, W := |Z|, Width(Z);
    seq(W, j requires 0 <= j < W => Stencil9(Z, i, j, Prev(i, H), Next(i, H), Prev(j, W), Next(j, W)))
  }

  /** Rows i, i + 1, ..., H - 1 of `laplacian(Z)`. Building the field one row at
      a time keeps the verifier from unfolding the stencil of a stencil on its
      own; LaplacianAt brings in the value of one cell where a proof needs it. */
  function LaplacianRows(Z: Field, i: nat): (r: Field)
    requires Rect(Z) && i <= |Z|
    ensures |r| == |Z| - i
    ensures forall k {:trigger r[k]} :: 0 <= k < |r| ==> |r[k]| == Width(Z)
    decreases |Z| - i
  {
    if i == |Z| then [] else [LaplacianRow(Z, i)] + LaplacianRows(Z, i + 1)
  }

  /** `laplacian(Z)`. LaplacianByRolls below is the same operator written the
      way the scripts write it, and LaplacianMatchesRolls proves the two equal. */
  function Laplacian(Z: Field): (r: Field)
    requires Rect(Z)
    ensures SameShape(r, Z)
  {
    LaplacianRows(Z, 0)
  }

  lemma {:induction false} LaplacianRowsAt(Z: Field, i: nat, k: nat)
    requires Rect(Z) && i <= k < |Z|
    ensures LaplacianRows(Z, i)[k - i] == LaplacianRow(Z, k)
    decreases k - i
  {
    if i < k {
      LaplacianRowsAt(Z, i + 1, k);
    }
  }

  /** Cell (i, j) of the Laplacian is the stencil around (i, j). */
  lemma LaplacianAt(Z: Field, i: nat, j: nat)
    requires Rect(Z) && i < |Z| && j < Width(Z)
    ensures Laplacian(Z)[i][j]
         == Stencil9(Z, i, j, Prev(i, |Z|), Next(i, |Z|), Prev(j, Width(Z)), Next(j, Width(Z)))
  {
    LaplacianRowsAt(Z, 0, i);
  }

  /** `laplacian(Z)` as the scripts write it: ( -20 Z + 4 (four orthogonal
      rolls) + 1 (four diagonal rolls) ) / 6. */
  function LaplacianByRolls(Z: Field): (r: Field)
    requires Rect(Z)
    ensures SameShape(r, Z)
  {
    Scale(1.0 / 6.0, Add(Add(Scale(-20.0, Z), Scale(4.0, Orthogonal(Z))), Scale(1.0, Diagonal(Z))))
  }

  /** At one cell, the roll expression and the wrapped-index stencil agree:
      `np.roll(Z, 1, 0)[i, j]` is `Z[(i - 1) mod H, j]`, and so on for every
      term. */
  lemma LaplacianByRollsAt(Z: Field, i: nat, j: nat)
    requires Rect(Z) && i < |Z| && j < Width(Z)
    ensures LaplacianByRolls(Z)[i][j] == Laplacian(Z)[i][j]
  {
    var H, W := |Z|, Width(Z);
    OrthogonalAt(Z, i, j);
    DiagonalAt(Z, i, j);
    LaplacianAt(Z, i, j);
    var a, b, c := Scale(-20.0, Z), Scale(4.0, Orthogonal(Z)), Scale(1.0, Diagonal(Z));
    assert Add(a, b)[i][j] == a[i][j] + b[i][j];
    assert Add(Add(a, b), c)[i][j] == Add(a, b)[i][j] + c[i][j];
  }

  /** The scripts' roll expression is the 9-point toroidal stencil. */
  lemma LaplacianMatchesRolls(Z: Field)
    requires Rect(Z)
    ensures LaplacianByRolls(Z) == Laplacian(Z)
  {
    forall i, j | 0 <= i < |Z| && 0 <= j < Width(Z)
      ensures LaplacianByRolls(Z)[i][j] == Laplacian(Z)[i][j]
    {
      LaplacianByRollsAt(Z, i, j);
    }
    FieldExt(LaplacianByRolls(Z), Laplacian(Z));
  }

  /** The rows (columns) i - 1, i, i + 1 of an axis of length n, modulo n. */
  function Around(i: int, n: int): (r: set<int>)
    requires 0 <= i < n
    ensures forall k :: k in r ==> 0 <= k < n
  {
    {Prev(i, n), i, Next(i, n)}
  }

  /** Two fields that agree on the 3 x 3 toroidal neighbourhood of (i, j) have
      the same Laplacian there. */
  lemma LaplacianLocal(Z: Field, Y: Field, i: nat, j: nat)
    requires SameShape(Z, Y) && i < |Z| && j < Width(Z)
    requires forall a, b :: a in Around(i, |Z|) && b in Around(j, Width(Z)) ==> Z[a][b] == Y[a][b]
    ensures Laplacian(Z)[i][j] == Laplacian(Y)[i][j]
  {
    var H, W := |Z|, Width(Z);
    var up, dn, lf, rt := Prev(i, H), Next(i, H), Prev(j, W), Next(j, W);
    var rows, cols := Around(i, H), Around(j, W);
    assert up in rows && i in rows && dn in rows;
    assert lf in cols && j in cols && rt in cols;
    assert Stencil9(Z, i, j, up, dn, lf, rt) == Stencil9(Y, i, j, up, dn, lf, rt);
    LaplacianAt(Z, i, j);
    LaplacianAt(Y, i, j);
  }

  /** The weights -20, 4 x 4 and 4 x 1 sum to zero, so a constant field has a
      zero Laplacian everywhere. */
  lemma LaplacianConst(Z: Field, c: real)
    requires Rect(Z) && IsConst(Z, c)
    ensures IsConst(Laplacian(Z), 0.0)
  {
    var H, W := |Z|, Width(Z);
    forall i, j | 0 <= i < H && 0 <= j < W
      ensures Laplacian(Z)[i][j] == 0.0
    {
      var up, dn, lf, rt := Prev(i, H), Next(i, H), Prev(j, W), Next(j, W);
      assert Z[i][j] == Z[up][j] == Z[dn][j] == Z[i][lf] == Z[i][rt] == c;
      assert Z[up][lf] == Z[up][rt] == Z[dn][lf] == Z[dn][rt] == c;
      LaplacianAt(Z, i, j);
    }
  }

  /** On the torus the Laplacian sums to zero: pure diffusion conserves the
      total, because -20 + 4 * 4 + 1 * 4 = 0 and every roll keeps the total. */
  lemma LaplacianSum(Z: Field)
    requires Rect(Z)
    ensures GridSum(Laplacian(Z)) == 0.0
  {
    LaplacianMatchesRolls(Z);
    var a, b, c := Scale(-20.0, Z), Scale(4.0, Orthogonal(Z)), Scale(1.0, Diagonal(Z));
    OrthogonalSum(Z);
    DiagonalSum(Z);
    GridSumScale(-20.0, Z); GridSumScale(4.0, Orthogonal(Z)); GridSumScale(1.0, Diagonal(Z));
    GridSumAdd(a, b); GridSumAdd(Add(a, b), c);
    GridSumScale(1.0 / 6.0, Add(Add(a, b), c));
  }

  // ---------------------------------------------------------------------------
  // The Neumann boundary patch
  // ---------------------------------------------------------------------------

  /** `U[dst, :] = U[src, :]` */
  function CopyRow(Z: Field, dst: nat, src: nat): (r: Field)
    requires Rect(Z) && dst < |Z| && src < |Z|
    ensures SameShape(r, Z)
  {
    Z[dst := Z[src]]
  }

  /** `U[:, dst] = U[:, src]` */
  function CopyCol(Z: Field, dst: nat, src: nat): (r: Field)
    requires Rect(Z) && (|Z| > 0 ==> dst < Width(Z) && src < Width(Z))
    ensures SameShape(r, Z)
  {
    seq(|Z|, i requires 0 <= i < |Z| => Z[i][dst := Z[i][src]])
  }

  /** `apply_neumann_boundary(U)`: the top row, then the bottom row, then the
      left column, then the right column are overwritten by their inner
      neighbours, in that order. Python's index -1 is H - 1 (resp. W - 1). */
  function Neumann(Z: Field): (r: Field)
    requires Rect(Z) && |Z| >= 2 && Width(Z) >= 2
    ensures SameShape(r, Z)
  {
    var H, W := |Z|, Width(Z);
    var z1 := CopyRow(Z, 0, 1);
    var z2 := CopyRow(z1, H - 1, H - 2);
    var z3 := CopyCol(z2, 0, 1);
    CopyCol(z3, W - 1, W - 2)
  }

  /** Where cell index i of an axis of length n takes its value from after the
      patch: edges move inwards by one, interior indices stay put. On an axis
      of length 2 both indices end up reading index 1, because the second copy
      reads the row (column) the first copy has just written. */
  function Inner(i: nat, n: nat): (r: nat)
    requires 2 <= n && i < n
    ensures 1 <= r < n && (n > 2 ==> r <= n - 2)
  {
    if n == 2 || i == 0 then 1 else if i == n - 1 then n - 2 else i
  }

  /** After the patch every cell holds the old value of its inward neighbour. */
  lemma NeumannAt(Z: Field)
    requires Rect(Z) && |Z| >= 2 && Width(Z) >= 2
    ensures forall i, j :: 0 <= i < |Z| && 0 <= j < Width(Z) ==>
              Neumann(Z)[i][j] == Z[Inner(i, |Z|)][Inner(j, Width(Z))]
  {
    var H, W := |Z|, Width(Z);
    var z1 := CopyRow(Z, 0, 1);
    var z2 := CopyRow(z1, H - 1, H - 2);
    var z3 := CopyCol(z2, 0, 1);
    var z4 := CopyCol(z3, W - 1, W - 2);
    assert forall i :: 0 <= i < H ==> z2[i] == Z[Inner(i, H)];
    forall i, j | 0 <= i < H && 0 <= j < W
      ensures z4[i][j] == Z[Inner(i, H)][Inner(j, W)]
    {
      assert z3[i] == z2[i][0 := z2[i][1]];
      assert z4[i] == z3[i][W - 1 := z3[i][W - 2]];
    }
  }

  /** The edges equal their inner neighbours: row 0 = row 1, row H-1 = row H-2,
      column 0 = column 1, column W-1 = column W-2. */
  predicate NeumannEdges(Z: Field)
  {
    && Rect(Z) && |Z| >= 2 && Width(Z) >= 2
    && Z[0] == Z[1] && Z[|Z| - 1] == Z[|Z| - 2]
    && forall i :: 0 <= i < |Z| ==> Z[i][0] == Z[i][1] && Z[i][Width(Z) - 1] == Z[i][Width(Z) - 2]
  }

  /** The patch establishes all four edge equalities; the row equalities
      survive the column copies that come after them. */
  lemma NeumannEstablishesEdges(Z: Field)
    requires Rect(Z) && |Z| >= 2 && Width(Z) >= 2
    ensures NeumannEdges(Neumann(Z))
  {
    var H, W, r := |Z|, Width(Z), Neumann(Z);
    NeumannAt(Z);
    var top, second := r[0], r[1];
    var bottom, penultimate := r[H - 1], r[H - 2];
    assert top == second by {
      forall j | 0 <= j < W ensures top[j] == second[j] { }
    }
    assert bottom == penultimate by {
      forall j | 0 <= j < W ensures bottom[j] == penultimate[j] { }
    }
  }

  /** The patch leaves every interior cell as it was, and the corner (0, 0)
      takes the old value at (1, 1). */
  lemma NeumannInteriorAndCorner(Z: Field)
    requires Rect(Z) && |Z| >= 2 && Width(Z) >= 2
    ensures forall i, j :: 1 <= i <= |Z| - 2 && 1 <= j <= Width(Z) - 2 ==> Neumann(Z)[i][j] == Z[i][j]
    ensures Neumann(Z)[0][0] == Z[1][1]
  {
    NeumannAt(Z);
  }

  /** Patching twice is patching once. */
  lemma NeumannIdempotent(Z: Field)
    requires Rect(Z) && |Z| >= 2 && Width(Z) >= 2
    ensures Neumann(Neumann(Z)) == Neumann(Z)
  {
    var H, W, r := |Z|, Width(Z), Neumann(Z);
    NeumannAt(Z);
    NeumannAt(r);
    forall i | 0 <= i < H ensures Neumann(r)[i] == r[i] {
      assert forall j :: 0 <= j < W ==> Neumann(r)[i][j] == r[i][j];
    }
  }

  /** Clamping acts cell by cell, so it keeps the edge equalities. */
  lemma ClipKeepsEdges(Z: Field)
    requires NeumannEdges(Z)
    ensures NeumannEdges(ClipField(Z))
  {
    var r := ClipField(Z);
    assert r[0] == ClipRow(Z[0]) == ClipRow(Z[1]) == r[1];
    assert r[|Z| - 1] == r[|Z| - 2];
  }

  // ---------------------------------------------------------------------------
  // Reaction terms and the two-stage step
  // ---------------------------------------------------------------------------

  /** The command-line parameters of the scripts: diffusion rates of U and V,
      feed rate F, kill rate K and time step dt. */
  datatype Params = Params(Du: real, Dv: real, F: real, K: real, dt: real)

  /** dU = Du Lap(U) - U V^2 + F (1 - U), at one cell. */
  function RateU(lap: real, u: real, v: real, p: Params): real
  {
    p.Du * lap - u * v * v + p.F * (1.0 - u)
  }

  /** dV = Dv Lap(V) + U V^2 - (F + K) V, at one cell. */
  function RateV(lap: real, u: real, v: real, p: Params): real
  {
    p.Dv * lap + u * v * v - (p.F + p.K) * v
  }

  /** The derivative fields (dU, dV) of the Gray-Scott system at state (U, V). */
  function Rates(U: Field, V: Field, p: Params): (r: (Field, Field))
    requires SameShape(U, V)
    ensures SameShape(r.0, U) && SameShape(r.1, U)
    ensures forall i, j {:trigger r.0[i][j]} :: 0 <= i < |U| && 0 <= j < |U[i]| ==>
              r.0[i][j] == RateU(Laplacian(U)[i][j], U[i][j], V[i][j], p)
    ensures forall i, j {:trigger r.1[i][j]} :: 0 <= i < |U| && 0 <= j < |U[i]| ==>
              r.1[i][j] == RateV(Laplacian(V)[i][j], U[i][j], V[i][j], p)
  {
    var LU, LV := Laplacian(U), Laplacian(V);
    (seq(|U|, i requires 0 <= i < |U| =>
       seq(|U[i]|, j requires 0 <= j < |U[i]| => RateU(LU[i][j], U[i][j], V[i][j], p))),
     seq(|U|, i requires 0 <= i < |U| =>
       seq(|U[i]|, j requires 0 <= j < |U[i]| => RateV(LV[i][j], U[i][j], V[i][j], p))))
  }

  /** The predictor (U + dt dU1, V + dt dV1). It is neither patched nor clamped. */
  function Predictor(U: Field, V: Field, p: Params): (r: (Field, Field))
    requires SameShape(U, V)
    ensures SameShape(r.0, U) && SameShape(r.1, U)
  {
    var d1 := Rates(U, V, p);
    (Add(U, Scale(p.dt, d1.0)), Add(V, Scale(p.dt, d1.1)))
  }

  /** The corrector increments 0.5 dt (dU1 + dU2) and 0.5 dt (dV1 + dV2), with
      the second derivatives taken at the predictor. */
  function HeunIncrements(U: Field, V: Field, p: Params): (r: (Field, Field))
    requires SameShape(U, V)
    ensures SameShape(r.0, U) && SameShape(r.1, U)
  {
    var d1 := Rates(U, V, p);
    var pr := Predictor(U, V, p);
    var d2 := Rates(pr.0, pr.1, p);
    (Scale(0.5 * p.dt, Add(d1.0, d2.0)), Scale(0.5 * p.dt, Add(d1.1, d2.1)))
  }

  /** One simulation step: `U += ...`, `V += ...`, then the Neumann patch, then
      the clamp to [0, 1]. */
  function HeunStep(U: Field, V: Field, p: Params): (r: (Field, Field))
    requires SameShape(U, V) && |U| >= 2 && Width(U) >= 2
    ensures SameShape(r.0, U) && SameShape(r.1, U)
  {
    var inc := HeunIncrements(U, V, p);
    (ClipField(Neumann(Add(U, inc.0))), ClipField(Neumann(Add(V, inc.1))))
  }

  /** After a step every value is in [0, 1] and the four edge equalities hold
      for both fields: the clamp comes after the patch and keeps its work. */
  lemma HeunStepBounds(U: Field, V: Field, p: Params)
    requires SameShape(U, V) && |U| >= 2 && Width(U) >= 2
    ensures InUnit(HeunStep(U, V, p).0) && InUnit(HeunStep(U, V, p).1)
    ensures NeumannEdges(HeunStep(U, V, p).0) && NeumannEdges(HeunStep(U, V, p).1)
  {
    var inc := HeunIncrements(U, V, p);
    var U1, V1 := Neumann(Add(U, inc.0)), Neumann(Add(V, inc.1));
    NeumannEstablishesEdges(Add(U, inc.0));
    NeumannEstablishesEdges(Add(V, inc.1));
    ClipKeepsEdges(U1);
    ClipKeepsEdges(V1);
    ClipFieldRange(U1);
    ClipFieldRange(V1);
  }

  /** `steps` consecutive steps, as the sub-step loop runs them. Zero steps
      never reach the patch, so only a run of at least one step needs two rows
      and two columns. */
  function Run(U: Field, V: Field, p: Params, steps: nat): (r: (Field, Field))
    requires SameShape(U, V) && (steps > 0 ==> |U| >= 2 && Width(U) >= 2)
    ensures SameShape(r.0, U) && SameShape(r.1, U)
    decreases steps
  {
    if steps == 0 then (U, V)
    else
      var s := Run(U, V, p, steps - 1);
      HeunStep(s.0, s.1, p)
  }

  /** Running one step more is one more step after the run. */
  lemma RunOneMore(U: Field, V: Field, p: Params, steps: nat)
    requires SameShape(U, V) && |U| >= 2 && Width(U) >= 2
    ensures Run(U, V, p, steps + 1) == HeunStep(Run(U, V, p, steps).0, Run(U, V, p, steps).1, p)
  {
    if steps == 0 {
      assert Run(U, V, p, 1) == HeunStep(U, V, p);
    } else {
      var s := Run(U, V, p, steps);
      assert Run(U, V, p, steps + 1) == HeunStep(s.0, s.1, p);
    }
  }

  /** After one or more steps every value is in [0, 1] and the edge equalities
      hold. */
  lemma RunBounds(U: Field, V: Field, p: Params, steps: nat)
    requires SameShape(U, V) && |U| >= 2 && Width(U) >= 2 && steps > 0
    ensures InUnit(Run(U, V, p, steps).0) && InUnit(Run(U, V, p, steps).1)
    ensures NeumannEdges(Run(U, V, p, steps).0) && NeumannEdges(Run(U, V, p, steps).1)
    decreases steps
  {
    var s := Run(U, V, p, steps - 1);
    HeunStepBounds(s.0, s.1, p);
  }

  /** The patch keeps a uniform field uniform. */
  lemma NeumannConst(Z: Field, c: real)
    requires Rect(Z) && |Z| >= 2 && Width(Z) >= 2 && IsConst(Z, c)
    ensures IsConst(Neumann(Z), c)
  {
    NeumannAt(Z);
  }

  /** On a uniform state (U = u, V = v everywhere) the Laplacians vanish, so
      the derivative fields are uniform too, with the reaction terms alone. */
  lemma RatesUniform(U: Field, V: Field, p: Params, u: real, v: real)
    requires SameShape(U, V) && IsConst(U, u) && IsConst(V, v)
    ensures IsConst(Rates(U, V, p).0, RateU(0.0, u, v, p))
    ensures IsConst(Rates(U, V, p).1, RateV(0.0, u, v, p))
  {
    LaplacianConst(U, u);
    LaplacianConst(V, v);
  }

  /** An Euler update Z + dt D of a uniform field by a uniform derivative is
      uniform. */
  lemma EulerUniform(Z: Field, D: Field, dt: real, z: real, d: real)
    requires SameShape(D, Z) && IsConst(Z, z) && IsConst(D, d)
    ensures IsConst(Add(Z, Scale(dt, D)), z + dt * d)
  {
    ScaleConst(dt, D, d);
    AddConst(Z, Scale(dt, D), z, dt * d);
  }

  /** The predictor is neither patched nor clamped: from U = 0, V = 0 with
      feed rate F = 2 and dt = 1 it holds U = 2 everywhere, outside [0, 1],
      although the step that uses it ends in [0, 1]. */
  lemma PredictorNotClamped(h: nat, w: nat)
    requires h >= 2 && w >= 2
    ensures var p := Params(0.0, 0.0, 2.0, 0.0, 1.0);
            && IsConst(Predictor(Const(h, w, 0.0), Const(h, w, 0.0), p).0, 2.0)
            && InUnit(HeunStep(Const(h, w, 0.0), Const(h, w, 0.0), p).0)
  {
    var p := Params(0.0, 0.0, 2.0, 0.0, 1.0);
    var Z := Const(h, w, 0.0);
    var d1 := Rates(Z, Z, p);
    RatesUniform(Z, Z, p, 0.0, 0.0);
    assert RateU(0.0, 0.0, 0.0, p) == 2.0;
    EulerUniform(Z, d1.0, 1.0, 0.0, 2.0);
    assert Predictor(Z, Z, p).0 == Add(Z, Scale(1.0, d1.0));
    HeunStepBounds(Z, Z, p);
  }

  /** The predictor is not patched either: with no feed (F = 0), no diffusion
      of U (Du = 0) and V = 0 everywhere, dU vanishes and the predictor's U is
      the old U itself, so it breaks the edge equality row 0 = row 1 whenever U
      does. */
  lemma PredictorNotPatched(U: Field, V: Field, p: Params)
    requires SameShape(U, V) && IsConst(V, 0.0) && p.F == 0.0 && p.Du == 0.0
    ensures Predictor(U, V, p).0 == U
    ensures |U| >= 2 && U[0] != U[1] ==> !NeumannEdges(Predictor(U, V, p).0)
  {
    var d1 := Rates(U, V, p);
    var pu := Add(U, Scale(p.dt, d1.0));
    assert Predictor(U, V, p).0 == pu;
    forall i, j | 0 <= i < |U| && 0 <= j < |U[i]|
      ensures pu[i][j] == U[i][j]
    {
      assert d1.0[i][j] == RateU(Laplacian(U)[i][j], U[i][j], 0.0, p) == 0.0;
      assert Scale(p.dt, d1.0)[i][j] == p.dt * 0.0;
    }
    FieldExt(pu, U);
  }

  /** At U = 1, V = 0 both derivative fields vanish:
      -1 * 0 * 0 + F (1 - 1) = 0 and 1 * 0 * 0 - (F + K) 0 = 0. */
  lemma RatesAtRest(U: Field, V: Field, p: Params)
    requires SameShape(U, V) && IsConst(U, 1.0) && IsConst(V, 0.0)
    ensures IsConst(Rates(U, V, p).0, 0.0) && IsConst(Rates(U, V, p).1, 0.0)
  {
    RatesUniform(U, V, p, 1.0, 0.0);
  }

  /** From U = 1, V = 0 the predictor stays at U = 1, V = 0. */
  lemma PredictorAtRest(U: Field, V: Field, p: Params)
    requires SameShape(U, V) && IsConst(U, 1.0) && IsConst(V, 0.0)
    ensures IsConst(Predictor(U, V, p).0, 1.0) && IsConst(Predictor(U, V, p).1, 0.0)
  {
    var d1 := Rates(U, V, p);
    RatesAtRest(U, V, p);
    EulerUniform(U, d1.0, p.dt, 1.0, 0.0);
    EulerUniform(V, d1.1, p.dt, 0.0, 0.0);
    assert Predictor(U, V, p) == (Add(U, Scale(p.dt, d1.0)), Add(V, Scale(p.dt, d1.1)));
  }

  /** From U = 1, V = 0 both corrector increments vanish. */
  lemma IncrementsAtRest(U: Field, V: Field, p: Params)
    requires SameShape(U, V) && IsConst(U, 1.0) && IsConst(V, 0.0)
    ensures IsConst(HeunIncrements(U, V, p).0, 0.0) && IsConst(HeunIncrements(U, V, p).1, 0.0)
  {
    var d1, pr := Rates(U, V, p), Predictor(U, V, p);
    RatesAtRest(U, V, p);
    PredictorAtRest(U, V, p);
    var d2 := Rates(pr.0, pr.1, p);
    RatesAtRest(pr.0, pr.1, p);
    var s0, s1 := Add(d1.0, d2.0), Add(d1.1, d2.1);
    AddConst(d1.0, d2.0, 0.0, 0.0);
    AddConst(d1.1, d2.1, 0.0, 0.0);
    ScaleConst(0.5 * p.dt, s0, 0.0);
    ScaleConst(0.5 * p.dt, s1, 0.0);
    var inc := HeunIncrements(U, V, p);
    assert inc == (Scale(0.5 * p.dt, s0), Scale(0.5 * p.dt, s1));
  }

  /** From U = 1, V = 0 one step stays at U = 1, V = 0: the increments are
      zero, and the patch and the clamp keep a uniform field in [0, 1] as it is. */
  lemma StepAtRest(U: Field, V: Field, p: Params)
    requires SameShape(U, V) && |U| >= 2 && Width(U) >= 2
    requires IsConst(U, 1.0) && IsConst(V, 0.0)
    ensures IsConst(HeunStep(U, V, p).0, 1.0) && IsConst(HeunStep(U, V, p).1, 0.0)
  {
    var inc := HeunIncrements(U, V, p);
    IncrementsAtRest(U, V, p);
    var U1, V1 := Add(U, inc.0), Add(V, inc.1);
    assert IsConst(U1, 1.0) && IsConst(V1, 0.0);
    NeumannConst(U1, 1.0);
    NeumannConst(V1, 0.0);
    var N0, N1 := Neumann(U1), Neumann(V1);
    assert HeunStep(U, V, p) == (ClipField(N0), ClipField(N1));
    ClipConst(N0, 1.0);
    ClipConst(N1, 0.0);
  }

  /** Clamping keeps a uniform field whose value is in [0, 1] as it is. */
  lemma ClipConst(Z: Field, c: real)
    requires IsConst(Z, c) && 0.0 <= c <= 1.0
    ensures IsConst(ClipField(Z), c)
  {
    forall i, j | 0 <= i < |Z| && 0 <= j < |Z[i]|
      ensures ClipField(Z)[i][j] == c
    {
      assert ClipField(Z)[i] == ClipRow(Z[i]);
    }
  }

  /** The uniform state U = 1, V = 0 is a fixed point of one step. */
  lemma RestStateFixed(h: nat, w: nat, p: Params)
    requires h >= 2 && w >= 2
    ensures HeunStep(Const(h, w, 1.0), Const(h, w, 0.0), p) == (Const(h, w, 1.0), Const(h, w, 0.0))
  {
    var U, V := Const(h, w, 1.0), Const(h, w, 0.0);
    var r := HeunStep(U, V, p);
    StepAtRest(U, V, p);
    FieldExt(r.0, U);
    FieldExt(r.1, V);
  }

  /** From any uniform U = 1, V = 0, every number of steps stays there. */
  lemma {:induction false} RunAtRest(U: Field, V: Field, p: Params, steps: nat)
    requires SameShape(U, V) && (steps > 0 ==> |U| >= 2 && Width(U) >= 2)
    requires IsConst(U, 1.0) && IsConst(V, 0.0)
    ensures IsConst(Run(U, V, p, steps).0, 1.0) && IsConst(Run(U, V, p, steps).1, 0.0)
    decreases steps
  {
    if steps == 1 {
      StepAtRest(U, V, p);
      assert Run(U, V, p, 1) == HeunStep(U, V, p);
    } else if steps > 1 {
      var m: nat := steps - 1;
      var s := Run(U, V, p, m);
      RunAtRest(U, V, p, m);
      StepAtRest(s.0, s.1, p);
      assert Run(U, V, p, steps) == HeunStep(s.0, s.1, p);
    }
  }

  /** Started at rest, any number of steps stays at rest. */
  lemma RunFromRest(h: nat, w: nat, p: Params, steps: nat)
    requires steps > 0 ==> h >= 2 && w >= 2
    ensures Run(Const(h, w, 1.0), Const(h, w, 0.0), p, steps) == (Const(h, w, 1.0), Const(h, w, 0.0))
  {
    var U, V := Const(h, w, 1.0), Const(h, w, 0.0);
    var r := Run(U, V, p, steps);
    RunAtRest(U, V, p, steps);
    FieldExt(r.0, U);
    FieldExt(r.1, V);
  }

  // ---------------------------------------------------------------------------
  // The click perturbation (Turing/fluctuation.py only)
  // ---------------------------------------------------------------------------

  /** Radius of the perturbed disk, and the amounts taken from U and added to V. */
  const ClickRadius: int := 8
  const ClickDropU: real := 0.2
  const ClickRaiseV: real := 0.3

  /** Offset (dy, dx) from the clicked cell is within distance 8 of it:
      `dx**2 + dy**2 <= radius**2`. */
  predicate WithinRadius(dy: int, dx: int)
  {
    dx * dx + dy * dy <= ClickRadius * ClickRadius
  }

  /** Cell (row y, column x) lies on the H x W grid and in the closed disk of
      radius 8 around the clicked cell (my, mx). */
  predicate InDisk(y: int, x: int, my: int, mx: int, h: nat, w: nat)
  {
    0 <= x < w && 0 <= y < h && WithinRadius(y - my, x - mx)
  }

  /** The field after adding delta inside the disk and clamping those cells. */
  function Perturbed(Z: Field, my: int, mx: int, delta: real): (r: Field)
    requires Rect(Z)
    ensures SameShape(r, Z)
  {
    seq(|Z|, y requires 0 <= y < |Z| =>
      seq(|Z[y]|, x requires 0 <= x < |Z[y]| =>
        if InDisk(y, x, my, mx, |Z|, Width(Z)) then Clip(Z[y][x] + delta) else Z[y][x]))
  }

  /** A click changes nothing outside the disk. Inside it, a U value in [0, 1]
      never grows and strictly drops unless it is already 0; a V value never
      shrinks and strictly rises unless it is already 1; both stay in [0, 1]. */
  lemma ClickEffect(U: Field, V: Field, my: int, mx: int)
    requires SameShape(U, V) && InUnit(U) && InUnit(V)
    ensures InUnit(Perturbed(U, my, mx, -ClickDropU)) && InUnit(Perturbed(V, my, mx, ClickRaiseV))
    ensures forall y, x :: 0 <= y < |U| && 0 <= x < Width(U) ==>
              var u, v := Perturbed(U, my, mx, -ClickDropU)[y][x], Perturbed(V, my, mx, ClickRaiseV)[y][x];
              && u <= U[y][x] && v >= V[y][x]
              && (!InDisk(y, x, my, mx, |U|, Width(U)) ==> u == U[y][x] && v == V[y][x])
              && (InDisk(y, x, my, mx, |U|, Width(U)) && U[y][x] > 0.0 ==> u < U[y][x])
              && (InDisk(y, x, my, mx, |U|, Width(U)) && V[y][x] < 1.0 ==> v > V[y][x])
  {
  }

}
