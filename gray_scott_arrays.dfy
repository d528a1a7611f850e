/** The Gray-Scott scripts as they run: two H x W arrays U and V that the
    Neumann patch, the `+=` update, the in-place clamp, the sub-step loop and
    the mouse-click perturbation overwrite. Each method is proved to leave in
    its arrays exactly the field that the matching function of module
    GrayScott computes from their old contents. */
module GrayScottArrays {
  import opened Grid
  import opened GrayScott

  /** `U[dst, :] = U[src, :]`, one column at a time. */
  method CopyRowInPlace(Z: array2<real>, dst: nat, src: nat)
    requires dst < Z.Length0 && src < Z.Length0
    modifies Z
    ensures Cells(Z) == CopyRow(old(Cells(Z)), dst, src)
  {
    ghost var Z0 := Cells(Z);
    for j := 0 to Z.Length1
      invariant forall y, x :: 0 <= y < Z.Length0 && 0 <= x < Z.Length1 ==>
                  Z[y, x] == (if y == dst && x < j then Z0[src][x] else Z0[y][x])
    {
      Z[dst, j] := Z[src, j];
    }
    CellsEqual(Z, CopyRow(Z0, dst, src));
  }

  /** `U[:, dst] = U[:, src]`, one row at a time. */
  method CopyColInPlace(Z: array2<real>, dst: nat, src: nat)
    requires dst < Z.Length1 && src < Z.Length1
    modifies Z
    ensures Cells(Z) == CopyCol(old(Cells(Z)), dst, src)
  {
    ghost var Z0 := Cells(Z);
    for i := 0 to Z.Length0
      invariant forall y, x :: 0 <= y < Z.Length0 && 0 <= x < Z.Length1 ==>
                  Z[y, x] == (if x == dst && y < i then Z0[y][src] else Z0[y][x])
    {
      Z[i, dst] := Z[i, src];
    }
    CellsEqual(Z, CopyCol(Z0, dst, src));
  }

  /** `apply_neumann_boundary(U)`. The source indexes rows and columns -1 and
      -2, so it needs at least two of each. */
  method ApplyNeumannBoundary(Z: array2<real>)
    requires Z.Length0 >= 2 && Z.Length1 >= 2
    modifies Z
    ensures Cells(Z) == Neumann(old(Cells(Z)))
  {
    var H, W := Z.Length0, Z.Length1;
    CopyRowInPlace(Z, 0, 1);
    CopyRowInPlace(Z, H - 1, H - 2);
    CopyColInPlace(Z, 0, 1);
    CopyColInPlace(Z, W - 1, W - 2);
  }

  /** `np.clip(U, 0, 1, out=U)` */
  method ClipInPlace(Z: array2<real>)
    modifies Z
    ensures Cells(Z) == ClipField(old(Cells(Z)))
    ensures InUnit(Cells(Z))
  {
    ghost var Z0 := Cells(Z);
    for i := 0 to Z.Length0
      invariant forall y, x :: 0 <= y < Z.Length0 && 0 <= x < Z.Length1 ==>
                  Z[y, x] == (if y < i then Clip(Z0[y][x]) else Z0[y][x])
    {
      for j := 0 to Z.Length1
        invariant forall y, x :: 0 <= y < Z.Length0 && 0 <= x < Z.Length1 ==>
                    Z[y, x] == (if y < i || (y == i && x < j) then Clip(Z0[y][x]) else Z0[y][x])
      {
        Z[i, j] := Clip(Z[i, j]);
      }
    }
    forall y, x | 0 <= y < Z.Length0 && 0 <= x < Z.Length1
      ensures Z[y, x] == ClipField(Z0)[y][x]
    {
      assert ClipField(Z0)[y] == ClipRow(Z0[y]);
    }
    CellsEqual(Z, ClipField(Z0));
    ClipFieldRange(Z0);
  }

  /** `U += D` for an increment field D of U's shape. */
  method AddInPlace(Z: array2<real>, D: Field)
    requires Fits(Z, D)
    modifies Z
    ensures Cells(Z) == Add(old(Cells(Z)), D)
  {
    ghost var Z0 := Cells(Z);
    for i := 0 to Z.Length0
      invariant forall y, x :: 0 <= y < Z.Length0 && 0 <= x < Z.Length1 ==>
                  Z[y, x] == (if y < i then Z0[y][x] + D[y][x] else Z0[y][x])
    {
      for j := 0 to Z.Length1
        invariant forall y, x :: 0 <= y < Z.Length0 && 0 <= x < Z.Length1 ==>
                    Z[y, x] == (if y < i || (y == i && x < j) then Z0[y][x] + D[y][x] else Z0[y][x])
      {
        Z[i, j] := Z[i, j] + D[i][j];
      }
    }
    CellsEqual(Z, Add(Z0, D));
  }

  /** One pass of the sub-step body: both increments are computed from the old
      U and V, then `U += ...`, `V += ...`, the patch of U and V, and the clamp
      of U and V. Afterwards every value is in [0, 1] and the edges equal their
      inner neighbours. */
  method HeunStepInPlace(U: array2<real>, V: array2<real>, p: Params)
    requires U != V
    requires U.Length0 == V.Length0 >= 2 && U.Length1 == V.Length1 >= 2
    modifies U, V
    ensures (Cells(U), Cells(V)) == HeunStep(old(Cells(U)), old(Cells(V)), p)
    ensures InUnit(Cells(U)) && InUnit(Cells(V))
    ensures NeumannEdges(Cells(U)) && NeumannEdges(Cells(V))
  {
    ghost var U0, V0 := Cells(U), Cells(V);
    var inc := HeunIncrements(Cells(U), Cells(V), p);
    AddInPlace(U, inc.0);
    AddInPlace(V, inc.1);
    ApplyNeumannBoundary(U);
    ApplyNeumannBoundary(V);
    ClipInPlace(U);
    ClipInPlace(V);
    HeunStepBounds(U0, V0, p);
  }

  /** `for _ in range(args.steps)`: the sub-step body runs `steps` times, and
      not at all when `steps` is zero or negative; only then may the grid be
      smaller than 2 x 2, as the patch is never reached. */
  method RunSteps(U: array2<real>, V: array2<real>, p: Params, steps: int)
    requires U != V
    requires U.Length0 == V.Length0 && U.Length1 == V.Length1
    requires steps > 0 ==> U.Length0 >= 2 && U.Length1 >= 2
    modifies U, V
    ensures (Cells(U), Cells(V)) == Run(old(Cells(U)), old(Cells(V)), p, if steps < 0 then 0 else steps)
  {
    ghost var U0, V0 := Cells(U), Cells(V);
    var n := if steps < 0 then 0 else steps;
    for k := 0 to n
      invariant (Cells(U), Cells(V)) == Run(U0, V0, p, k)
    {
      HeunStepInPlace(U, V, p);
      RunOneMore(U0, V0, p, k);
    }
  }

  /** A sum of two squares at most 8 * 8 bounds both offsets by 8, so the
      17 x 17 square of offsets the click loop scans covers the whole disk. */
  lemma OffsetsInSquare(d: int, e: int)
    requires WithinRadius(d, e)
    ensures -ClickRadius <= d <= ClickRadius && -ClickRadius <= e <= ClickRadius
  {
  }

  /** Offset (oy, ox) of the 17 x 17 square comes before (dy, dx) in the scan
      order of the click loop: rows of offsets top to bottom, each row left to
      right. */
  predicate Scanned(oy: int, ox: int, dy: int, dx: int)
  {
    && -ClickRadius <= oy <= ClickRadius && -ClickRadius <= ox <= ClickRadius
    && (oy < dy || (oy == dy && ox < dx))
  }

  /** Cell (y, x) has been perturbed once the scan has reached offset (dy, dx):
      it lies in the disk and its offset comes earlier in the scan. */
  predicate Done(y: int, x: int, my: int, mx: int, h: nat, w: nat, dy: int, dx: int)
  {
    InDisk(y, x, my, mx, h, w) && Scanned(y - my, x - mx, dy, dx)
  }

  /** The click loop's state once the scan has reached offset (dy, dx): the
      cells done so far hold their perturbed values, all others their old ones. */
  predicate ClickedUpTo(U: array2<real>, V: array2<real>, U0: Field, V0: Field,
                        my: int, mx: int, dy: int, dx: int)
    reads U, V
  {
    && Fits(U, U0) && Fits(V, V0) && U.Length0 == V.Length0 && U.Length1 == V.Length1
    && (forall y, x :: 0 <= y < U.Length0 && 0 <= x < U.Length1 ==>
          U[y, x] == (if Done(y, x, my, mx, U.Length0, U.Length1, dy, dx)
                      then Clip(U0[y][x] - ClickDropU) else U0[y][x]))
    && (forall y, x :: 0 <= y < U.Length0 && 0 <= x < U.Length1 ==>
          V[y, x] == (if Done(y, x, my, mx, U.Length0, U.Length1, dy, dx)
                      then Clip(V0[y][x] + ClickRaiseV) else V0[y][x]))
  }

  /** The inner loop of the click handler: offsets (dy, -8) .. (dy, 8). */
  method ClickRow(U: array2<real>, V: array2<real>, my: int, mx: int, dy: int,
                  ghost U0: Field, ghost V0: Field)
    requires U != V
    requires ClickedUpTo(U, V, U0, V0, my, mx, dy, -ClickRadius)
    modifies U, V
    ensures ClickedUpTo(U, V, U0, V0, my, mx, dy + 1, -ClickRadius)
  {
    var H, W := U.Length0, U.Length1;
    for dx := -ClickRadius to ClickRadius + 1
      invariant ClickedUpTo(U, V, U0, V0, my, mx, dy, dx)
    {
      var x, y := mx + dx, my + dy;
      assert x - mx == dx && y - my == dy;
      if 0 <= x < W && 0 <= y < H && WithinRadius(dy, dx) {
        U[y, x] := Clip(U[y, x] - ClickDropU);
        V[y, x] := Clip(V[y, x] + ClickRaiseV);
      }
    }
  }

  /** The mouse-click handler of Turing/fluctuation.py for a click on cell
      (my, mx): every offset (dy, dx) of the 17 x 17 square is visited once,
      and where it lands on the grid within distance 8 of the click, U drops
      by 0.2 and V rises by 0.3, each clamped to [0, 1]. */
  method Click(U: array2<real>, V: array2<real>, my: int, mx: int)
    requires U != V
    requires U.Length0 == V.Length0 && U.Length1 == V.Length1
    modifies U, V
    ensures Cells(U) == Perturbed(old(Cells(U)), my, mx, -ClickDropU)
    ensures Cells(V) == Perturbed(old(Cells(V)), my, mx, ClickRaiseV)
  {
    ghost var U0, V0 := Cells(U), Cells(V);
    var H, W := U.Length0, U.Length1;
    for dy := -ClickRadius to ClickRadius + 1
      invariant ClickedUpTo(U, V, U0, V0, my, mx, dy, -ClickRadius)
    {
      ClickRow(U, V, my, mx, dy, U0, V0);
    }
    forall y, x | 0 <= y < H && 0 <= x < W && InDisk(y, x, my, mx, H, W)
      ensures Scanned(y - my, x - mx, ClickRadius + 1, -ClickRadius)
    {
      OffsetsInSquare(y - my, x - mx);
    }
    CellsEqual(U, Perturbed(U0, my, mx, -ClickDropU));
    CellsEqual(V, Perturbed(V0, my, mx, ClickRaiseV));
  }
}
