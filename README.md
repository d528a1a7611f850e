# Reaction-diffusion kernels, modelled in Dafny

This project models the numerical core of the reaction-diffusion scripts:

- **Gray-Scott** (`Turing/fluctuation.py`, `Turing/TustingGS.py`). It covers:
  - the 9-point toroidal Laplacian `laplacian`;
  - the zero-gradient edge patch `apply_neumann_boundary`;
  - the two-stage (Heun) step that advances U and V: derivative, unpatched predictor, second derivative, averaged update, edge patch, clamp to [0, 1];
  - the `--steps` sub-step loop;
  - the mouse-click perturbation, which lowers U by 0.2 and raises V by 0.3 in a disk of radius 8, clamped.

  The two scripts define the Laplacian and the patch identically and run the same step body, so they share one model. `fluctuation.py` runs the body `--steps` times per frame. `TustingGS.py` runs it once per frame.
- **Belousov-Zhabotinsky** (`bz_kernel.py`). It covers:
  - `diffuse`, which blends every cell with the mean of its eight toroidal neighbours;
  - `react`, the clamped cyclic competition `a + a(pa b - pc c)` and its two rotations;
  - one update of the main loop: diffuse a, b and c, then react.

Four modules:

- `Grid` (grid.dfy) holds what the kernels share:
  - fields (`seq<seq<real>>`, indexed `Z[row][column]`);
  - `np.roll` as a rotation by a wrapped index;
  - pointwise `+` and scalar `*`;
  - field sums;
  - the eight rolled neighbour copies;
  - `np.clip(x, 0, 1)`;
  - the view of an `array2<real>` as a field.
- `GrayScott` (gray_scott.dfy) defines the Gray-Scott operations as functions on field values and proves their properties.
- `GrayScottArrays` (gray_scott_arrays.dfy) holds the scripts as they run: methods that overwrite two `array2<real>` buffers in place. Each method is proved to leave exactly the field that the matching `GrayScott` function computes.
- `BZKernel` (bz_kernel.dfy) defines `diffuse`, `react` and the loop body. These return fresh arrays in the source, so they are functions on values.

Numbers are exact reals. The sources' float32 arithmetic is not modelled.

## Model

| member | source | states |
|---|---|---|
| Grid.Wrap | Turing/fluctuation.py:10 | the index that `np.roll` reads is in [0, n); it is i itself inside the axis; -1 wraps to n-1 and n wraps to 0 |
| Grid.Rotate | Turing/fluctuation.py:10 | `np.roll` of one axis by k places: same length, and element i is element (i - k) mod n of the input |
| Grid.RotateSplit | Turing/fluctuation.py:10 | rolling a row by k places is its suffix from (-k mod n) followed by the prefix |
| Grid.RollRows | Turing/fluctuation.py:10 | `np.roll(Z, k, 0)`: row i of the result is row (i - k) mod H |
| Grid.RollCols | Turing/fluctuation.py:10 | `np.roll(Z, k, 1)`: column j of the result is column (j - k) mod W |
| Grid.GridSumRollRows | Turing/fluctuation.py:10 | rolling rows keeps the total of the field |
| Grid.GridSumRollCols | Turing/fluctuation.py:10 | rolling columns keeps the total of the field |
| Grid.GridSumAdd | Turing/fluctuation.py:8-13 | the total of a sum of fields is the sum of the totals |
| Grid.GridSumScale | Turing/fluctuation.py:8-13 | the total of c * Z is c times the total of Z |
| Grid.OrthogonalAt | bz_kernel.py:21-22 | the four axis rolls summed give, at (i, j), the cells above, below, left and right of it, wrapping round the torus |
| Grid.DiagonalAt | bz_kernel.py:23-24 | the four double rolls summed give, at (i, j), the four diagonal neighbours on the torus |
| Grid.OrthogonalSum | bz_kernel.py:21-22 | the four axis rolls together hold four times the total |
| Grid.DiagonalSum | bz_kernel.py:23-24 | the four double rolls together hold four times the total |
| Grid.Clip | Turing/fluctuation.py:97 | clamping lands in [0, 1], fixes values already there, sends negatives to 0 and values above 1 to 1 |
| Grid.ClipField | Turing/fluctuation.py:97-98 | `np.clip(Z, 0, 1)` on a field: same number of rows, each row clamped value by value (the shape is kept) |
| Grid.ClipFieldRange | Turing/fluctuation.py:97-98 | a clamped field is in [0, 1], and clamping a field already in [0, 1] changes nothing |
| Grid.ClipFieldIdempotent | Turing/fluctuation.py:97-98 | clamping twice is clamping once |
| GrayScott.Laplacian | Turing/fluctuation.py:7-13 | defines `laplacian`, built row by row from the 9-point stencil; its ensures keep the shape, and LaplacianAt gives each cell |
| GrayScott.LaplacianAt | Turing/fluctuation.py:7-13 | each Laplacian cell is (-20 centre + 4 x orthogonal neighbours + diagonal neighbours) / 6, with neighbours taken modulo H and W |
| GrayScott.LaplacianByRolls | Turing/TustingGS.py:6-12 | the literal roll expression `(-20 Z + 4 (four rolls) + 1 (four double rolls)) / 6`; its ensures keep the shape, and LaplacianMatchesRolls equates it with Laplacian |
| GrayScott.LaplacianByRollsAt | Turing/TustingGS.py:6-12 | at every cell, the literal sum of eight rolled copies equals the 9-point stencil |
| GrayScott.LaplacianMatchesRolls | Turing/TustingGS.py:6-12 | the cell-wise stencil and the literal sum of eight rolled copies are the same field |
| GrayScott.LaplacianLocal | Turing/fluctuation.py:7-13 | the Laplacian at (i, j) depends only on the 3 x 3 toroidal neighbourhood of (i, j) |
| GrayScott.LaplacianConst | Turing/fluctuation.py:7-13 | a uniform field has a zero Laplacian everywhere (the weights sum to 0) |
| GrayScott.LaplacianSum | Turing/fluctuation.py:7-13 | on the torus the Laplacian of any field sums to zero |
| GrayScott.CopyRow | Turing/fluctuation.py:17 | `U[dst, :] = U[src, :]` on a value; its ensures keep the shape |
| GrayScott.CopyCol | Turing/fluctuation.py:19 | `U[:, dst] = U[:, src]` on a value; its ensures keep the shape |
| GrayScott.Neumann | Turing/fluctuation.py:16-20 | defines `apply_neumann_boundary` as the four copies in source order, on grids of at least 2 x 2; its ensures keep the shape, and NeumannAt gives each cell |
| GrayScott.NeumannAt | Turing/fluctuation.py:16-20 | after the patch every cell holds the old value of its inward neighbour: edge rows and columns read the next row or column in, interior cells keep their values, and on an axis of length 2 both indices read index 1 |
| GrayScott.NeumannEstablishesEdges | Turing/fluctuation.py:16-20 | after the patch, row 0 = row 1, row H-1 = row H-2, column 0 = column 1, column W-1 = column W-2 |
| GrayScott.NeumannInteriorAndCorner | Turing/TustingGS.py:13-17 | the patch leaves interior cells as they were and gives corner (0, 0) the old value at (1, 1) |
| GrayScott.NeumannIdempotent | Turing/fluctuation.py:16-20 | patching twice is patching once |
| GrayScott.NeumannConst | Turing/fluctuation.py:16-20 | the patch keeps a uniform field uniform |
| GrayScott.ClipKeepsEdges | Turing/fluctuation.py:95-98 | the clamp after the patch keeps all four edge equalities |
| GrayScott.Rates | Turing/fluctuation.py:78-82 | dU = Du Lap(U) - U V^2 + F (1 - U) and dV = Dv Lap(V) + U V^2 - (F + K) V at every cell |
| GrayScott.Predictor | Turing/fluctuation.py:84-85 | defines the predictor `(U + dt dU1, V + dt dV1)`, with no patch and no clamp; its ensures keep the shape |
| GrayScott.HeunIncrements | Turing/fluctuation.py:78-94 | defines the increments `0.5 dt (dU1 + dU2)` and `0.5 dt (dV1 + dV2)`, the second derivatives taken at the predictor; its ensures keep the shape |
| GrayScott.HeunStep | Turing/fluctuation.py:78-98 | defines one sub-step: add the increments, patch, clamp; its ensures keep the shape, and HeunStepBounds gives bounds and edges |
| GrayScott.Run | Turing/fluctuation.py:77-98 | defines `steps` consecutive sub-steps, needing 2 x 2 only when steps > 0; its ensures keep the shape |
| GrayScott.RatesUniform | Turing/fluctuation.py:78-82 | on a uniform state the derivatives are uniform, with only the reaction terms |
| GrayScott.EulerUniform | Turing/fluctuation.py:84-85 | an update Z + dt D of a uniform field by a uniform derivative is uniform, with value z + dt d |
| GrayScott.PredictorNotClamped | Turing/fluctuation.py:84-85 | the predictor is not clamped: for U = V = 0, F = 2, dt = 1 it is U = 2 everywhere, yet the step that uses it ends in [0, 1] |
| GrayScott.PredictorNotPatched | Turing/fluctuation.py:84-87 | the predictor is not patched: with F = 0, Du = 0 and V = 0 it is U itself, so it breaks row 0 = row 1 whenever U does |
| GrayScott.HeunStepBounds | Turing/fluctuation.py:93-98 | after one step, U and V are in [0, 1] and both satisfy the four edge equalities |
| GrayScott.RunOneMore | Turing/fluctuation.py:77 | helper, not a property of the scripts: the unfolding of Run for n + 1 steps, used by the loop invariant of RunSteps |
| GrayScott.RunBounds | Turing/fluctuation.py:77-98 | after one or more sub-steps, U and V are in [0, 1] with the edge equalities |
| GrayScott.RatesAtRest | Turing/fluctuation.py:80-82 | at U = 1, V = 0 both derivative fields are zero |
| GrayScott.PredictorAtRest | Turing/fluctuation.py:84-85 | from U = 1, V = 0 the predictor is again U = 1, V = 0 |
| GrayScott.IncrementsAtRest | Turing/fluctuation.py:87-94 | from U = 1, V = 0 both increments 0.5 dt (dU1 + dU2) and 0.5 dt (dV1 + dV2) are zero |
| GrayScott.StepAtRest | Turing/TustingGS.py:58-81 | one step from uniform U = 1, V = 0 stays uniform U = 1, V = 0 |
| GrayScott.ClipConst | Turing/fluctuation.py:97-98 | clamping keeps a uniform field with a value in [0, 1] |
| GrayScott.RestStateFixed | Turing/TustingGS.py:58-81 | the state U = 1, V = 0 is a fixed point of one step, for any parameters |
| GrayScott.RunAtRest | Turing/fluctuation.py:77-98 | any number of sub-steps from uniform U = 1, V = 0 stays there |
| GrayScott.RunFromRest | Turing/fluctuation.py:77-98 | the sub-step loop started at U = 1, V = 0 returns U = 1, V = 0 for every step count |
| GrayScott.Perturbed | Turing/fluctuation.py:72-74 | defines the field after a click: cells on the grid within distance 8 of the click get `clip(Z + delta)`, all others keep their values; its ensures keep the shape |
| GrayScott.ClickEffect | Turing/fluctuation.py:72-74 | a click changes nothing outside the disk; inside it U never grows and drops unless it is already 0, V never shrinks and rises unless it is already 1, and both stay in [0, 1] |
| GrayScottArrays.CopyRowInPlace | Turing/fluctuation.py:17 | `U[dst, :] = U[src, :]` overwrites row dst with row src and nothing else |
| GrayScottArrays.CopyColInPlace | Turing/fluctuation.py:19 | `U[:, dst] = U[:, src]` overwrites column dst with column src and nothing else |
| GrayScottArrays.ApplyNeumannBoundary | Turing/fluctuation.py:16-20 | the four in-place copies leave in the array the patched field of its old contents |
| GrayScottArrays.ClipInPlace | Turing/fluctuation.py:97 | `np.clip(U, 0, 1, out=U)` leaves the clamped old field, in [0, 1] |
| GrayScottArrays.AddInPlace | Turing/fluctuation.py:93 | `U += D` leaves the cell-wise sum of the old field and D |
| GrayScottArrays.HeunStepInPlace | Turing/TustingGS.py:58-81 | the step body leaves in U and V exactly one step of the old state; both are in [0, 1] and satisfy the edge equalities |
| GrayScottArrays.RunSteps | Turing/fluctuation.py:77-98 | `for _ in range(steps)` leaves `steps` steps of the old state, or the old state when steps <= 0 |
| GrayScottArrays.OffsetsInSquare | Turing/fluctuation.py:68-72 | every offset within distance 8 lies in the 17 x 17 square the loops scan, so no disk cell is missed |
| GrayScottArrays.ClickRow | Turing/fluctuation.py:69-74 | one pass of the inner loop perturbs exactly the disk cells in row offset dy, once each, and extends the scanned region by one row |
| GrayScottArrays.Click | Turing/fluctuation.py:63-74 | the click handler leaves U lowered by 0.2 and V raised by 0.3, both clamped, exactly on the grid cells within distance 8 of (my, mx); every other cell keeps its value |
| BZKernel.NeighbourMean | bz_kernel.py:20-25 | defines `n`, the sum of the eight rolled copies over 8; its ensures keep the shape, and NeighbourMeanAt gives each cell |
| BZKernel.Diffuse | bz_kernel.py:19-26 | defines `diffuse(src, rate)` as `src * (1 - rate) + n * rate`; its ensures keep the shape, and DiffuseAt gives each cell |
| BZKernel.NeighbourMeanAt | bz_kernel.py:20-25 | `n` at (i, j) is the sum of the eight toroidal neighbours of (i, j), divided by 8 |
| BZKernel.DiffuseAt | bz_kernel.py:19-26 | diffusion at (i, j) is `src * (1 - rate) + n * rate` with n the neighbour mean there |
| BZKernel.DiffuseRateZero | bz_kernel.py:26 | rate 0 returns the field unchanged |
| BZKernel.DiffuseRateOne | bz_kernel.py:26 | rate 1 returns the neighbour mean |
| BZKernel.NeighbourSumRange | bz_kernel.py:20-25 | if every cell is in [lo, hi], every neighbour mean is in [lo, hi] |
| BZKernel.BlendSame | bz_kernel.py:26 | blending a value with itself returns it, whatever the rate |
| BZKernel.BlendInUnit | bz_kernel.py:26 | blending two values in [0, 1] with a rate in [0, 1] gives a value in [0, 1] |
| BZKernel.DiffuseConst | bz_kernel.py:19-26 | diffusion keeps a uniform field as it is, whatever the rate |
| BZKernel.DiffuseInUnit | bz_kernel.py:19-26 | with concentrations and the rate in [0, 1], the diffused field is in [0, 1] |
| BZKernel.DiffuseSum | bz_kernel.py:19-26 | on the torus diffusion keeps the total of the field, whatever the rate |
| BZKernel.React | bz_kernel.py:29-36 | each species becomes `x + x (gain * prey - loss * predator)` from the old a, b, c, clamped to [0, 1]: a feeds on b and is eaten by c, b feeds on c and is eaten by a, c feeds on a and is eaten by b |
| BZKernel.ReactInUnit | bz_kernel.py:33-35 | whatever the inputs and rates, all three results are in [0, 1] |
| BZKernel.ReactAbsent | bz_kernel.py:30-32 | a species at zero in a cell stays at zero there |
| BZKernel.Tick | bz_kernel.py:64-67 | defines one update of the loop: diffuse a, b and c with the same rate, then react; its ensures keep the shape |
| BZKernel.TickInUnit | bz_kernel.py:64-67 | after one update of the loop a, b and c are in [0, 1] |
| BZKernel.TickAbsent | bz_kernel.py:64-67 | a species that is zero everywhere stays zero everywhere after an update |
| BZKernel.TickUniform | bz_kernel.py:64-67 | a uniform state stays uniform: every cell takes the clamped reaction of the uniform values |

## Left out

- Command-line parsing, pygame windows, event polling, rendering, frame pacing and `sys.exit` are not modelled. They are I/O around the kernels. The parameters arrive as a `Params` or `Weights` value, or as a rate argument.
- float32 storage and rounding are not modelled; all arithmetic is exact over the reals. No statement is made about floating-point trajectories.
- The initial conditions are not modelled:
  - the uniform U = 1, V = 0 fields and the 60 x 60 seed square of the Gray-Scott scripts;
  - the random start of `bz_kernel.py`.

  The rest-state lemmas cover the uniform start.
- `mx //= scale` and `my //= scale` are not modelled. `Click` takes the cell coordinates after that division.
- ApplyNeumannBoundary, Neumann, HeunStep and HeunStepInPlace require at least 2 rows and 2 columns. Run and RunSteps require this only when at least one step runs. On a grid with one row, `U[0, :] = U[1, :]` (Turing/fluctuation.py:17) indexes row 1 out of range and numpy raises an error. On a grid with one column, `U[:, 0] = U[:, 1]` (Turing/fluctuation.py:19) fails the same way. That error path is not modelled.
- HeunStepInPlace computes both increment fields as values and then writes them. The source holds the intermediate arrays (`Lu1`, `UVV1`, `dU1`, `U_temp`, ...) as separate numpy temporaries, so no aliasing is lost. The element-by-element evaluation order of numpy's vectorised arithmetic is not modelled.
- The wider repository is not part of this model. That includes the GPU shader variant, the stability script and the other script copies; the cellular-automaton BZ variant is also left out.
- A full Gray-Scott step does not conserve the total even when the reaction terms vanish, because the edge patch overwrites the edges. Only the Laplacian's zero sum (LaplacianSum) and the conservation of `diffuse` (DiffuseSum) are proved.
- Locality is proved for one Laplacian evaluation (LaplacianLocal). The claim that corner cells far from a seed keep U = 1, V = 0 after one step is not proved.
