# Neural field explorer, modelled in Dafny

`NeuralFieldExplorer` (app.py) simulates a damped, cubically nonlinear wave
equation on an `n x n` periodic grid. Its state has four parts:

- three fields: the displacement `u`, the velocity `v` and an accumulated
  potential `phi`;
- a fixed-depth history of energy-flow frames, which the user interface renders.

Each call to `update_fields` does three things:

1. It computes a 5-point Laplacian whose stencil wraps at the edges, as on a torus.
2. It adds damping, the cubic term and Gaussian forcing to get an acceleration.
3. It advances the fields by one semi-implicit Euler step: first `v`, then `u`
   and `phi`, both from the new `v`.

`calculate_energy_flow` ends with a min/max rescale of a grid. `update_history`
drops the oldest frame and appends the newest.

The model is split into six modules:

- `Grids` (`grids.dfy`): square grids as `seq<seq<real>>`, numpy's `roll` along
  one axis, and the ring neighbour indices `Prev`/`Next`.
- `DiscreteLaplacian` (`laplacian.dfy`): the stencil in two forms. One sums four
  rolled grids, as the source writes it. The other reads the wrapped neighbours
  directly. They are proved equal.
- `Integrator` (`integrator.dfy`): the constructor's initial state, the
  acceleration, the step, and the invariants a step keeps.
- `EnergyFlow` (`energy_flow.dfy`): the rescale and its range, zero and order
  properties.
- `History` (`history.dfy`): the specification of shift-then-write, and a ring
  buffer class over an array that is proved to behave exactly like it.
- `Explorer` (`explorer.dfy`): the `NeuralFieldExplorer` class itself. It
  replaces its fields on every step, delegates the history to the ring buffer,
  and keeps `phi == u - u0` as part of its invariant.

The random forcing `np.random.normal(0, 0.1, ...)` is not drawn inside the
model. `UpdateFields` and `Step` take it as a `noise` grid argument.

Arguments the source cannot work with are handled as follows; the first two are
error paths of `Create`, the third is an error path of a later history update:

- a negative `size` or `time_depth` makes `np.zeros` fail at app.py:11 (`NegativeDimension`);
- `size == 0` passes `np.zeros` but fails when the centre cell is assigned at
  app.py:19 (`NoCentreCell`);
- `time_depth == 0` constructs normally, and only `update_history` later fails on
  the empty history (`Push` / `UpdateHistory` return `ok == false`).

## Model

| member | source | states |
|---|---|---|
| Grids.Zero | app.py:14-16 | `np.zeros((n, n))`: the result is an n x n grid with every cell 0.0 |
| Grids.Roll | app.py:32-35 | `np.roll` along one axis: the length is kept and element `i` is element `(i - k) mod n` of `s`, where `n` is its length (Python's floor remainder, which for a positive modulus is Dafny's `%`) |
| Grids.RollColumns | app.py:34-35 | `np.roll(g, k, axis=1)`: the same number of rows, each of the same length, and each row is that row rolled by `k` |
| Grids.RollByOneIsNeighbour | app.py:32-35 | rolling by +1 puts the wrapped previous neighbour at index i (index 0 reads n-1); rolling by -1 puts the wrapped next neighbour there (index n-1 reads 0) |
| Grids.RollLeftRotates | app.py:56 | `np.roll(s, -1)` moves the head to the back: it equals `s[1..] + [s[0]]` |
| DiscreteLaplacian.Laplacian | app.py:30-36 | the stencil of an n x n grid is again an n x n grid |
| DiscreteLaplacian.RolledLaplacian | app.py:30-36 | the source's four-roll expression as written; its contract gives the row count, and its value is given by `RolledLaplacianIsStencil` |
| DiscreteLaplacian.RolledLaplacianIsStencil | app.py:30-36 | the source's sum of four rolled grids minus 4u, divided by dx*dy, equals the toroidal 5-point stencil at every cell |
| DiscreteLaplacian.RolledRow | app.py:30-36 | the same equality for one row of the grid |
| DiscreteLaplacian.RolledCell | app.py:30-36 | the same equality for one cell, with the edges wrapping |
| DiscreteLaplacian.LaplacianOfConstant | app.py:30-36 | a constant grid has an all-zero Laplacian, edges included |
| Integrator.Impulse | app.py:14-19 | the initial displacement is an n x n grid |
| Integrator.ImpulseAt | app.py:14-19 | the initial displacement is 2.0 at `[n / 2][n / 2]` (floor division) and 0.0 at every other cell |
| Integrator.Initial | app.py:14-19 | the constructed fields `u`, `v`, `phi` are all n x n |
| Integrator.CellAcceleration | app.py:41 | the per-cell acceleration; at a cell with `u == 0` and `v == 0` the damping and cubic terms vanish and it is `c^2 L + noise` |
| Integrator.Acceleration | app.py:38-41 | the acceleration is an n x n grid |
| Integrator.Advance | app.py:42-44 | the advanced fields keep the n x n shape |
| Integrator.Step | app.py:29-46 | a step replaces the three fields with grids of the same n x n shape |
| Integrator.StepAt | app.py:30-44 | at every cell, `v' = v + (c^2 L - beta v - alpha u^3 + noise) dt`, where L is the wrapped stencil, then `u' = u + v' dt` and `phi' = phi + v' dt`; both use the new velocity |
| Integrator.StepKeepsDrift | app.py:42-44 | a step leaves `phi - u` unchanged, whatever the noise |
| Integrator.InitialTracksImpulse | app.py:14-19 | right after construction, `phi == u - u0`, where u0 is the impulse |
| Integrator.StepPreservesTracking | app.py:42-44 | a step preserves `phi == u - u0` |
| Integrator.Run | app.py:29-46 | the state after one step per noise grid keeps the n x n shape |
| Integrator.RunTracksImpulse | app.py:16-19 | from any state with `phi == u - u0`, the constructed state included, `phi == u - u0` holds after any number of steps |
| Integrator.RestHasNoAcceleration | app.py:30-41 | with zero noise, `u == v == 0` gives an all-zero acceleration |
| Integrator.RestIsFixedPoint | app.py:41-44 | with zero noise, the rest state `u == v == 0` is a fixed point: `u` and `v` stay zero and `phi` is unchanged |
| Integrator.FirstStepAtCentre | app.py:19-44 | on any grid of size 2 or more, the first noiseless step after construction gives the impulse cell `v = -0.84`, `u = 1.916` and `phi = -0.084` |
| Integrator.FirstStepAboveCentre | app.py:19-44 | on any grid of size 3 or more, the same step gives the cell above the impulse (wrapping to the last row when needed) `v = 0.2`, `u = 0.02` and `phi = 0.02` |
| Integrator.ImpulseAroundAbove | app.py:19 | the only impulse cell next to the cell above the centre is the centre itself |
| EnergyFlow.SeqMin | app.py:53 | the minimum of a non-empty row is at most every element and is attained |
| EnergyFlow.SeqMax | app.py:53 | the maximum of a non-empty row is at least every element and is attained |
| EnergyFlow.GridMin | app.py:53 | `m.min()` is at most every cell and is attained by some cell |
| EnergyFlow.GridMax | app.py:53 | `m.max()` is at least every cell and is attained by some cell |
| EnergyFlow.Normalize | app.py:53 | the rescale fails exactly on the empty grid, as numpy's `min` does; otherwise it returns an n x n grid |
| EnergyFlow.Rescale | app.py:53 | the per-cell rescale `(x - lo) / (hi - lo + 1e-8)` is 0 exactly when `x` equals the lower bound |
| EnergyFlow.RescaleInUnit | app.py:53 | a value between the bounds rescales into [0, 1), even when the bounds coincide |
| EnergyFlow.NormalizeInUnitInterval | app.py:53 | every cell of a rescaled non-empty grid lies in [0, 1) |
| EnergyFlow.NormalizeZeroIffMinimum | app.py:53 | a cell rescales to 0 exactly when it equals the grid's minimum |
| EnergyFlow.NormalizeFlat | app.py:53 | a flat grid rescales to all zeros, with the epsilon guard preventing division by zero |
| EnergyFlow.NormalizeMonotone | app.py:53 | the rescale preserves the order between any two cells |
| History.ShiftThenWrite | app.py:55-57 | rolling the history by -1 and then overwriting the last slot keeps its length |
| History.ShiftThenWriteIsFifo | app.py:55-57 | a push is a FIFO step: old frame k+1 moves to position k, and the new frame is last |
| History.PushAll | app.py:55-57 | pushing any sequence of frames keeps the history length |
| History.PushAllKeepsLatest | app.py:55-57 | after pushing `frames`, the history is the tail, of the history's own length, of the old history followed by `frames` |
| History.HistoryHoldsLastPushes | app.py:55-57 | after at least `time_depth` pushes, the history holds exactly the last `time_depth` pushed frames, oldest first |
| History.FrameHistory.Contents | app.py:11 | the ring read oldest first has `depth` frames |
| History.FrameHistory.constructor | app.py:11 | a new history holds `depth` all-zero `size x size` frames |
| History.FrameHistory.Push | app.py:55-57 | one overwrite in the ring makes the contents exactly the shift-then-write of the old contents; with depth 0 nothing changes and `ok` is false (the source raises IndexError there) |
| History.FrameHistory.Snapshot | app.py:75 | the loop reads out the frames oldest first, and the result equals the contents |
| Explorer.NeuralFieldExplorer.constructor | app.py:8-27 | the fields are the initial impulse state, the history holds `time_depth` zero frames, the constants are those of the source, and the class invariant (including `phi == u - u0`) holds |
| Explorer.NeuralFieldExplorer.Create | app.py:8-19 | construction from integer arguments fails exactly when `size <= 0` or `time_depth < 0`: negative dimensions first, then the missing centre cell when `size == 0`; otherwise it builds the initial state in a fresh explorer with fresh history storage, so every update method can be called on it |
| Explorer.NeuralFieldExplorer.UpdateFields | app.py:29-46 | `u`, `v` and `phi` are replaced together by one step under the given noise; the history and constants are untouched; the invariant `phi == u - u0` is kept |
| Explorer.NeuralFieldExplorer.UpdateHistory | app.py:55-57 | the history becomes the shift-then-write of the old one (or fails with `ok == false` when `time_depth == 0`); the fields are untouched |

## Left out

- The Streamlit user interface is not modelled. That covers `main`, the run loop, `sleep` pacing and session state (app.py:84-159).
- The rendering in `create_3d_visualization` and the other plotly figures (app.py:59-82) is not modelled. It only draws the state.
- `np.random.normal` is not modelled as a random draw. Its sample is the caller-supplied `noise` grid.
- The gradient, magnitude and Gaussian smoothing stages of `calculate_energy_flow` (app.py:49-52) are left out. `np.gradient` and `scipy.ndimage.gaussian_filter` are library code that is not part of this model, and Dafny has no built-in square root on `real` to model `np.sqrt` with. Only the final rescale is modelled, and it applies to any grid.
- Floating point is not modelled. All arithmetic is over exact reals, with no rounding, overflow, NaN or infinity. The strict [0, 1) bound of the rescale holds in exact arithmetic; under IEEE rounding, once `max - min` is large enough that adding 1e-8 is lost, the largest cell comes out as exactly 1.0, so the float code guarantees only [0, 1].
- The explicit scheme is unstable for some parameters. The code has no guard against this, and the model adds none.
- The Laplacian divides by `dx * dy`, which is 1.0 in the source. The stencil functions require a non-zero divisor.
- Broadcasting is not modelled. numpy would broadcast a wrongly shaped frame or noise array, or raise an error. `UpdateHistory` and `UpdateFields` instead require an n x n grid.
- The constructor defaults `size=100` and `time_depth=50` are not modelled. Dafny has no default arguments, so `Create` takes both values explicitly.
- The source moves every frame when it rolls the history. The model uses a ring buffer that overwrites one slot instead. `Push` is proved to give the same contents, but the intermediate copying is not modelled.
