/** The field state of the explorer and one explicit time step of `update_fields`:
    the damped cubic wave equation advanced by semi-implicit (velocity-first) Euler. */
module Integrator {
  import opened Grids
  import opened DiscreteLaplacian

  /** The physical and numerical constants the constructor fixes: time step,
      grid spacings, wave speed, cubic and linear damping coefficients. */
  const Dt: real := 0.1
  const Dx: real := 1.0
  const Dy: real := 1.0
  const C: real := 1.0
  const Alpha: real := 0.05
  const Beta: real := 0.02

  /** Displacement `u`, velocity `v` and accumulated potential `phi`. */
  datatype Fields = Fields(u: Grid, v: Grid, phi: Grid)

  /** All three grids are n x n. */
  predicate Shaped(f: Fields, n: nat)
  {
    IsGrid(f.u, n) && IsGrid(f.v, n) && IsGrid(f.phi, n)
  }

  /** The initial displacement: zero except the centre cell `[n // 2][n // 2]`, which is 2.0. */
  function Impulse(n: nat): (g: Grid)
    requires n > 0
    ensures IsGrid(g, n)
  {
    var z := Zero(n);
    z[n / 2 := z[n / 2][n / 2 := 2.0]]
  }

  /** The impulse grid holds 2.0 at the centre and 0.0 everywhere else. */
  lemma ImpulseAt(n: nat, i: nat, j: nat)
    requires n > 0 && i < n && j < n
    ensures Impulse(n)[i][j] == if i == n / 2 && j == n / 2 then 2.0 else 0.0
  {
  }

  /** The state right after construction: the impulse, zero velocity, zero potential. */
  function Initial(n: nat): (f: Fields)
    requires n > 0
    ensures Shaped(f, n)
  {
    Fields(Impulse(n), Zero(n), Zero(n))
  }

  /** The acceleration of one cell, `c^2 L - beta v - alpha u^3 + noise`. */
  function CellAcceleration(lap: real, u: real, v: real, noise: real): (a: real)
    ensures u == 0.0 && v == 0.0 ==> a == C * C * lap + noise
  {
    C * C * lap - Beta * v - Alpha * (u * u * u) + noise
  }

  /** The acceleration grid; the source's `classical_input` term is identically zero
      and its Gaussian `quantum_input` draw is the grid `noise`. */
  function Acceleration(f: Fields, noise: Grid, n: nat): (a: Grid)
    requires Shaped(f, n) && IsGrid(noise, n)
    ensures IsGrid(a, n)
  {
    var lap := Laplacian(f.u, n, Dx * Dy);
    seq(n, i requires 0 <= i < n =>
      seq(n, j requires 0 <= j < n => CellAcceleration(lap[i][j], f.u[i][j], f.v[i][j], noise[i][j])))
  }

  /** One step: the acceleration of the current state, then the time advance. */
  function Step(f: Fields, noise: Grid, n: nat): (r: Fields)
    requires Shaped(f, n) && IsGrid(noise, n)
    ensures Shaped(r, n)
  {
    Advance(f, Acceleration(f, noise, n), n)
  }

  /** The semi-implicit Euler advance under acceleration `a`:
      `v' = v + a dt`, then `u' = u + v' dt` and `phi' = phi + v' dt`. */
  function Advance(f: Fields, a: Grid, n: nat): (r: Fields)
    requires Shaped(f, n) && IsGrid(a, n)
    ensures Shaped(r, n)
  {
    var v' := seq(n, i requires 0 <= i < n => seq(n, j requires 0 <= j < n => f.v[i][j] + a[i][j] * Dt));
    var u' := seq(n, i requires 0 <= i < n => seq(n, j requires 0 <= j < n => f.u[i][j] + v'[i][j] * Dt));
    var phi' := seq(n, i requires 0 <= i < n => seq(n, j requires 0 <= j < n => f.phi[i][j] + v'[i][j] * Dt));
    Fields(u', v', phi')
  }

  /** Every cell follows the update rule: the velocity gains the acceleration built
      from the toroidal stencil, and both `u` and `phi` advance by the NEW velocity. */
  lemma {:induction false} StepAt(f: Fields, noise: Grid, n: nat, i: nat, j: nat)
    requires Shaped(f, n) && IsGrid(noise, n)
    requires i < n && j < n
    ensures var r, u := Step(f, noise, n), f.u;
      var lap := (u[Prev(i, n)][j] + u[Next(i, n)][j] + u[i][Prev(j, n)] + u[i][Next(j, n)] - 4.0 * u[i][j]) / (Dx * Dy);
      && r.v[i][j] == f.v[i][j] + CellAcceleration(lap, u[i][j], f.v[i][j], noise[i][j]) * Dt
      && r.u[i][j] == u[i][j] + r.v[i][j] * Dt
      && r.phi[i][j] == f.phi[i][j] + r.v[i][j] * Dt
  {
    var u := f.u;
    var lap := (u[Prev(i, n)][j] + u[Next(i, n)][j] + u[i][Prev(j, n)] + u[i][Next(j, n)] - 4.0 * u[i][j]) / (Dx * Dy);
    assert Laplacian(u, n, Dx * Dy)[i][j] == lap;
    assert Acceleration(f, noise, n)[i][j] == CellAcceleration(lap, u[i][j], f.v[i][j], noise[i][j]);
  }

  /** `phi` and `u` advance by the same amount, so `phi - u` is unchanged by a step. */
  lemma {:induction false} StepKeepsDrift(f: Fields, noise: Grid, n: nat)
    requires Shaped(f, n) && IsGrid(noise, n)
    ensures var r := Step(f, noise, n); Sub(r.phi, r.u, n) == Sub(f.phi, f.u, n)
  {
    var r := Step(f, noise, n);
    var after, before := Sub(r.phi, r.u, n), Sub(f.phi, f.u, n);
    forall i | 0 <= i < n
      ensures after[i] == before[i]
    {
      forall j | 0 <= j < n
        ensures after[i][j] == before[i][j]
      {
        var w := r.v[i][j] * Dt;
        assert r.phi[i][j] == f.phi[i][j] + w && r.u[i][j] == f.u[i][j] + w;
      }
    }
  }

  /** With zero noise the rest state is a fixed point: `u` and `v` stay zero and
      `phi` keeps its value. */
  lemma {:induction false} RestIsFixedPoint(f: Fields, n: nat)
    requires Shaped(f, n)
    requires f.u == Zero(n) && f.v == Zero(n)
    ensures var r := Step(f, Zero(n), n); r.u == Zero(n) && r.v == Zero(n) && r.phi == f.phi
  {
    var z := Zero(n);
    RestHasNoAcceleration(f, n);
    var r := Advance(f, z, n);
    forall i | 0 <= i < n
      ensures r.v[i] == z[i] && r.u[i] == z[i] && r.phi[i] == f.phi[i]
    {
      forall j | 0 <= j < n
        ensures r.v[i][j] == 0.0 && r.u[i][j] == 0.0 && r.phi[i][j] == f.phi[i][j]
      {
        AdvanceStill(f, z, n, i, j);
      }
    }
  }

  /** A cell-level step kept apart so the grid proof above does not unfold `Advance`
      per cell: a still cell with no acceleration stays still and keeps its `phi`. */
  lemma AdvanceStill(f: Fields, a: Grid, n: nat, i: nat, j: nat)
    requires Shaped(f, n) && IsGrid(a, n) && i < n && j < n
    requires f.u[i][j] == 0.0 && f.v[i][j] == 0.0 && a[i][j] == 0.0
    ensures var r := Advance(f, a, n); r.v[i][j] == 0.0 && r.u[i][j] == 0.0 && r.phi[i][j] == f.phi[i][j]
  {
  }

  /** With zero noise a state at rest has zero acceleration everywhere. */
  lemma {:induction false} RestHasNoAcceleration(f: Fields, n: nat)
    requires Shaped(f, n)
    requires f.u == Zero(n) && f.v == Zero(n)
    ensures Acceleration(f, Zero(n), n) == Zero(n)
  {
    var h := Dx * Dy;
    LaplacianOfConstant(f.u, n, h, 0.0);
    var z, a := Zero(n), Acceleration(f, Zero(n), n);
    forall i | 0 <= i < n
      ensures a[i] == z[i]
    {
      forall j | 0 <= j < n
        ensures a[i][j] == 0.0
      {
        assert Laplacian(f.u, n, h)[i][j] == 0.0 && f.u[i][j] == 0.0 && f.v[i][j] == 0.0 && z[i][j] == 0.0;
      }
    }
  }

  /** `phi` equals the displacement minus the initial impulse, cell by cell. */
  predicate TracksImpulse(f: Fields, n: nat)
    requires Shaped(f, n) && n > 0
  {
    forall i, j :: 0 <= i < n && 0 <= j < n ==> f.phi[i][j] == f.u[i][j] - Impulse(n)[i][j]
  }

  /** The constructed state tracks the impulse: `phi` and `u - u0` are both zero. */
  lemma InitialTracksImpulse(n: nat)
    requires n > 0
    ensures TracksImpulse(Initial(n), n)
  {
  }

  /** A step preserves `phi == u - u0`, whatever the noise. */
  lemma {:induction false} StepPreservesTracking(f: Fields, noise: Grid, n: nat)
    requires Shaped(f, n) && IsGrid(noise, n) && n > 0
    requires TracksImpulse(f, n)
    ensures TracksImpulse(Step(f, noise, n), n)
  {
    var r := Step(f, noise, n);
    StepKeepsDrift(f, noise, n);
    forall i, j | 0 <= i < n && 0 <= j < n
      ensures r.phi[i][j] == r.u[i][j] - Impulse(n)[i][j]
    {
      assert Sub(r.phi, r.u, n)[i][j] == Sub(f.phi, f.u, n)[i][j];
    }
  }

  /** The state after one step per noise grid, in order. */
  function Run(f: Fields, noises: seq<Grid>, n: nat): (r: Fields)
    requires Shaped(f, n)
    requires forall k :: 0 <= k < |noises| ==> IsGrid(noises[k], n)
    ensures Shaped(r, n)
    decreases |noises|
  {
    if noises == [] then f else Run(Step(f, noises[0], n), noises[1..], n)
  }

  /** Any number of steps from a state with `phi == u - u0` (the constructed
      state among them) keeps `phi == u - u0`. */
  lemma {:induction false} RunTracksImpulse(f: Fields, noises: seq<Grid>, n: nat)
    requires Shaped(f, n) && n > 0
    requires forall k :: 0 <= k < |noises| ==> IsGrid(noises[k], n)
    requires TracksImpulse(f, n)
    ensures TracksImpulse(Run(f, noises, n), n)
    decreases |noises|
  {
    if noises != [] {
      StepPreservesTracking(f, noises[0], n);
      RunTracksImpulse(Step(f, noises[0], n), noises[1..], n);
    }
  }

  /** The first noiseless step from the constructed state, at the impulse: the
      centre loses speed to its four (wrapped) neighbours, so with the constructor's
      constants `v` becomes -0.84 and `u` drops from 2.0 to 1.916. */
  lemma {:induction false} FirstStepAtCentre(n: nat)
    requires n >= 2
    ensures var r, m := Step(Initial(n), Zero(n), n), n / 2;
      r.v[m][m] == -0.84 && r.u[m][m] == 1.916 && r.phi[m][m] == -0.084
  {
    var f, m := Initial(n), n / 2;
    StepAt(f, Zero(n), n, m, m);
    ImpulseAt(n, Prev(m, n), m);
    ImpulseAt(n, Next(m, n), m);
    ImpulseAt(n, m, Prev(m, n));
    ImpulseAt(n, m, Next(m, n));
    ImpulseAt(n, m, m);
    assert f.v[m][m] == 0.0 && Zero(n)[m][m] == 0.0 && f.phi[m][m] == 0.0;
    CentreArithmetic(f.u[Prev(m, n)][m], f.u[Next(m, n)][m], f.u[m][Prev(m, n)], f.u[m][Next(m, n)], f.u[m][m]);
  }

  /** Arithmetic only, kept apart so the solver evaluates the update rule on plain
      numbers: the rule at an impulse of 2.0 with still neighbours. */
  lemma CentreArithmetic(a: real, b: real, c: real, d: real, e: real)
    requires a == 0.0 && b == 0.0 && c == 0.0 && d == 0.0 && e == 2.0
    ensures var v := 0.0 + CellAcceleration((a + b + c + d - 4.0 * e) / (Dx * Dy), e, 0.0, 0.0) * Dt;
      v == -0.84 && e + v * Dt == 1.916 && 0.0 + v * Dt == -0.084
  {
  }

  /** The same first step at the cell above the impulse (wrapping to the last row
      when the centre is row 0): it is pulled up to speed 0.2 and moves to 0.02. */
  lemma {:induction false} FirstStepAboveCentre(n: nat)
    requires n >= 3
    ensures var r, m := Step(Initial(n), Zero(n), n), n / 2;
      r.v[Prev(m, n)][m] == 0.2 && r.u[Prev(m, n)][m] == 0.02 && r.phi[Prev(m, n)][m] == 0.02
  {
    var f, m := Initial(n), n / 2;
    var i := Prev(m, n);
    ImpulseAroundAbove(n);
    assert f.v[i][m] == 0.0 && Zero(n)[i][m] == 0.0 && f.phi[i][m] == 0.0;
    StepAt(f, Zero(n), n, i, m);
    NeighbourArithmetic(f.u[Prev(i, n)][m], f.u[Next(i, n)][m], f.u[i][Prev(m, n)], f.u[i][Next(m, n)], f.u[i][m]);
  }

  /** Around the cell above the centre the impulse is seen only from below. */
  lemma ImpulseAroundAbove(n: nat)
    requires n >= 3
    ensures var u, m := Impulse(n), n / 2; var i := Prev(m, n);
      && u[Prev(i, n)][m] == 0.0 && u[Next(i, n)][m] == 2.0
      && u[i][Prev(m, n)] == 0.0 && u[i][Next(m, n)] == 0.0 && u[i][m] == 0.0
  {
    var m := n / 2;
    var i := Prev(m, n);
    assert Next(i, n) == m && Prev(i, n) != m && i != m;
    ImpulseAt(n, Prev(i, n), m);
    ImpulseAt(n, Next(i, n), m);
    ImpulseAt(n, i, Prev(m, n));
    ImpulseAt(n, i, Next(m, n));
    ImpulseAt(n, i, m);
  }

  /** Arithmetic only, as above: the rule at a still cell with the impulse as one neighbour. */
  lemma NeighbourArithmetic(a: real, b: real, c: real, d: real, e: real)
    requires a == 0.0 && b == 2.0 && c == 0.0 && d == 0.0 && e == 0.0
    ensures var v := 0.0 + CellAcceleration((a + b + c + d - 4.0 * e) / (Dx * Dy), e, 0.0, 0.0) * Dt;
      v == 0.2 && e + v * Dt == 0.02 && 0.0 + v * Dt == 0.02
  {
  }
}
