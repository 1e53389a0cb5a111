/** The last stage of `calculate_energy_flow`: the min/max rescale
    `(m - m.min()) / (m.max() - m.min() + 1e-8)` of an n x n grid. */
module EnergyFlow {
  import opened Grids

  /** The guard added to the denominator so a flat grid does not divide by zero. */
  const Eps: real := 0.00000001

  /** numpy refuses `min()` and `max()` of an array with no elements. */
  datatype NormError = EmptyGrid

  /** The smallest element of a non-empty row. */
  function SeqMin(s: seq<real>): (r: real)
    requires |s| > 0
    ensures forall k :: 0 <= k < |s| ==> r <= s[k]
    ensures exists k :: 0 <= k < |s| && s[k] == r
  {
    if |s| == 1 then s[0]
    else
      var rest := SeqMin(s[1..]);
      if s[0] <= rest then s[0] else rest
  }

  /** The largest element of a non-empty row. */
  function SeqMax(s: seq<real>): (r: real)
    requires |s| > 0
    ensures forall k :: 0 <= k < |s| ==> s[k] <= r
    ensures exists k :: 0 <= k < |s| && s[k] == r
  {
    if |s| == 1 then s[0]
    else
      var rest := SeqMax(s[1..]);
      if s[0] >= rest then s[0] else rest
  }

  /** `m.min()`: a lower bound of every cell that some cell attains. */
  function GridMin(m: Grid, n: nat): (r: real)
    requires IsGrid(m, n) && n > 0
    ensures forall i, j :: 0 <= i < n && 0 <= j < n ==> r <= m[i][j]
    ensures exists i, j :: 0 <= i < n && 0 <= j < n && m[i][j] == r
  {
    var rowMins := seq(n, i requires 0 <= i < n => SeqMin(m[i]));
    var r := SeqMin(rowMins);
    assert forall i, j :: 0 <= i < n && 0 <= j < n ==> r <= rowMins[i] <= m[i][j];
    var i :| 0 <= i < n && rowMins[i] == r;
    assert exists j :: 0 <= j < n && m[i][j] == r;
    r
  }

  /** `m.max()`: an upper bound of every cell that some cell attains. */
  function GridMax(m: Grid, n: nat): (r: real)
    requires IsGrid(m, n) && n > 0
    ensures forall i, j :: 0 <= i < n && 0 <= j < n ==> m[i][j] <= r
    ensures exists i, j :: 0 <= i < n && 0 <= j < n && m[i][j] == r
  {
    var rowMaxs := seq(n, i requires 0 <= i < n => SeqMax(m[i]));
    var r := SeqMax(rowMaxs);
    assert forall i, j :: 0 <= i < n && 0 <= j < n ==> m[i][j] <= rowMaxs[i] <= r;
    var i :| 0 <= i < n && rowMaxs[i] == r;
    assert exists j :: 0 <= j < n && m[i][j] == r;
    r
  }

  /** The rescaled grid, or the error numpy raises on an empty grid. */
  function Normalize(m: Grid, n: nat): (r: Result<Grid, NormError>)
    requires IsGrid(m, n)
    ensures r.Failure? <==> n == 0
    ensures r.Success? ==> IsGrid(r.value, n)
  {
    if n == 0 then Failure(EmptyGrid)
    else
      var lo, hi := GridMin(m, n), GridMax(m, n);
      Success(seq(n, i requires 0 <= i < n => seq(n, j requires 0 <= j < n => Rescale(m[i][j], lo, hi))))
  }

  /** One cell of the rescale, `(x - lo) / (hi - lo + 1e-8)`. */
  function Rescale(x: real, lo: real, hi: real): (r: real)
    requires lo <= hi
    ensures r == 0.0 <==> x == lo
  {
    var a, d := x - lo, hi - lo + Eps;
    assert a / d == 0.0 ==> a == (a / d) * d;
    a / d
  }

  /** A value between the bounds rescales into [0, 1); the guard keeps the
      denominator positive even when the bounds coincide. */
  lemma RescaleInUnit(x: real, lo: real, hi: real)
    requires lo <= x <= hi
    ensures 0.0 <= Rescale(x, lo, hi) < 1.0
  {
    var d := hi - lo + Eps;
    assert 0.0 <= x - lo < d;
    Quotient(x - lo, d);
  }

  /** Arithmetic step kept apart from the grid lemmas so the solver does not
      unfold the rescale there: `0 <= a < d` gives `0 <= a / d < 1`. */
  lemma Quotient(a: real, d: real)
    requires 0.0 <= a < d
    ensures 0.0 <= a / d < 1.0
  {
  }

  /** Every cell of the rescaled grid lies in [0, 1). */
  lemma {:induction false} NormalizeInUnitInterval(m: Grid, n: nat)
    requires IsGrid(m, n) && n > 0
    ensures Normalize(m, n).Success?
    ensures forall i, j :: 0 <= i < n && 0 <= j < n ==> 0.0 <= Normalize(m, n).value[i][j] < 1.0
  {
    var lo, hi := GridMin(m, n), GridMax(m, n);
    forall i, j | 0 <= i < n && 0 <= j < n
      ensures 0.0 <= Normalize(m, n).value[i][j] < 1.0
    {
      RescaleInUnit(m[i][j], lo, hi);
    }
  }

  /** A cell rescales to 0 exactly when it equals the minimum. */
  lemma {:induction false} NormalizeZeroIffMinimum(m: Grid, n: nat, i: nat, j: nat)
    requires IsGrid(m, n) && i < n && j < n
    ensures Normalize(m, n).Success?
    ensures Normalize(m, n).value[i][j] == 0.0 <==> m[i][j] == GridMin(m, n)
  {
    var lo, hi := GridMin(m, n), GridMax(m, n);
    assert Normalize(m, n).value[i][j] == Rescale(m[i][j], lo, hi);
  }

  /** A flat grid rescales to all zeros, with no division by zero. */
  lemma {:induction false} NormalizeFlat(m: Grid, n: nat, k: real)
    requires IsGrid(m, n) && n > 0
    requires forall i, j :: 0 <= i < n && 0 <= j < n ==> m[i][j] == k
    ensures Normalize(m, n) == Success(Zero(n))
  {
    var r, z := Normalize(m, n).value, Zero(n);
    var lo := GridMin(m, n);
    var a, b :| 0 <= a < n && 0 <= b < n && m[a][b] == lo;
    assert lo == k;
    forall i | 0 <= i < n
      ensures r[i] == z[i]
    {
      forall j | 0 <= j < n
        ensures r[i][j] == 0.0
      {
        NormalizeZeroIffMinimum(m, n, i, j);
      }
    }
    assert r == z;
  }

  /** The rescale keeps the order of the cells: no two cells swap places. */
  lemma {:induction false} NormalizeMonotone(m: Grid, n: nat, i: nat, j: nat, i': nat, j': nat)
    requires IsGrid(m, n) && i < n && j < n && i' < n && j' < n
    requires m[i][j] <= m[i'][j']
    ensures Normalize(m, n).Success?
    ensures Normalize(m, n).value[i][j] <= Normalize(m, n).value[i'][j']
  {
    var lo, hi := GridMin(m, n), GridMax(m, n);
    var r := Normalize(m, n).value;
    assert r[i][j] == Rescale(m[i][j], lo, hi) && r[i'][j'] == Rescale(m[i'][j'], lo, hi);
    RescaleMonotone(m[i][j], m[i'][j'], lo, hi);
  }

  /** Rescaling keeps order. */
  lemma RescaleMonotone(x: real, y: real, lo: real, hi: real)
    requires x <= y && lo <= hi
    ensures Rescale(x, lo, hi) <= Rescale(y, lo, hi)
  {
  }
}
