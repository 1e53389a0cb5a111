/** Square grids of reals and the array primitives the field engine is built from:
    zero-filled grids, numpy's `roll` along one axis, and the toroidal neighbour indices. */
module Grids {

  /** A dense 2-D array of values; rows first. */
  type Grid = seq<seq<real>>

  /** The outcome of an operation that numpy may abort with an exception. */
  datatype Result<+T, +E> = Success(value: T) | Failure(error: E)

  /** `g` has exactly `n` rows of exactly `n` cells each. */
  predicate IsGrid(g: Grid, n: nat)
  {
    |g| == n && forall i :: 0 <= i < n ==> |g[i]| == n
  }

  /** `np.zeros((n, n))`. */
  function Zero(n: nat): (g: Grid)
    ensures IsGrid(g, n)
    ensures forall i, j :: 0 <= i < n && 0 <= j < n ==> g[i][j] == 0.0
  {
    seq(n, _ => seq(n, _ => 0.0))
  }

  /** Cell-wise difference `a - b` of two n x n grids. */
  function Sub(a: Grid, b: Grid, n: nat): (r: Grid)
    requires IsGrid(a, n) && IsGrid(b, n)
    ensures IsGrid(r, n)
  {
    seq(n, i requires 0 <= i < n => seq(n, j requires 0 <= j < n => a[i][j] - b[i][j]))
  }

  /** `np.roll(s, shift)` along one axis: element `i` of the result is element
      `(i - shift) mod |s|` of `s`, so a positive shift moves every element towards
      the end and the last ones re-enter at the front. */
  function Roll<T>(s: seq<T>, shift: int): (r: seq<T>)
    ensures |r| == |s|
    ensures forall i :: 0 <= i < |s| ==> r[i] == s[(i - shift) % |s|]
  {
    if |s| == 0 then [] else seq(|s|, i requires 0 <= i < |s| => s[(i - shift) % |s|])
  }

  /** `np.roll(g, shift, axis=1)`: every row rolled. */
  function RollColumns(g: Grid, shift: int): (r: Grid)
    ensures |r| == |g|
    ensures forall i :: 0 <= i < |g| ==> |r[i]| == |g[i]| && r[i] == Roll(g[i], shift)
  {
    seq(|g|, i requires 0 <= i < |g| => Roll(g[i], shift))
  }

  /** Index of the neighbour before `i` on a ring of `n` cells. */
  function Prev(i: nat, n: nat): nat
    requires i < n
  {
    if i == 0 then n - 1 else i - 1
  }

  /** Index of the neighbour after `i` on a ring of `n` cells. */
  function Next(i: nat, n: nat): nat
    requires i < n
  {
    if i == n - 1 then 0 else i + 1
  }

  /** Rolling by one in either direction reads the ring neighbour: the Euclidean
      remainder wraps index -1 to n - 1 and index n to 0. */
  lemma {:induction false} RollByOneIsNeighbour<T>(s: seq<T>, i: nat)
    requires i < |s|
    ensures Roll(s, 1)[i] == s[Prev(i, |s|)]
    ensures Roll(s, -1)[i] == s[Next(i, |s|)]
  {
    var n := |s|;
    if i == 0 {
      assert (0 - 1) % n == n - 1 by { ModOfShifted(n - 1, n, -1); }
    } else {
      assert (i - 1) % n == i - 1 by { ModOfShifted(i - 1, n, 0); }
    }
    if i == n - 1 {
      assert (i + 1) % n == 0 by { ModOfShifted(0, n, 1); }
    } else {
      assert (i + 1) % n == i + 1 by { ModOfShifted(i + 1, n, 0); }
    }
  }

  /** Rolling by -1 moves the head to the back: `np.roll(s, -1)` is `s[1..] + [s[0]]`. */
  lemma RollLeftRotates<T>(s: seq<T>)
    requires |s| > 0
    ensures Roll(s, -1) == s[1..] + [s[0]]
  {
    forall i | 0 <= i < |s|
      ensures Roll(s, -1)[i] == (s[1..] + [s[0]])[i]
    {
      RollByOneIsNeighbour(s, i);
    }
  }

  /** Arithmetic step kept apart so the proofs above need not unfold `%` themselves.
      The remainder of `r + k * n` by `n` is `r` when `0 <= r < n`, for a shift `k` of one ring length at most. */
  lemma ModOfShifted(r: int, n: int, k: int)
    requires 0 <= r < n
    requires -1 <= k <= 1
    ensures (r + k * n) % n == r
  {
    var x := r + k * n;
    assert x == (x / n) * n + x % n;
  }
}
