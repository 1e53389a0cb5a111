/** The periodic 4-neighbour finite-difference Laplacian of `update_fields`. */
module DiscreteLaplacian {
  import opened Grids

  /** The 5-point stencil over toroidal neighbours: on the first and last row and
      column the missing neighbour is taken from the opposite edge; `h` is `dx * dy`. */
  function Laplacian(u: Grid, n: nat, h: real): (r: Grid)
    requires IsGrid(u, n) && h != 0.0
    ensures IsGrid(r, n)
  {
    seq(n, i requires 0 <= i < n =>
      seq(n, j requires 0 <= j < n =>
        (u[Prev(i, n)][j] + u[Next(i, n)][j] + u[i][Prev(j, n)] + u[i][Next(j, n)] - 4.0 * u[i][j]) / h))
  }

  /** The expression as the source writes it:
      `(-4 u + roll(u, 1, 0) + roll(u, -1, 0) + roll(u, 1, 1) + roll(u, -1, 1)) / h`. */
  function RolledLaplacian(u: Grid, n: nat, h: real): (r: Grid)
    requires IsGrid(u, n) && h != 0.0
    ensures |r| == n
  {
    var up, down := Roll(u, 1), Roll(u, -1);
    var left, right := RollColumns(u, 1), RollColumns(u, -1);
    seq(n, i requires 0 <= i < n =>
      seq(n, j requires 0 <= j < n =>
        (-4.0 * u[i][j] + up[i][j] + down[i][j] + left[i][j] + right[i][j]) / h))
  }

  /** The sum of the four rolled grids is the toroidal stencil, cell by cell. */
  lemma {:induction false} RolledLaplacianIsStencil(u: Grid, n: nat, h: real)
    requires IsGrid(u, n) && h != 0.0
    ensures RolledLaplacian(u, n, h) == Laplacian(u, n, h)
  {
    var r, l := RolledLaplacian(u, n, h), Laplacian(u, n, h);
    forall i | 0 <= i < n
      ensures r[i] == l[i]
    {
      RolledRow(u, n, h, i);
    }
  }

  /** One row of the rolled form equals the same row of the stencil. */
  lemma {:induction false} RolledRow(u: Grid, n: nat, h: real, i: nat)
    requires IsGrid(u, n) && h != 0.0 && i < n
    ensures RolledLaplacian(u, n, h)[i] == Laplacian(u, n, h)[i]
  {
    var r, l := RolledLaplacian(u, n, h)[i], Laplacian(u, n, h)[i];
    forall j | 0 <= j < n
      ensures r[j] == l[j]
    {
      RolledCell(u, n, h, i, j);
    }
  }

  /** One cell of the rolled form: each roll by one reads the wrapped neighbour. */
  lemma {:induction false} RolledCell(u: Grid, n: nat, h: real, i: nat, j: nat)
    requires IsGrid(u, n) && h != 0.0 && i < n && j < n
    ensures RolledLaplacian(u, n, h)[i][j] == Laplacian(u, n, h)[i][j]
  {
    RollByOneIsNeighbour(u, i);
    RollByOneIsNeighbour(u[i], j);
    var up, down := Roll(u, 1)[i][j], Roll(u, -1)[i][j];
    var left, right := RollColumns(u, 1)[i][j], RollColumns(u, -1)[i][j];
    assert -4.0 * u[i][j] + up + down + left + right
        == u[Prev(i, n)][j] + u[Next(i, n)][j] + u[i][Prev(j, n)] + u[i][Next(j, n)] - 4.0 * u[i][j];
  }

  /** A constant grid has an all-zero Laplacian, wrap-around edges included. */
  lemma {:induction false} LaplacianOfConstant(u: Grid, n: nat, h: real, k: real)
    requires IsGrid(u, n) && h != 0.0
    requires forall i, j :: 0 <= i < n && 0 <= j < n ==> u[i][j] == k
    ensures Laplacian(u, n, h) == Zero(n)
  {
    var r, z := Laplacian(u, n, h), Zero(n);
    forall i | 0 <= i < n
      ensures r[i] == z[i]
    {
      forall j | 0 <= j < n
        ensures r[i][j] == 0.0
      {
        FlatStencil(u[Prev(i, n)][j], u[Next(i, n)][j], u[i][Prev(j, n)], u[i][Next(j, n)], u[i][j], k, h);
      }
    }
  }

  /** Arithmetic step kept apart so the grid proof above need not reason about
      division: the stencil over five equal values is zero. */
  lemma FlatStencil(a: real, b: real, c: real, d: real, e: real, k: real, h: real)
    requires a == k && b == k && c == k && d == k && e == k && h != 0.0
    ensures (a + b + c + d - 4.0 * e) / h == 0.0
  {
  }
}
