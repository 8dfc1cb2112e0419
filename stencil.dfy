/** The zero-boundary 5-point Jacobi stencil that both the streaming kernel
    (src/jacobi.cpp) and the reference computation (src/top_tb.cpp) compute.
    Grid values are exact reals in place of IEEE doubles. */
module Stencil {

  /** Both input grids and the output grid are N rows of N columns. */
  ghost predicate IsGrid(a: array2<real>, n: nat) {
    a.Length0 == n && a.Length1 == n
  }

  /** Boundary policy: the grid is padded by a one-cell border of zeros, so
      any row or column index outside the grid reads as 0. */
  function Cell(u: array2<real>, i: int, j: int): real
    reads u
  {
    if 0 <= i < u.Length0 && 0 <= j < u.Length1 then u[i, j] else 0.0
  }

  /** One Jacobi update of cell (i, j):
      w1 * (up + down) + w2 * (left + right) + w3 * centre + bias. */
  function StencilAt(w1: real, w2: real, w3: real, u: array2<real>, c: array2<real>, i: int, j: int): real
    reads u, c
    requires 0 <= i < u.Length0 && 0 <= j < u.Length1
    requires 0 <= i < c.Length0 && 0 <= j < c.Length1
  {
    w1 * (Cell(u, i - 1, j) + Cell(u, i + 1, j))
    + w2 * (Cell(u, i, j - 1) + Cell(u, i, j + 1))
    + w3 * u[i, j]
    + c[i, j]
  }

  /** With N = 1 every neighbour is boundary, so only the self term and the bias remain. */
  lemma SingleCellGrid(w1: real, w2: real, w3: real, u: array2<real>, c: array2<real>)
    requires IsGrid(u, 1) && IsGrid(c, 1)
    ensures StencilAt(w1, w2, w3, u, c, 0, 0) == w3 * u[0, 0] + c[0, 0]
  {
  }

  /** With w1 = w2 = 0 and w3 = 1 the update is u + c, cell by cell. */
  lemma ZeroCouplingIsSum(u: array2<real>, c: array2<real>, i: int, j: int)
    requires 0 <= i < u.Length0 && 0 <= j < u.Length1
    requires 0 <= i < c.Length0 && 0 <= j < c.Length1
    ensures StencilAt(0.0, 0.0, 1.0, u, c, i, j) == u[i, j] + c[i, j]
  {
  }

  /** The bias enters additively: two biases change a cell by their difference. */
  lemma BiasIsAdditive(w1: real, w2: real, w3: real, u: array2<real>, c1: array2<real>, c2: array2<real>, i: int, j: int)
    requires 0 <= i < u.Length0 && 0 <= j < u.Length1
    requires 0 <= i < c1.Length0 && 0 <= j < c1.Length1
    requires 0 <= i < c2.Length0 && 0 <= j < c2.Length1
    ensures StencilAt(w1, w2, w3, u, c1, i, j) - StencilAt(w1, w2, w3, u, c2, i, j) == c1[i, j] - c2[i, j]
  {
  }

  /** A 3x3 grid of ones with zero bias and unit weights: the centre sees four
      neighbours (5), a corner two (3), an edge cell three (4). */
  lemma UniformThreeByThree(u: array2<real>, c: array2<real>)
    requires IsGrid(u, 3) && IsGrid(c, 3)
    requires forall i, j :: 0 <= i < 3 && 0 <= j < 3 ==> u[i, j] == 1.0 && c[i, j] == 0.0
    ensures StencilAt(1.0, 1.0, 1.0, u, c, 1, 1) == 5.0
    ensures StencilAt(1.0, 1.0, 1.0, u, c, 0, 0) == 3.0
    ensures StencilAt(1.0, 1.0, 1.0, u, c, 0, 1) == 4.0
  {
  }
}
