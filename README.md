# Streaming Jacobi stencil kernel — a Dafny model

This project models the HLS kernel `jacobi` (src/jacobi.cpp) and the testbench
reference `compute_gt` (src/top_tb.cpp). Both compute one update of a 5-point
weighted stencil over an N×N grid:

    u_cur[i][j] = w1*(up + down) + w2*(left + right) + w3*u_prev[i][j] + c[i][j]

A neighbour outside the grid counts as 0.

The kernel never reads the input grid at random. It keeps three line buffers
(`line_buffer_prev/curr/next`) that hold rows i-1, i and i+1 and slide down one
row at a time. Within a row it keeps three shift registers (`left/center/right`)
that slide across one column at a time.

The model proves three things:
- the kernel writes every cell of `u_cur` with exactly the stencil value;
- it writes the cells in row-major order, each exactly once;
- the reference's five whole-grid passes give the same value.

Together these mean the testbench's comparison finds no mismatch, on every input.

Modelling choices:
- Grid values are Dafny `real`s, not IEEE doubles. The testbench's 1e-6
  tolerance becomes exact equality.
- Grids are `array2<real>` and line buffers are `array<real>`.
- N is a parameter with N > 0. The source fixes `N = 1024` as a compile-time
  constant (src/jacobi.h:4).
- The three line buffers are `static` in the source. They become the array
  fields of class `JacobiKernel`, which persist between calls. `Jacobi`
  requires nothing of their contents, so its result cannot depend on what an
  earlier call left there.
- The loops labelled in the source are one method each: `InitLoop` for
  `init_loop`, `ColLoop` for `col_loop`, and `UpdateLineBuffers` for
  `update_line_buffers`. `Jacobi` is the `row_loop` that calls them. Each
  of the reference's five passes is one method, and `ComputeGt` calls them in
  the source's order.
- The weights are plain values. `Jacobi` reads them once into locals.
- The kernel does not modify `u_prev` or `c`, and neither does the reference
  modify `arr` or `c`: no method names them in its `modifies` clause. The
  output grid must be a different array from both inputs. The testbench's one
  call passes three distinct static arrays (src/top_tb.cpp:37, 49).
- Every array index is checked by the verifier. In particular, the kernel reads
  `line_buffer_curr[j+2]` only when `j < N-2` and `u_prev[i+2]` only when
  `i < N-2`.
- `ColLoop` asserts that the masks at src/jacobi.cpp:73-74 and 79 never change
  a value. The buffers already hold a zero row outside the grid. The right
  register is already 0 at the last column: it is zeroed at `j == N-2`
  (src/jacobi.cpp:95-96), or at initialisation when N = 1 (src/jacobi.cpp:65).

Files:
- `stencil.dfy` holds the boundary policy (`Cell`), the formula (`StencilAt`)
  and its algebraic properties.
- `write_order.dfy` holds the row-major write order.
- `jacobi.dfy` holds the kernel.
- `top_tb.dfy` holds the reference and the comparison.

## Model

| member | source | states |
|---|---|---|
| `Stencil.SingleCellGrid` | src/jacobi.cpp:62-79 | with N = 1 every neighbour is boundary, so the single cell is `w3*u_prev[0][0] + c[0][0]` |
| `Stencil.ZeroCouplingIsSum` | src/jacobi.cpp:82-85 | with w1 = w2 = 0 and w3 = 1 each output cell is `u_prev + c` |
| `Stencil.BiasIsAdditive` | src/jacobi.cpp:82-85 | two biases change a cell by exactly their difference; the bias enters additively |
| `Stencil.UniformThreeByThree` | src/jacobi.cpp:3-6 | on a 3x3 grid of ones with unit weights and zero bias the centre is 5, a corner 3 and an edge cell 4 |
| `WriteOrder.RowMajorLength` | src/jacobi.cpp:53-69 | the write trace of m rows of n columns has m*n entries |
| `WriteOrder.RowMajorCovers` | src/jacobi.cpp:53-88 | a cell is in the write trace if and only if it lies in the first m rows and the n columns |
| `WriteOrder.RowMajorIncreasing` | src/jacobi.cpp:53-88 | each write comes strictly after the previous one in row-major order |
| `WriteOrder.RowMajorNoRepeats` | src/jacobi.cpp:53-88 | no cell is written twice |
| `Jacobi.JacobiKernel.constructor` | src/jacobi.cpp:32-34 | the static storage: three line buffers of length N |
| `Jacobi.JacobiKernel.InitLoop` | src/jacobi.cpp:41-50 | afterwards `prev` is all zero, `curr[j] == u_prev[0][j]`, and `next[j] == u_prev[1][j]` when N > 1 and 0 when N = 1; this is the row window of row 0 |
| `Jacobi.JacobiKernel.UpdateLineBuffers` | src/jacobi.cpp:101-112 | the new `prev` is the old `curr`, the new `curr` is the old `next`, and `next[k]` is `u_prev[i+2][k]` when `i < N-2` and 0 otherwise |
| `Jacobi.JacobiKernel.UpdateAdvancesWindow` | src/jacobi.cpp:100-112 | after row i < N-1 the update turns the row window of row i into the row window of row i+1 |
| `Jacobi.JacobiKernel.ColLoop` | src/jacobi.cpp:56-98 | keeps the shift-register invariant (`left`, `center`, `right` are `curr[j-1]`, `curr[j]`, `curr[j+1]`, 0 outside the row); every cell of row i gets its stencil value; no other row changes; row i is written left to right; the current line buffer is read once per element, in column order, as each element enters the right register |
| `Jacobi.JacobiKernel.Jacobi` | src/jacobi.cpp:8-113 | every cell of `u_cur` equals the zero-boundary stencil of `u_prev`, `c` and the weights, whatever the line buffers held before; the writes form the row-major enumeration of the grid; the buffers end holding the window of row N-1 |
| `TopTb.SelfPass` | src/top_tb.cpp:8-12 | afterwards `gt[i][j] == arr[i][j]*w3 + c[i][j]` for every cell |
| `TopTb.LeftPass` | src/top_tb.cpp:13-17 | adds `arr[i][j-1]*w2` to every cell with j >= 1; column 0 is untouched |
| `TopTb.RightPass` | src/top_tb.cpp:18-22 | adds `arr[i][j+1]*w2` to every cell with j <= N-2; column N-1 is untouched |
| `TopTb.UpPass` | src/top_tb.cpp:23-27 | adds `arr[i-1][j]*w1` to every cell with i >= 1; row 0 is untouched |
| `TopTb.DownPass` | src/top_tb.cpp:28-32 | adds `arr[i+1][j]*w1` to every cell with i <= N-2; row N-1 is untouched |
| `TopTb.ReferenceSumIsStencil` | src/top_tb.cpp:7-33 | the five contributions summed in the reference's order equal the stencil formula |
| `TopTb.ComputeGt` | src/top_tb.cpp:7-33 | every cell of `gt` equals the same zero-boundary stencil that the kernel computes |
| `TopTb.FirstMismatch` | src/top_tb.cpp:50-57 | scanning column by column, it returns no cell if and only if the two grids agree everywhere; otherwise it returns the first differing cell in that scan order |
| `TopTb.CorrectnessTest` | src/top_tb.cpp:47-57 | for every input and all weights, the kernel's output and the reference agree in every cell, so the comparison finds no mismatch |

## Left out

- test.py: it drives the Vitis HLS tool, reads its reports and computes a
  synthesis score. None of that is part of the computation.
- The `#pragma HLS` directives: they shape the hardware interfaces and the
  pipelining, not the values computed.
- The `m_axi` pointer indirection of the weights: the weights are plain values.
- IEEE double rounding and the `EPS` tolerance of the comparison: the model
  uses exact real arithmetic, so `w1*(up+down)` equals `up*w1 + down*w1`.
- `main`'s input generation by `rand()`: `CorrectnessTest` takes any grids and
  weights instead of pseudo-random ones and fixed weights.
- `main`'s console output and exit code: `FirstMismatch` returns the first
  mismatching cell instead of printing it.
- Configuration errors (N ≤ 0, size mismatch): the source has no such path,
  because N is a compile-time constant. These conditions are preconditions here.
- Aliased calls: `Jacobi` and `ComputeGt` require the output grid to be a
  different array from the inputs. The model makes no promise about a call that
  passes the same array as input and output.
- src/jacobi.h: it only declares N, the element type and the prototype.
- Concurrency and timing: the hardware may overlap loop iterations, but the
  model is sequential.
