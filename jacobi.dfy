/** The streaming Jacobi kernel of src/jacobi.cpp: it produces the output grid
    row by row while holding only three rows of the input (the line buffers)
    and, within a row, three scalars (the shift registers). */
module Jacobi {
  import opened Stencil
  import opened WriteOrder

  /** The kernel's `static` storage. The three line buffers are function-level
      statics in the source, so they outlive a call; they are fields here and
      every call starts from whatever an earlier call left in them. */
  class JacobiKernel {
    /** The grid dimension N, a compile-time constant of the source. */
    const n: nat
    const linePrev: array<real>
    const lineCurr: array<real>
    const lineNext: array<real>

    ghost predicate Valid() {
      n > 0 &&
      linePrev.Length == n && lineCurr.Length == n && lineNext.Length == n &&
      linePrev != lineCurr && lineCurr != lineNext && linePrev != lineNext
    }

    constructor (n: nat)
      requires n > 0
      ensures Valid() && this.n == n
      ensures fresh(linePrev) && fresh(lineCurr) && fresh(lineNext)
    {
      this.n := n;
      linePrev := new real[n];
      lineCurr := new real[n];
      lineNext := new real[n];
    }

    /** Row window invariant for row i: the buffers hold input rows i-1, i and
        i+1, with a row outside the grid read as all zeros. */
    ghost predicate WindowAt(u: array2<real>, i: int)
      requires Valid()
      reads linePrev, lineCurr, lineNext, u
    {
      forall k :: 0 <= k < n ==>
        linePrev[k] == Cell(u, i - 1, k) &&
        lineCurr[k] == Cell(u, i, k) &&
        lineNext[k] == Cell(u, i + 1, k)
    }

    /** Column k of the current line buffer, 0 outside the row. */
    ghost function Curr(k: int): real
      requires Valid()
      reads lineCurr
    {
      if 0 <= k < n then lineCurr[k] else 0.0
    }

    /** `init_loop`: row -1 (zeros), row 0, and row 1 or zeros when N = 1. */
    method InitLoop(uPrev: array2<real>)
      requires Valid() && IsGrid(uPrev, n)
      modifies linePrev, lineCurr, lineNext
      ensures forall k :: 0 <= k < n ==> linePrev[k] == 0.0 && lineCurr[k] == uPrev[0, k]
      ensures forall k :: 0 <= k < n ==> lineNext[k] == if n > 1 then uPrev[1, k] else 0.0
      ensures WindowAt(uPrev, 0)
    {
      for j := 0 to n
        invariant forall k :: 0 <= k < j ==> linePrev[k] == 0.0 && lineCurr[k] == uPrev[0, k]
        invariant forall k :: 0 <= k < j ==> lineNext[k] == if n > 1 then uPrev[1, k] else 0.0
      {
        linePrev[j] := 0.0;
        lineCurr[j] := uPrev[0, j];
        if n > 1 {
          lineNext[j] := uPrev[1, j];
        } else {
          lineNext[j] := 0.0;
        }
      }
    }

    /** `update_line_buffers` after row i: prev <- curr, curr <- next, and next
        <- row i+2 of the input, or zeros once row i+2 is past the last row.
        Row i+2 is read only when i < N-2. */
    method UpdateLineBuffers(uPrev: array2<real>, i: int)
      requires Valid() && IsGrid(uPrev, n)
      requires 0 <= i < n
      modifies linePrev, lineCurr, lineNext
      ensures linePrev[..] == old(lineCurr[..])
      ensures lineCurr[..] == old(lineNext[..])
      ensures forall k :: 0 <= k < n ==> lineNext[k] == if i < n - 2 then uPrev[i + 2, k] else 0.0
    {
      for j := 0 to n
        invariant forall k :: 0 <= k < j ==> linePrev[k] == old(lineCurr[k]) && lineCurr[k] == old(lineNext[k])
        invariant forall k :: 0 <= k < j ==> lineNext[k] == if i < n - 2 then uPrev[i + 2, k] else 0.0
        invariant forall k :: j <= k < n ==> lineCurr[k] == old(lineCurr[k]) && lineNext[k] == old(lineNext[k])
      {
        linePrev[j] := lineCurr[j];
        lineCurr[j] := lineNext[j];
        if i < n - 2 {
          lineNext[j] := uPrev[i + 2, j];
        } else {
          lineNext[j] := 0.0;
        }
      }
    }

    /** Advancing the window after row i (i < N-1) yields the window of row i+1. */
    lemma UpdateAdvancesWindow(uPrev: array2<real>, i: int, oldCurr: seq<real>, oldNext: seq<real>)
      requires Valid() && IsGrid(uPrev, n) && 0 <= i < n - 1
      requires |oldCurr| == |oldNext| == n
      requires forall k :: 0 <= k < n ==> oldCurr[k] == Cell(uPrev, i, k) && oldNext[k] == Cell(uPrev, i + 1, k)
      requires linePrev[..] == oldCurr && lineCurr[..] == oldNext
      requires forall k :: 0 <= k < n ==> lineNext[k] == if i < n - 2 then uPrev[i + 2, k] else 0.0
      ensures WindowAt(uPrev, i + 1)
    {
    }

    /** `col_loop` for row i: the shift registers slide across the current line
        buffer and every cell of row i gets its stencil value; no other row of
        u_cur changes. `written` records the cells written, in order, and
        `currReads` the indices of the current line buffer read: each element
        once, left to right, as it enters the right register. */
    method ColLoop(w1: real, w2: real, w3: real, uPrev: array2<real>, c: array2<real>, uCur: array2<real>, i: int)
      returns (ghost written: seq<(int, int)>, ghost currReads: seq<int>)
      requires Valid() && IsGrid(uPrev, n) && IsGrid(c, n) && IsGrid(uCur, n)
      requires uCur != uPrev && uCur != c
      requires 0 <= i < n
      requires WindowAt(uPrev, i)
      modifies uCur
      ensures forall j :: 0 <= j < n ==> uCur[i, j] == StencilAt(w1, w2, w3, uPrev, c, i, j)
      ensures forall a, b :: 0 <= a < n && 0 <= b < n && a != i ==> uCur[a, b] == old(uCur[a, b])
      ensures written == RowCells(i, n)
      ensures currReads == seq(n, k => k)
    {
      var shiftRegLeft := 0.0;
      var shiftRegCenter := lineCurr[0];
      currReads := [0];
      var shiftRegRight;
      if n > 1 {
        shiftRegRight := lineCurr[1];
        currReads := currReads + [1];
      } else {
        shiftRegRight := 0.0;
      }
      written := [];
      for j := 0 to n
        // the column shift-register invariant
        invariant shiftRegLeft == Curr(j - 1)
        invariant shiftRegCenter == Curr(j)
        invariant shiftRegRight == Curr(j + 1)
        invariant forall b :: 0 <= b < j ==> uCur[i, b] == StencilAt(w1, w2, w3, uPrev, c, i, b)
        invariant forall a, b :: 0 <= a < n && 0 <= b < n && (a != i || b >= j) ==> uCur[a, b] == old(uCur[a, b])
        invariant written == RowCells(i, j)
        invariant currReads == seq(if j + 2 < n then j + 2 else n, k => k)
      {
        var up := if i > 0 then linePrev[j] else 0.0;
        var down := if i < n - 1 then lineNext[j] else 0.0;
        var left := shiftRegLeft;
        var center := shiftRegCenter;
        var right := if j < n - 1 then shiftRegRight else 0.0;
        // The three masks change nothing: the buffers already hold a zero row
        // outside the grid, and the right register is already 0 at the last
        // column (zeroed at j == N-2, or at initialisation when N = 1).
        assert up == linePrev[j] && down == lineNext[j] && right == shiftRegRight;
        var result := w1 * (up + down) + w2 * (left + right) + w3 * center + c[i, j];
        assert result == StencilAt(w1, w2, w3, uPrev, c, i, j);
        uCur[i, j] := result;
        written := written + [(i, j)];
        shiftRegLeft := shiftRegCenter;
        shiftRegCenter := shiftRegRight;
        if j < n - 2 {
          shiftRegRight := lineCurr[j + 2];
          currReads := currReads + [j + 2];
        } else if j == n - 2 {
          shiftRegRight := 0.0;
        }
      }
    }

    /** `jacobi`: one Jacobi update of the whole grid. Every cell of u_cur gets
        its zero-boundary stencil value, whatever the line buffers held before
        the call; the cells are written in row-major order. The buffers are
        left holding the window of the last row. */
    method Jacobi(w1: real, w2: real, w3: real, uPrev: array2<real>, c: array2<real>, uCur: array2<real>)
      returns (ghost writes: seq<(int, int)>)
      requires Valid() && IsGrid(uPrev, n) && IsGrid(c, n) && IsGrid(uCur, n)
      requires uCur != uPrev && uCur != c
      modifies linePrev, lineCurr, lineNext, uCur
      ensures forall i, j :: 0 <= i < n && 0 <= j < n ==> uCur[i, j] == StencilAt(w1, w2, w3, uPrev, c, i, j)
      ensures writes == RowMajor(n, n)
      ensures WindowAt(uPrev, n - 1)
    {
      // the weights are read once into locals
      var w1Val, w2Val, w3Val := w1, w2, w3;
      InitLoop(uPrev);
      writes := [];
      for i := 0 to n
        // the row window invariant
        invariant WindowAt(uPrev, if i < n then i else n - 1)
        invariant forall a, b :: 0 <= a < i && 0 <= b < n ==> uCur[a, b] == StencilAt(w1, w2, w3, uPrev, c, a, b)
        invariant forall a, b :: i <= a < n && 0 <= b < n ==> uCur[a, b] == old(uCur[a, b])
        invariant writes == RowMajor(i, n)
      {
        ghost var rowWrites, rowReads := ColLoop(w1Val, w2Val, w3Val, uPrev, c, uCur, i);
        writes := writes + rowWrites;
        if i < n - 1 {
          ghost var oldCurr, oldNext := lineCurr[..], lineNext[..];
          UpdateLineBuffers(uPrev, i);
          UpdateAdvancesWindow(uPrev, i, oldCurr, oldNext);
        }
      }
    }
  }
}
