/** The testbench of src/top_tb.cpp: the reference computation `compute_gt`,
    which builds the same update in five whole-grid passes without any
    windowing, and the element-wise comparison of the kernel's output with it. */
module TopTb {
  import opened Stencil
  import opened Jacobi

  datatype Option<T> = None | Some(value: T)

  /** What the first pass stores in cell (i, j). */
  function SelfTerm(w3: real, arr: array2<real>, c: array2<real>, i: int, j: int): real
    reads arr, c
    requires 0 <= i < arr.Length0 && 0 <= j < arr.Length1
    requires 0 <= i < c.Length0 && 0 <= j < c.Length1
  {
    arr[i, j] * w3 + c[i, j]
  }

  /** What each later pass adds to cell (i, j): the neighbour times its
      weight where that pass's loop bounds reach the cell, else 0. */
  function LeftTerm(w2: real, arr: array2<real>, i: int, j: int): real
    reads arr
    requires 0 <= i < arr.Length0 && 0 <= j < arr.Length1
  {
    if j >= 1 then arr[i, j - 1] * w2 else 0.0
  }

  function RightTerm(w2: real, arr: array2<real>, i: int, j: int): real
    reads arr
    requires 0 <= i < arr.Length0 && 0 <= j < arr.Length1
  {
    if j <= arr.Length1 - 2 then arr[i, j + 1] * w2 else 0.0
  }

  function UpTerm(w1: real, arr: array2<real>, i: int, j: int): real
    reads arr
    requires 0 <= i < arr.Length0 && 0 <= j < arr.Length1
  {
    if i >= 1 then arr[i - 1, j] * w1 else 0.0
  }

  function DownTerm(w1: real, arr: array2<real>, i: int, j: int): real
    reads arr
    requires 0 <= i < arr.Length0 && 0 <= j < arr.Length1
  {
    if i <= arr.Length0 - 2 then arr[i + 1, j] * w1 else 0.0
  }

  /** First pass (self term and bias): every cell is overwritten. */
  method SelfPass(n: nat, w3: real, arr: array2<real>, c: array2<real>, gt: array2<real>)
    requires IsGrid(arr, n) && IsGrid(c, n) && IsGrid(gt, n)
    requires gt != arr && gt != c
    modifies gt
    ensures forall i, j :: 0 <= i < n && 0 <= j < n ==> gt[i, j] == SelfTerm(w3, arr, c, i, j)
  {
    for i := 0 to n
      invariant forall a, b :: 0 <= a < i && 0 <= b < n ==> gt[a, b] == arr[a, b] * w3 + c[a, b]
    {
      for j := 0 to n
        invariant forall a, b :: 0 <= a < i && 0 <= b < n ==> gt[a, b] == arr[a, b] * w3 + c[a, b]
        invariant forall b :: 0 <= b < j ==> gt[i, b] == arr[i, b] * w3 + c[i, b]
      {
        gt[i, j] := arr[i, j] * w3 + c[i, j];
      }
    }
  }

  /** Left-neighbour pass: adds arr[i][j-1] * w2 for j >= 1; column 0 is untouched. */
  method LeftPass(n: nat, w2: real, arr: array2<real>, gt: array2<real>)
    requires n > 0 && IsGrid(arr, n) && IsGrid(gt, n)
    requires gt != arr
    modifies gt
    ensures forall i, j :: 0 <= i < n && 0 <= j < n ==>
      gt[i, j] == old(gt[i, j]) + LeftTerm(w2, arr, i, j)
  {
    for i := 0 to n
      invariant forall a, b :: 0 <= a < n && 0 <= b < n ==>
        gt[a, b] == if a < i then old(gt[a, b]) + LeftTerm(w2, arr, a, b) else old(gt[a, b])
    {
      for j := 1 to n
        invariant forall a, b :: 0 <= a < n && 0 <= b < n ==>
          gt[a, b] == if a < i || (a == i && b < j) then old(gt[a, b]) + LeftTerm(w2, arr, a, b) else old(gt[a, b])
      {
        gt[i, j] := gt[i, j] + arr[i, j - 1] * w2;
      }
    }
  }

  /** Right-neighbour pass: adds arr[i][j+1] * w2 for j <= N-2; column N-1 is untouched. */
  method RightPass(n: nat, w2: real, arr: array2<real>, gt: array2<real>)
    requires n > 0 && IsGrid(arr, n) && IsGrid(gt, n)
    requires gt != arr
    modifies gt
    ensures forall i, j :: 0 <= i < n && 0 <= j < n ==>
      gt[i, j] == old(gt[i, j]) + RightTerm(w2, arr, i, j)
  {
    for i := 0 to n
      invariant forall a, b :: 0 <= a < n && 0 <= b < n ==>
        gt[a, b] == if a < i then old(gt[a, b]) + RightTerm(w2, arr, a, b) else old(gt[a, b])
    {
      for j := 0 to n - 1
        invariant forall a, b :: 0 <= a < n && 0 <= b < n ==>
          gt[a, b] == if a < i || (a == i && b < j) then old(gt[a, b]) + RightTerm(w2, arr, a, b) else old(gt[a, b])
      {
        gt[i, j] := gt[i, j] + arr[i, j + 1] * w2;
      }
    }
  }

  /** Up-neighbour pass: adds arr[i-1][j] * w1 for i >= 1; row 0 is untouched. */
  method UpPass(n: nat, w1: real, arr: array2<real>, gt: array2<real>)
    requires n > 0 && IsGrid(arr, n) && IsGrid(gt, n)
    requires gt != arr
    modifies gt
    ensures forall i, j :: 0 <= i < n && 0 <= j < n ==>
      gt[i, j] == old(gt[i, j]) + UpTerm(w1, arr, i, j)
  {
    for i := 1 to n
      invariant forall a, b :: 0 <= a < n && 0 <= b < n ==>
        gt[a, b] == if a < i then old(gt[a, b]) + UpTerm(w1, arr, a, b) else old(gt[a, b])
    {
      for j := 0 to n
        invariant forall a, b :: 0 <= a < n && 0 <= b < n ==>
          gt[a, b] == if a < i || (a == i && b < j) then old(gt[a, b]) + UpTerm(w1, arr, a, b) else old(gt[a, b])
      {
        gt[i, j] := gt[i, j] + arr[i - 1, j] * w1;
      }
    }
  }

  /** Down-neighbour pass: adds arr[i+1][j] * w1 for i <= N-2; row N-1 is untouched. */
  method DownPass(n: nat, w1: real, arr: array2<real>, gt: array2<real>)
    requires n > 0 && IsGrid(arr, n) && IsGrid(gt, n)
    requires gt != arr
    modifies gt
    ensures forall i, j :: 0 <= i < n && 0 <= j < n ==>
      gt[i, j] == old(gt[i, j]) + DownTerm(w1, arr, i, j)
  {
    for i := 0 to n - 1
      invariant forall a, b :: 0 <= a < n && 0 <= b < n ==>
        gt[a, b] == if a < i then old(gt[a, b]) + DownTerm(w1, arr, a, b) else old(gt[a, b])
    {
      for j := 0 to n
        invariant forall a, b :: 0 <= a < n && 0 <= b < n ==>
          gt[a, b] == if a < i || (a == i && b < j) then old(gt[a, b]) + DownTerm(w1, arr, a, b) else old(gt[a, b])
      {
        gt[i, j] := gt[i, j] + arr[i + 1, j] * w1;
      }
    }
  }

  /** The five passes summed in the reference's order equal the stencil. */
  lemma ReferenceSumIsStencil(w1: real, w2: real, w3: real, arr: array2<real>, c: array2<real>, i: int, j: int)
    requires arr.Length0 == arr.Length1 == c.Length0 == c.Length1
    requires 0 <= i < arr.Length0 && 0 <= j < arr.Length1
    ensures SelfTerm(w3, arr, c, i, j) + LeftTerm(w2, arr, i, j) + RightTerm(w2, arr, i, j)
      + UpTerm(w1, arr, i, j) + DownTerm(w1, arr, i, j) == StencilAt(w1, w2, w3, arr, c, i, j)
  {
  }

  /** `compute_gt`: the reference result, cell by cell the zero-boundary
      stencil; arr and c are left as they were. */
  method ComputeGt(n: nat, w1: real, w2: real, w3: real, arr: array2<real>, c: array2<real>, gt: array2<real>)
    requires n > 0 && IsGrid(arr, n) && IsGrid(c, n) && IsGrid(gt, n)
    requires gt != arr && gt != c
    modifies gt
    ensures forall i, j :: 0 <= i < n && 0 <= j < n ==> gt[i, j] == StencilAt(w1, w2, w3, arr, c, i, j)
  {
    SelfPass(n, w3, arr, c, gt);
    label AfterSelf:
    LeftPass(n, w2, arr, gt);
    label AfterLeft:
    RightPass(n, w2, arr, gt);
    label AfterRight:
    UpPass(n, w1, arr, gt);
    label AfterUp:
    DownPass(n, w1, arr, gt);
    forall i, j | 0 <= i < n && 0 <= j < n
      ensures gt[i, j] == StencilAt(w1, w2, w3, arr, c, i, j)
    {
      assert gt[i, j] == old@AfterUp(gt[i, j]) + DownTerm(w1, arr, i, j);
      assert old@AfterUp(gt[i, j]) == old@AfterRight(gt[i, j]) + UpTerm(w1, arr, i, j);
      assert old@AfterRight(gt[i, j]) == old@AfterLeft(gt[i, j]) + RightTerm(w2, arr, i, j);
      assert old@AfterLeft(gt[i, j]) == old@AfterSelf(gt[i, j]) + LeftTerm(w2, arr, i, j);
      assert old@AfterSelf(gt[i, j]) == SelfTerm(w3, arr, c, i, j);
      ReferenceSumIsStencil(w1, w2, w3, arr, c, i, j);
    }
  }

  /** The comparison loop of the testbench: it scans column by column (j
      outer, i inner) and stops at the first cell where the kernel's output
      and the reference differ. Exact equality stands in for the tolerance. */
  method FirstMismatch(n: nat, out: array2<real>, gt: array2<real>) returns (m: Option<(int, int)>)
    requires IsGrid(out, n) && IsGrid(gt, n)
    ensures m.None? <==> forall i, j :: 0 <= i < n && 0 <= j < n ==> out[i, j] == gt[i, j]
    ensures m.Some? ==>
      0 <= m.value.0 < n && 0 <= m.value.1 < n && out[m.value.0, m.value.1] != gt[m.value.0, m.value.1]
    ensures m.Some? ==> forall i, j ::
      0 <= i < n && 0 <= j < n && (j < m.value.1 || (j == m.value.1 && i < m.value.0)) ==> out[i, j] == gt[i, j]
  {
    for j := 0 to n
      invariant forall a, b :: 0 <= a < n && 0 <= b < j ==> out[a, b] == gt[a, b]
    {
      for i := 0 to n
        invariant forall a, b :: 0 <= a < n && 0 <= b < j ==> out[a, b] == gt[a, b]
        invariant forall a :: 0 <= a < i ==> out[a, j] == gt[a, j]
      {
        if out[i, j] != gt[i, j] {
          return Some((i, j));
        }
      }
    }
    return None;
  }

  /** The testbench's correctness test: the reference and the kernel run on
      the same inputs and weights, and no cell of the kernel's output differs
      from the reference, on every input. */
  method CorrectnessTest(n: nat, w1: real, w2: real, w3: real, u0: array2<real>, c: array2<real>)
    returns (m: Option<(int, int)>)
    requires n > 0 && IsGrid(u0, n) && IsGrid(c, n)
    ensures m == None
  {
    var u1Gt := new real[n, n];
    var u1Out := new real[n, n];
    ComputeGt(n, w1, w2, w3, u0, c, u1Gt);
    var kernel := new JacobiKernel(n);
    ghost var writes := kernel.Jacobi(w1, w2, w3, u0, c, u1Out);
    m := FirstMismatch(n, u1Out, u1Gt);
  }
}
