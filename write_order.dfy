/** The order in which the kernel writes the output grid: row by row, and
    left to right within a row (src/jacobi.cpp:53, 69, 88). */
module WriteOrder {

  /** The cells of row i, left to right. */
  function RowCells(i: int, n: nat): seq<(int, int)> {
    seq(n, j => (i, j))
  }

  /** Row-major enumeration of the first m rows of a grid with n columns. */
  function RowMajor(m: nat, n: nat): seq<(int, int)> {
    if m == 0 then [] else RowMajor(m - 1, n) + RowCells(m - 1, n)
  }

  /** Strict row-major (lexicographic) order on cells. */
  predicate Precedes(p: (int, int), q: (int, int)) {
    p.0 < q.0 || (p.0 == q.0 && p.1 < q.1)
  }

  /** m rows of n cells each. */
  lemma {:induction false} RowMajorLength(m: nat, n: nat)
    ensures |RowMajor(m, n)| == m * n
  {
    if m > 0 {
      RowMajorLength(m - 1, n);
    }
  }

  /** Every cell of the first m rows is written, and no other cell. */
  lemma {:induction false} RowMajorCovers(m: nat, n: nat)
    ensures forall i, j :: (i, j) in RowMajor(m, n) <==> 0 <= i < m && 0 <= j < n
  {
    if m > 0 {
      RowMajorCovers(m - 1, n);
      forall i, j ensures (i, j) in RowMajor(m, n) <==> 0 <= i < m && 0 <= j < n {
        assert (i, j) in RowCells(m - 1, n) <==> i == m - 1 && 0 <= j < n by {
          if i == m - 1 && 0 <= j < n {
            assert RowCells(m - 1, n)[j] == (i, j);
          }
        }
      }
    }
  }

  /** Each write comes strictly after the previous one in row-major order, so
      no cell is written twice. */
  lemma {:induction false} RowMajorIncreasing(m: nat, n: nat)
    ensures forall a, b :: 0 <= a < b < |RowMajor(m, n)| ==> Precedes(RowMajor(m, n)[a], RowMajor(m, n)[b])
  {
    if m > 0 {
      RowMajorIncreasing(m - 1, n);
      RowMajorCovers(m - 1, n);
      var s, t := RowMajor(m - 1, n), RowCells(m - 1, n);
      forall a, b | 0 <= a < b < |s + t| ensures Precedes((s + t)[a], (s + t)[b]) {
        if b < |s| {
          assert (s + t)[a] == s[a] && (s + t)[b] == s[b];
        } else if a < |s| {
          var p := s[a];
          assert (p.0, p.1) in s && (s + t)[a] == p;
          assert (s + t)[b] == t[b - |s|] == (m - 1, b - |s|);
        } else {
          assert (s + t)[a] == t[a - |s|] == (m - 1, a - |s|);
          assert (s + t)[b] == t[b - |s|] == (m - 1, b - |s|);
        }
      }
    }
  }

  /** Exactly once: distinct positions of the trace hold distinct cells. */
  lemma RowMajorNoRepeats(m: nat, n: nat)
    ensures forall a, b :: 0 <= a < |RowMajor(m, n)| && 0 <= b < |RowMajor(m, n)| && a != b ==> RowMajor(m, n)[a] != RowMajor(m, n)[b]
  {
    RowMajorIncreasing(m, n);
  }
}
