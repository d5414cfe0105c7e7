/** The reference multiply MatMult_SeqAIJ, y = A x over an assembled
    matrix: the plain loop over the rows of ai, or, when the matrix carries
    a compressed-row index, a loop over the listed rows only. */
module Mult {
  import opened Csr
  import opened Compaction
  import opened Aij

  /** The inner loop of one row: the running sum of aa[j] * x[aj[j]] for
      j in [lo, hi), started at 0. */
  method RowSum(aj: array<int>, aa: array<int>, x: array<int>, lo: int, hi: int) returns (s: int)
    requires 0 <= lo <= hi <= aj.Length && hi <= aa.Length
    requires forall k :: lo <= k < hi ==> 0 <= aj[k] < x.Length
    ensures s == RowDot(aj[..], aa[..], x[..], lo, hi)
  {
    s := 0;
    var j := lo;
    while j < hi
      invariant lo <= j <= hi
      invariant s == RowDot(aj[..], aa[..], x[..], lo, j)
    {
      s := s + aa[j] * x[aj[j]];
      j := j + 1;
    }
  }

  /** Rows [lo, hi) of y = A x, each the dot product of its own row; the
      other entries of y are left alone. */
  method RowRange(ii: array<int>, aj: array<int>, aa: array<int>, x: array<int>, y: array<int>,
                  m: nat, lo: int, hi: int)
    requires y.Length == m && IsCsr(ii[..], aj[..], aa[..], m, x.Length)
    requires y != ii && y != aj && y != aa && y != x
    requires 0 <= lo <= hi <= m
    modifies y
    ensures forall r :: 0 <= r < m ==>
      y[r] == if lo <= r < hi then SpMV(ii[..], aj[..], aa[..], x[..], m)[r] else old(y[r])
  {
    ghost var ref := SpMV(ii[..], aj[..], aa[..], x[..], m);
    var i := lo;
    while i < hi
      invariant lo <= i <= hi
      invariant forall r :: 0 <= r < m ==> y[r] == if lo <= r < i then ref[r] else old(y[r])
    {
      assert ii[0] <= ii[i] <= ii[i + 1] <= ii[m];
      var s := RowSum(aj, aa, x, ii[i], ii[i + 1]);
      y[i] := s;
      i := i + 1;
    }
  }

  /** The compressed-row path: all m entries of y are zeroed, then compressed
      row i, spanning [cpi[i], cpi[i + 1]), is written to y[rindex[i]]. */
  method MultCompressed(cpi: array<int>, rindex: array<int>, aj: array<int>, aa: array<int>,
                        x: array<int>, y: array<int>, m: nat)
    requires y.Length == m && IsCsr(cpi[..], aj[..], aa[..], rindex.Length, x.Length)
    requires forall t :: 0 <= t < rindex.Length ==> 0 <= rindex[t] < m
    requires y != cpi && y != rindex && y != aj && y != aa && y != x
    modifies y
    ensures y[..] == CompressedProduct(cpi[..], rindex[..], aj[..], aa[..], x[..], m, rindex.Length)
  {
    forall r | 0 <= r < m {
      y[r] := 0;
    }
    var nrows := rindex.Length;
    var i := 0;
    while i < nrows
      invariant 0 <= i <= nrows
      invariant y[..] == CompressedProduct(cpi[..], rindex[..], aj[..], aa[..], x[..], m, i)
    {
      assert cpi[0] <= cpi[i] <= cpi[i + 1] <= cpi[nrows];
      var s := RowSum(aj, aa, x, cpi[i], cpi[i + 1]);
      y[rindex[i]] := s;
      i := i + 1;
    }
  }

  /** What a multiply needs: y has one entry per row and aliases neither x
      nor the matrix's arrays, and the row pointer the multiply follows (the
      compressed one when it is in use) is CSR with every listed column
      inside x. */
  ghost predicate CanMultiply(a: SeqAij, x: array<int>, y: array<int>)
    reads a, a.ai, a.aj, a.aa, a.cpI, a.cpRindex
  {
    a.Valid() && y.Length == a.m &&
    y != a.ai && y != a.aj && y != a.aa && y != a.cpI && y != a.cpRindex && y != x &&
    if a.cpUse then
      IsCsr(a.cpI[..], a.aj[..], a.aa[..], a.cpRindex.Length, x.Length) &&
      forall t :: 0 <= t < a.cpRindex.Length ==> 0 <= a.cpRindex[t] < a.m
    else
      IsCsr(a.ai[..], a.aj[..], a.aa[..], a.m, x.Length)
  }

  /** MatMult_SeqAIJ: y = A x, by the compressed-row path when the matrix
      uses it and the plain row loop otherwise; returns the flop count it
      logs, 2 nz - nonzerorowcnt. Only y is written. */
  method MatMult(a: SeqAij, x: array<int>, y: array<int>) returns (flops: int)
    requires CanMultiply(a, x, y)
    modifies y
    ensures !a.cpUse ==> y[..] == SpMV(a.ai[..], a.aj[..], a.aa[..], x[..], a.m)
    ensures a.cpUse ==>
      y[..] == CompressedProduct(a.cpI[..], a.cpRindex[..], a.aj[..], a.aa[..], x[..], a.m, a.cpRindex.Length)
    ensures flops == 2 * a.nz - a.nonzerorowcnt
  {
    if a.cpUse {
      MultCompressed(a.cpI, a.cpRindex, a.aj, a.aa, x, y, a.m);
    } else {
      RowRange(a.ai, a.aj, a.aa, x, y, a.m, 0, a.m);
    }
    flops := 2 * a.nz - a.nonzerorowcnt;
  }

  /** The floating-point work of rows 0..k-1 of lengths lens: a row of L > 0
      entries costs L multiplications and L - 1 additions. */
  function RowFlops(lens: seq<int>, k: nat): (r: int)
    requires k <= |lens|
  {
    if k == 0 then 0 else RowFlops(lens, k - 1) + (if lens[k - 1] > 0 then 2 * lens[k - 1] - 1 else 0)
  }

  /** The logged count 2 nz - nonzerorowcnt of an assembled matrix, whose nz
      is the sum of the row lengths and whose nonzerorowcnt counts the
      non-empty rows, is exactly the per-row work, and so never negative. */
  lemma {:induction false} AssembledFlops(lens: seq<int>, k: nat)
    requires k <= |lens| && forall t :: 0 <= t < k ==> 0 <= lens[t]
    ensures 2 * Sum(lens, k) - CountNonEmpty(lens, k) == RowFlops(lens, k)
    ensures 0 <= RowFlops(lens, k) <= 2 * Sum(lens, k)
  {
    if k > 0 {
      AssembledFlops(lens, k - 1);
    }
  }
}
