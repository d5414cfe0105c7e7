/** Compressed sparse row (CSR) storage and the reference meaning of a
    sparse matrix-vector product, over exact integer scalars. The plain row
    loop and the offloaded multiply are proved equal to SpMV below on the
    host arrays (the offloaded one taking the device copies to match the
    host); the compressed-row loop equals it when its index is consistent
    (CompressedMatchesReference). */
module Csr {

  /** The dot product of the CSR entries [lo, hi) with the dense vector x,
      accumulated left to right as `sum += aa[j] * x[aj[j]]` does. */
  function RowDot(aj: seq<int>, aa: seq<int>, x: seq<int>, lo: int, hi: int): (r: int)
    requires 0 <= lo <= hi <= |aj| && hi <= |aa|
    requires forall k :: lo <= k < hi ==> 0 <= aj[k] < |x|
    decreases hi - lo
  {
    if lo == hi then 0 else RowDot(aj, aa, x, lo, hi - 1) + aa[hi - 1] * x[aj[hi - 1]]
  }

  /** A row pointer ii over m rows: non-decreasing, within the entry arrays,
      and every stored column index valid for a vector of length n. */
  predicate IsCsr(ii: seq<int>, aj: seq<int>, aa: seq<int>, m: nat, n: nat) {
    |ii| == m + 1 && 0 <= ii[0] && ii[m] <= |aj| && ii[m] <= |aa| &&
    (forall i, j :: 0 <= i <= j <= m ==> ii[i] <= ii[j]) &&
    (forall k :: ii[0] <= k < ii[m] ==> 0 <= aj[k] < n)
  }

  /** The reference product: entry i is the dot product of row i. */
  function SpMV(ii: seq<int>, aj: seq<int>, aa: seq<int>, x: seq<int>, m: nat): (y: seq<int>)
    requires IsCsr(ii, aj, aa, m, |x|)
    ensures |y| == m
  {
    seq(m, i requires 0 <= i < m => RowDot(aj, aa, x, ii[i], ii[i + 1]))
  }

  /** The dense vector a*x1 + b*x2. */
  function Axpby(a: int, x1: seq<int>, b: int, x2: seq<int>): (z: seq<int>)
    requires |x1| == |x2|
    ensures |z| == |x1|
    ensures forall k :: 0 <= k < |z| ==> z[k] == a * x1[k] + b * x2[k]
  {
    seq(|x1|, k requires 0 <= k < |x1| => a * x1[k] + b * x2[k])
  }

  /** The dot product over [lo, hi) splits at any mid point. */
  lemma {:induction false} RowDotSplit(aj: seq<int>, aa: seq<int>, x: seq<int>, lo: int, mid: int, hi: int)
    requires 0 <= lo <= mid <= hi <= |aj| && hi <= |aa|
    requires forall k :: lo <= k < hi ==> 0 <= aj[k] < |x|
    ensures RowDot(aj, aa, x, lo, hi) == RowDot(aj, aa, x, lo, mid) + RowDot(aj, aa, x, mid, hi)
    decreases hi - mid
  {
    if mid < hi {
      RowDotSplit(aj, aa, x, lo, mid, hi - 1);
    }
  }

  /** A row's dot product depends only on its own entries: moving the
      entries [lo, hi) to [lo + d, hi + d) of other arrays keeps the value. */
  lemma {:induction false} RowDotMoved(aj: seq<int>, aa: seq<int>, aj': seq<int>, aa': seq<int>,
                                       x: seq<int>, lo: int, hi: int, d: int)
    requires 0 <= lo <= hi <= |aj| && hi <= |aa|
    requires 0 <= lo + d && hi + d <= |aj'| && hi + d <= |aa'|
    requires forall k :: lo <= k < hi ==> 0 <= aj[k] < |x|
    requires forall k :: lo <= k < hi ==> aj'[k + d] == aj[k] && aa'[k + d] == aa[k]
    ensures forall k :: lo + d <= k < hi + d ==> 0 <= aj'[k] < |x|
    ensures RowDot(aj', aa', x, lo + d, hi + d) == RowDot(aj, aa, x, lo, hi)
    decreases hi - lo
  {
    assert forall k :: lo + d <= k < hi + d ==> aj'[k] == aj[k - d];
    if lo < hi {
      RowDotMoved(aj, aa, aj', aa', x, lo, hi - 1, d);
      assert aj'[hi - 1 + d] == aj[hi - 1] && aa'[hi - 1 + d] == aa[hi - 1];
    }
  }

  /** Over exact scalars a row's dot product is linear in x. */
  lemma {:induction false} RowDotLinear(aj: seq<int>, aa: seq<int>, a: int, x1: seq<int>,
                                        b: int, x2: seq<int>, lo: int, hi: int)
    requires |x1| == |x2|
    requires 0 <= lo <= hi <= |aj| && hi <= |aa|
    requires forall k :: lo <= k < hi ==> 0 <= aj[k] < |x1|
    ensures RowDot(aj, aa, Axpby(a, x1, b, x2), lo, hi)
         == a * RowDot(aj, aa, x1, lo, hi) + b * RowDot(aj, aa, x2, lo, hi)
    decreases hi - lo
  {
    if lo < hi {
      RowDotLinear(aj, aa, a, x1, b, x2, lo, hi - 1);
      var v, c := aa[hi - 1], aj[hi - 1];
      var z := Axpby(a, x1, b, x2);
      assert z[c] == a * x1[c] + b * x2[c];
      calc {
        v * z[c];
        v * (a * x1[c] + b * x2[c]);
        a * (v * x1[c]) + b * (v * x2[c]);
      }
    }
  }

  /** The reference product is linear: A(a*x1 + b*x2) == a*A x1 + b*A x2. */
  lemma SpMVLinear(ii: seq<int>, aj: seq<int>, aa: seq<int>, m: nat, a: int, x1: seq<int>, b: int, x2: seq<int>)
    requires |x1| == |x2| && IsCsr(ii, aj, aa, m, |x1|)
    ensures SpMV(ii, aj, aa, Axpby(a, x1, b, x2), m)
         == Axpby(a, SpMV(ii, aj, aa, x1, m), b, SpMV(ii, aj, aa, x2, m))
  {
    var z := Axpby(a, x1, b, x2);
    forall i | 0 <= i < m
      ensures SpMV(ii, aj, aa, z, m)[i]
           == a * SpMV(ii, aj, aa, x1, m)[i] + b * SpMV(ii, aj, aa, x2, m)[i]
    {
      assert ii[0] <= ii[i] <= ii[i + 1] <= ii[m];
      RowDotLinear(aj, aa, a, x1, b, x2, ii[i], ii[i + 1]);
    }
  }

  /** The CSR form of the m-by-m identity: row i holds the one entry (i, 1). */
  predicate IsIdentity(ii: seq<int>, aj: seq<int>, aa: seq<int>, m: nat) {
    |ii| == m + 1 && |aj| == m && |aa| == m &&
    (forall i :: 0 <= i <= m ==> ii[i] == i) &&
    (forall i :: 0 <= i < m ==> aj[i] == i && aa[i] == 1)
  }

  /** Multiplying by the identity returns x unchanged. */
  lemma IdentityProduct(ii: seq<int>, aj: seq<int>, aa: seq<int>, x: seq<int>)
    requires IsIdentity(ii, aj, aa, |x|)
    ensures IsCsr(ii, aj, aa, |x|, |x|)
    ensures SpMV(ii, aj, aa, x, |x|) == x
  {
    var m := |x|;
    forall i | 0 <= i < m ensures SpMV(ii, aj, aa, x, m)[i] == x[i] {
      assert RowDot(aj, aa, x, i, i + 1) == RowDot(aj, aa, x, i, i) + aa[i] * x[aj[i]];
    }
  }

  /** The four-row example: rows (2,-1), (-1,2), (-1,2) and (1) against the
      all-ones vector give 1 in every row. */
  lemma FourRowExample()
    ensures IsCsr([0, 2, 4, 6, 7], [0, 1, 1, 2, 2, 3, 3], [2, -1, -1, 2, -1, 2, 1], 4, 4)
    ensures SpMV([0, 2, 4, 6, 7], [0, 1, 1, 2, 2, 3, 3], [2, -1, -1, 2, -1, 2, 1], [1, 1, 1, 1], 4)
         == [1, 1, 1, 1]
  {
    var ii, aj, aa, x := [0, 2, 4, 6, 7], [0, 1, 1, 2, 2, 3, 3], [2, -1, -1, 2, -1, 2, 1], [1, 1, 1, 1];
    assert RowDot(aj, aa, x, 0, 2) == 1 by {
      assert RowDot(aj, aa, x, 0, 1) == 2;
    }
    assert RowDot(aj, aa, x, 2, 4) == 1 by {
      assert RowDot(aj, aa, x, 2, 3) == -1;
    }
    assert RowDot(aj, aa, x, 4, 6) == 1 by {
      assert RowDot(aj, aa, x, 4, 5) == -1;
    }
    assert RowDot(aj, aa, x, 6, 7) == 1;
  }

  // ---------------------------------------------------------------------
  // Compressed-row form: cpi is a row pointer over nrows compressed rows,
  // whose offsets index the full entry arrays, and rindex[i] names the
  // matrix row that compressed row i stands for.

  /** What the compressed-row multiply leaves in y after its first k
      compressed rows: all m entries zeroed, then y[rindex[i]] set to the
      dot product of compressed row i, in order i = 0, 1, ..., k-1. */
  function CompressedProduct(cpi: seq<int>, rindex: seq<int>, aj: seq<int>, aa: seq<int>,
                             x: seq<int>, m: nat, k: nat): (y: seq<int>)
    requires IsCsr(cpi, aj, aa, |rindex|, |x|)
    requires forall i :: 0 <= i < |rindex| ==> 0 <= rindex[i] < m
    requires k <= |rindex|
    ensures |y| == m
  {
    if k == 0 then seq(m, _ => 0)
    else
      assert cpi[0] <= cpi[k - 1] <= cpi[k] <= cpi[|rindex|];
      CompressedProduct(cpi, rindex, aj, aa, x, m, k - 1)[rindex[k - 1] := RowDot(aj, aa, x, cpi[k - 1], cpi[k])]
  }

  /** A row that no compressed row names stays 0. */
  lemma {:induction false} CompressedUnlisted(cpi: seq<int>, rindex: seq<int>, aj: seq<int>, aa: seq<int>,
                                              x: seq<int>, m: nat, k: nat, r: int)
    requires IsCsr(cpi, aj, aa, |rindex|, |x|)
    requires forall i :: 0 <= i < |rindex| ==> 0 <= rindex[i] < m
    requires k <= |rindex| && 0 <= r < m
    requires forall i :: 0 <= i < k ==> rindex[i] != r
    ensures CompressedProduct(cpi, rindex, aj, aa, x, m, k)[r] == 0
  {
    if k > 0 {
      CompressedUnlisted(cpi, rindex, aj, aa, x, m, k - 1, r);
    }
  }

  /** When rindex names each row at most once, the row named by compressed
      row i holds that compressed row's dot product. */
  lemma {:induction false} CompressedListed(cpi: seq<int>, rindex: seq<int>, aj: seq<int>, aa: seq<int>,
                                            x: seq<int>, m: nat, k: nat, i: nat)
    requires IsCsr(cpi, aj, aa, |rindex|, |x|)
    requires forall t :: 0 <= t < |rindex| ==> 0 <= rindex[t] < m
    requires forall s, t :: 0 <= s < t < |rindex| ==> rindex[s] != rindex[t]
    requires i < k <= |rindex|
    ensures cpi[0] <= cpi[i] <= cpi[i + 1] <= cpi[|rindex|]
    ensures CompressedProduct(cpi, rindex, aj, aa, x, m, k)[rindex[i]] == RowDot(aj, aa, x, cpi[i], cpi[i + 1])
  {
    if i < k - 1 {
      CompressedListed(cpi, rindex, aj, aa, x, m, k - 1, i);
    }
  }

  /** The compressed-row multiply agrees with the reference product when the
      compressed index is consistent with the matrix: rindex is strictly
      increasing, every non-empty row is listed, and compressed row i spans
      exactly the entries of row rindex[i]. */
  lemma CompressedMatchesReference(ii: seq<int>, cpi: seq<int>, rindex: seq<int>, aj: seq<int>, aa: seq<int>,
                                   x: seq<int>, m: nat)
    requires IsCsr(ii, aj, aa, m, |x|) && IsCsr(cpi, aj, aa, |rindex|, |x|)
    requires forall t :: 0 <= t < |rindex| ==> 0 <= rindex[t] < m
    requires forall s, t :: 0 <= s < t < |rindex| ==> rindex[s] < rindex[t]
    requires forall t :: 0 <= t < |rindex| ==> cpi[t] == ii[rindex[t]] && cpi[t + 1] == ii[rindex[t] + 1]
    requires forall r :: 0 <= r < m && ii[r] < ii[r + 1] ==> r in rindex
    ensures CompressedProduct(cpi, rindex, aj, aa, x, m, |rindex|) == SpMV(ii, aj, aa, x, m)
  {
    var nr := |rindex|;
    var y := CompressedProduct(cpi, rindex, aj, aa, x, m, nr);
    assert forall s, t :: 0 <= s < t < nr ==> rindex[s] != rindex[t] by {
      forall s, t | 0 <= s < t < nr ensures rindex[s] != rindex[t] {
        assert rindex[s] < rindex[t];
      }
    }
    forall r | 0 <= r < m ensures y[r] == SpMV(ii, aj, aa, x, m)[r] {
      RowAt(ii, cpi, rindex, aj, aa, x, m, r);
    }
  }

  lemma RowAt(ii: seq<int>, cpi: seq<int>, rindex: seq<int>, aj: seq<int>, aa: seq<int>,
              x: seq<int>, m: nat, r: int)
    requires IsCsr(ii, aj, aa, m, |x|) && IsCsr(cpi, aj, aa, |rindex|, |x|)
    requires forall t :: 0 <= t < |rindex| ==> 0 <= rindex[t] < m
    requires forall s, t :: 0 <= s < t < |rindex| ==> rindex[s] != rindex[t]
    requires forall t :: 0 <= t < |rindex| ==> cpi[t] == ii[rindex[t]] && cpi[t + 1] == ii[rindex[t] + 1]
    requires forall r :: 0 <= r < m && ii[r] < ii[r + 1] ==> r in rindex
    requires 0 <= r < m
    ensures CompressedProduct(cpi, rindex, aj, aa, x, m, |rindex|)[r] == SpMV(ii, aj, aa, x, m)[r]
  {
    var nr := |rindex|;
    assert ii[0] <= ii[r] <= ii[r + 1] <= ii[m];
    if r in rindex {
      var t :| 0 <= t < nr && rindex[t] == r;
      CompressedListed(cpi, rindex, aj, aa, x, m, nr, t);
    } else {
      CompressedUnlisted(cpi, rindex, aj, aa, x, m, nr, r);
      assert ii[r] == ii[r + 1];
    }
  }
}
