/** The pure specification of final assembly: how an over-allocated row
    layout (row i owns the slots [ai[i], ai[i] + imax[i]) and uses the first
    ilen[i] of them) is packed into gap-free CSR. */
module Compaction {
  import opened Csr

  /** s[0] + ... + s[k-1]. */
  function Sum(s: seq<int>, k: nat): (r: int)
    requires k <= |s|
  {
    if k == 0 then 0 else Sum(s, k - 1) + s[k - 1]
  }

  /** The unused slots of rows 0..k-1: the value of the running shift after
      k rows. */
  function Slack(imax: seq<int>, ilen: seq<int>, k: nat): (r: int)
    requires k <= |imax| && k <= |ilen|
  {
    if k == 0 then 0 else Slack(imax, ilen, k - 1) + (imax[k - 1] - ilen[k - 1])
  }

  /** The largest of s[0..k) (k >= 1). */
  function MaxLen(s: seq<int>, k: nat): (r: int)
    requires 1 <= k <= |s|
    ensures forall t :: 0 <= t < k ==> s[t] <= r
    ensures exists t :: 0 <= t < k && s[t] == r
  {
    if k == 1 then s[0]
    else
      var r0 := MaxLen(s, k - 1);
      if r0 < s[k - 1] then s[k - 1] else r0
  }

  /** How many of s[0..k) are positive. */
  function CountNonEmpty(s: seq<int>, k: nat): (r: nat)
    requires k <= |s|
    ensures r <= k
    ensures r == k <==> forall t :: 0 <= t < k ==> s[t] > 0
  {
    if k == 0 then 0 else CountNonEmpty(s, k - 1) + (if s[k - 1] > 0 then 1 else 0)
  }

  /** The pre-assembly layout: m contiguous row regions starting at ai[0],
      row t owning imax[t] slots of which ilen[t] are used, all inside an
      entry array of capacity cap. */
  predicate Slotted(ai: seq<int>, imax: seq<int>, ilen: seq<int>, m: nat, cap: int) {
    |ai| == m + 1 && |imax| == m && |ilen| == m && 0 <= ai[0] && ai[m] <= cap &&
    (forall t {:trigger imax[t]} :: 0 <= t < m ==> 0 <= ilen[t] <= imax[t] && ai[t + 1] == ai[t] + imax[t])
  }

  /** The used part of each of rows 0..k-1 lies inside [0, cap). */
  predicate RowsFit(cap: int, ai: seq<int>, ilen: seq<int>, k: nat) {
    k <= |ai| && k <= |ilen| &&
    forall t :: 0 <= t < k ==> 0 <= ai[t] && 0 <= ilen[t] && ai[t] + ilen[t] <= cap
  }

  /** The used slots of rows 0..k-1 hold values in [0, n): for the column
      index array, every used entry names a valid column. */
  predicate UsedEntriesIn(s: seq<int>, ai: seq<int>, ilen: seq<int>, k: nat, n: int) {
    k <= |ai| && k <= |ilen| &&
    forall t :: 0 <= t < k ==> forall q :: ai[t] <= q < ai[t] + ilen[t] && 0 <= q < |s| ==> 0 <= s[q] < n
  }

  /** The used entries of rows 0..k-1, in row order and, within a row, in
      slot order: the reference reading of "packing the rows". */
  function Packed(s: seq<int>, ai: seq<int>, ilen: seq<int>, k: nat): (r: seq<int>)
    requires RowsFit(|s|, ai, ilen, k)
    ensures |r| == Sum(ilen, k)
  {
    if k == 0 then [] else Packed(s, ai, ilen, k - 1) + s[ai[k - 1] .. ai[k - 1] + ilen[k - 1]]
  }

  /** Entry q of the used entries of rows 0..k-1 laid end to end: it belongs
      to the last of those rows when it is not among the first Sum(ilen, k-1). */
  function PackedAt(s: seq<int>, ai: seq<int>, ilen: seq<int>, k: nat, q: int): (r: int)
    requires RowsFit(|s|, ai, ilen, k) && 0 <= q < Sum(ilen, k)
  {
    if q < Sum(ilen, k - 1) then PackedAt(s, ai, ilen, k - 1, q)
    else s[ai[k - 1] + (q - Sum(ilen, k - 1))]
  }

  /** Slot p of an entry array after rows 0..k-1 have been packed from ai[0]
      on; the slots outside the packed range keep their values. */
  function CompactedAt(s: seq<int>, ai: seq<int>, ilen: seq<int>, k: nat, p: int): (r: int)
    requires RowsFit(|s|, ai, ilen, k) && 1 <= |ai| && 0 <= p < |s|
  {
    if ai[0] <= p < ai[0] + Sum(ilen, k) then PackedAt(s, ai, ilen, k, p - ai[0]) else s[p]
  }

  /** The whole entry array after rows 0..k-1 have been packed. */
  function CompactedUpTo(s: seq<int>, ai: seq<int>, ilen: seq<int>, k: nat): (r: seq<int>)
    requires RowsFit(|s|, ai, ilen, k) && 1 <= |ai|
    ensures |r| == |s|
  {
    seq(|s|, p requires 0 <= p < |s| => CompactedAt(s, ai, ilen, k, p))
  }

  /** The entry array after final assembly: every row's used entries packed
      from ai[0] on, in row order; the slots outside the packed range keep
      their values. */
  function Compacted(s: seq<int>, ai: seq<int>, imax: seq<int>, ilen: seq<int>, m: nat): (r: seq<int>)
    requires Slotted(ai, imax, ilen, m, |s|)
    ensures |r| == |s| && 0 <= Sum(ilen, m) && ai[0] + Sum(ilen, m) <= |s|
  {
    LayoutFits(ai, imax, ilen, m, |s|);
    ShiftIsGap(ai, imax, ilen, m, |s|, m);
    PackedSumBounds(ai, ilen, m, |s|);
    CompactedUpTo(s, ai, ilen, m)
  }

  // ---------------------------------------------------------------------
  // Facts about the layout.

  /** Each region starts at ai[0] plus the capacities before it. */
  lemma {:induction false} RegionStart(ai: seq<int>, imax: seq<int>, ilen: seq<int>, m: nat, cap: int, k: nat)
    requires Slotted(ai, imax, ilen, m, cap) && k <= m
    ensures ai[k] == ai[0] + Sum(imax, k)
  {
    if k > 0 {
      RegionStart(ai, imax, ilen, m, cap, k - 1);
    }
  }

  /** With non-negative terms, Sum is monotone in k and bounded by the full sum. */
  lemma {:induction false} SumMonotone(s: seq<int>, i: nat, j: nat)
    requires i <= j <= |s|
    requires forall t :: 0 <= t < |s| ==> 0 <= s[t]
    ensures 0 <= Sum(s, i) <= Sum(s, j)
  {
    if i < j {
      SumMonotone(s, i, j - 1);
    } else if i > 0 {
      SumMonotone(s, i - 1, i);
    }
  }

  /** No row uses a negative number of slots. */
  lemma LengthsNonNegative(ai: seq<int>, imax: seq<int>, ilen: seq<int>, m: nat, cap: int)
    requires Slotted(ai, imax, ilen, m, cap)
    ensures forall t :: 0 <= t < |ilen| ==> 0 <= ilen[t]
  {
    forall t | 0 <= t < |ilen| ensures 0 <= ilen[t] {
      assert ilen[t] <= imax[t];
    }
  }

  /** The used part of every row lies inside [0, cap). */
  lemma LayoutFits(ai: seq<int>, imax: seq<int>, ilen: seq<int>, m: nat, cap: int)
    requires Slotted(ai, imax, ilen, m, cap)
    ensures RowsFit(cap, ai, ilen, m)
  {
    assert forall t :: 0 <= t < |imax| ==> 0 <= imax[t];
    forall t | 0 <= t < m ensures 0 <= ai[t] && 0 <= ilen[t] && ai[t] + ilen[t] <= cap {
      assert ilen[t] <= imax[t] && ai[t + 1] == ai[t] + imax[t];
      RegionStart(ai, imax, ilen, m, cap, t);
      RegionStart(ai, imax, ilen, m, cap, t + 1);
      RegionStart(ai, imax, ilen, m, cap, m);
      SumMonotone(imax, 0, t);
      SumMonotone(imax, t + 1, m);
    }
  }

  /** Preallocation: rows of the given capacities laid end to end from
      slot 0, none of them used yet, form a layout that fills exactly
      Sum(capacity, m) slots. */
  lemma EmptyLayout(starts: seq<int>, capacity: seq<int>, lens: seq<int>, m: nat)
    requires |starts| == m + 1 && |capacity| == m && |lens| == m
    requires forall t :: 0 <= t < m ==> 0 <= capacity[t] && lens[t] == 0
    requires forall t :: 0 <= t <= m ==> starts[t] == Sum(capacity, t)
    ensures Slotted(starts, capacity, lens, m, Sum(capacity, m))
  {
    SumMonotone(capacity, 0, m);
    forall t | 0 <= t < m ensures 0 <= lens[t] <= capacity[t] && starts[t + 1] == starts[t] + capacity[t] {
      assert starts[t + 1] == Sum(capacity, t + 1);
    }
  }

  /** The region starts are non-decreasing and stay within [ai[0], ai[m]]. */
  lemma {:induction false} RegionBounds(ai: seq<int>, imax: seq<int>, ilen: seq<int>, m: nat, cap: int)
    requires Slotted(ai, imax, ilen, m, cap)
    ensures forall i, j :: 0 <= i <= j <= m ==> ai[i] <= ai[j]
  {
    assert forall t :: 0 <= t < |imax| ==> 0 <= imax[t];
    forall i, j | 0 <= i <= j <= m ensures ai[i] <= ai[j] {
      RegionStart(ai, imax, ilen, m, cap, i);
      RegionStart(ai, imax, ilen, m, cap, j);
      SumMonotone(imax, i, j);
    }
  }

  /** The running shift before row k is the distance between the row's old
      start and its new start ai[0] + Sum(ilen, k), and it is never negative. */
  lemma {:induction false} ShiftIsGap(ai: seq<int>, imax: seq<int>, ilen: seq<int>, m: nat, cap: int, k: nat)
    requires Slotted(ai, imax, ilen, m, cap) && k <= m
    ensures ai[k] - (ai[0] + Sum(ilen, k)) == Slack(imax, ilen, k)
    ensures 0 <= Slack(imax, ilen, k)
  {
    if k > 0 {
      ShiftIsGap(ai, imax, ilen, m, cap, k - 1);
    }
  }

  /** A non-empty row holds at least one entry, so there are never more
      non-empty rows than entries: the flop count 2*nz - nonzerorowcnt is at
      least nz. */
  lemma {:induction false} NonEmptyAtMostEntries(s: seq<int>, k: nat)
    requires k <= |s|
    requires forall t :: 0 <= t < |s| ==> 0 <= s[t]
    ensures CountNonEmpty(s, k) <= Sum(s, k)
  {
    if k > 0 {
      NonEmptyAtMostEntries(s, k - 1);
    }
  }

  // ---------------------------------------------------------------------
  // Facts about the packed array.

  /** Entry j of row i lands at offset Sum(ilen, i) + j of the packed rows. */
  lemma {:induction false} PackedEntry(s: seq<int>, ai: seq<int>, ilen: seq<int>, k: nat, i: nat, j: nat)
    requires RowsFit(|s|, ai, ilen, k)
    requires i < k && j < ilen[i]
    ensures 0 <= Sum(ilen, i) && Sum(ilen, i) + j < Sum(ilen, k)
    ensures PackedAt(s, ai, ilen, k, Sum(ilen, i) + j) == s[ai[i] + j]
  {
    assert RowsFit(|s|, ai, ilen, k - 1);
    if i < k - 1 {
      PackedEntry(s, ai, ilen, k - 1, i, j);
    } else {
      PackedSumBounds(ai, ilen, k - 1, |s|);
    }
  }

  lemma {:induction false} PackedSumBounds(ai: seq<int>, ilen: seq<int>, k: nat, cap: int)
    requires RowsFit(cap, ai, ilen, k)
    ensures 0 <= Sum(ilen, k)
  {
    if k > 0 {
      PackedSumBounds(ai, ilen, k - 1, cap);
    }
  }

  /** The pointwise reading agrees with the concatenation of the rows. */
  lemma {:induction false} PackedAtIsPacked(s: seq<int>, ai: seq<int>, ilen: seq<int>, k: nat, q: int)
    requires RowsFit(|s|, ai, ilen, k) && 0 <= q < Sum(ilen, k)
    ensures PackedAt(s, ai, ilen, k, q) == Packed(s, ai, ilen, k)[q]
  {
    assert RowsFit(|s|, ai, ilen, k - 1);
    if q < Sum(ilen, k - 1) {
      PackedAtIsPacked(s, ai, ilen, k - 1, q);
    }
  }

  /** Before any row and after the first row nothing has moved. */
  lemma CompactedStart(s: seq<int>, ai: seq<int>, ilen: seq<int>, k: nat)
    requires k <= 1 && RowsFit(|s|, ai, ilen, k) && 1 <= |ai|
    ensures CompactedUpTo(s, ai, ilen, k) == s
  {
    forall p | 0 <= p < |s| ensures CompactedUpTo(s, ai, ilen, k)[p] == s[p] {
      if ai[0] <= p < ai[0] + Sum(ilen, k) {
        assert PackedAt(s, ai, ilen, k, p - ai[0]) == s[ai[0] + (p - ai[0])];
      }
    }
  }

  /** post is pre with the len entries from src copied, in order, to dst
      (dst <= src); every other entry is unchanged. */
  predicate Shifted(pre: seq<int>, post: seq<int>, dst: int, src: int, len: int) {
    |post| == |pre| && 0 <= dst <= src && 0 <= len && src + len <= |pre| &&
    (forall p :: 0 <= p < |pre| && !(dst <= p < dst + len) ==> post[p] == pre[p]) &&
    (forall p :: dst <= p < dst + len ==> post[p] == pre[p + (src - dst)])
  }

  /** One step of the pass: if the used slots of row k (whose old start is
      ai[k]) are copied, in order, to the new start ai[0] + Sum(ilen, k) of an
      array holding the first k packed rows, it holds the first k+1. */
  lemma {:induction false} CompactedStep(s: seq<int>, ai: seq<int>, imax: seq<int>, ilen: seq<int>,
                                         m: nat, k: nat, pre: seq<int>, post: seq<int>)
    requires Slotted(ai, imax, ilen, m, |s|) && 1 <= k < m
    requires RowsFit(|s|, ai, ilen, m)
    requires ai[0] + Sum(ilen, k) <= |s| && ai[0] + Sum(ilen, k + 1) <= |s|
    requires pre == CompactedUpTo(s, ai, ilen, k)
    requires Shifted(pre, post, ai[0] + Sum(ilen, k), ai[k], ilen[k])
    ensures post == CompactedUpTo(s, ai, ilen, k + 1)
  {
    var dst, len := ai[0] + Sum(ilen, k), ilen[k];
    ShiftIsGap(ai, imax, ilen, m, |s|, k);
    assert RowsFit(|s|, ai, ilen, k);
    PackedSumBounds(ai, ilen, k, |s|);
    var c := CompactedUpTo(s, ai, ilen, k + 1);
    forall p | 0 <= p < |s| ensures post[p] == c[p] {
      if dst <= p < dst + len {
        assert post[p] == pre[ai[k] + (p - dst)];
        assert pre[ai[k] + (p - dst)] == s[ai[k] + (p - dst)];
        assert c[p] == PackedAt(s, ai, ilen, k + 1, p - ai[0]) == s[ai[k] + (p - dst)];
      } else if ai[0] <= p < dst {
        assert post[p] == pre[p] == PackedAt(s, ai, ilen, k, p - ai[0]);
        assert c[p] == PackedAt(s, ai, ilen, k + 1, p - ai[0]);
      } else {
        assert post[p] == pre[p] == s[p];
        assert c[p] == s[p];
      }
    }
  }

  /** The row starts during the pass, before row k (1 <= k <= m): the
      running shift is the slack of rows 0..k-2, rmax the longest of rows
      0..k-1, rows 0..k-1 have their packed start and the other starts are
      the original ones. */
  ghost predicate StartsBefore(k: nat, starts: seq<int>, fshift: int, rmax: int,
                               ai: seq<int>, imax: seq<int>, ilen: seq<int>, m: nat, cap: int)
  {
    1 <= k <= m && |starts| == m + 1 &&
    Slotted(ai, imax, ilen, m, cap) && RowsFit(cap, ai, ilen, m) &&
    fshift == Slack(imax, ilen, k - 1) && rmax == MaxLen(ilen, k) &&
    (forall t {:trigger starts[t]} :: 0 <= t < k ==> starts[t] == ai[0] + Sum(ilen, t)) &&
    (forall t {:trigger starts[t]} :: k <= t <= m ==> starts[t] == ai[t]) &&
    ai[0] + Sum(ilen, k) <= cap
  }

  /** The entry arrays during the pass, before row k: rows 0..k-1 of the
      originals aj and aa are packed. */
  ghost predicate PackedBefore(k: nat, cols: seq<int>, vals: seq<int>, aj: seq<int>, aa: seq<int>,
                               ai: seq<int>, imax: seq<int>, ilen: seq<int>, m: nat)
  {
    k <= m && |aa| == |aj| &&
    Slotted(ai, imax, ilen, m, |aj|) && RowsFit(|aj|, ai, ilen, m) &&
    ai[0] + Sum(ilen, k) <= |aj| &&
    cols == CompactedUpTo(aj, ai, ilen, k) && vals == CompactedUpTo(aa, ai, ilen, k)
  }

  /** During the pass, row k's used slots lie inside the arrays and its new
      start ai[0] + Sum(ilen, k) is not after its old start. */
  lemma RowSource(k: nat, cols: seq<int>, vals: seq<int>, aj: seq<int>, aa: seq<int>,
                  ai: seq<int>, imax: seq<int>, ilen: seq<int>, m: nat)
    requires PackedBefore(k, cols, vals, aj, aa, ai, imax, ilen, m) && k < m
    ensures 0 <= ilen[k] <= imax[k] && ai[k] + ilen[k] <= |aj|
    ensures 0 <= ai[0] + Sum(ilen, k) <= ai[k]
    ensures ai[k] - (ai[0] + Sum(ilen, k)) == Slack(imax, ilen, k)
  {
    assert 0 <= ilen[k] <= imax[k];
    assert RowsFit(|aj|, ai, ilen, k);
    PackedSumBounds(ai, ilen, k, |aj|);
    ShiftIsGap(ai, imax, ilen, m, |aj|, k);
  }

  /** Moving row k of both entry arrays to its new start extends the packed
      prefix by one row. */
  lemma PackedStep(k: nat, cols: seq<int>, vals: seq<int>, cols': seq<int>, vals': seq<int>,
                   aj: seq<int>, aa: seq<int>, ai: seq<int>, imax: seq<int>, ilen: seq<int>, m: nat,
                   dst: int, src: int, len: int)
    requires PackedBefore(k, cols, vals, aj, aa, ai, imax, ilen, m) && 1 <= k < m
    requires ai[0] + Sum(ilen, k + 1) <= |aj|
    requires dst == ai[0] + Sum(ilen, k) && src == ai[k] && len == ilen[k]
    requires Shifted(cols, cols', dst, src, len) && Shifted(vals, vals', dst, src, len)
    ensures PackedBefore(k + 1, cols', vals', aj, aa, ai, imax, ilen, m)
  {
    CompactedStep(aj, ai, imax, ilen, m, k, cols, cols');
    CompactedStep(aa, ai, imax, ilen, m, k, vals, vals');
  }

  /** When no row before the last has unused slots the running shift stays
      0, no entry moves, and the packed array is the original one. */
  lemma NoShiftIdentity(s: seq<int>, ai: seq<int>, imax: seq<int>, ilen: seq<int>, m: nat, k: nat)
    requires Slotted(ai, imax, ilen, m, |s|) && 1 <= k <= m
    requires Slack(imax, ilen, k - 1) == 0
    ensures RowsFit(|s|, ai, ilen, k) && ai[0] + Sum(ilen, k) <= |s|
    ensures CompactedUpTo(s, ai, ilen, k) == s
  {
    LayoutFits(ai, imax, ilen, m, |s|);
    assert RowsFit(|s|, ai, ilen, k);
    ShiftIsGap(ai, imax, ilen, m, |s|, k - 1);
    TightPrefix(s, ai, imax, ilen, m, k);
    forall p | 0 <= p < |s| ensures CompactedUpTo(s, ai, ilen, k)[p] == s[p] {
      if ai[0] <= p < ai[0] + Sum(ilen, k) {
        assert PackedAt(s, ai, ilen, k, p - ai[0]) == s[ai[0] + (p - ai[0])];
      }
    }
  }

  /** With no unused slot in rows 0..k-2, the first k packed rows are the
      contiguous slots of s from ai[0]. */
  lemma {:induction false} TightPrefix(s: seq<int>, ai: seq<int>, imax: seq<int>, ilen: seq<int>, m: nat, k: nat)
    requires Slotted(ai, imax, ilen, m, |s|) && 1 <= k <= m
    requires RowsFit(|s|, ai, ilen, k)
    requires Slack(imax, ilen, k - 1) == 0
    ensures 0 <= Sum(ilen, k) && ai[0] + Sum(ilen, k) <= |s|
    ensures forall q :: 0 <= q < Sum(ilen, k) ==> PackedAt(s, ai, ilen, k, q) == s[ai[0] + q]
  {
    ShiftIsGap(ai, imax, ilen, m, |s|, k - 1);
    PackedSumBounds(ai, ilen, k, |s|);
    if k > 1 {
      ShiftIsGap(ai, imax, ilen, m, |s|, k - 2);
      assert imax[k - 2] - ilen[k - 2] >= 0;
      assert RowsFit(|s|, ai, ilen, k - 1);
      TightPrefix(s, ai, imax, ilen, m, k - 1);
    }
  }

  // ---------------------------------------------------------------------
  // What final assembly guarantees about the packed arrays.

  /** Entry j of row i moves from its old slot ai[i] + j to the slot
      ai[0] + Sum(ilen, i) + j, which lies in the row's new range
      [ai[0] + Sum(ilen, i), ai[0] + Sum(ilen, i + 1)). */
  lemma CompactedEntry(s: seq<int>, ai: seq<int>, imax: seq<int>, ilen: seq<int>, m: nat, i: nat, j: nat)
    requires Slotted(ai, imax, ilen, m, |s|)
    requires i < m && j < ilen[i]
    ensures 0 <= ai[0] + Sum(ilen, i) + j < ai[0] + Sum(ilen, i + 1) <= |s|
    ensures 0 <= ai[i] + j < |s|
    ensures Compacted(s, ai, imax, ilen, m)[ai[0] + Sum(ilen, i) + j] == s[ai[i] + j]
  {
    LayoutFits(ai, imax, ilen, m, |s|);
    LengthsNonNegative(ai, imax, ilen, m, |s|);
    SumMonotone(ilen, i + 1, m);
    PackedEntry(s, ai, ilen, m, i, j);
    assert Compacted(s, ai, imax, ilen, m)[ai[0] + Sum(ilen, i) + j] == PackedAt(s, ai, ilen, m, Sum(ilen, i) + j);
  }

  /** The slots before ai[0] and from ai[0] + Sum(ilen, m) on are untouched. */
  lemma CompactedOutside(s: seq<int>, ai: seq<int>, imax: seq<int>, ilen: seq<int>, m: nat, p: int)
    requires Slotted(ai, imax, ilen, m, |s|)
    requires 0 <= p < |s| && (p < ai[0] || ai[0] + Sum(ilen, m) <= p)
    ensures Compacted(s, ai, imax, ilen, m)[p] == s[p]
  {
  }

  /** If the used entries of every row hold column indices in [0, n), the
      packed entries do too. */
  lemma {:induction false} PackedColumns(s: seq<int>, ai: seq<int>, ilen: seq<int>, k: nat, n: nat)
    requires RowsFit(|s|, ai, ilen, k)
    requires UsedEntriesIn(s, ai, ilen, k, n)
    ensures forall q :: 0 <= q < Sum(ilen, k) ==> 0 <= PackedAt(s, ai, ilen, k, q) < n
  {
    if k > 0 {
      assert RowsFit(|s|, ai, ilen, k - 1);
      PackedColumns(s, ai, ilen, k - 1, n);
      PackedSumBounds(ai, ilen, k - 1, |s|);
      forall q | Sum(ilen, k - 1) <= q < Sum(ilen, k) ensures 0 <= PackedAt(s, ai, ilen, k, q) < n {
        var L := ai[k - 1];
        assert L <= L + (q - Sum(ilen, k - 1)) < L + ilen[k - 1];
      }
    }
  }

  /** The new row pointer ai[i] == ai[0] + Sum(ilen, i), with the packed
      column and value arrays, is a CSR matrix whenever the used entries
      held valid column indices. */
  lemma AssembledIsCsr(aj: seq<int>, aa: seq<int>, ai: seq<int>, imax: seq<int>, ilen: seq<int>,
                       m: nat, n: nat, ai': seq<int>)
    requires Slotted(ai, imax, ilen, m, |aj|) && |aa| == |aj|
    requires UsedEntriesIn(aj, ai, ilen, m, n)
    requires |ai'| == m + 1 && forall t :: 0 <= t <= m ==> ai'[t] == ai[0] + Sum(ilen, t)
    ensures IsCsr(ai', Compacted(aj, ai, imax, ilen, m), Compacted(aa, ai, imax, ilen, m), m, n)
  {
    var cj := Compacted(aj, ai, imax, ilen, m);
    LayoutFits(ai, imax, ilen, m, |aj|);
    LengthsNonNegative(ai, imax, ilen, m, |aj|);
    PackedColumns(aj, ai, ilen, m, n);
    forall i, j | 0 <= i <= j <= m ensures ai'[i] <= ai'[j] {
      SumMonotone(ilen, i, j);
    }
    forall q | ai'[0] <= q < ai'[m] ensures 0 <= cj[q] < n {
      assert cj[q] == PackedAt(aj, ai, ilen, m, q - ai[0]);
    }
  }

  /** Final assembly does not change the matrix: row i of the packed layout
      has the same dot product with any x as the used part of row i of the
      old layout. */
  lemma AssemblyPreservesRows(aj: seq<int>, aa: seq<int>, ai: seq<int>, imax: seq<int>, ilen: seq<int>,
                              m: nat, x: seq<int>, i: nat, cj: seq<int>, ca: seq<int>)
    requires Slotted(ai, imax, ilen, m, |aj|) && |aa| == |aj|
    requires i < m
    requires forall k :: ai[i] <= k < ai[i] + ilen[i] ==> 0 <= k < |aj| && 0 <= aj[k] < |x|
    requires cj == Compacted(aj, ai, imax, ilen, m) && ca == Compacted(aa, ai, imax, ilen, m)
    ensures 0 <= ai[i] && 0 <= ilen[i] && ai[i] + ilen[i] <= |aj|
    ensures 0 <= ai[0] + Sum(ilen, i) && ai[0] + Sum(ilen, i) + ilen[i] <= |aj|
    ensures forall k :: ai[i] <= k < ai[i] + ilen[i] ==> 0 <= aj[k] < |x|
    ensures forall k :: ai[0] + Sum(ilen, i) <= k < ai[0] + Sum(ilen, i) + ilen[i] ==> 0 <= cj[k] < |x|
    ensures RowDot(cj, ca, x, ai[0] + Sum(ilen, i), ai[0] + Sum(ilen, i) + ilen[i])
         == RowDot(aj, aa, x, ai[i], ai[i] + ilen[i])
  {
    assert 0 <= ilen[i] <= imax[i];
    RowMoved(aj, ai, imax, ilen, m, i);
    RowMoved(aa, ai, imax, ilen, m, i);
    var lo, len, newLo := ai[i], ilen[i], ai[0] + Sum(ilen, i);
    RowShifted(aj, aa, cj, ca, x, lo, newLo, len);
  }

  /** RowDotMoved, stated with the old and the new start of the row. */
  lemma RowShifted(aj: seq<int>, aa: seq<int>, cj: seq<int>, ca: seq<int>, x: seq<int>, lo: int, newLo: int, len: nat)
    requires 0 <= lo && lo + len <= |aj| && lo + len <= |aa|
    requires 0 <= newLo && newLo + len <= |cj| && newLo + len <= |ca|
    requires forall k :: lo <= k < lo + len ==> 0 <= aj[k] < |x|
    requires forall k :: lo <= k < lo + len ==> cj[k + (newLo - lo)] == aj[k] && ca[k + (newLo - lo)] == aa[k]
    ensures forall k :: newLo <= k < newLo + len ==> 0 <= cj[k] < |x|
    ensures RowDot(cj, ca, x, newLo, newLo + len) == RowDot(aj, aa, x, lo, lo + len)
  {
    RowDotMoved(aj, aa, cj, ca, x, lo, lo + len, newLo - lo);
  }

  /** Row i as a whole moves by ai[0] + Sum(ilen, i) - ai[i]. */
  lemma RowMoved(s: seq<int>, ai: seq<int>, imax: seq<int>, ilen: seq<int>, m: nat, i: nat)
    requires Slotted(ai, imax, ilen, m, |s|) && i < m
    ensures 0 <= ai[i] && ai[i] + ilen[i] <= |s|
    ensures 0 <= ai[0] + Sum(ilen, i) && ai[0] + Sum(ilen, i) + ilen[i] <= |s|
    ensures forall k :: ai[i] <= k < ai[i] + ilen[i] ==>
      Compacted(s, ai, imax, ilen, m)[k + (ai[0] + Sum(ilen, i) - ai[i])] == s[k]
  {
    LayoutFits(ai, imax, ilen, m, |s|);
    LengthsNonNegative(ai, imax, ilen, m, |s|);
    SumMonotone(ilen, i, i + 1);
    SumMonotone(ilen, i + 1, m);
    var c, d := Compacted(s, ai, imax, ilen, m), ai[0] + Sum(ilen, i) - ai[i];
    forall k | ai[i] <= k < ai[i] + ilen[i] ensures c[k + d] == s[k] {
      CompactedEntry(s, ai, imax, ilen, m, i, k - ai[i]);
      assert k + d == ai[0] + Sum(ilen, i) + (k - ai[i]);
    }
  }

  /** Two rows: row 0 owns 3 slots and uses 1, row 1 owns 2 and uses 2. The
      new row pointer is [0, 1, 3] and row 1 moves back by the 2 unused
      slots of row 0. */
  lemma TwoRowExample(s: seq<int>)
    requires |s| == 5
    ensures Slotted([0, 3, 5], [3, 2], [1, 2], 2, 5)
    ensures [0 + Sum([1, 2], 0), 0 + Sum([1, 2], 1), 0 + Sum([1, 2], 2)] == [0, 1, 3]
    ensures Slack([3, 2], [1, 2], 2) == 2
    ensures Compacted(s, [0, 3, 5], [3, 2], [1, 2], 2) == [s[0], s[3], s[4], s[3], s[4]]
  {
    var ai, ilen := [0, 3, 5], [1, 2];
    var c := Compacted(s, ai, [3, 2], ilen, 2);
    assert Sum(ilen, 1) == 1 && Sum(ilen, 2) == 3;
    assert c[0] == PackedAt(s, ai, ilen, 2, 0) == PackedAt(s, ai, ilen, 1, 0) == s[0];
    assert c[1] == PackedAt(s, ai, ilen, 2, 1) == s[3];
    assert c[2] == PackedAt(s, ai, ilen, 2, 2) == s[4];
    assert c[3] == s[3] && c[4] == s[4];
  }
}
