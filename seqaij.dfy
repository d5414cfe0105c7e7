/** The sequential AIJ (CSR) matrix and its final-assembly step, which packs
    the preallocated, partly filled rows into gap-free CSR in place. */
module Aij {
  import opened Compaction

  /** MAT_FLUSH_ASSEMBLY or MAT_FINAL_ASSEMBLY. */
  datatype AssemblyType = FlushAssembly | FinalAssembly

  /** The outcome of an assembly: success, or the "unused space detected"
      error with the matrix dimensions and the number of unneeded slots. */
  datatype Status = Ok | UnusedSpace(rows: int, cols: int, unneeded: int)

  /** The storage of one sequential AIJ matrix with m rows and n columns.
      Row i owns the slots [ai[i], ai[i] + imax[i]) of aj (column indices)
      and aa (values) and uses the first ilen[i]. The compressed-row index
      (cpI, cpRindex, used when cpUse) lists only some rows: compressed row
      k is matrix row cpRindex[k] and spans [cpI[k], cpI[k + 1]). */
  class SeqAij {
    const m: nat
    const n: nat
    const ai: array<int>
    const aj: array<int>
    const aa: array<int>
    const imax: array<int>
    const ilen: array<int>
    var nz: int
    var nonzerorowcnt: int
    var rmax: int
    /** -1 when the caller promised that no preallocated slot stays unused. */
    const nounused: int
    var reallocs: int
    /** The matrix's info.mallocs and info.nz_unneeded. */
    var mallocs: int
    var nzUnneeded: int
    const cpUse: bool
    const cpI: array<int>
    const cpRindex: array<int>

    /** Array shapes, and no two of the arrays that assembly writes alias. */
    ghost predicate Valid()
    {
      ai.Length == m + 1 && imax.Length == m && ilen.Length == m && aj.Length == aa.Length &&
      ai != aj && ai != aa && ai != imax && ai != ilen &&
      aj != aa && aj != imax && aj != ilen &&
      aa != imax && aa != ilen && imax != ilen
    }

    /** A preallocated m-by-n matrix: row i owns capacity[i] slots, the
        rows lie end to end from slot 0, and no slot is used yet. The
        caller's nounused setting and compressed-row index (rows cpRows
        listing the matrix rows cpIndex, in use when cpUse) are kept as
        given. */
    constructor (m: nat, n: nat, capacity: seq<int>, nounused: int,
                 cpUse: bool, cpRows: seq<int>, cpIndex: seq<int>)
      requires |capacity| == m && forall t :: 0 <= t < m ==> 0 <= capacity[t]
      requires |cpRows| == |cpIndex| + 1
      ensures Valid() && Preallocated()
      ensures this.m == m && this.n == n && this.nounused == nounused && this.cpUse == cpUse
      ensures fresh(ai) && fresh(aj) && fresh(aa) && fresh(imax) && fresh(ilen) && fresh(cpI) && fresh(cpRindex)
      ensures forall t :: 0 <= t <= m ==> ai[t] == Sum(capacity, t)
      ensures imax[..] == capacity && forall t :: 0 <= t < m ==> ilen[t] == 0
      ensures aj.Length == aa.Length == Sum(capacity, m)
      ensures cpI[..] == cpRows && cpRindex[..] == cpIndex
      ensures nz == 0 && nonzerorowcnt == 0 && rmax == 0 && reallocs == 0 && mallocs == 0 && nzUnneeded == 0
    {
      SumMonotone(capacity, 0, m);
      var starts := seq(m + 1, t requires 0 <= t <= m => Sum(capacity, t));
      var ai' := NewArray(starts);
      var aj' := NewArray(seq(Sum(capacity, m), _ => 0));
      var aa' := NewArray(seq(Sum(capacity, m), _ => 0));
      var imax' := NewArray(capacity);
      var ilen' := NewArray(seq(m, _ => 0));
      var cpI' := NewArray(cpRows);
      var cpRindex' := NewArray(cpIndex);
      this.m, this.n, this.nounused, this.cpUse := m, n, nounused, cpUse;
      ai, aj, aa, imax, ilen, cpI, cpRindex := ai', aj', aa', imax', ilen', cpI', cpRindex';
      nz, nonzerorowcnt, rmax, reallocs, mallocs, nzUnneeded := 0, 0, 0, 0, 0, 0;
      new;
      EmptyLayout(ai[..], imax[..], ilen[..], m);
    }

    /** The layout final assembly expects: contiguous row regions, each
        using no more slots than it owns, all inside aj and aa. */
    ghost predicate Preallocated()
      requires Valid()
      reads ai, imax, ilen
    {
      Slotted(ai[..], imax[..], ilen[..], m, aj.Length)
    }

    /** MatAssemblyEnd_SeqAIJ. A flush returns at once. A final assembly
        moves every row back by the unused slots before it, rebuilds ai, sets
        ilen and imax to the packed row lengths, counts the non-empty rows,
        sets nz, and then either reports unused space (when the caller
        promised none) or records the unused-slot count and rmax. */
    method AssemblyEnd(mode: AssemblyType) returns (st: Status)
      requires Valid()
      requires mode == FinalAssembly ==> Preallocated()
      modifies this, ai, aj, aa, imax, ilen
      ensures mode == FlushAssembly ==> st == Ok && unchanged(this, ai, aj, aa, imax, ilen)
      ensures mode == FinalAssembly ==>
        && (forall t :: 0 <= t <= m ==> ai[t] == old(ai[0]) + Sum(old(ilen[..]), t))
        && ilen[..] == old(ilen[..]) && imax[..] == old(ilen[..])
        && aj[..] == Compacted(old(aj[..]), old(ai[..]), old(imax[..]), old(ilen[..]), m)
        && aa[..] == Compacted(old(aa[..]), old(ai[..]), old(imax[..]), old(ilen[..]), m)
        && nz == ai[m]
        && nonzerorowcnt == CountNonEmpty(old(ilen[..]), m)
        && (st != Ok <==> Slack(old(imax[..]), old(ilen[..]), m) != 0 && nounused == -1)
        && (st != Ok ==>
              st == UnusedSpace(m, n, Slack(old(imax[..]), old(ilen[..]), m)) &&
              rmax == old(rmax) && reallocs == old(reallocs) && mallocs == old(mallocs) &&
              nzUnneeded == old(nzUnneeded))
        && (st == Ok ==>
              rmax == (if m == 0 then 0 else MaxLen(old(ilen[..]), m)) &&
              nzUnneeded == Slack(old(imax[..]), old(ilen[..]), m) &&
              mallocs == old(mallocs) + old(reallocs) && reallocs == 0)
      ensures mode == FinalAssembly && (m == 0 || Slack(old(imax[..]), old(ilen[..]), m - 1) == 0) ==>
        aj[..] == old(aj[..]) && aa[..] == old(aa[..])
    {
      if mode == FlushAssembly {
        return Ok;
      }
      var fshift, rmaxRows := PackAndReset();
      st := Report(fshift, rmaxRows);
    }

    /** The end of final assembly: the unused-space error when the caller
        promised that no slot stays unused, and otherwise the bookkeeping
        of mallocs, the unneeded slots and rmax. */
    method Report(fshift: int, rmaxRows: int) returns (st: Status)
      modifies this`reallocs, this`mallocs, this`nzUnneeded, this`rmax
      ensures st != Ok <==> fshift != 0 && nounused == -1
      ensures st != Ok ==>
        st == UnusedSpace(m, n, fshift) &&
        rmax == old(rmax) && reallocs == old(reallocs) && mallocs == old(mallocs) && nzUnneeded == old(nzUnneeded)
      ensures st == Ok ==>
        rmax == rmaxRows && nzUnneeded == fshift && mallocs == old(mallocs) + old(reallocs) && reallocs == 0
    {
      if fshift != 0 && nounused == -1 {
        return UnusedSpace(m, n, fshift);
      }
      mallocs := mallocs + reallocs;
      reallocs := 0;
      nzUnneeded := fshift;
      rmax := rmaxRows;
      return Ok;
    }

    /** Final assembly up to the unused-space test: compaction, the reset
        of the row lengths, the non-empty row count and nz. */
    method PackAndReset() returns (fshift: int, rmaxRows: int)
      requires Valid() && Preallocated()
      modifies ai, aj, aa, imax, ilen, this`nonzerorowcnt, this`nz
      ensures fshift == Slack(old(imax[..]), old(ilen[..]), m)
      ensures rmaxRows == if m == 0 then 0 else MaxLen(old(ilen[..]), m)
      ensures forall t :: 0 <= t <= m ==> ai[t] == old(ai[0]) + Sum(old(ilen[..]), t)
      ensures ilen[..] == old(ilen[..]) && imax[..] == old(ilen[..])
      ensures aj[..] == Compacted(old(aj[..]), old(ai[..]), old(imax[..]), old(ilen[..]), m)
      ensures aa[..] == Compacted(old(aa[..]), old(ai[..]), old(imax[..]), old(ilen[..]), m)
      ensures nz == ai[m] && nonzerorowcnt == CountNonEmpty(old(ilen[..]), m)
      ensures (m == 0 || Slack(old(imax[..]), old(ilen[..]), m - 1) == 0) ==>
        aj[..] == old(aj[..]) && aa[..] == old(aa[..])
    {
      ghost var ai0, imax0, ilen0, aj0, aa0 := ai[..], imax[..], ilen[..], aj[..], aa[..];
      LengthsNonNegative(ai0, imax0, ilen0, m, aj.Length);
      fshift, rmaxRows := CompactRows();
      assert imax[..] == imax0 && ilen[..] == ilen0;
      ghost var aj1, aa1 := aj[..], aa[..];
      ResetRowLengths(ilen0);
      assert aj[..] == aj1 && aa[..] == aa1;
      nz := ai[m];
    }

    /** The compaction pass of final assembly (rows 1..m-1, then the tail
        row): returns the final shift, which is the total number of unused
        slots, and the largest row length. */
    method CompactRows() returns (fshift: int, rmaxRows: int)
      requires Valid() && Preallocated()
      modifies ai, aj, aa
      ensures fshift == Slack(imax[..], ilen[..], m)
      ensures rmaxRows == if m == 0 then 0 else MaxLen(ilen[..], m)
      ensures forall t :: 0 <= t <= m ==> ai[t] == old(ai[0]) + Sum(ilen[..], t)
      ensures aj[..] == Compacted(old(aj[..]), old(ai[..]), imax[..], ilen[..], m)
      ensures aa[..] == Compacted(old(aa[..]), old(ai[..]), imax[..], ilen[..], m)
      ensures (m == 0 || Slack(imax[..], ilen[..], m - 1) == 0) ==> aj[..] == old(aj[..]) && aa[..] == old(aa[..])
    {
      if m == 0 {
        CompactedStart(aj[..], ai[..], ilen[..], 0);
        CompactedStart(aa[..], ai[..], ilen[..], 0);
        return 0, 0;
      }
      fshift, rmaxRows := CompactNonEmpty();
    }

    /** The compaction pass when there is at least one row. */
    method CompactNonEmpty() returns (fshift: int, rmaxRows: int)
      requires Valid() && Preallocated() && 1 <= m
      modifies ai, aj, aa
      ensures fshift == Slack(imax[..], ilen[..], m)
      ensures rmaxRows == MaxLen(ilen[..], m)
      ensures forall t :: 0 <= t <= m ==> ai[t] == old(ai[0]) + Sum(ilen[..], t)
      ensures aj[..] == Compacted(old(aj[..]), old(ai[..]), imax[..], ilen[..], m)
      ensures aa[..] == Compacted(old(aa[..]), old(ai[..]), imax[..], ilen[..], m)
      ensures Slack(imax[..], ilen[..], m - 1) == 0 ==> aj[..] == old(aj[..]) && aa[..] == old(aa[..])
    {
      ghost var ai0, imax0, ilen0, aj0, aa0 := ai[..], imax[..], ilen[..], aj[..], aa[..];
      LayoutFits(ai0, imax0, ilen0, m, aj.Length);
      fshift := 0;
      rmaxRows := ilen[0];
      CompactedStart(aj0, ai0, ilen0, 1);
      CompactedStart(aa0, ai0, ilen0, 1);
      fshift, rmaxRows := PackRows(fshift, rmaxRows, aj0, aa0, ai0, imax0, ilen0);
      fshift := FinishRows(fshift, rmaxRows, aj0, aa0, ai0, imax0, ilen0);
    }

    /** The loop of the compaction pass over rows 1..m-1. */
    method PackRows(fshift0: int, rmax0: int, ghost aj0: seq<int>, ghost aa0: seq<int>,
                    ghost ai0: seq<int>, ghost imax0: seq<int>, ghost ilen0: seq<int>)
      returns (fshift: int, rmaxRows: int)
      requires Valid() && imax[..] == imax0 && ilen[..] == ilen0
      requires StartsBefore(1, ai[..], fshift0, rmax0, ai0, imax0, ilen0, m, aj.Length)
      requires PackedBefore(1, aj[..], aa[..], aj0, aa0, ai0, imax0, ilen0, m)
      modifies ai, aj, aa
      ensures imax[..] == imax0 && ilen[..] == ilen0
      ensures StartsBefore(m, ai[..], fshift, rmaxRows, ai0, imax0, ilen0, m, aj.Length)
      ensures PackedBefore(m, aj[..], aa[..], aj0, aa0, ai0, imax0, ilen0, m)
    {
      fshift, rmaxRows := fshift0, rmax0;
      var i := 1;
      while i < m
        invariant imax[..] == imax0 && ilen[..] == ilen0
        invariant StartsBefore(i, ai[..], fshift, rmaxRows, ai0, imax0, ilen0, m, aj.Length)
        invariant PackedBefore(i, aj[..], aa[..], aj0, aa0, ai0, imax0, ilen0, m)
      {
        fshift, rmaxRows := PackRow(i, fshift, rmaxRows, aj0, aa0, ai0, imax0, ilen0);
        i := i + 1;
      }
      assert i == m;
    }

    /** The tail of the compaction pass: the shift takes in the unused
        slots of the last row and ai[m] becomes the new end of the entries. */
    method FinishRows(fshift: int, rmaxRows: int, ghost aj0: seq<int>, ghost aa0: seq<int>,
                      ghost ai0: seq<int>, ghost imax0: seq<int>, ghost ilen0: seq<int>)
      returns (shift: int)
      requires Valid() && imax[..] == imax0 && ilen[..] == ilen0
      requires StartsBefore(m, ai[..], fshift, rmaxRows, ai0, imax0, ilen0, m, aj.Length)
      requires PackedBefore(m, aj[..], aa[..], aj0, aa0, ai0, imax0, ilen0, m)
      modifies ai
      ensures shift == Slack(imax0, ilen0, m) && rmaxRows == MaxLen(ilen0, m)
      ensures forall t :: 0 <= t <= m ==> ai[t] == ai0[0] + Sum(ilen0, t)
      ensures aj[..] == Compacted(aj0, ai0, imax0, ilen0, m)
      ensures aa[..] == Compacted(aa0, ai0, imax0, ilen0, m)
      ensures Slack(imax0, ilen0, m - 1) == 0 ==> aj[..] == aj0 && aa[..] == aa0
    {
      shift := fshift + imax[m - 1] - ilen[m - 1];
      assert imax[m - 1] == imax0[m - 1] && ilen[m - 1] == ilen0[m - 1];
      assert ai[m - 1] == ai[..][m - 1] == ai0[0] + Sum(ilen0, m - 1);
      ghost var before := ai[..];
      ai[m] := ai[m - 1] + ilen[m - 1];
      forall t | 0 <= t <= m ensures ai[t] == ai0[0] + Sum(ilen0, t) {
        if t < m {
          assert ai[t] == before[t];
        }
      }
      if Slack(imax0, ilen0, m - 1) == 0 {
        NoShiftIdentity(aj0, ai0, imax0, ilen0, m, m);
        NoShiftIdentity(aa0, ai0, imax0, ilen0, m, m);
      }
    }

    /** One iteration of the compaction pass, for row i: add the unused
        slots of row i-1 to the shift, update rmax, move row i back by the
        shift, and set its new start after row i-1. */
    method PackRow(i: nat, fshift: int, rmaxRows: int, ghost aj0: seq<int>, ghost aa0: seq<int>,
                   ghost ai0: seq<int>, ghost imax0: seq<int>, ghost ilen0: seq<int>)
      returns (shift: int, longest: int)
      requires Valid() && i < m && imax[..] == imax0 && ilen[..] == ilen0
      requires StartsBefore(i, ai[..], fshift, rmaxRows, ai0, imax0, ilen0, m, aj.Length)
      requires PackedBefore(i, aj[..], aa[..], aj0, aa0, ai0, imax0, ilen0, m)
      modifies ai, aj, aa
      ensures StartsBefore(i + 1, ai[..], shift, longest, ai0, imax0, ilen0, m, aj.Length)
      ensures PackedBefore(i + 1, aj[..], aa[..], aj0, aa0, ai0, imax0, ilen0, m)
    {
      assert imax[i - 1] == imax0[i - 1] && ilen[i - 1] == ilen0[i - 1] && ilen[i] == ilen0[i];
      assert ai[i - 1] == ai[..][i - 1] && ai[i] == ai[..][i];
      shift := fshift + imax[i - 1] - ilen[i - 1];
      longest := if rmaxRows < ilen[i] then ilen[i] else rmaxRows;
      ShiftIsGap(ai0, imax0, ilen0, m, aj.Length, i);
      ShiftIsGap(ai0, imax0, ilen0, m, aj.Length, i + 1);
      ghost var before := ai[..];
      MoveRow(i, shift, aj0, aa0, ai0, imax0, ilen0);
      assert ai[..] == before;
      ai[i] := ai[i - 1] + ilen[i - 1];
      forall t | 0 <= t <= m ensures ai[..][t] == if t <= i then ai0[0] + Sum(ilen0, t) else ai0[t] {
        if t != i {
          assert ai[t] == before[t];
        }
      }
    }

    /** Row i of the compaction pass: its used entries move back by fshift
        slots (nothing moves when fshift is 0), which extends the packed
        prefix by one row. */
    method MoveRow(i: nat, fshift: int, ghost aj0: seq<int>, ghost aa0: seq<int>,
                   ghost ai0: seq<int>, ghost imax0: seq<int>, ghost ilen0: seq<int>)
      requires Valid() && 1 <= i < m && PackedBefore(i, aj[..], aa[..], aj0, aa0, ai0, imax0, ilen0, m)
      requires ai[i] == ai0[i] && ilen[i] == ilen0[i] && fshift == Slack(imax0, ilen0, i)
      requires ai0[0] + Sum(ilen0, i + 1) <= aj.Length
      modifies aj, aa
      ensures PackedBefore(i + 1, aj[..], aa[..], aj0, aa0, ai0, imax0, ilen0, m)
    {
      ghost var preJ, preA := aj[..], aa[..];
      RowSource(i, preJ, preA, aj0, aa0, ai0, imax0, ilen0, m);
      var src, len := ai[i], ilen[i];
      ShiftRow(src, fshift, len);
      PackedStep(i, preJ, preA, aj[..], aa[..], aj0, aa0, ai0, imax0, ilen0, m, src - fshift, src, len);
    }

    /** Copies the len entries of aj and aa starting at ip to ip - fshift,
        front to back, and leaves the arrays alone when fshift is 0. The
        destination never lies after the source, so every entry is read
        before it is overwritten. */
    method ShiftRow(ip: int, fshift: int, len: int)
      requires Valid()
      requires 0 <= fshift <= ip && 0 <= len && ip + len <= aj.Length
      modifies aj, aa
      ensures Shifted(old(aj[..]), aj[..], ip - fshift, ip, len)
      ensures Shifted(old(aa[..]), aa[..], ip - fshift, ip, len)
    {
      if fshift == 0 {
        return;
      }
      var j := 0;
      while j < len
        invariant 0 <= j <= len
        invariant forall p :: 0 <= p < aj.Length && !(ip - fshift <= p < ip - fshift + j) ==>
          aj[p] == old(aj[p]) && aa[p] == old(aa[p])
        invariant forall p :: ip - fshift <= p < ip - fshift + j ==>
          aj[p] == old(aj[p + fshift]) && aa[p] == old(aa[p + fshift])
      {
        aj[ip + j - fshift] := aj[ip + j];
        aa[ip + j - fshift] := aa[ip + j];
        j := j + 1;
      }
    }

    /** The second loop of final assembly: ilen[i] and imax[i] become the
        packed row length ai[i+1] - ai[i], and the rows of positive length
        are counted. */
    method ResetRowLengths(ghost lens: seq<int>)
      requires Valid() && |lens| == m
      requires forall t :: 0 <= t <= m ==> ai[t] == ai[0] + Sum(lens, t)
      modifies this`nonzerorowcnt, ilen, imax
      ensures nonzerorowcnt == CountNonEmpty(lens, m)
      ensures ilen[..] == lens && imax[..] == lens
    {
      nonzerorowcnt := 0;
      var i := 0;
      while i < m
        invariant 0 <= i <= m
        invariant nonzerorowcnt == CountNonEmpty(lens, i)
        invariant forall t :: 0 <= t < i ==> ilen[t] == imax[t] == lens[t]
      {
        var len := ai[i + 1] - ai[i];
        ilen[i] := len;
        imax[i] := len;
        nonzerorowcnt := nonzerorowcnt + (if len > 0 then 1 else 0);
        i := i + 1;
      }
      assert i == m;
    }
  }

  /** A new array holding s. */
  method NewArray(s: seq<int>) returns (a: array<int>)
    ensures fresh(a) && a[..] == s
  {
    a := new int[|s|](i requires 0 <= i < |s| => s[i]);
  }

  /** A matrix is built, filled and assembled as a caller does it: two rows
      owning 3 and 2 slots, using 1 and 2. Assembly packs them to the row
      pointer [0, 1, 3] with nz = 3 and 2 unneeded slots; that is the
      unused-space error exactly when the caller set nounused to -1. */
  method TwoRowAssembly(nounused: int) returns (st: Status, starts: seq<int>, nz: int)
    ensures starts == [0, 1, 3] && nz == 3
    ensures st == Ok <==> nounused != -1
    ensures nounused == -1 ==> st == UnusedSpace(2, 2, 2)
  {
    var a := new SeqAij(2, 2, [3, 2], nounused, false, [0], []);
    a.ilen[0] := 1;
    a.ilen[1] := 2;
    assert a.ilen[..] == [1, 2] && a.imax[..] == [3, 2];
    assert Sum([1, 2], 1) == 1 && Sum([1, 2], 2) == 3;
    assert Slack([3, 2], [1, 2], 2) == 2;
    st := a.AssemblyEnd(FinalAssembly);
    starts := a.ai[..];
    nz := a.nz;
  }
}
