/** The OpenACC MatMult_SeqAIJ. The compressed-row path is the reference
    one. Otherwise the matrix arrays are uploaded when the device lacks
    them, x is uploaded, and the host computes rows until the transfers
    are done. Full tiles of SizeBlock rows then run as device kernels,
    followed, when m - current is not a multiple of SizeBlock, by one
    shorter remainder tile, and x is deleted from the device. Queues and
    kernels are modelled in issue order; a kernel's row loop is the
    reference row loop. */
module AccMult {
  import opened Csr
  import opened Aij
  import opened Mult
  import opened Tiling
  import opened Device

  /** The device after the three presence checks and conditional copy-ins
      of the matrix arrays: ii over m + 1 entries, aj and aa over nz. */
  function Staged(e: Env, ii: object, aj: object, aa: object, m: int, nz: int): (r: Env)
    requires ii != aj && ii != aa && aj != aa
    ensures Present(r.resident, ii, m + 1) && Present(r.resident, aj, nz) && Present(r.resident, aa, nz)
    ensures r.resident - {ii, aj, aa} == e.resident - {ii, aj, aa}
  {
    var e1 := CopyInIfAbsent(e, ii, m + 1);
    var e2 := CopyInIfAbsent(e1, aj, nz);
    assert e2.resident - {aj} == e1.resident - {aj};
    var e3 := CopyInIfAbsent(e2, aa, nz);
    assert e3.resident - {aa} == e2.resident - {aa};
    assert ii in e3.resident && e3.resident[ii] == e1.resident[ii] by {
      assert (e3.resident - {aa})[ii] == (e2.resident - {aa})[ii];
      assert (e2.resident - {aj})[ii] == (e1.resident - {aj})[ii];
    }
    assert aj in e3.resident && e3.resident[aj] == e2.resident[aj] by {
      assert (e3.resident - {aa})[aj] == (e2.resident - {aa})[aj];
    }
    e3
  }

  /** The device after one offloaded multiply whose host prefix did current
      rows: a wait, the staging of the matrix, the copy-in of x, one launch
      per tile of [current, m), a wait, and the delete of x. */
  function AfterMult(e: Env, ii: object, aj: object, aa: object, x: object,
                     m: int, nz: int, xSize: int, current: int): Env
    requires ii != aj && ii != aa && aj != aa
    requires current <= m
  {
    var ready := CopyInto(Staged(Logged(e, Wait), ii, aj, aa, m, nz), x, xSize);
    var run := Env(ready.resident, ready.log + Launches(Tiles(current, m, SizeBlock)));
    DeleteFrom(Logged(run, Wait), x, xSize)
  }

  /** The matrix arrays are uploaded only when absent: staging an already
      staged device changes nothing, not even the log. */
  lemma StagedIdempotent(e: Env, ii: object, aj: object, aa: object, m: int, nz: int)
    requires ii != aj && ii != aa && aj != aa
    ensures Staged(Staged(e, ii, aj, aa, m, nz), ii, aj, aa, m, nz) == Staged(e, ii, aj, aa, m, nz)
  {
  }

  /** After a multiply the three matrix arrays are resident, x is not, and
      no other buffer has changed. */
  lemma MultResidency(e: Env, ii: object, aj: object, aa: object, x: object,
                      m: int, nz: int, xSize: int, current: int)
    requires ii != aj && ii != aa && aj != aa && x != ii && x != aj && x != aa
    requires current <= m
    ensures var r := AfterMult(e, ii, aj, aa, x, m, nz, xSize, current).resident;
      Present(r, ii, m + 1) && Present(r, aj, nz) && Present(r, aa, nz) && x !in r &&
      r - {ii, aj, aa, x} == e.resident - {ii, aj, aa, x}
  {
    var s := Staged(Logged(e, Wait), ii, aj, aa, m, nz);
    var ready := CopyInto(s, x, xSize);
    var r := AfterMult(e, ii, aj, aa, x, m, nz, xSize, current).resident;
    assert r - {x} == ready.resident - {x};
    assert ready.resident - {x} == s.resident - {x};
    forall b | b in {ii, aj, aa} ensures b in r && r[b] == s.resident[b] {
      assert (r - {x})[b] == (s.resident - {x})[b];
    }
    assert r - {ii, aj, aa, x} == (s.resident - {ii, aj, aa}) - {x};
  }

  /** A second multiply uploads only x: its events are a wait, the copy-in
      of x, the tile launches, a wait and the delete of x, and it leaves the
      residency as the first multiply left it. */
  lemma RepeatMultUploadsOnlyX(e: Env, ii: object, aj: object, aa: object, x: object,
                               m: int, nz: int, xSize: int, c1: int, c2: int)
    requires ii != aj && ii != aa && aj != aa && x != ii && x != aj && x != aa
    requires c1 <= m && c2 <= m
    ensures var e1 := AfterMult(e, ii, aj, aa, x, m, nz, xSize, c1);
      var e2 := AfterMult(e1, ii, aj, aa, x, m, nz, xSize, c2);
      e2.resident == e1.resident &&
      e2.log == e1.log + [Wait, CopyIn(x, xSize)] + Launches(Tiles(c2, m, SizeBlock)) + [Wait, Delete(x, xSize)]
  {
    var e1 := AfterMult(e, ii, aj, aa, x, m, nz, xSize, c1);
    MultResidency(e, ii, aj, aa, x, m, nz, xSize, c1);
    var w := Logged(e1, Wait);
    assert Staged(w, ii, aj, aa, m, nz) == w;
    var e2 := AfterMult(e1, ii, aj, aa, x, m, nz, xSize, c2);
    assert e2.resident == e1.resident[x := xSize] - {x};
    assert e2.log == e1.log + [Wait, CopyIn(x, xSize)] + Launches(Tiles(c2, m, SizeBlock)) + [Wait, Delete(x, xSize)];
  }

  /** Launching the tiles of two lists launches the first list, then the
      second. */
  lemma LaunchesAppend(t1: seq<Range>, t2: seq<Range>)
    ensures Launches(t1 + t2) == Launches(t1) + Launches(t2)
  {
    var l := Launches(t1 + t2);
    assert forall k :: 0 <= k < |l| ==> l[k] == (Launches(t1) + Launches(t2))[k];
  }

  /** Launching b + 1 full tiles after the events l0 is launching b of
      them, then tile b. */
  lemma LaunchNextTile(l0: seq<Event>, current: int, s: int, b: nat)
    ensures l0 + Launches(FullTiles(current, s, b)) + [Launch(current + b * s, current + b * s + s)]
         == l0 + Launches(FullTiles(current, s, b + 1))
  {
    assert FullTiles(current, s, b + 1) == FullTiles(current, s, b) + [Range(current + b * s, current + b * s + s)];
    LaunchesAppend(FullTiles(current, s, b), [Range(current + b * s, current + b * s + s)]);
  }

  /** Before the first kernel the device holds ii, aj, aa and x. */
  lemma ReadyResident(e: Env, ii: object, aj: object, aa: object, x: object, m: int, nz: int, xSize: int)
    requires ii != aj && ii != aa && aj != aa && x != ii && x != aj && x != aa
    ensures var r := CopyInto(Staged(e, ii, aj, aa, m, nz), x, xSize).resident;
      Present(r, ii, m + 1) && Present(r, aj, nz) && Present(r, aa, nz) && Present(r, x, xSize)
  {
    var s := Staged(e, ii, aj, aa, m, nz).resident;
    var r := CopyInto(Staged(e, ii, aj, aa, m, nz), x, xSize).resident;
    forall b | b in {ii, aj, aa} ensures b in r && r[b] == s[b] {
      assert (r - {x})[b] == (s - {x})[b];
    }
  }

  /** Splitting [current, m) into nBlocks full tiles of s rows, ending at
      tilesEnd, and a remainder of rest rows: the full tiles' launches,
      followed by the remainder tile's when rest is not 0, are the launches
      of Tiles(current, m, s). */
  lemma RemainderLaunch(l0: seq<Event>, current: int, m: int, s: int, nBlocks: int, rest: int, tilesEnd: int)
    requires 0 < s && current <= m
    requires nBlocks == (m - current) / s && rest == (m - current) % s && tilesEnd == current + nBlocks * s
    ensures 0 <= nBlocks && current <= tilesEnd <= m && (rest == 0 <==> tilesEnd == m)
    ensures rest != 0 ==>
      l0 + Launches(FullTiles(current, s, nBlocks)) + [Launch(tilesEnd, m)] == l0 + Launches(Tiles(current, m, s))
    ensures rest == 0 ==> l0 + Launches(FullTiles(current, s, nBlocks)) == l0 + Launches(Tiles(current, m, s))
  {
    TileCount(current, m, s);
    assert 0 <= nBlocks * s;
    var full := FullTiles(current, s, nBlocks);
    if rest != 0 {
      LaunchesAppend(full, [Range(tilesEnd, m)]);
    } else {
      assert Tiles(current, m, s) == full;
    }
  }

  // ---------------------------------------------------------------------
  // The host-side and kernel-side loops. Each takes the reference product
  // ref of the inputs, which the loops never write.

  /** The host prefix: while the last poll said "not yet" and rows remain,
      compute the next row of y and poll again. It stops after
      PrefixStop(poll, m) rows and leaves the rest of y alone. */
  method HostPrefix(ii: array<int>, aj: array<int>, aa: array<int>, x: array<int>, y: array<int>,
                    m: nat, poll: nat -> bool, ghost ref: seq<int>) returns (current: nat)
    requires y.Length == m && IsCsr(ii[..], aj[..], aa[..], m, x.Length)
    requires y != ii && y != aj && y != aa && y != x
    requires ref == SpMV(ii[..], aj[..], aa[..], x[..], m)
    modifies y
    ensures current == PrefixStop(poll, m)
    ensures forall r :: 0 <= r < m ==> y[r] == if r < current then ref[r] else old(y[r])
  {
    var present := false;
    current := 0;
    while !present && current < m
      invariant current <= m
      invariant PrefixStop(poll, m) == if present then current else PrefixFrom(poll, m, current)
      invariant forall r :: 0 <= r < m ==> y[r] == if r < current then ref[r] else old(y[r])
      decreases m - current
    {
      assert ii[0] <= ii[current] <= ii[current + 1] <= ii[m];
      var s := RowSum(aj, aa, x, ii[current], ii[current + 1]);
      y[current] := s;
      current := current + 1;
      present := poll(current);
    }
  }

  /** One kernels region over rows [bStart, bEnd). Its present clauses
      must hold: ii[bStart : bEnd - bStart + 1], the entries
      [ii[bStart], ii[bEnd]) of aj and aa, and all of x. */
  method Kernel(ii: array<int>, aj: array<int>, aa: array<int>, x: array<int>, y: array<int>,
                m: nat, dev: Accelerator, bStart: int, bEnd: int, ghost ref: seq<int>)
    requires y.Length == m && IsCsr(ii[..], aj[..], aa[..], m, x.Length)
    requires y != ii && y != aj && y != aa && y != x
    requires ref == SpMV(ii[..], aj[..], aa[..], x[..], m)
    requires 0 <= bStart <= bEnd <= m
    requires Covers(dev.env.resident, ii, bStart, bEnd - bStart + 1)
    requires Covers(dev.env.resident, aj, ii[bStart], ii[bEnd] - ii[bStart])
    requires Covers(dev.env.resident, aa, ii[bStart], ii[bEnd] - ii[bStart])
    requires Covers(dev.env.resident, x, 0, x.Length)
    modifies y, dev
    ensures dev.env == Logged(old(dev.env), Launch(bStart, bEnd))
    ensures forall r :: 0 <= r < m ==> y[r] == if bStart <= r < bEnd then ref[r] else old(y[r])
  {
    dev.Issue(Launch(bStart, bEnd));
    RowRange(ii, aj, aa, x, y, m, bStart, bEnd);
  }

  /** The device holds ii over m + 1 entries, aj and aa over nz >= ii[m]
      entries, and all of x. */
  ghost predicate Resident(res: map<object, int>, ii: array<int>, aj: array<int>, aa: array<int>,
                           x: array<int>, m: nat, nz: int)
    requires ii.Length == m + 1
    reads ii
  {
    Present(res, ii, m + 1) && Present(res, aj, nz) && Present(res, aa, nz) &&
    Present(res, x, x.Length) && ii[m] <= nz
  }

  /** The full tiles: nBlocks kernels of s rows over [current, tilesEnd). */
  method FullTileLoop(ii: array<int>, aj: array<int>, aa: array<int>, x: array<int>, y: array<int>,
                      m: nat, nz: int, dev: Accelerator, current: nat, s: int, nBlocks: nat, tilesEnd: int,
                      ghost ref: seq<int>)
    requires y.Length == m && IsCsr(ii[..], aj[..], aa[..], m, x.Length)
    requires y != ii && y != aj && y != aa && y != x
    requires ref == SpMV(ii[..], aj[..], aa[..], x[..], m)
    requires 0 < s && tilesEnd == current + nBlocks * s && tilesEnd <= m
    requires Resident(dev.env.resident, ii, aj, aa, x, m, nz)
    modifies y, dev
    ensures dev.env == Env(old(dev.env.resident), old(dev.env.log) + Launches(FullTiles(current, s, nBlocks)))
    ensures forall r :: 0 <= r < m ==> y[r] == if current <= r < tilesEnd then ref[r] else old(y[r])
  {
    ghost var e0 := dev.env;
    var b := 0;
    ghost var done := current;
    while b < nBlocks
      invariant 0 <= b <= nBlocks && done == current + b * s
      invariant dev.env == Env(e0.resident, e0.log + Launches(FullTiles(current, s, b)))
      invariant forall r :: 0 <= r < m ==> y[r] == if current <= r < done then ref[r] else old(y[r])
    {
      var bStart := current + b * s;
      var bEnd := bStart + s;
      FullTileInside(current, s, b, nBlocks);
      assert ii[0] <= ii[bStart] <= ii[bEnd] <= ii[m];
      Kernel(ii, aj, aa, x, y, m, dev, bStart, bEnd, ref);
      LaunchNextTile(e0.log, current, s, b);
      b, done := b + 1, bEnd;
    }
  }

  /** Every device tile of [current, m): the full tiles of s rows, then
      the remainder tile when s does not divide m - current. */
  method DeviceTiles(ii: array<int>, aj: array<int>, aa: array<int>, x: array<int>, y: array<int>,
                     m: nat, nz: int, dev: Accelerator, current: nat, s: int, ghost ref: seq<int>)
    requires y.Length == m && IsCsr(ii[..], aj[..], aa[..], m, x.Length)
    requires y != ii && y != aj && y != aa && y != x
    requires ref == SpMV(ii[..], aj[..], aa[..], x[..], m)
    requires 0 < s && current <= m
    requires Resident(dev.env.resident, ii, aj, aa, x, m, nz)
    modifies y, dev
    ensures dev.env == Env(old(dev.env.resident), old(dev.env.log) + Launches(Tiles(current, m, s)))
    ensures forall r :: 0 <= r < m ==> y[r] == if current <= r then ref[r] else old(y[r])
  {
    ghost var e0 := dev.env;
    var nBlocks := (m - current) / s;
    var rest := (m - current) % s;
    var tilesEnd := current + nBlocks * s;
    RemainderLaunch(e0.log, current, m, s, nBlocks, rest, tilesEnd);
    FullTileLoop(ii, aj, aa, x, y, m, nz, dev, current, s, nBlocks, tilesEnd, ref);
    if rest != 0 {
      assert ii[0] <= ii[tilesEnd] <= ii[m];
      Kernel(ii, aj, aa, x, y, m, dev, tilesEnd, m, ref);
    }
  }

  /** The device copy-ins ahead of the host prefix: a wait, each matrix
      array copied in unless already present, then x. */
  method StageInputs(ii: array<int>, aj: array<int>, aa: array<int>, nz: int, x: array<int>, m: nat, dev: Accelerator)
    requires ii != aj && ii != aa && aj != aa && x != ii && x != aj && x != aa
    modifies dev
    ensures dev.env == CopyInto(Staged(Logged(old(dev.env), Wait), ii, aj, aa, m, nz), x, x.Length)
  {
    dev.Issue(Wait);
    var present := dev.IsPresent(ii, m + 1);
    dev.EnterData(ii, m + 1, !present);
    present := dev.IsPresent(aj, nz);
    dev.EnterData(aj, nz, !present);
    present := dev.IsPresent(aa, nz);
    dev.EnterData(aa, nz, !present);
    dev.EnterData(x, x.Length, true);
  }

  /** The offloaded path: staging, the host prefix, the device tiles, the
      final wait and the delete of x. Whatever the polls answer, y is the
      reference product. */
  method MultOffloaded(ii: array<int>, aj: array<int>, aa: array<int>, nz: int, x: array<int>, y: array<int>,
                       m: nat, dev: Accelerator, poll: nat -> bool)
    requires y.Length == m && IsCsr(ii[..], aj[..], aa[..], m, x.Length)
    requires y != ii && y != aj && y != aa && y != x
    requires ii != aj && ii != aa && aj != aa && x != ii && x != aj && x != aa
    requires ii[m] <= nz
    modifies y, dev
    ensures y[..] == SpMV(ii[..], aj[..], aa[..], x[..], m)
    ensures dev.env == AfterMult(old(dev.env), ii, aj, aa, x, m, nz, x.Length, PrefixStop(poll, m))
  {
    ghost var ref := SpMV(ii[..], aj[..], aa[..], x[..], m);
    StageInputs(ii, aj, aa, nz, x, m, dev);
    ReadyResident(Logged(old(dev.env), Wait), ii, aj, aa, x, m, nz, x.Length);
    var current := HostPrefix(ii, aj, aa, x, y, m, poll, ref);
    var sizeBlock := SizeBlock;
    DeviceTiles(ii, aj, aa, x, y, m, nz, dev, current, sizeBlock, ref);
    dev.Issue(Wait);
    dev.ExitData(x, x.Length, true);
    assert forall r :: 0 <= r < m ==> y[r] == ref[r];
  }

  /** What the offloaded multiply needs beyond the reference one: x is
      none of the matrix arrays, and nz covers the entries ii reaches. */
  ghost predicate CanOffload(a: SeqAij, x: array<int>)
    reads a, a.ai
  {
    a.Valid() && x != a.ai && x != a.aj && x != a.aa && (a.cpUse || a.ai[a.m] <= a.nz)
  }

  /** MatMult_SeqAIJ with OpenACC: the compressed-row path is the
      reference one and leaves the device alone; otherwise the offloaded
      path runs. Both give the reference y and log 2 nz - nonzerorowcnt
      flops. */
  method MatMult(a: SeqAij, x: array<int>, y: array<int>, dev: Accelerator, poll: nat -> bool) returns (flops: int)
    requires CanMultiply(a, x, y) && CanOffload(a, x)
    modifies y, dev
    ensures !a.cpUse ==> y[..] == SpMV(a.ai[..], a.aj[..], a.aa[..], x[..], a.m)
    ensures !a.cpUse ==>
      dev.env == AfterMult(old(dev.env), a.ai, a.aj, a.aa, x, a.m, a.nz, x.Length, PrefixStop(poll, a.m))
    ensures a.cpUse ==>
      y[..] == CompressedProduct(a.cpI[..], a.cpRindex[..], a.aj[..], a.aa[..], x[..], a.m, a.cpRindex.Length)
    ensures a.cpUse ==> dev.env == old(dev.env)
    ensures flops == 2 * a.nz - a.nonzerorowcnt
  {
    if a.cpUse {
      MultCompressed(a.cpI, a.cpRindex, a.aj, a.aa, x, y, a.m);
    } else {
      MultOffloaded(a.ai, a.aj, a.aa, a.nz, x, y, a.m, dev, poll);
    }
    flops := 2 * a.nz - a.nonzerorowcnt;
  }
}
