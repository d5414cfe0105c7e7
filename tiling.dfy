/** How the offloaded multiply splits the rows of y: a host prefix that runs
    until the device transfers are done, then full device tiles of
    SizeBlock rows, then one partial tile for what is left. */
module Tiling {
  import opened Csr

  /** Rows per device tile. */
  const SizeBlock: int := 128 * 16 * 280

  /** The half-open row range [lo, hi). */
  datatype Range = Range(lo: int, hi: int)

  // ---------------------------------------------------------------------
  // The host prefix. The loop computes one row, then asks the runtime
  // whether every queued transfer has finished; poll(c) is that answer
  // after c rows.

  /** Where the host loop stops when it has done c rows and the last poll
      said "not yet". */
  function PrefixFrom(poll: nat -> bool, m: nat, c: nat): (r: nat)
    requires c <= m
    ensures c <= r <= m
    decreases m - c
  {
    if c == m then m else if poll(c + 1) then c + 1 else PrefixFrom(poll, m, c + 1)
  }

  /** The row count the host prefix computes before the tiles take over. */
  function PrefixStop(poll: nat -> bool, m: nat): (r: nat)
  {
    PrefixFrom(poll, m, 0)
  }

  /** From c rows on, the loop does at least one more row and stops at the
      first later count where the poll succeeds, or at m. */
  lemma {:induction false} PrefixFromFirst(poll: nat -> bool, m: nat, c: nat)
    requires c < m
    ensures c < PrefixFrom(poll, m, c)
    ensures PrefixFrom(poll, m, c) == m || poll(PrefixFrom(poll, m, c))
    ensures forall d :: c < d < PrefixFrom(poll, m, c) ==> !poll(d)
    decreases m - c
  {
    if !poll(c + 1) && c + 1 < m {
      PrefixFromFirst(poll, m, c + 1);
    }
  }

  /** The prefix does at least one row when there is one, never passes m,
      and ends at the first successful poll (or at m). */
  lemma PrefixStopIsFirstPoll(poll: nat -> bool, m: nat)
    ensures PrefixStop(poll, m) <= m
    ensures m > 0 ==> 1 <= PrefixStop(poll, m)
    ensures PrefixStop(poll, m) == m || poll(PrefixStop(poll, m))
    ensures forall d :: 1 <= d < PrefixStop(poll, m) ==> !poll(d)
  {
    if m > 0 {
      PrefixFromFirst(poll, m, 0);
    }
  }

  /** Conversely, those properties pin the stopping point down. */
  lemma PrefixStopUnique(poll: nat -> bool, m: nat, r: nat)
    requires (if m > 0 then 1 else 0) <= r <= m
    requires r == m || poll(r)
    requires forall d :: 1 <= d < r ==> !poll(d)
    ensures r == PrefixStop(poll, m)
  {
    PrefixStopIsFirstPoll(poll, m);
  }

  // ---------------------------------------------------------------------
  // The device tiles.

  /** b tiles of s rows each, the first starting at row current. */
  function FullTiles(current: int, s: int, b: nat): (t: seq<Range>)
    ensures |t| == b
  {
    seq(b, k => Range(current + k * s, current + k * s + s))
  }

  /** Rows [current, m) are (m - current) / s tiles of s rows and a
      remainder of fewer than s rows. */
  lemma TileCount(current: int, m: int, s: int)
    requires 0 < s && current <= m
    ensures 0 <= (m - current) / s && 0 <= (m - current) % s < s
    ensures current + (m - current) / s * s + (m - current) % s == m
  {
  }

  /** Full tile b of nb ends no later than the last one. */
  lemma FullTileInside(current: int, s: int, b: int, nb: int)
    requires 0 < s && 0 <= b < nb
    ensures current <= current + b * s
    ensures current + b * s + s <= current + nb * s
    ensures current + (b + 1) * s == current + b * s + s
  {
    var d := nb - b - 1;
    assert 0 <= d * s;
    assert nb * s == b * s + s + d * s;
  }

  /** The tiles launched for rows [current, m): (m - current) / s full tiles and,
      when s does not divide m - current, one more tile ending at m. */
  function Tiles(current: int, m: int, s: int): (r: seq<Range>)
    requires 0 < s && current <= m
  {
    var nBlocks := (m - current) / s;
    FullTiles(current, s, nBlocks) + if (m - current) % s != 0 then [Range(current + nBlocks * s, m)] else []
  }

  /** rs lists consecutive ranges that start at lo and end at hi. */
  predicate Partition(rs: seq<Range>, lo: int, hi: int)
    decreases |rs|
  {
    if |rs| == 0 then lo == hi
    else rs[0].lo == lo && rs[0].lo <= rs[0].hi && Partition(rs[1..], rs[0].hi, hi)
  }

  /** Row r lies in the range rg. */
  predicate Contains(rg: Range, r: int) {
    rg.lo <= r < rg.hi
  }

  /** Consecutive ranges lie within [lo, hi) and do not overlap. */
  lemma {:induction false} PartitionDisjoint(rs: seq<Range>, lo: int, hi: int)
    requires Partition(rs, lo, hi)
    ensures lo <= hi
    ensures forall k :: 0 <= k < |rs| ==> lo <= rs[k].lo <= rs[k].hi <= hi
    ensures forall k1, k2 :: 0 <= k1 < k2 < |rs| ==> rs[k1].hi <= rs[k2].lo
    decreases |rs|
  {
    if |rs| > 0 {
      var rest := rs[1..];
      PartitionDisjoint(rest, rs[0].hi, hi);
      assert forall k :: 1 <= k < |rs| ==> rs[k] == rest[k - 1];
    }
  }

  /** Consecutive ranges cover exactly the rows of [lo, hi): a row lies in
      one of them if and only if it lies in [lo, hi). */
  lemma {:induction false} PartitionCovers(rs: seq<Range>, lo: int, hi: int, r: int)
    requires Partition(rs, lo, hi)
    ensures lo <= r < hi <==> exists k :: 0 <= k < |rs| && Contains(rs[k], r)
    decreases |rs|
  {
    PartitionDisjoint(rs, lo, hi);
    if |rs| > 0 {
      var rest := rs[1..];
      PartitionCovers(rest, rs[0].hi, hi, r);
      if r >= rs[0].hi && r < hi {
        var k :| 0 <= k < |rest| && Contains(rest[k], r);
        assert rs[k + 1] == rest[k];
      }
    }
  }

  /** Partitions of [lo, mid) and [mid, hi) join into one of [lo, hi). */
  lemma {:induction false} PartitionAppend(a: seq<Range>, b: seq<Range>, lo: int, mid: int, hi: int)
    requires Partition(a, lo, mid) && Partition(b, mid, hi)
    ensures Partition(a + b, lo, hi)
    decreases |a|
  {
    if |a| == 0 {
      assert a + b == b;
    } else {
      PartitionAppend(a[1..], b, a[0].hi, mid, hi);
      assert (a + b)[0] == a[0] && (a + b)[1..] == a[1..] + b;
    }
  }

  /** b full tiles of s rows cover [current, current + b * s). */
  lemma {:induction false} FullTilesPartition(current: int, s: int, b: nat)
    requires 0 < s
    ensures Partition(FullTiles(current, s, b), current, current + b * s)
  {
    if b > 0 {
      FullTilesPartition(current, s, b - 1);
      var last := Range(current + (b - 1) * s, current + (b - 1) * s + s);
      assert Partition([last], last.lo, last.hi);
      assert FullTiles(current, s, b) == FullTiles(current, s, b - 1) + [last];
      PartitionAppend(FullTiles(current, s, b - 1), [last], current, last.lo, last.hi);
    }
  }

  /** The tiles cover [current, m) exactly; all but possibly the last
      have s rows; the last tile is partial, with fewer than s rows,
      exactly when s does not divide m - current. */
  lemma TilesPartition(current: int, m: int, s: int)
    requires 0 < s && current <= m
    ensures Partition(Tiles(current, m, s), current, m)
    ensures |Tiles(current, m, s)| == (m - current) / s + (if (m - current) % s != 0 then 1 else 0)
    ensures forall k :: 0 <= k < (m - current) / s ==> Tiles(current, m, s)[k].hi - Tiles(current, m, s)[k].lo == s
    ensures (m - current) % s != 0 <==> |Tiles(current, m, s)| > 0 && Tiles(current, m, s)[|Tiles(current, m, s)| - 1].hi - Tiles(current, m, s)[|Tiles(current, m, s)| - 1].lo < s
  {
    var nBlocks := (m - current) / s;
    var rest := (m - current) % s;
    TileCount(current, m, s);
    FullTilesPartition(current, s, nBlocks);
    var full := FullTiles(current, s, nBlocks);
    if rest != 0 {
      var last := Range(current + nBlocks * s, m);
      assert Partition([last], last.lo, m);
      PartitionAppend(full, [last], current, last.lo, m);
    } else {
      assert Tiles(current, m, s) == full;
      if nBlocks > 0 {
        assert full[nBlocks - 1].hi - full[nBlocks - 1].lo == s;
      }
    }
  }

  /** Whatever count the host prefix stops at, the prefix [0, current) and the
      device tiles of SizeBlock rows together partition [0, m). */
  lemma PrefixAndTilesPartition(poll: nat -> bool, m: nat)
    ensures Partition([Range(0, PrefixStop(poll, m))] + Tiles(PrefixStop(poll, m), m, SizeBlock), 0, m)
  {
    var current := PrefixStop(poll, m);
    TilesPartition(current, m, SizeBlock);
    assert Partition([Range(0, current)], 0, current);
    PartitionAppend([Range(0, current)], Tiles(current, m, SizeBlock), 0, current, m);
  }

  /** With 2-row tiles, 5 rows and a prefix of 1 row: two full tiles [1, 3)
      and [3, 5) and no partial tile. */
  lemma TwoTileExample()
    ensures Tiles(1, 5, 2) == [Range(1, 3), Range(3, 5)]
  {
    assert FullTiles(1, 2, 2) == [Range(1, 3), Range(3, 5)];
  }

  /** A tile's CSR range [ii[lo], ii[hi]) holds exactly the entries its rows
      read: entry k is read by one of the rows [lo, hi) if and only if it
      lies in that range. */
  lemma {:induction false} TileEntries(ii: seq<int>, aj: seq<int>, aa: seq<int>, m: nat, n: nat,
                                       lo: int, hi: int, k: int)
    requires IsCsr(ii, aj, aa, m, n) && 0 <= lo <= hi <= m
    ensures ii[lo] <= k < ii[hi] <==> exists r :: lo <= r < hi && ii[r] <= k < ii[r + 1]
    decreases hi - lo
  {
    if lo < hi {
      TileEntries(ii, aj, aa, m, n, lo, hi - 1, k);
      assert ii[lo] <= ii[hi - 1] <= ii[hi];
      if exists r :: lo <= r < hi && ii[r] <= k < ii[r + 1] {
        var r :| lo <= r < hi && ii[r] <= k < ii[r + 1];
        assert ii[lo] <= ii[r] && ii[r + 1] <= ii[hi];
      }
    }
  }
}
