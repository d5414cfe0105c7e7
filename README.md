# PETSc sequential AIJ matrices with OpenACC offload, in Dafny

This project models the core of the OpenACC port of PETSc's sequential AIJ
(compressed sparse row, CSR) matrix. It covers four operations:

- **Final assembly** (`MatAssemblyEnd_SeqAIJ`). Each row owns `imax[i]`
  preallocated slots and uses the first `ilen[i]`. Assembly moves every row
  back over the unused slots before it, in place in `aj` (column indices)
  and `aa` (values). It then rebuilds the row pointer `ai`, resets `ilen`
  and `imax`, counts the non-empty rows and sets `nz`. It either reports
  the unused-space error, or records the unused-slot count, `rmax` and the
  malloc count.
- **The reference multiply** (`MatMult_SeqAIJ`), `y = A x`. It runs either
  the plain row loop or the compressed-row loop, which zeroes `y` and
  writes only the listed rows.
- **The OpenACC multiply.** The compressed-row path is the reference one.
  Otherwise the offloaded path runs:
  - it waits on queue 1;
  - it copies `ai`, `aj` and `aa` to the device unless they are already
    present, then copies `x` in;
  - the host computes rows until the runtime reports that every queued
    transfer is done;
  - the remaining rows run as device kernels over full tiles of
    `128 * 16 * 280` rows, then, when `m - current` is not a multiple of
    the tile size, one shorter remainder tile;
  - after a final wait, `x` is deleted from the device.
- **The device part of `MatDestroy_SeqAIJ`.** It checks the presence of
  `ai`, `aj` and `aa`, deletes each one found present, and then frees the
  host arrays.

The matrix is a class (`Aij.SeqAij`) whose arrays assembly updates in
place. Each loop of the source is a method with its invariants, proved
against pure specification functions:
- `Compaction.Compacted` and `Compaction.Sum` for assembly;
- `Csr.SpMV` and `Csr.CompressedProduct` for the multiplies;
- `Tiling.PrefixStop` and `Tiling.Tiles` for the host/device split.

The OpenACC runtime is a class, `Device.Accelerator`. It holds a map from
host buffers to their resident device extents, plus a log of the events
issued: copy-ins, deletes, kernel launches, waits and the host free.

The main results:
- Assembly packs every used entry at its new place, keeps the matrix's
  meaning, and leaves valid CSR.
- The plain row loop computes the reference product `y = A x` from the
  host arrays.
- The offloaded multiply, whatever the polls answer, computes the same
  `y = A x` from the host arrays. This assumes the device copies of `ai`,
  `aj`, `aa` and `x` hold what the host arrays hold.
- The compressed-row loop equals `A x` when the compressed index is
  consistent with the CSR arrays (`Csr.CompressedMatchesReference`).
- The host prefix and the device tiles partition the rows exactly.
- Every kernel's `present` clauses hold.
- A repeated multiply uploads only `x`.
- Destroy leaves none of the matrix arrays present, and it never deletes
  an array that was not uploaded.

A worked example: for the four-row matrix `ai = [0,2,4,6,7]`,
`aj = [0,1,1,2,2,3,3]`, `aa = [2,-1,-1,2,-1,2,1]` and `x = [1,1,1,1]`, the
row loop of `src/original/MatMult_SeqAIJ.c` (lines 79-86) gives
`y = [1,1,1,1]`; `Csr.FourRowExample` proves it.

Files:
- `csr.dfy` (`Csr`): CSR and the reference product.
- `compaction.dfy` (`Compaction`): the specification of final assembly.
- `seqaij.dfy` (`Aij`): the matrix class and `MatAssemblyEnd_SeqAIJ`.
- `mult.dfy` (`Mult`): the reference `MatMult_SeqAIJ`.
- `tiling.dfy` (`Tiling`): the host prefix and the device tiles.
- `device.dfy` (`Device`): the OpenACC data environment.
- `accmult.dfy` (`AccMult`): the OpenACC `MatMult_SeqAIJ`.
- `destroy.dfy` (`AccDestroy`): the OpenACC part of `MatDestroy_SeqAIJ`.

## Model

| member | source | states |
|---|---|---|
| `Csr.RowDotSplit` | src/original/MatMult_SeqAIJ.c:79-86 | A row's dot product over `[lo, hi)` is the sum of its dot products over `[lo, mid)` and `[mid, hi)`. |
| `Csr.RowDotMoved` | src/original/MatAssemblyEnd_SeqAIJ.c:25-33 | Moving a row's entries by a fixed offset into other arrays leaves its dot product with `x` unchanged, and its column indices stay valid. |
| `Csr.RowDotLinear` | src/original/MatMult_SeqAIJ.c:79-86 | Over exact scalars, one row's dot product is linear in `x`. |
| `Csr.SpMVLinear` | src/original/MatMult_SeqAIJ.c:79-86 | The reference product is linear: `A(a x1 + b x2) = a A x1 + b A x2`. |
| `Csr.IdentityProduct` | src/original/MatMult_SeqAIJ.c:79-86 | The CSR identity is valid CSR, and multiplying by it returns `x`. |
| `Csr.FourRowExample` | src/original/MatMult_SeqAIJ.c:79-86 | The four-row matrix above, times the all-ones vector, gives `[1,1,1,1]`. |
| `Csr.CompressedUnlisted` | src/original/MatMult_SeqAIJ.c:59-72 | In the compressed-row product, a row that no compressed row names stays 0 after the zeroing. |
| `Csr.CompressedListed` | src/original/MatMult_SeqAIJ.c:64-72 | When `rindex` has no repeats, the row named by compressed row `i` holds that compressed row's dot product. |
| `Csr.CompressedMatchesReference` | src/original/MatMult_SeqAIJ.c:59-86 | If the compressed index lists the non-empty rows in increasing order with their own CSR ranges, the compressed path equals the reference product. |
| `Compaction.MaxLen` | src/original/MatAssemblyEnd_SeqAIJ.c:20-24 | `rmax` is at least every row length, and equal to one of them. |
| `Compaction.CountNonEmpty` | src/original/MatAssemblyEnd_SeqAIJ.c:42-46 | The count of non-empty rows is at most `k`, and equals `k` exactly when every row is non-empty. |
| `Compaction.RegionStart` | src/original/MatAssemblyEnd_SeqAIJ.c:21-35 | Before assembly, row `k` starts at `ai[0]` plus the capacities of the rows before it. |
| `Compaction.SumMonotone` | src/original/MatAssemblyEnd_SeqAIJ.c:34 | With non-negative row lengths, the rebuilt row pointer is non-decreasing and never negative. |
| `Compaction.LayoutFits` | src/original/MatAssemblyEnd_SeqAIJ.c:26-31 | Every row's used slots lie inside the entry arrays. |
| `Compaction.RegionBounds` | src/original/MatAssemblyEnd_SeqAIJ.c:21-35 | The old row starts are non-decreasing. |
| `Compaction.ShiftIsGap` | src/original/MatAssemblyEnd_SeqAIJ.c:23 | The running shift before row `k` is the distance from the row's old start back to its packed start, and it is never negative. |
| `Compaction.NonEmptyAtMostEntries` | src/original/MatAssemblyEnd_SeqAIJ.c:44-47 | There are never more non-empty rows than entries. |
| `Compaction.PackedEntry` | src/original/MatAssemblyEnd_SeqAIJ.c:29-31 | Entry `j` of row `i` is entry `Sum(ilen, i) + j` of the packed rows. |
| `Compaction.PackedAtIsPacked` | src/original/MatAssemblyEnd_SeqAIJ.c:21-35 | The pointwise packed reading agrees with the concatenation of the rows' used slots. |
| `Compaction.CompactedStart` | src/original/MatAssemblyEnd_SeqAIJ.c:20-21 | Before row 1 is moved, nothing has moved: row 0 is already in place. |
| `Compaction.CompactedStep` | src/original/MatAssemblyEnd_SeqAIJ.c:25-34 | Copying row `k`'s used slots to its packed start extends the packed prefix by exactly one row. |
| `Compaction.RowSource` | src/original/MatAssemblyEnd_SeqAIJ.c:23-28 | During the pass, row `k`'s used slots lie inside the arrays, and its packed start lies exactly the running shift before its old start. |
| `Compaction.PackedStep` | src/original/MatAssemblyEnd_SeqAIJ.c:25-34 | Moving row `k` of both `aj` and `aa` preserves the pass invariant, for `k + 1`. |
| `Compaction.NoShiftIdentity` | src/original/MatAssemblyEnd_SeqAIJ.c:25 | When no row before the last has unused slots, the shift stays 0 and the packed array is the original. |
| `Compaction.TightPrefix` | src/original/MatAssemblyEnd_SeqAIJ.c:25 | Without unused slots before row `k - 1`, the first `k` packed rows are the contiguous slots from `ai[0]`. |
| `Compaction.CompactedEntry` | src/original/MatAssemblyEnd_SeqAIJ.c:26-34 | After assembly, entry `j` of row `i` sits at `ai[0] + Sum(ilen, i) + j`, inside the row's new range. |
| `Compaction.CompactedOutside` | src/original/MatAssemblyEnd_SeqAIJ.c:29-31 | Slots before `ai[0]` and from the packed end on keep their values. |
| `Compaction.PackedColumns` | src/original/MatAssemblyEnd_SeqAIJ.c:30 | If every used slot held a valid column index, so does every packed entry. |
| `Compaction.AssembledIsCsr` | src/original/MatAssemblyEnd_SeqAIJ.c:34-47 | The rebuilt `ai`, with the packed `aj` and `aa`, is valid CSR. |
| `Compaction.AssemblyPreservesRows` | src/original/MatAssemblyEnd_SeqAIJ.c:21-39 | Assembly does not change the matrix: each packed row has the same dot product with any `x` as the used part of the old row. |
| `Compaction.RowMoved` | src/original/MatAssemblyEnd_SeqAIJ.c:26-34 | Row `i` moves as a block, by `ai[0] + Sum(ilen, i) - ai[i]`. |
| `Compaction.TwoRowExample` | src/original/MatAssemblyEnd_SeqAIJ.c:21-39 | Rows of 3 and 2 slots using 1 and 2: the new `ai` is `[0,1,3]`, the slack is 2, and row 1 moves back 2 slots. |
| `Aij.SeqAij.AssemblyEnd` | src/original/MatAssemblyEnd_SeqAIJ.c:8-58 | A flush changes nothing. After a final assembly: `ai[t] = ai[0] + Sum(ilen, t)`; `aj` and `aa` are the packed arrays; `ilen` and `imax` are the old lengths; `nz = ai[m]`; `nonzerorowcnt` counts the non-empty rows. The error is returned exactly when there is slack and `nounused == -1`; otherwise `rmax`, `nz_unneeded` and `mallocs` are set. |
| `Aij.SeqAij.Report` | src/original/MatAssemblyEnd_SeqAIJ.c:48-58 | The unused-space error is returned exactly when the shift is non-zero and `nounused == -1`, and then the bookkeeping is left alone; otherwise the malloc count, the unneeded count and `rmax` are recorded. |
| `Aij.SeqAij.PackAndReset` | src/original/MatAssemblyEnd_SeqAIJ.c:20-47 | The final shift is the total slack and `rmaxRows` is the longest row. The arrays are packed, the lengths reset, and `nz` and `nonzerorowcnt` are set. |
| `Aij.SeqAij.CompactRows` | src/original/MatAssemblyEnd_SeqAIJ.c:20-39 | The compaction pass, `m == 0` included: it yields the slack, the longest row, the rebuilt `ai` and the packed `aj` and `aa`. |
| `Aij.SeqAij.CompactNonEmpty` | src/original/MatAssemblyEnd_SeqAIJ.c:20-39 | The same, for `m >= 1`. |
| `Aij.SeqAij.PackRows` | src/original/MatAssemblyEnd_SeqAIJ.c:21-35 | The loop over rows `1..m-1` takes the pass invariant from row 1 to row `m`. |
| `Aij.SeqAij.FinishRows` | src/original/MatAssemblyEnd_SeqAIJ.c:36-39 | The final shift includes the last row's slack, `ai[m]` is the packed end, and the arrays are fully packed. |
| `Aij.SeqAij.PackRow` | src/original/MatAssemblyEnd_SeqAIJ.c:23-34 | One iteration: the shift, `rmax`, the row move and `ai[i]` take the pass invariant from row `i` to `i + 1`. |
| `Aij.SeqAij.MoveRow` | src/original/MatAssemblyEnd_SeqAIJ.c:25-33 | Moving row `i` back by the shift extends the packed prefix by one row. |
| `Aij.SeqAij.ShiftRow` | src/original/MatAssemblyEnd_SeqAIJ.c:25-33 | The `len` entries of `aj` and `aa` from `ip` are copied to `ip - fshift`; every other slot keeps its value. |
| `Aij.SeqAij.ResetRowLengths` | src/original/MatAssemblyEnd_SeqAIJ.c:41-46 | `ilen` and `imax` become the packed row lengths, and `nonzerorowcnt` counts the positive ones. |
| `Aij.SeqAij.constructor` | src/original/MatAssemblyEnd_SeqAIJ.c:10-14 | The preallocated matrix that assembly reads: fresh arrays, row `t` starting at `Sum(capacity, t)` with `imax[t] = capacity[t]` slots and `ilen[t] = 0` used, `aj` and `aa` of `Sum(capacity, m)` slots, the caller's compressed index and `nounused`, the counters at 0; it is valid and preallocated. |
| `Aij.TwoRowAssembly` | src/original/MatAssemblyEnd_SeqAIJ.c:20-58 | A matrix built with rows of 3 and 2 slots, filled to 1 and 2, assembles to `ai = [0,1,3]` and `nz = 3`; the result is the unused-space error, with 2 unneeded slots, exactly when `nounused == -1`. |
| `Mult.RowSum` | src/original/MatMult_SeqAIJ.c:83-84 | The inner loop returns the row's dot product `RowDot`. |
| `Mult.RowRange` | src/original/MatMult_SeqAIJ.c:79-86 | Rows `[lo, hi)` of `y` become the reference product's rows; all other entries are unchanged. |
| `Mult.MultCompressed` | src/original/MatMult_SeqAIJ.c:59-72 | `y` ends as the compressed-row product: all zero except the listed rows, which hold their compressed rows' dot products. |
| `Mult.MatMult` | src/original/MatMult_SeqAIJ.c:56-89 | Without compressed rows `y = A x` (the reference product); with them, `y` is the compressed-row product. The logged count is `2 nz - nonzerorowcnt`. |
| `Mult.AssembledFlops` | src/original/MatMult_SeqAIJ.c:89 | For an assembled matrix, `2 nz - nonzerorowcnt` is exactly the per-row cost (`2L - 1` for a row of `L > 0` entries), between 0 and `2 nz`. |
| `Tiling.PrefixFrom` | src/openacc/MatMult_SeqAIJ.c:80-98 | After `c` rows with an unsuccessful poll, the loop stops somewhere in `[c, m]`. |
| `Tiling.PrefixFromFirst` | src/openacc/MatMult_SeqAIJ.c:80-98 | From `c < m` rows on, the loop does at least one more row and stops at the first later successful poll, or at `m`. |
| `Tiling.PrefixStopIsFirstPoll` | src/openacc/MatMult_SeqAIJ.c:76-98 | The host prefix computes at least one row when `m > 0`, never passes `m`, and ends at the first successful poll or at `m`. |
| `Tiling.PrefixStopUnique` | src/openacc/MatMult_SeqAIJ.c:76-98 | Conversely, any count with those properties is the one the loop stops at. |
| `Tiling.FullTiles` | src/openacc/MatMult_SeqAIJ.c:103-106 | `b` full tiles are listed, tile `k` being `[current + k s, current + k s + s)`. |
| `Tiling.TileCount` | src/openacc/MatMult_SeqAIJ.c:100-101 | `nBlocks` full tiles and a remainder shorter than a tile make up `[current, m)`. |
| `Tiling.FullTileInside` | src/openacc/MatMult_SeqAIJ.c:105-106 | Full tile `b` of `nBlocks` ends no later than the last full tile. |
| `Tiling.PartitionDisjoint` | src/openacc/MatMult_SeqAIJ.c:103-167 | Consecutive tiles lie inside the rows they split and do not overlap. |
| `Tiling.PartitionCovers` | src/openacc/MatMult_SeqAIJ.c:103-167 | A row lies in one of the tiles if and only if it lies in the split range. |
| `Tiling.PartitionAppend` | src/openacc/MatMult_SeqAIJ.c:103-167 | Splits of `[lo, mid)` and `[mid, hi)` join into a split of `[lo, hi)`. |
| `Tiling.FullTilesPartition` | src/openacc/MatMult_SeqAIJ.c:103-134 | The full tiles split `[current, current + b s)`. |
| `Tiling.TilesPartition` | src/openacc/MatMult_SeqAIJ.c:100-167 | The tiles split `[current, m)`. All but possibly the last have `s` rows. The last is partial exactly when `s` does not divide `m - current`. |
| `Tiling.PrefixAndTilesPartition` | src/openacc/MatMult_SeqAIJ.c:78-167 | Whatever the polls answer, the host prefix and the device tiles together split `[0, m)`. |
| `Tiling.TwoTileExample` | src/openacc/MatMult_SeqAIJ.c:100-139 | 2-row tiles after a 1-row prefix over 5 rows: `[1,3)` and `[3,5)`, with no remainder tile. |
| `Tiling.TileEntries` | src/openacc/MatMult_SeqAIJ.c:107-113 | A tile's CSR range `[ii[lo], ii[hi])` holds exactly the entries its rows read. |
| `Device.CopyInto` | src/openacc/MatMult_SeqAIJ.c:74 | After a copy-in the buffer is present over its extent, no other buffer changes, and the copy-in is logged. |
| `Device.CopyInIfAbsent` | src/openacc/MatMult_SeqAIJ.c:67-72 | The `acc_is_present` check (`Device.Accelerator.IsPresent`, meaning `Device.Present`) and the copy-in it guards. Afterwards the buffer is present. If it already was, nothing changes, log included; otherwise it is copied in. |
| `Device.DeleteFrom` | src/openacc/MatMult_SeqAIJ.c:169 | After a delete the buffer is not resident, no other buffer changes, and the delete is logged. |
| `Device.DeleteIfPresent` | src/openacc/MatDestroy_SeqAIJ.c:28-33 | The `acc_is_present` check (`Device.Accelerator.IsPresent`, meaning `Device.Present`) and the delete it guards. Afterwards the buffer is not present. If it was not, nothing changes; otherwise it is deleted. |
| `Device.Accelerator.EnterData` | src/openacc/MatMult_SeqAIJ.c:68-74 | `enter data copyin ... if(cond)`: the environment becomes the copy-in when `cond` holds and stays unchanged otherwise. |
| `Device.Accelerator.ExitData` | src/openacc/MatDestroy_SeqAIJ.c:31-33 | `exit data delete ... if(cond)`: the environment becomes the delete when `cond` holds and stays unchanged otherwise. |
| `Device.Accelerator.Issue` | src/openacc/MatMult_SeqAIJ.c:66 | A wait, a kernel launch or the host free is logged, and residency is unchanged. |
| `AccMult.Staged` | src/openacc/MatMult_SeqAIJ.c:67-72 | After the three checks and conditional copy-ins, `ii` is present over `m + 1` entries, `aj` and `aa` over `nz`, and no other buffer changes. |
| `AccMult.StagedIdempotent` | src/openacc/MatMult_SeqAIJ.c:67-72 | Staging an already staged device changes nothing, log included. |
| `AccMult.MultResidency` | src/openacc/MatMult_SeqAIJ.c:66-169 | After an offloaded multiply the three matrix arrays are present, `x` is not, and no other buffer changes. |
| `AccMult.RepeatMultUploadsOnlyX` | src/openacc/MatMult_SeqAIJ.c:66-74 | A second multiply leaves the residency as it was. Its events are a wait, the copy-in of `x`, the launches, a wait and the delete of `x`. |
| `AccMult.LaunchNextTile` | src/openacc/MatMult_SeqAIJ.c:103-116 | Launching full tile `b` after the first `b` extends the launch log to `b + 1` full tiles. |
| `AccMult.ReadyResident` | src/openacc/MatMult_SeqAIJ.c:67-74 | Before the first kernel, `ii`, `aj`, `aa` and `x` are all present over the extents the kernels name. |
| `AccMult.RemainderLaunch` | src/openacc/MatMult_SeqAIJ.c:136-149 | The full tiles' launches, then the remainder tile's when `m - current` is not a multiple of the tile size, are the launches of `Tiles`; the remainder is absent exactly when the full tiles end at `m`. |
| `AccMult.HostPrefix` | src/openacc/MatMult_SeqAIJ.c:76-98 | The host loop stops after `PrefixStop(poll, m)` rows. Those rows of `y` are the reference product's, and the rest are untouched. |
| `AccMult.Kernel` | src/openacc/MatMult_SeqAIJ.c:110-133 | Given its `present` clauses, one kernel logs its launch and writes rows `[bStart, bEnd)` of the reference product, and nothing else. |
| `AccMult.FullTileLoop` | src/openacc/MatMult_SeqAIJ.c:103-134 | Every full tile's kernel finds its `present` clauses satisfied. The launches are logged in order, and rows `[current, tilesEnd)` of `y` become the reference product. |
| `AccMult.DeviceTiles` | src/openacc/MatMult_SeqAIJ.c:100-167 | One launch per tile of `Tiles(current, m, s)`, in order, with residency unchanged; rows from `current` on become the reference product. |
| `AccMult.StageInputs` | src/openacc/MatMult_SeqAIJ.c:66-74 | The wait, the conditional copy-ins of the matrix arrays and the copy-in of `x`, in that order. |
| `AccMult.MultOffloaded` | src/openacc/MatMult_SeqAIJ.c:55-169 | Whatever the polls answer, `y` is the reference product, and the device ends as `AfterMult` describes. |
| `AccMult.MatMult` | src/openacc/MatMult_SeqAIJ.c:29-174 | With compressed rows: the compressed-row product, and the device is untouched. Otherwise: `y = A x` and the offloaded device history. Either way the logged count is `2 nz - nonzerorowcnt`. |
| `AccDestroy.Released` | src/openacc/MatDestroy_SeqAIJ.c:28-33 | After the checks and conditional deletes, none of `ai`, `aj`, `aa` is present over its extent, and no other buffer changes. |
| `AccDestroy.MatDestroy` | src/openacc/MatDestroy_SeqAIJ.c:22-36 | The checks are recorded in `present[0..2]`, the guarded deletes are issued, and then the host free. |
| `AccDestroy.ChecksUpFront` | src/openacc/MatDestroy_SeqAIJ.c:28-33 | Taking all three checks before any delete gives the same device as checking each array just before its own delete. |
| `AccDestroy.Survivors` | src/openacc/MatDestroy_SeqAIJ.c:28-33 | A matrix array stays resident if and only if it was resident with a shorter extent than the check asks for. |
| `AccDestroy.NeverUploaded` | src/openacc/MatDestroy_SeqAIJ.c:28-33 | A matrix that was never uploaded triggers no delete: the device, log included, is unchanged. |
| `AccDestroy.DeletesBeforeFree` | src/openacc/MatDestroy_SeqAIJ.c:31-36 | Exactly one delete per array found present, in the order `ai`, `aj`, `aa`, all before the host free, which comes last. |
| `AccDestroy.MultThenDestroy` | src/openacc/MatDestroy_SeqAIJ.c:28-36 | After an offloaded multiply, destroy deletes all three arrays before the host free. The device then holds what it held before the multiply, less the matrix arrays and `x`. |

## Left out

Data and arithmetic:
- Scalars are exact integers, not floating point. Linearity (`Csr.SpMVLinear`) holds only for exact scalars. Summation order is kept, so a floating-point reading of `RowDot` would follow the same order.
- `PetscInt` and `int` overflow are not modelled. This covers `int sizeBlock`, `int nBlocks` and the byte sizes passed to `acc_is_present`.
- Device extents are counted in elements, not bytes. `PetscInt` (for `ai` and `aj`), `MatScalar` (for `aa`) and `PetscScalar` (for `x`) may differ in size, but each buffer's presence checks and data clauses use that buffer's own element size, so counting in elements compares each buffer with itself alike.
- `PetscSparseDensePlusDot` is modelled as the plain loop `sum += aa[j] * x[aj[j]]` that its commented-out form describes. The Fortran kernel (`PETSC_USE_FORTRAN_KERNEL_MULTAIJ`) is not modelled.

Assembly:
- The compressed-row index (`cpUse`, `cpI`, `cpRindex`) and `nounused` are supplied by the caller when the matrix is made (`Aij.SeqAij.constructor`) and are never rebuilt. `MatCheckCompressedRow`, which rebuilds the index at the end of assembly, is not part of this model. The same holds for `MatMarkDiagonal_SeqAIJ`, `MatAssemblyEnd_SeqAIJ_Inode` and `MatSeqAIJInvalidateDiagonal`, whose bodies are not part of this model. The compressed-row results take the index's consistency as a stated hypothesis (`Csr.CompressedMatchesReference`).
- The `PetscInfo` messages are not modelled, since they are output only. `PetscLogObjectState` in `MatDestroy_SeqAIJ` is left out for the same reason.
- `MatSeqAIJSetPreallocation` is not part of this model; `Aij.SeqAij.constructor` builds the layout it leaves, filled by nothing yet. `MatSetValues` is not part of this model either; a caller fills rows by writing `aj`, `aa` and `ilen`.
- `Aij.SeqAij.AssemblyEnd` requires the preallocated layout (`Preallocated`). The source relies on `MatSetValues` having built it and does not check it.

Multiply and device:
- The flop count that `PetscLogFlops` records is returned as a value.
- `VecGetArray`, `VecGetArrayRead` and `VecGetLocalSize` are not modelled. `x` and `y` are arrays, and `xSize` is `x.Length`; `ySize` is read by the source but never used.
- The multiplies require `y` to have `m` entries and the row pointer to be valid CSR for `x`. PETSc's `MatMult` front end checks the sizes, and assembly establishes CSR (`Compaction.AssembledIsCsr`).
- Asynchronous queues are modelled in issue order. Each kernel's rows of `y` are written when it is issued, and `acc wait` is a logged event. Overlap is not modelled.
- `acc_async_test_all` is an oracle `poll: nat -> bool`, asked after each host row, and the results hold for every oracle.
- `copyout(y[...])` on the kernels is not logged as a device event: the kernels write the host `y` directly. Device-side `y` buffers are not modelled.
- OpenACC reference counts are not modelled. A copy-in sets the buffer's extent, and a delete removes it.
- A copy-in over a buffer that is resident with a shorter extent is a runtime error in OpenACC. Here it overwrites the extent. This can happen when `nz` grows after the arrays were uploaded.
- Device memory contents are not modelled. A matrix whose values change on the host after upload is not re-uploaded (`AccMult.StagedIdempotent`), so the device would hold stale values. The model states which transfers happen, not what the device computes with them.

Destroy:
- Only lines 22-36 of the OpenACC `MatDestroy_SeqAIJ` are modelled. The frees of lines 36-68 are one `HostFree` event. The original `MatDestroy_SeqAIJ` only frees memory, so it is not modelled.
