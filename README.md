# RAM-disk block driver, modelled in Dafny

This project models the core logic of `test_module/BlockDrivers/block.c`, a Linux
RAM-disk block driver. It covers four pieces:

- **The transfer engine** `transfer` (`Transfer` module). A bounds-checked copy between
  a disk's backing store (`dev->data`, `dev->size` bytes) and a caller buffer, with
  positions and lengths in 512-byte kernel sectors.
  - `Transfer.TransferEffect` is its specification on values.
  - `Transfer.DiskDev.Transfer` is the in-place version on arrays. It is proved equal
    to that specification.
- **The request dispatcher** `simple_request` (`Dispatch` module). It drains the queue
  in fetch order.
  - A non-filesystem request is failed with `-EIO` without reaching `transfer`.
  - A filesystem request is served one chunk at a time: its current segment goes
    through `transfer` with the driver's one global 4 MiB scratch buffer. The next
    request is fetched only when the current one has no chunk left.
  - `Dispatch.SimpleRequest` is the loop, over a sequence of request descriptors. It is
    proved equal to the recursive specification `Dispatch.Run`.
  - `Dispatch.Plan` gives the completion log that `Run` produces.
- **The geometry and ioctl responder** `my_getgeo` and `my_ioctl` (`Geometry` module).
- **The configuration arithmetic** of `setup_device` and `blk_init` (`DiskConfig`
  module): the disk size, the hardware sector count, the announced capacity and the
  minor numbers.

`OwnBuffer` is the dispatcher as it was evidently meant to work, with each chunk copied
to or from the request's own data (see Findings).

Modelling choices:

- Bytes are `bv8`.
- A request is `NonFs` or `Fs(sector, segments, write)`. `segments` lists the sector
  count that `blk_rq_cur_sectors` reports at each step of the request. Completing a
  chunk advances the request position by that chunk's sectors.
- A filesystem request with no segment still reaches `transfer` once, for zero sectors.
- The position is stored in an `unsigned` (`block.c:79, 92`), so it is explicitly
  truncated to 32 bits (`BlockDefs.TruncU32`).
- `transfer` converts sectors to bytes with the constant 512 (`KERNEL_SECTOR_SIZE`),
  never with the configurable hardware sector size.

## Model

| member | source | states |
|---|---|---|
| BlockDefs.TruncU32 | test_module/BlockDrivers/block.c:79-92 | storing `blk_rq_pos` into an `unsigned` keeps a position below 2^32 and otherwise wraps it modulo 2^32 |
| DiskConfig.WrapInt32 | test_module/BlockDrivers/block.c:135 | C `int` arithmetic wraps into [-2^31, 2^31), congruent modulo 2^32, identity in range |
| DiskConfig.DiskSizeAsWritten | test_module/BlockDrivers/block.c:135 | `dev->size` as the `int` product computes it: the exact byte size for sizes below 2048 MiB |
| DiskConfig.DiskSizeOverflows | test_module/BlockDrivers/block.c:135 | as written, 4097 MiB gives a 1 MiB store, smaller than the 4 MiB default; 2048 MiB gives a negative size |
| DiskConfig.DiskSize | test_module/BlockDrivers/block.c:135 | the intended disk size is a whole number of MiB, namely `diskmb`, and agrees with the code below 2048 MiB |
| DiskConfig.DiskSizeMonotone | test_module/BlockDrivers/block.c:135 | a larger configured size never gives a smaller disk |
| DiskConfig.SectorCount | test_module/BlockDrivers/block.c:174 | `nsectors` is the number of whole hardware sectors in the store (floor division) |
| DiskConfig.CDiv | test_module/BlockDrivers/block.c:174 | C's `/` on `int` truncates toward zero: the remainder is smaller than the divisor in magnitude and has the dividend's sign; on non-negative operands it is floor division |
| DiskConfig.CDivTruncates | test_module/BlockDrivers/block.c:174 | C's `-7 / 2` is -3, where floor division gives -4 |
| DiskConfig.SectorCountAsWritten | test_module/BlockDrivers/block.c:174 | `nsectors` as the `int` code computes it, from the wrapped size and a truncating division, for every divisor that does not trap: the quotient fits an `int`, and it is the intended count for sizes below 2048 MiB |
| DiskConfig.QuotientFitsInt32 | test_module/BlockDrivers/block.c:174 | an `int` divided by a non-zero `int` fits an `int` unless it is `INT_MIN / -1` |
| DiskConfig.SectorCountOverflows | test_module/BlockDrivers/block.c:174 | as written, 4097 MiB with 512-byte sectors gives 2048 sectors instead of 4097 × 2048 |
| DiskConfig.Capacity | test_module/BlockDrivers/block.c:163 | with a hardware sector size that is a multiple of 512, the capacity in 512-byte sectors is exactly the byte size of the `nsectors` hardware sectors |
| DiskConfig.CapacityWithinStore | test_module/BlockDrivers/block.c:163 | the announced capacity in 512-byte sectors never reaches past the end of the store |
| DiskConfig.CapacityExact | test_module/BlockDrivers/block.c:163 | with a hardware sector size that is a multiple of 512 and divides the store, the capacity covers the store exactly |
| DiskConfig.CapacityZeroBelowKernelSector | test_module/BlockDrivers/block.c:163 | a hardware sector size below 512 announces capacity 0 |
| DiskConfig.FirstMinor | test_module/BlockDrivers/block.c:157-158 | disk `which` starts at a multiple of 16, namely 16 times `which` |
| DiskConfig.MinorRangesDisjoint | test_module/BlockDrivers/block.c:157-158 | distinct disks own disjoint blocks of 16 minors |
| Geometry.GetGeo | test_module/BlockDrivers/block.c:99-108 | status 0; heads 4, sectors 16, start 16; for every `int` `diskmb`, cylinders are the low 16 bits of `32 * diskmb`, and exactly `32 * diskmb` below 2048 MiB |
| Geometry.CylindersLowBits | test_module/BlockDrivers/block.c:100-104 | the `int` product `(diskmb * 1024) * 2`, wrapped, converted to `unsigned long` and divided by 4 and 16, has the low 16 bits of `32 * diskmb` |
| Geometry.GeometryCoversDisk | test_module/BlockDrivers/block.c:100-105 | while cylinders fit their field, cylinders × heads × sectors × 512 is exactly the disk size |
| Geometry.Ioctl | test_module/BlockDrivers/block.c:110-126 | status 0 if and only if the command is `HDIO_GETGEO` and the copy-out succeeds, and then the caller gets the geometry; `-EFAULT` on a failed copy; `-ENOTTY` for every other command |
| Geometry.DefaultGeometry | test_module/BlockDrivers/block.c:100-120 | the default 4 MiB disk reports 128 cylinders, 4 heads, 16 sectors, start 16 |
| Transfer.TransferEffect | test_module/BlockDrivers/block.c:59-75 | status 0 exactly when the range fits the store, else `-EIO` with store and buffer untouched; a write never changes the buffer, a read never the store; sizes kept |
| Transfer.InRange | test_module/BlockDrivers/block.c:65 | the bounds check accepts exactly when the end of the range, in bytes, does not pass the store's size; the start then lies in the store too |
| Transfer.TransferWrites | test_module/BlockDrivers/block.c:62-70 | an in-range write puts the buffer's first `nbytes` at `offset` and leaves the store before and after that window unchanged |
| Transfer.TransferReads | test_module/BlockDrivers/block.c:71-74 | an in-range read fills the buffer's first `nbytes` from the window and leaves the rest of the buffer unchanged |
| Transfer.WriteThenRead | test_module/BlockDrivers/block.c:69-72 | reading back a range just written returns the written bytes, with status 0, store untouched by the read |
| Transfer.ReadMissesDisjointWrite | test_module/BlockDrivers/block.c:69-72 | a read of a range a write did not overlap still sees the old bytes |
| Transfer.DiskDev.Transfer | test_module/BlockDrivers/block.c:59-75 | the in-place copy on arrays returns the status and leaves store and buffer exactly as `TransferEffect` says |
| Dispatch.NumChunks | test_module/BlockDrivers/block.c:91-95 | a filesystem request reaches `transfer` at least once and once per segment |
| Dispatch.ChunkSectors | test_module/BlockDrivers/block.c:91 | `blk_rq_cur_sectors` at chunk `j` is the size of the request's `j`-th segment, and 0 for a request without segments |
| Dispatch.ChunkPos | test_module/BlockDrivers/block.c:92 | `blk_rq_pos` at any chunk is never before the request's first sector |
| Dispatch.ChunkPosNext | test_module/BlockDrivers/block.c:91-95 | the position starts at the request's sector, and completing chunk `j - 1` advances it by exactly that chunk's sectors |
| Dispatch.ChunkSector | test_module/BlockDrivers/block.c:79-92 | the `unsigned` `sector` equals the position whenever the position fits 32 bits |
| Dispatch.Chunk | test_module/BlockDrivers/block.c:91-94 | one chunk keeps the store and buffer sizes and appends exactly one completion, for this request, with the status the bounds check alone decides |
| Dispatch.ServeChunks | test_module/BlockDrivers/block.c:91-95 | serving chunks keeps the store and scratch sizes |
| Dispatch.Serve | test_module/BlockDrivers/block.c:85-89 | a non-filesystem request changes neither store nor scratch buffer and reports exactly one `-EIO` |
| Dispatch.Run | test_module/BlockDrivers/block.c:81-96 | draining the queue keeps the store and scratch sizes |
| Dispatch.RequestPlan | test_module/BlockDrivers/block.c:85-95 | every request reports at least one completion |
| Dispatch.ServeChunksLog | test_module/BlockDrivers/block.c:91-95 | after `k` chunks the log has grown by the first `k` entries of the request's plan |
| Dispatch.ServeLog | test_module/BlockDrivers/block.c:85-95 | serving one request appends exactly that request's plan |
| Dispatch.RunLog | test_module/BlockDrivers/block.c:82-96 | the completions of a whole run are exactly the plan: statuses depend only on the bounds checks, not on the data |
| Dispatch.PlanPrefix | test_module/BlockDrivers/block.c:82-96 | serving a prefix of the queue reports a prefix of the whole queue's completions |
| Dispatch.RequestBlock | test_module/BlockDrivers/block.c:93-95 | request `i`'s completions come right after all earlier requests' completions, whatever their statuses: a failure does not stop the queue |
| Dispatch.PlanInFetchOrder | test_module/BlockDrivers/block.c:81-96 | completions name queued requests and never go back to an earlier one |
| Dispatch.ReadsKeepStore | test_module/BlockDrivers/block.c:85-95 | a queue without filesystem writes leaves the backing store unchanged |
| Dispatch.ReadChunksKeepStore | test_module/BlockDrivers/block.c:91-95 | the chunks of a read request leave the backing store unchanged |
| Dispatch.StepNonFs | test_module/BlockDrivers/block.c:85-89 | one non-filesystem request moves the loop to the next request, with one `-EIO` appended |
| Dispatch.StepChunk | test_module/BlockDrivers/block.c:91-95 | one transfer moves the loop to the next chunk, or to the next request after the last chunk |
| Dispatch.TransferChunk | test_module/BlockDrivers/block.c:91-93 | one transfer on the arrays leaves store and scratch buffer as the next loop state of `Run` says and returns the status that state logs |
| Dispatch.SimpleRequest | test_module/BlockDrivers/block.c:77-97 | the loop leaves store, scratch buffer and completion log exactly as `Run` says |
| OwnBuffer.ChunkOffset | test_module/BlockDrivers/block.c:93 | each chunk's place in the request's data lies inside that data |
| OwnBuffer.ChunkOwn | test_module/BlockDrivers/block.c:93 | a chunk through the request's own buffer keeps sizes and appends one completion with the same status as the dispatcher as written |
| OwnBuffer.ServeChunksOwn | test_module/BlockDrivers/block.c:93 | `k` chunks through the request's own buffer keep the sizes and report `k` completions |
| OwnBuffer.ServeOwn | test_module/BlockDrivers/block.c:85-93 | a non-filesystem request still changes nothing and reports one `-EIO` |
| OwnBuffer.RunOwn | test_module/BlockDrivers/block.c:81-96 | the corrected run keeps the store size and returns one buffer per request |
| OwnBuffer.RunOwnLog | test_module/BlockDrivers/block.c:81-96 | the corrected run reports exactly the completions `Plan` gives for the run as written |
| OwnBuffer.ServeOwnLog | test_module/BlockDrivers/block.c:85-93 | the corrected dispatcher serving one request reports exactly that request's plan |
| OwnBuffer.ServeChunksOwnLog | test_module/BlockDrivers/block.c:91-95 | after `k` corrected chunks the log is the first `k` entries of the request's plan |
| OwnBuffer.WriteChunksOwn | test_module/BlockDrivers/block.c:93 | after `k` chunks of an in-range write, the store holds the request's first bytes at its start, and nothing else has changed |
| OwnBuffer.ReadChunksOwn | test_module/BlockDrivers/block.c:93 | after `k` chunks of an in-range read, the request's buffer starts with the store's bytes at its start, the rest of the buffer and the store are unchanged |
| OwnBuffer.OwnBufferRoundTrip | test_module/BlockDrivers/block.c:93 | with own buffers, a multi-segment write followed by a read of the same sectors gives the reader exactly the written bytes |
| OwnBuffer.SharedBufferDropsWrite | test_module/BlockDrivers/block.c:93 | as written, a one-sector write stores the scratch buffer's bytes; the corrected dispatcher stores the request's bytes |
| OwnBuffer.SharedOneSectorWrite | test_module/BlockDrivers/block.c:93 | as written, the store's first sector ends up equal to the scratch buffer's first sector |
| OwnBuffer.SharedOneSectorRun | test_module/BlockDrivers/block.c:93 | as written, a queue of one one-sector write at sector 0 leaves the scratch buffer's first sector in the store's first sector |
| OwnBuffer.FirstSectorWritten | test_module/BlockDrivers/block.c:69-70 | a one-sector write at sector 0 puts the data's first 512 bytes at the start of the store |
| OwnBuffer.OwnOneSectorWrite | test_module/BlockDrivers/block.c:93 | corrected, the store's first sector ends up equal to the request's data |
| OwnBuffer.OwnOneSectorRun | test_module/BlockDrivers/block.c:93 | corrected, a queue of one one-sector write at sector 0 leaves the request's own first sector in the store's first sector |
| OwnBuffer.OneSectorChunk | test_module/BlockDrivers/block.c:91-93 | a one-sector request at sector 0 makes one transfer, of one sector, at sector 0, from offset 0 of its data |
| OwnBuffer.SharedBufferDropsWriteExample | test_module/BlockDrivers/block.c:30 | a 0xAA write over a zeroed scratch buffer stores 0 as written and 0xAA when corrected |

## Left out

- Module lifecycle and registration are not modelled. This covers `register_blkdev`, `alloc_disk`, `add_disk`, `blk_init_queue`, the clean-up calls and `kmalloc`/`vmalloc`/`vfree`. They are foreign kernel calls. The double `vfree` of a failed setup's store would need an allocator model.
- The spinlock is not modelled. Each disk's dispatcher runs under its own disk's `dev->lock` (`block.c:52, 142-144`), which gives it exclusive access to that disk's store only. The 4 MiB scratch `buffer` (`block.c:30`) is one global shared by the dispatchers of all `ndevices` disks (4 by default, `block.c:44`), and two of them may run at once on a multiprocessor. `Dispatch.SimpleRequest` and the as-written lemmas about the scratch buffer (`OwnBuffer.SharedOneSectorWrite`, `OwnBuffer.SharedOneSectorRun`, `OwnBuffer.SharedBufferDropsWrite`) assume that no other disk's dispatcher touches `buffer` during a run. Without that assumption, the bytes a write stores and those a read leaves in `buffer` are not determined. The completion statuses do not depend on it, since the bounds checks alone decide them.
- Kernel queue internals (`blk_fetch_request`, `__blk_end_request_cur`, `__blk_end_request_all`) are abstracted as a sequence of request descriptors. Each segment is one chunk, and a completed chunk's status is appended to a completion log.
- `printk`, module parameter parsing and disk naming are not modelled. `diskmb` and `hardsect_size` are parameters of the functions that use them.
- `my_ioctl` is not registered in `mybdrv_fops`: only `getgeo` is. It is modelled as written even though the kernel never calls it.
- `copy_to_user` is a boolean input of `Geometry.Ioctl`. A partial copy is not modelled: on failure the caller is taken to receive nothing.
- Transfer.DiskDev.Transfer: offsets and lengths are unbounded naturals, so `unsigned long` wrap-around is not modelled. The dispatcher passes 32-bit values, which cannot wrap on a 64-bit kernel.
- DiskConfig.SectorCount: it is the intended count, built on the unwrapped size. The wrapped `int` value of line 174 is `DiskConfig.SectorCountAsWritten`, and the two are proved equal only below 2048 MiB (see Findings).
- DiskConfig.SectorCount: it requires `hardsect_size > 0`. Zero would be a division by zero at line 174, and a negative hardware sector size is only covered by `DiskConfig.SectorCountAsWritten`.
- DiskConfig.SectorCountAsWritten: it requires a divisor that does not trap. A zero `hardsect_size`, and `INT_MIN / -1` (a 2048 MiB size with `hardsect_size` -1), are undefined in C and raise a divide error in `blk_init` on x86; the model does not give them a value.
- DiskConfig.Capacity: it builds on `DiskConfig.SectorCount`, so it is the intended capacity, without the `int` wrap-around of `nsectors`, and requires `hardsect_size > 0` for the same reason.
- DiskConfig.DiskSize: `diskmb` is a natural number. A negative `size` parameter is covered by `DiskConfig.DiskSizeAsWritten`, `DiskConfig.SectorCountAsWritten` and `Geometry.GetGeo`, which take any `int`; for example -4095 wraps to a 1 MiB disk, which is set up and answers `getgeo`.
- Dispatch.SimpleRequest: it requires every segment to fit the 4 MiB scratch buffer (`QueueFits`). This stands for the block layer's maximum segment size. A larger segment would make `memcpy` overrun the buffer, and that overrun is not modelled.
- Transfer.DiskDev.Transfer: the store is `dev->size` bytes as a natural number. The negative sizes of an overflowed `int` (see Findings) never reach it, because `vmalloc` of such a size fails and the disk is not set up.

## Findings

| source | as written | input that shows it | evidently intended | confidence | as-written member | corrected member |
|---|---|---|---|---|---|---|
| test_module/BlockDrivers/block.c:135 | `dev->size = diskmb * 1024 * 1024` is computed in `int` and wraps for 2048 MiB and above | `size=4097` gives a 1 MiB disk; `size=2048` gives a negative size | a disk of exactly `diskmb` MiB | not executed | DiskConfig.DiskSizeOverflows | DiskConfig.DiskSize |
| test_module/BlockDrivers/block.c:174 | `nsectors = diskmb * 1024 * 1024 / hardsect_size` divides the wrapped `int` size | `size=4097` with 512-byte sectors gives 2048 sectors, not 4097 × 2048 | the number of whole hardware sectors in a `diskmb` MiB disk | not executed | DiskConfig.SectorCountOverflows | DiskConfig.SectorCount |
| test_module/BlockDrivers/block.c:93 | every chunk is copied to or from the global `buffer` (line 30), never the request's own data | a one-sector write of 0xAA bytes with a zeroed scratch buffer stores zeros; a read never reaches the requester; and since `buffer` is shared by all disks while each disk's lock covers only its own queue, two disks' dispatchers can race on it | each chunk is copied at its place in the request's own data | not executed | OwnBuffer.SharedBufferDropsWrite | OwnBuffer.OwnBufferRoundTrip |
