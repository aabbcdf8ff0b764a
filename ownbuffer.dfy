/**
 * The dispatcher as evidently intended: every chunk of a filesystem request
 * is copied to or from that request's own data buffer, at the chunk's place
 * in it, instead of the driver's one global scratch buffer. Positions,
 * bounds checks and completions are exactly those of `simple_request`.
 */
module OwnBuffer {
  import opened BlockDefs
  import opened Transfer
  import opened Dispatch

  /** Where chunk `j` starts inside the request's data, in bytes. */
  function ChunkOffset(r: Request, j: nat): (off: nat)
    requires r.Fs? && j < NumChunks(r)
    ensures off + ChunkSectors(r, j) * KERNEL_SECTOR_SIZE <= DataLength(r)
  {
    ChunkEnd(r, j);
    Sum(r.segments[..j]) * KERNEL_SECTOR_SIZE
  }

  lemma ChunkEnd(r: Request, j: nat)
    requires r.Fs? && j < NumChunks(r)
    ensures Sum(r.segments[..j]) + ChunkSectors(r, j) <= Sum(r.segments)
  {
    if j < |r.segments| { SumStep(r.segments, j); }
  }

  /** The byte length of a filesystem request's data. */
  function DataLength(r: Request): nat
    requires r.Fs?
  {
    Sum(r.segments) * KERNEL_SECTOR_SIZE
  }

  /** A request with room for all of its data (non-filesystem requests carry none). */
  predicate Sized(r: Request, buf: seq<byte>) {
    r.Fs? ==> DataLength(r) <= |buf|
  }

  datatype Served = Served(store: seq<byte>, buf: seq<byte>, done: seq<Completion>)

  /** Serves the first `k` chunks of request `i` through its own buffer `buf`. */
  function ServeChunksOwn(store: seq<byte>, r: Request, buf: seq<byte>, i: nat, k: nat): (s: Served)
    requires r.Fs? && k <= NumChunks(r) && Sized(r, buf)
    ensures |s.store| == |store| && |s.buf| == |buf| && |s.done| == k
    decreases k
  {
    if k == 0 then Served(store, buf, [])
    else ChunkOwn(ServeChunksOwn(store, r, buf, i, k - 1), r, i, k - 1)
  }

  /** Chunk `j` of request `i`, copied at its own place in the request's buffer. */
  function ChunkOwn(prev: Served, r: Request, i: nat, j: nat): (s: Served)
    requires r.Fs? && j < NumChunks(r) && Sized(r, prev.buf)
    ensures |s.store| == |prev.store| && |s.buf| == |prev.buf|
    ensures s.done == prev.done + [Completion(i, ChunkStatus(r, j, |prev.store|))]
  {
    var off := ChunkOffset(r, j);
    var x := TransferEffect(prev.store, prev.buf[off..], ChunkSector(r, j), ChunkSectors(r, j), r.write);
    Served(x.store, prev.buf[..off] + x.buffer, prev.done + [Completion(i, x.status)])
  }

  /** Serves request `i` to the end through its own buffer. */
  function ServeOwn(store: seq<byte>, r: Request, buf: seq<byte>, i: nat): (s: Served)
    requires Sized(r, buf)
    ensures |s.store| == |store| && |s.buf| == |buf|
    ensures r.NonFs? ==> s == Served(store, buf, [Completion(i, -EIO)])
  {
    if r.NonFs? then Served(store, buf, [Completion(i, -EIO)])
    else ServeChunksOwn(store, r, buf, i, NumChunks(r))
  }

  /** The whole queue, fetch order, each request with its own buffer; returns the
      final store, every request's buffer afterwards, and the completions. */
  function RunOwn(store: seq<byte>, reqs: seq<Request>, bufs: seq<seq<byte>>): (res: (seq<byte>, seq<seq<byte>>, seq<Completion>))
    requires |bufs| == |reqs| && forall i :: 0 <= i < |reqs| ==> Sized(reqs[i], bufs[i])
    ensures |res.0| == |store| && |res.1| == |bufs|
    decreases |reqs|
  {
    if |reqs| == 0 then (store, [], [])
    else
      var n := |reqs| - 1;
      var (st, bs, done) := RunOwn(store, reqs[..n], bufs[..n]);
      var s := ServeOwn(st, reqs[n], bufs[n], n);
      (s.store, bs + [s.buf], done + s.done)
  }

  /** The corrected dispatcher reports the same completions as the one as
      written: positions, bounds checks and statuses are unchanged. */
  lemma {:induction false} RunOwnLog(store: seq<byte>, reqs: seq<Request>, bufs: seq<seq<byte>>)
    requires |bufs| == |reqs| && forall i :: 0 <= i < |reqs| ==> Sized(reqs[i], bufs[i])
    ensures RunOwn(store, reqs, bufs).2 == Plan(reqs, |store|)
    decreases |reqs|
  {
    if |reqs| > 0 {
      var n := |reqs| - 1;
      assert forall i :: 0 <= i < n ==> reqs[..n][i] == reqs[i] && bufs[..n][i] == bufs[i];
      RunOwnLog(store, reqs[..n], bufs[..n]);
      var st := RunOwn(store, reqs[..n], bufs[..n]).0;
      ServeOwnLog(st, reqs[n], bufs[n], n);
      assert Plan(reqs, |store|) == Plan(reqs[..n], |store|) + RequestPlan(n, reqs[n], |store|);
    }
  }

  lemma ServeOwnLog(store: seq<byte>, r: Request, buf: seq<byte>, i: nat)
    requires Sized(r, buf)
    ensures ServeOwn(store, r, buf, i).done == RequestPlan(i, r, |store|)
  {
    if r.Fs? {
      ServeChunksOwnLog(store, r, buf, i, NumChunks(r));
      var p := RequestPlan(i, r, |store|);
      assert p[..NumChunks(r)] == p;
    }
  }

  /** After `k` chunks the corrected dispatcher has reported the first `k`
      completions of the request's plan. */
  lemma {:induction false} ServeChunksOwnLog(store: seq<byte>, r: Request, buf: seq<byte>, i: nat, k: nat)
    requires r.Fs? && k <= NumChunks(r) && Sized(r, buf)
    ensures ServeChunksOwn(store, r, buf, i, k).done == RequestPlan(i, r, |store|)[..k]
    decreases k
  {
    if k > 0 {
      ServeChunksOwnLog(store, r, buf, i, k - 1);
      TakeSnoc(RequestPlan(i, r, |store|), k);
    }
  }

  /** Every request whose chunks all pass the bounds check: the range
      `[sector, sector + total sectors)` fits the store and a 32-bit position. */
  predicate WholeInRange(r: Request, size: nat) {
    r.Fs? && r.sector + Sum(r.segments) < 0x1_0000_0000
    && (r.sector + Sum(r.segments)) * KERNEL_SECTOR_SIZE <= size
  }

  /** The window of the store a whole request addresses. */
  function Start(r: Request): nat requires r.Fs? { r.sector * KERNEL_SECTOR_SIZE }

  lemma ChunkInRange(r: Request, size: nat, j: nat)
    requires WholeInRange(r, size) && j < NumChunks(r)
    ensures ChunkSector(r, j) == ChunkPos(r, j)
    ensures ChunkPos(r, j) * KERNEL_SECTOR_SIZE == Start(r) + ChunkOffset(r, j)
    ensures InRange(ChunkSector(r, j), ChunkSectors(r, j), size)
  {
    if j < |r.segments| { SumStep(r.segments, j); }
  }

  lemma ChunkOffsetNext(r: Request, k: nat)
    requires r.Fs? && 0 < k < NumChunks(r)
    ensures ChunkOffset(r, k) == ChunkOffset(r, k - 1) + ChunkSectors(r, k - 1) * KERNEL_SECTOR_SIZE
  {
    SumStep(r.segments, k - 1);
  }

  /** The bytes of request data covered by its first `k` chunks. */
  function Covered(r: Request, k: nat): nat
    requires r.Fs? && k <= NumChunks(r)
  {
    if k == NumChunks(r) then DataLength(r) else ChunkOffset(r, k)
  }

  lemma CoveredNext(r: Request, k: nat)
    requires r.Fs? && 0 < k <= NumChunks(r)
    ensures Covered(r, k) == ChunkOffset(r, k - 1) + ChunkSectors(r, k - 1) * KERNEL_SECTOR_SIZE
  {
    if k < NumChunks(r) {
      ChunkOffsetNext(r, k);
    } else if |r.segments| > 0 {
      SumStep(r.segments, k - 1);
      assert r.segments[..k] == r.segments;
    }
  }

  /** `s` holds the store with its bytes `[a, a + c)` replaced by the first
      `c` bytes of `buf`, and `buf` itself unchanged. */
  predicate WriteWindow(store: seq<byte>, buf: seq<byte>, a: nat, c: nat, s: Served) {
    && a + c <= |store| && c <= |buf|
    && s.store == store[..a] + buf[..c] + store[a + c..]
    && s.buf == buf
  }

  /** `s` holds `buf` with its first `c` bytes replaced by the store's bytes
      `[a, a + c)`, and the store itself unchanged. */
  predicate ReadWindow(store: seq<byte>, buf: seq<byte>, a: nat, c: nat, s: Served) {
    && a + c <= |store| && c <= |buf|
    && s.buf == store[a..a + c] + buf[c..]
    && s.store == store
  }

  /** What an in-range write has done, in `s`, after its first `k` chunks. */
  predicate WrittenSoFar(store: seq<byte>, r: Request, buf: seq<byte>, k: nat, s: Served)
    requires WholeInRange(r, |store|) && k <= NumChunks(r)
  {
    WriteWindow(store, buf, Start(r), Covered(r, k), s)
  }

  /** What an in-range read has done, in `s`, after its first `k` chunks. */
  predicate ReadSoFar(store: seq<byte>, r: Request, buf: seq<byte>, k: nat, s: Served)
    requires WholeInRange(r, |store|) && k <= NumChunks(r)
  {
    ReadWindow(store, buf, Start(r), Covered(r, k), s)
  }

  lemma CoveredZero(r: Request, size: nat)
    requires WholeInRange(r, size)
    ensures Covered(r, 0) == 0 && Start(r) <= size
  {
    assert r.segments[..0] == [];
    ChunkInRange(r, size, 0);
  }

  /** After `k` chunks of an in-range write, the store holds the first
      `Covered(r, k)` bytes of the request's data at the request's start. */
  lemma {:induction false} WriteChunksOwn(store: seq<byte>, r: Request, buf: seq<byte>, i: nat, k: nat)
    requires WholeInRange(r, |store|) && r.write && k <= NumChunks(r) && Sized(r, buf)
    ensures WrittenSoFar(store, r, buf, k, ServeChunksOwn(store, r, buf, i, k))
    decreases k
  {
    if k == 0 {
      CoveredZero(r, |store|);
      assert store[..Start(r)] + buf[..0] + store[Start(r)..] == store;
    } else {
      WriteChunksOwn(store, r, buf, i, k - 1);
      WriteChunkOwn(store, r, buf, i, k, ServeChunksOwn(store, r, buf, i, k - 1));
    }
  }

  /** One in-range write chunk widens the written window to `Covered(r, k)`. */
  lemma WriteChunkOwn(store: seq<byte>, r: Request, buf: seq<byte>, i: nat, k: nat, prev: Served)
    requires WholeInRange(r, |store|) && r.write && 0 < k <= NumChunks(r) && Sized(r, buf)
    requires WrittenSoFar(store, r, buf, k - 1, prev)
    ensures WrittenSoFar(store, r, buf, k, ChunkOwn(prev, r, i, k - 1))
  {
    var off := ChunkOffset(r, k - 1);
    ChunkFacts(r, |store|, k);
    WriteChunkAt(prev.store, prev.buf, ChunkSector(r, k - 1), ChunkSectors(r, k - 1), off, Start(r) + off);
    WriteStep(store, buf, Start(r), off, ChunkSectors(r, k - 1) * KERNEL_SECTOR_SIZE,
              Covered(r, k - 1), Covered(r, k), prev, ChunkOwn(prev, r, i, k - 1));
  }

  /** One more write chunk of `n` bytes, right after the `off` bytes already
      written, widens the written window by `n`. */
  lemma WriteStep(store: seq<byte>, buf: seq<byte>, a: nat, off: nat, n: nat, c0: nat, c: nat, prev: Served, s: Served)
    requires c0 == off && c == off + n
    requires WriteWindow(store, buf, a, c0, prev)
    requires a + off + n <= |store| && off + n <= |buf|
    requires s.store == prev.store[..a + off] + prev.buf[off..][..n] + prev.store[a + off + n..]
    requires s.buf == prev.buf
    ensures WriteWindow(store, buf, a, c, s)
  {
    var p := prev.store;
    assert p[..a + off] == store[..a] + buf[..off];
    assert p[a + off + n..] == store[a + off + n..];
    TakeJoin(buf, off, n);
    AppendAssoc(store[..a], buf[..off], buf[off..][..n]);
  }

  /** A write chunk from buffer offset `off` into a store window starting at byte `at`. */
  lemma WriteChunkAt(st: seq<byte>, pb: seq<byte>, sec: nat, ns: nat, off: nat, at: nat)
    requires sec * KERNEL_SECTOR_SIZE == at && at + ns * KERNEL_SECTOR_SIZE <= |st|
    requires off + ns * KERNEL_SECTOR_SIZE <= |pb|
    ensures var n := ns * KERNEL_SECTOR_SIZE;
            var x := TransferEffect(st, pb[off..], sec, ns, true);
            x.store == st[..at] + pb[off..][..n] + st[at + n..] && pb[..off] + x.buffer == pb
  {
    TransferWrites(st, pb[off..], sec, ns);
    assert pb[..off] + pb[off..] == pb;
  }

  /** Two adjacent slices of one sequence join into one. */
  lemma SliceJoin(s: seq<byte>, i: nat, j: nat, k: nat)
    requires i <= j <= k <= |s|
    ensures s[i..j] + s[j..k] == s[i..k]
  {
  }

  lemma TakeJoin(s: seq<byte>, i: nat, n: nat)
    requires i + n <= |s|
    ensures s[..i] + s[i..][..n] == s[..i + n]
  {
  }

  /** The facts about chunk `k - 1` that the two inductions use. */
  lemma ChunkFacts(r: Request, size: nat, k: nat)
    requires WholeInRange(r, size) && 0 < k <= NumChunks(r)
    ensures ChunkSector(r, k - 1) * KERNEL_SECTOR_SIZE == Start(r) + ChunkOffset(r, k - 1)
    ensures InRange(ChunkSector(r, k - 1), ChunkSectors(r, k - 1), size)
    ensures Covered(r, k - 1) == ChunkOffset(r, k - 1)
    ensures Covered(r, k) == ChunkOffset(r, k - 1) + ChunkSectors(r, k - 1) * KERNEL_SECTOR_SIZE
  {
    ChunkInRange(r, size, k - 1);
    CoveredNext(r, k);
  }

  /** After `k` chunks of an in-range read, the first `Covered(r, k)` bytes
      of the request's buffer hold the store's bytes at the request's start
      and the store is untouched. */
  lemma {:induction false} ReadChunksOwn(store: seq<byte>, r: Request, buf: seq<byte>, i: nat, k: nat)
    requires WholeInRange(r, |store|) && !r.write && k <= NumChunks(r) && Sized(r, buf)
    ensures ReadSoFar(store, r, buf, k, ServeChunksOwn(store, r, buf, i, k))
    decreases k
  {
    if k == 0 {
      CoveredZero(r, |store|);
      assert store[Start(r)..Start(r)] + buf[0..] == buf;
    } else {
      ReadChunksOwn(store, r, buf, i, k - 1);
      ReadChunkOwn(store, r, buf, i, k, ServeChunksOwn(store, r, buf, i, k - 1));
    }
  }

  /** One in-range read chunk widens the read window to `Covered(r, k)`. */
  lemma ReadChunkOwn(store: seq<byte>, r: Request, buf: seq<byte>, i: nat, k: nat, prev: Served)
    requires WholeInRange(r, |store|) && !r.write && 0 < k <= NumChunks(r) && Sized(r, buf)
    requires ReadSoFar(store, r, buf, k - 1, prev)
    ensures ReadSoFar(store, r, buf, k, ChunkOwn(prev, r, i, k - 1))
  {
    var off := ChunkOffset(r, k - 1);
    ChunkFacts(r, |store|, k);
    ReadChunkAt(prev.store, prev.buf, ChunkSector(r, k - 1), ChunkSectors(r, k - 1), off, Start(r) + off);
    ReadStep(store, buf, Start(r), off, ChunkSectors(r, k - 1) * KERNEL_SECTOR_SIZE,
             Covered(r, k - 1), Covered(r, k), prev, ChunkOwn(prev, r, i, k - 1));
  }

  /** One more read chunk of `n` bytes, right after the `off` bytes already
      read, widens the read window by `n`. */
  lemma ReadStep(store: seq<byte>, buf: seq<byte>, a: nat, off: nat, n: nat, c0: nat, c: nat, prev: Served, s: Served)
    requires c0 == off && c == off + n
    requires ReadWindow(store, buf, a, c0, prev)
    requires a + off + n <= |store| && off + n <= |buf|
    requires s.buf == prev.buf[..off] + (prev.store[a + off..a + off + n] + prev.buf[off..][n..])
    requires s.store == prev.store
    ensures ReadWindow(store, buf, a, c, s)
  {
    var p := prev.buf;
    assert p[..off] == store[a..a + off];
    assert p[off..][n..] == buf[off + n..];
    SliceJoin(store, a, a + off, a + off + n);
    AppendAssoc(store[a..a + off], store[a + off..a + off + n], buf[off + n..]);
  }

  /** A read chunk at buffer offset `off` of a store window starting at byte `at`. */
  lemma ReadChunkAt(st: seq<byte>, pb: seq<byte>, sec: nat, ns: nat, off: nat, at: nat)
    requires sec * KERNEL_SECTOR_SIZE == at && at + ns * KERNEL_SECTOR_SIZE <= |st|
    requires off + ns * KERNEL_SECTOR_SIZE <= |pb|
    ensures var n := ns * KERNEL_SECTOR_SIZE;
            var x := TransferEffect(st, pb[off..], sec, ns, false);
            pb[..off] + x.buffer == pb[..off] + (st[at..at + n] + pb[off..][n..]) && x.store == st
  {
    TransferReads(st, pb[off..], sec, ns);
  }

  /** With each request served through its own buffer, a write followed by a
      read of the same in-range sectors hands the reader exactly the bytes the
      writer supplied. */
  lemma OwnBufferRoundTrip(store: seq<byte>, sector: nat, segments: seq<u32>, wbuf: seq<byte>, rbuf: seq<byte>)
    requires WholeInRange(Fs(sector, segments, true), |store|)
    requires Sized(Fs(sector, segments, true), wbuf) && Sized(Fs(sector, segments, false), rbuf)
    ensures var len := DataLength(Fs(sector, segments, true));
            var res := RunOwn(store, [Fs(sector, segments, true), Fs(sector, segments, false)], [wbuf, rbuf]);
            res.1[1][..len] == wbuf[..len]
  {
    var w, r := Fs(sector, segments, true), Fs(sector, segments, false);
    var reqs, bufs := [w, r], [wbuf, rbuf];
    assert reqs[..1] == [w] && bufs[..1] == [wbuf];
    assert reqs[..0] == [] && bufs[..0] == [];
    WriteChunksOwn(store, w, wbuf, 0, NumChunks(w));
    var sw := ServeOwn(store, w, wbuf, 0);
    assert RunOwn(store, [w], [wbuf]).0 == sw.store;
    ReadChunksOwn(sw.store, r, rbuf, 1, NumChunks(r));
    assert Covered(w, NumChunks(w)) == DataLength(w) && Covered(r, NumChunks(r)) == DataLength(r);
    var a, len := Start(w), DataLength(w);
    assert sw.store[a..a + len] == wbuf[..len];
  }

  /** As written, a one-sector write request stores the head of the shared
      scratch buffer, whatever data the request carries; the corrected
      dispatcher stores the request's own data. The two disagree whenever the
      scratch buffer does not already hold that data. */
  lemma SharedBufferDropsWrite(store: seq<byte>, scratch: seq<byte>, payload: seq<byte>)
    requires |store| >= 512 && |scratch| >= 512 && |payload| >= 512
    ensures var reqs := [Fs(0, [1], true)];
            && QueueFits(reqs, |scratch|)
            && Run(Machine(store, scratch, []), reqs).store[..512] == scratch[..512]
            && RunOwn(store, reqs, [payload]).0[..512] == payload[..512]
  {
    SharedOneSectorWrite(store, scratch);
    OwnOneSectorWrite(store, payload);
  }

  /** A one-chunk, one-sector write at sector 0. */
  predicate OneSectorWrite(r: Request) {
    r.Fs? && r.sector == 0 && |r.segments| == 1 && r.segments[0] == 1 && r.write
  }

  /** The facts about such a request's only chunk. */
  lemma OneSectorChunk(r: Request)
    requires OneSectorWrite(r)
    ensures NumChunks(r) == 1 && ChunkSector(r, 0) == 0 && ChunkSectors(r, 0) == 1
    ensures ChunkOffset(r, 0) == 0 && Sum(r.segments) == 1
  {
    assert r.segments[..0] == [];
    assert r.segments[..1] == r.segments;
  }

  /** As written: one sector of the shared scratch buffer reaches the store. */
  lemma SharedOneSectorWrite(store: seq<byte>, scratch: seq<byte>)
    requires |store| >= 512 && |scratch| >= 512
    ensures var reqs := [Fs(0, [1], true)];
            && QueueFits(reqs, |scratch|)
            && Run(Machine(store, scratch, []), reqs).store[..512] == scratch[..512]
  {
    SharedOneSectorRun(store, scratch, [Fs(0, [1], true)]);
  }

  lemma SharedOneSectorRun(store: seq<byte>, scratch: seq<byte>, reqs: seq<Request>)
    requires |store| >= 512 && |scratch| >= 512
    requires |reqs| == 1 && OneSectorWrite(reqs[0])
    ensures QueueFits(reqs, |scratch|)
    ensures Run(Machine(store, scratch, []), reqs).store[..512] == scratch[..512]
  {
    var r := reqs[0];
    var m0 := Machine(store, scratch, []);
    assert reqs[..0] == [];
    OneSectorChunk(r);
    assert QueueFits(reqs, |scratch|);
    assert Run(m0, reqs) == Serve(m0, r, 0);
    assert Serve(m0, r, 0) == Chunk(m0, r, 0, 0);
    FirstSectorWritten(store, scratch);
  }

  lemma FirstSectorWritten(store: seq<byte>, data: seq<byte>)
    requires |store| >= 512 && |data| >= 512
    ensures TransferEffect(store, data, 0, 1, true).store[..512] == data[..512]
  {
    TransferWrites(store, data, 0, 1);
  }

  /** Corrected: one sector of the request's own data reaches the store. */
  lemma OwnOneSectorWrite(store: seq<byte>, payload: seq<byte>)
    requires |store| >= 512 && |payload| >= 512
    ensures RunOwn(store, [Fs(0, [1], true)], [payload]).0[..512] == payload[..512]
  {
    OwnOneSectorRun(store, [Fs(0, [1], true)], [payload]);
  }

  lemma OwnOneSectorRun(store: seq<byte>, reqs: seq<Request>, bufs: seq<seq<byte>>)
    requires |store| >= 512 && |reqs| == 1 && |bufs| == 1 && |bufs[0]| >= 512
    requires OneSectorWrite(reqs[0])
    ensures Sized(reqs[0], bufs[0])
    ensures RunOwn(store, reqs, bufs).0[..512] == bufs[0][..512]
  {
    var r, payload := reqs[0], bufs[0];
    assert reqs[..0] == [] && bufs[..0] == [];
    OneSectorChunk(r);
    assert RunOwn(store, reqs, bufs).0 == ServeOwn(store, r, payload, 0).store;
    assert ServeOwn(store, r, payload, 0) == ChunkOwn(Served(store, payload, []), r, 0, 0);
    assert payload[0..] == payload;
    FirstSectorWritten(store, payload);
  }

  /** The concrete case: a zeroed scratch buffer and a request of 0xAA bytes. */
  lemma SharedBufferDropsWriteExample()
    ensures var store, scratch := seq(512, _ => 0 as byte), seq(512, _ => 0 as byte);
            var reqs := [Fs(0, [1], true)];
            && QueueFits(reqs, |scratch|)
            && Run(Machine(store, scratch, []), reqs).store[0] == 0
            && RunOwn(store, reqs, [seq(512, _ => 0xAA as byte)]).0[0] == 0xAA
  {
    var store, scratch := seq(512, _ => 0 as byte), seq(512, _ => 0 as byte);
    var payload := seq(512, _ => 0xAA as byte);
    SharedBufferDropsWrite(store, scratch, payload);
    assert Run(Machine(store, scratch, []), [Fs(0, [1], true)]).store[..512][0] == scratch[0];
    assert RunOwn(store, [Fs(0, [1], true)], [payload]).0[..512][0] == payload[0];
  }
}
