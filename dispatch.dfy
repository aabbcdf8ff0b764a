/**
 * The request dispatcher `simple_request`: it drains a device's queue in
 * fetch order. A request that is not a filesystem request is failed with
 * `-EIO` as a whole; a filesystem request is served one chunk (the current
 * segment) at a time, each chunk through `transfer` with the driver's one
 * global scratch buffer, and the next request is fetched only once the
 * current one has no chunk left. The dispatcher runs under the device lock,
 * so the model treats it as having exclusive access.
 */
module Dispatch {
  import opened BlockDefs
  import opened Transfer

  /** A queued request as the dispatcher sees it: its type, start position
      (`blk_rq_pos`, a 64-bit `sector_t`), the sector count of each of its
      segments (`blk_rq_cur_sectors` at each step) and its direction. */
  datatype Request = NonFs | Fs(sector: nat, segments: seq<u32>, write: bool)

  /** One completion the dispatcher reports: the queue index of the request and the status. */
  datatype Completion = Completion(req: nat, status: int)

  /** What the dispatcher acts on: the backing store, the scratch buffer
      and the completions reported so far. */
  datatype Machine = Machine(store: seq<byte>, scratch: seq<byte>, done: seq<Completion>)

  function Sum(s: seq<u32>): nat {
    if |s| == 0 then 0 else Sum(s[..|s| - 1]) + s[|s| - 1]
  }

  /** How many times a filesystem request reaches `transfer`: once per
      segment, and once (for zero sectors) when it has no segment at all. */
  function NumChunks(r: Request): (n: nat)
    requires r.Fs?
    ensures n >= 1 && n >= |r.segments|
  {
    if |r.segments| == 0 then 1 else |r.segments|
  }

  /** The sector count `transfer` is given for chunk `j`: the current
      segment's, or 0 for a request without segments. */
  function ChunkSectors(r: Request, j: nat): (n: u32)
    requires r.Fs? && j < NumChunks(r)
    ensures j < |r.segments| ==> n == r.segments[j]
    ensures |r.segments| == 0 ==> n == 0
  {
    if j < |r.segments| then r.segments[j] else 0
  }

  /** The request position when chunk `j` is served: the request's sector
      plus the sectors of the chunks already completed. */
  function ChunkPos(r: Request, j: nat): (pos: nat)
    requires r.Fs? && j < NumChunks(r)
    ensures r.sector <= pos
  {
    r.sector + Sum(r.segments[..j])
  }

  /** The position starts at the request's sector and each chunk advances
      it by that chunk's sector count. */
  lemma ChunkPosNext(r: Request, j: nat)
    requires r.Fs? && j < NumChunks(r)
    ensures j == 0 ==> ChunkPos(r, j) == r.sector
    ensures 0 < j ==> ChunkPos(r, j) == ChunkPos(r, j - 1) + ChunkSectors(r, j - 1)
  {
    if j == 0 {
      assert r.segments[..0] == [];
    } else {
      SumStep(r.segments, j - 1);
    }
  }

  lemma {:induction false} SumStep(s: seq<u32>, j: nat)
    requires j < |s|
    ensures Sum(s[..j]) + s[j] == Sum(s[..j + 1]) <= Sum(s)
    decreases |s|
  {
    assert s[..j + 1][..j] == s[..j];
    if j + 1 < |s| {
      var n := |s| - 1;
      assert s[..n][..j] == s[..j] && s[..n][..j + 1] == s[..j + 1];
      SumStep(s[..n], j);
    } else {
      assert s[..j + 1] == s;
    }
  }

  /** The position as the dispatcher passes it: stored in an `unsigned` first,
      so it is the request position when that fits 32 bits and otherwise the
      position wrapped modulo 2^32 (see `TruncU32`). */
  function ChunkSector(r: Request, j: nat): (sector: u32)
    requires r.Fs? && j < NumChunks(r)
    ensures ChunkPos(r, j) < 0x1_0000_0000 ==> sector == ChunkPos(r, j)
  {
    TruncU32(ChunkPos(r, j))
  }

  /** Every segment of a filesystem request fits in the scratch buffer: the
      block layer never builds a segment larger than the queue's maximum
      segment size, far below the 4 MiB buffer. */
  predicate SegmentsFit(r: Request, scratchLen: nat) {
    r.Fs? ==> forall j :: 0 <= j < |r.segments| ==> r.segments[j] * KERNEL_SECTOR_SIZE <= scratchLen
  }

  predicate QueueFits(reqs: seq<Request>, scratchLen: nat) {
    forall i :: 0 <= i < |reqs| ==> SegmentsFit(reqs[i], scratchLen)
  }

  lemma ChunkFits(r: Request, j: nat, scratchLen: nat)
    requires r.Fs? && j < NumChunks(r) && SegmentsFit(r, scratchLen)
    ensures ChunkSectors(r, j) * KERNEL_SECTOR_SIZE <= scratchLen
  {
  }

  /** Serves the first `k` chunks of filesystem request number `i`. */
  function ServeChunks(m: Machine, r: Request, i: nat, k: nat): (m': Machine)
    requires r.Fs? && k <= NumChunks(r) && SegmentsFit(r, |m.scratch|)
    ensures |m'.store| == |m.store| && |m'.scratch| == |m.scratch|
    decreases k
  {
    if k == 0 then m
    else Chunk(ServeChunks(m, r, i, k - 1), r, i, k - 1)
  }

  /** One pass of the inner loop: chunk `j` of request `i` through the scratch buffer. */
  function Chunk(prev: Machine, r: Request, i: nat, j: nat): (m': Machine)
    requires r.Fs? && j < NumChunks(r) && SegmentsFit(r, |prev.scratch|)
    ensures |m'.store| == |prev.store| && |m'.scratch| == |prev.scratch|
    ensures m'.done == prev.done + [Completion(i, ChunkStatus(r, j, |prev.store|))]
  {
    ChunkFits(r, j, |prev.scratch|);
    var x := TransferEffect(prev.store, prev.scratch, ChunkSector(r, j), ChunkSectors(r, j), r.write);
    Machine(x.store, x.buffer, prev.done + [Completion(i, x.status)])
  }

  /** Serves request number `i` to the end. */
  function Serve(m: Machine, r: Request, i: nat): (m': Machine)
    requires SegmentsFit(r, |m.scratch|)
    ensures |m'.store| == |m.store| && |m'.scratch| == |m.scratch|
    // a non-filesystem request never reaches transfer
    ensures r.NonFs? ==> m' == Machine(m.store, m.scratch, m.done + [Completion(i, -EIO)])
  {
    if r.NonFs? then m.(done := m.done + [Completion(i, -EIO)])
    else ServeChunks(m, r, i, NumChunks(r))
  }

  /** Drains the whole queue, in fetch order. */
  function Run(m: Machine, reqs: seq<Request>): (m': Machine)
    requires QueueFits(reqs, |m.scratch|)
    ensures |m'.store| == |m.store| && |m'.scratch| == |m.scratch|
    decreases |reqs|
  {
    if |reqs| == 0 then m
    else
      var n := |reqs| - 1;
      Serve(Run(m, reqs[..n]), reqs[n], n)
  }

  /** The status of chunk `j`, decided by the bounds check alone. */
  function ChunkStatus(r: Request, j: nat, size: nat): int
    requires r.Fs? && j < NumChunks(r)
  {
    if InRange(ChunkSector(r, j), ChunkSectors(r, j), size) then 0 else -EIO
  }

  /** The completions request number `i` produces, whatever the data. */
  function RequestPlan(i: nat, r: Request, size: nat): (p: seq<Completion>)
    ensures |p| >= 1
  {
    if r.NonFs? then [Completion(i, -EIO)]
    else seq(NumChunks(r), j requires 0 <= j < NumChunks(r) => Completion(i, ChunkStatus(r, j, size)))
  }

  /** The completions the whole queue produces: each request's in turn. */
  function Plan(reqs: seq<Request>, size: nat): seq<Completion>
    decreases |reqs|
  {
    if |reqs| == 0 then []
    else
      var n := |reqs| - 1;
      Plan(reqs[..n], size) + RequestPlan(n, reqs[n], size)
  }

  lemma {:induction false} ServeChunksLog(m: Machine, r: Request, i: nat, k: nat)
    requires r.Fs? && k <= NumChunks(r) && SegmentsFit(r, |m.scratch|)
    ensures ServeChunks(m, r, i, k).done == m.done + RequestPlan(i, r, |m.store|)[..k]
    decreases k
  {
    if k > 0 {
      ServeChunksLog(m, r, i, k - 1);
      TakeSnoc(RequestPlan(i, r, |m.store|), k);
    }
  }

  /** The completion log of a run is exactly the plan: one `-EIO` per
      non-filesystem request, and for each chunk of a filesystem request 0
      or `-EIO` as the bounds check decides, in fetch order. */
  lemma {:induction false} RunLog(m: Machine, reqs: seq<Request>)
    requires QueueFits(reqs, |m.scratch|)
    ensures Run(m, reqs).done == m.done + Plan(reqs, |m.store|)
    decreases |reqs|
  {
    if |reqs| > 0 {
      var n := |reqs| - 1;
      RunLast(m, reqs);
      RunLog(m, reqs[..n]);
      var prev := Run(m, reqs[..n]);
      ServeLog(prev, reqs[n], n);
      AppendAssoc(m.done, Plan(reqs[..n], |m.store|), RequestPlan(n, reqs[n], |m.store|));
    }
  }

  /** One unfolding of `Run` and `Plan` at the last request of the queue. */
  lemma RunLast(m: Machine, reqs: seq<Request>)
    requires QueueFits(reqs, |m.scratch|) && |reqs| > 0
    ensures QueueFits(reqs[..|reqs| - 1], |m.scratch|)
    ensures SegmentsFit(reqs[|reqs| - 1], |m.scratch|)
    ensures Run(m, reqs).done == Serve(Run(m, reqs[..|reqs| - 1]), reqs[|reqs| - 1], |reqs| - 1).done
    ensures Plan(reqs, |m.store|) == Plan(reqs[..|reqs| - 1], |m.store|) + RequestPlan(|reqs| - 1, reqs[|reqs| - 1], |m.store|)
  {
  }

  lemma TakeSnoc(p: seq<Completion>, k: nat)
    requires 0 < k <= |p|
    ensures p[..k] == p[..k - 1] + [p[k - 1]]
  {
  }

  lemma ServeLog(m: Machine, r: Request, i: nat)
    requires SegmentsFit(r, |m.scratch|)
    ensures Serve(m, r, i).done == m.done + RequestPlan(i, r, |m.store|)
  {
    if r.Fs? {
      ServeChunksLog(m, r, i, NumChunks(r));
      var p := RequestPlan(i, r, |m.store|);
      assert p[..NumChunks(r)] == p;
    }
  }

  /** Serving a prefix of the queue reports a prefix of the whole queue's completions. */
  lemma {:induction false} PlanPrefix(reqs: seq<Request>, k: nat, size: nat)
    requires k <= |reqs|
    ensures Plan(reqs[..k], size) <= Plan(reqs, size)
    decreases |reqs|
  {
    if k < |reqs| {
      var n := |reqs| - 1;
      assert reqs[..n][..k] == reqs[..k];
      PlanPrefix(reqs[..n], k, size);
      assert Plan(reqs, size) == Plan(reqs[..n], size) + RequestPlan(n, reqs[n], size);
    } else {
      assert reqs[..k] == reqs;
    }
  }

  /** Request `i`'s completions follow those of every earlier request,
      whatever their statuses: a failed request does not stop the queue. */
  lemma RequestBlock(reqs: seq<Request>, i: nat, size: nat)
    requires i < |reqs|
    ensures Plan(reqs[..i], size) + RequestPlan(i, reqs[i], size) <= Plan(reqs, size)
  {
    PlanPrefix(reqs, i + 1, size);
    assert reqs[..i + 1][..i] == reqs[..i];
  }

  /** Completions come in fetch order, and each names a request of the queue. */
  lemma {:induction false} PlanInFetchOrder(reqs: seq<Request>, size: nat)
    ensures forall a :: 0 <= a < |Plan(reqs, size)| ==> Plan(reqs, size)[a].req < |reqs|
    ensures forall a, b :: 0 <= a < b < |Plan(reqs, size)| ==> Plan(reqs, size)[a].req <= Plan(reqs, size)[b].req
    decreases |reqs|
  {
    if |reqs| > 0 {
      var n := |reqs| - 1;
      PlanInFetchOrder(reqs[..n], size);
      var p: seq<Completion>, q: seq<Completion> := Plan(reqs[..n], size), RequestPlan(n, reqs[n], size);
      assert Plan(reqs, size) == p + q;
      forall a | 0 <= a < |p + q| ensures (p + q)[a].req <= n {
        if a >= |p| { assert (p + q)[a] == q[a - |p|]; }
      }
      forall a | |p| <= a < |p + q| ensures (p + q)[a].req == n {
        assert (p + q)[a] == q[a - |p|];
      }
    }
  }

  /** A queue with no filesystem write leaves the backing store as it was. */
  lemma {:induction false} ReadsKeepStore(m: Machine, reqs: seq<Request>)
    requires QueueFits(reqs, |m.scratch|)
    requires forall i :: 0 <= i < |reqs| && reqs[i].Fs? ==> !reqs[i].write
    ensures Run(m, reqs).store == m.store
    decreases |reqs|
  {
    if |reqs| > 0 {
      var n := |reqs| - 1;
      ReadsKeepStore(m, reqs[..n]);
      if reqs[n].Fs? {
        ReadChunksKeepStore(Run(m, reqs[..n]), reqs[n], n, NumChunks(reqs[n]));
      }
    }
  }

  lemma {:induction false} ReadChunksKeepStore(m: Machine, r: Request, i: nat, k: nat)
    requires r.Fs? && !r.write && k <= NumChunks(r) && SegmentsFit(r, |m.scratch|)
    ensures ServeChunks(m, r, i, k).store == m.store
    decreases k
  {
    if k > 0 {
      ReadChunksKeepStore(m, r, i, k - 1);
    }
  }

  /** The state `simple_request` has reached when it is about to serve
      chunk `j` of request `i` (or request `i` itself, if that is not a
      filesystem request, or nothing more, once `i` is past the end). */
  ghost function Resume(m0: Machine, reqs: seq<Request>, i: nat, j: nat): (m: Machine)
    requires i <= |reqs| && QueueFits(reqs, |m0.scratch|)
    requires i < |reqs| && reqs[i].Fs? ==> j <= NumChunks(reqs[i])
    ensures |m.store| == |m0.store| && |m.scratch| == |m0.scratch|
  {
    assert QueueFits(reqs[..i], |m0.scratch|);
    if i < |reqs| && reqs[i].Fs? then ServeChunks(Run(m0, reqs[..i]), reqs[i], i, j)
    else Run(m0, reqs[..i])
  }

  lemma StepNonFs(m0: Machine, reqs: seq<Request>, i: nat)
    requires i < |reqs| && reqs[i].NonFs? && QueueFits(reqs, |m0.scratch|)
    ensures var cur := Resume(m0, reqs, i, 0);
            Resume(m0, reqs, i + 1, 0) == Machine(cur.store, cur.scratch, cur.done + [Completion(i, -EIO)])
  {
    assert reqs[..i + 1][..i] == reqs[..i];
    assert QueueFits(reqs[..i + 1], |m0.scratch|);
    assert Resume(m0, reqs, i + 1, 0) == Run(m0, reqs[..i + 1]);
  }

  lemma StepChunk(m0: Machine, reqs: seq<Request>, i: nat, j: nat)
    requires i < |reqs| && reqs[i].Fs? && j < NumChunks(reqs[i])
    requires QueueFits(reqs, |m0.scratch|)
    ensures ChunkSectors(reqs[i], j) * KERNEL_SECTOR_SIZE <= |m0.scratch|
    ensures var cur := Resume(m0, reqs, i, j);
            var x := TransferEffect(cur.store, cur.scratch, ChunkSector(reqs[i], j), ChunkSectors(reqs[i], j), reqs[i].write);
            Machine(x.store, x.buffer, cur.done + [Completion(i, x.status)])
              == if j + 1 < NumChunks(reqs[i]) then Resume(m0, reqs, i, j + 1) else Resume(m0, reqs, i + 1, 0)
  {
    assert SegmentsFit(reqs[i], |m0.scratch|);
    ChunkFits(reqs[i], j, |m0.scratch|);
    assert QueueFits(reqs[..i], |m0.scratch|);
    var prev := Run(m0, reqs[..i]);
    assert Resume(m0, reqs, i, j) == ServeChunks(prev, reqs[i], i, j);
    if j + 1 == NumChunks(reqs[i]) {
      assert reqs[..i + 1][..i] == reqs[..i];
      assert QueueFits(reqs[..i + 1], |m0.scratch|);
      assert Run(m0, reqs[..i + 1]) == Serve(prev, reqs[i], i);
      assert Resume(m0, reqs, i + 1, 0) == Run(m0, reqs[..i + 1]);
    }
  }

  /** One pass of the loop for a filesystem request: chunk `j` of request `i`
      goes through `transfer` with the scratch buffer, at the position and
      sector count the request currently reports. */
  method TransferChunk(dev: DiskDev, ghost m0: Machine, reqs: seq<Request>, i: nat, j: nat, buffer: array<byte>)
      returns (ret: int)
    requires dev.Valid() && buffer != dev.data && QueueFits(reqs, |m0.scratch|)
    requires i < |reqs| && reqs[i].Fs? && j < NumChunks(reqs[i])
    requires var cur := Resume(m0, reqs, i, j);
             dev.data[..] == cur.store && buffer[..] == cur.scratch
    modifies dev.data, buffer
    ensures var next := if j + 1 < NumChunks(reqs[i]) then Resume(m0, reqs, i, j + 1) else Resume(m0, reqs, i + 1, 0);
            && dev.data[..] == next.store && buffer[..] == next.scratch
            && Resume(m0, reqs, i, j).done + [Completion(i, ret)] == next.done
  {
    StepChunk(m0, reqs, i, j);
    var req := reqs[i];
    var nrSectors := ChunkSectors(req, j);
    var sector := ChunkSector(req, j);
    ret := dev.Transfer(sector, nrSectors, buffer, req.write);
  }

  /** `simple_request`: drains `reqs` against `dev`, always passing the global
      scratch `buffer` to `transfer`, and returns the completions reported. */
  method SimpleRequest(dev: DiskDev, reqs: seq<Request>, buffer: array<byte>) returns (done: seq<Completion>)
    requires dev.Valid() && buffer != dev.data && buffer.Length == SCRATCH_SIZE
    requires QueueFits(reqs, buffer.Length)
    modifies dev.data, buffer
    ensures var m' := Run(Machine(old(dev.data[..]), old(buffer[..]), []), reqs);
            dev.data[..] == m'.store && buffer[..] == m'.scratch && done == m'.done
  {
    ghost var m0 := Machine(dev.data[..], buffer[..], []);
    done := [];
    var i, j := 0, 0;
    while i < |reqs|
      invariant 0 <= i <= |reqs|
      invariant i < |reqs| && reqs[i].Fs? ==> j < NumChunks(reqs[i])
      invariant i < |reqs| && reqs[i].NonFs? ==> j == 0
      invariant var cur := Resume(m0, reqs, i, j);
                dev.data[..] == cur.store && buffer[..] == cur.scratch && done == cur.done
      decreases |reqs| - i, if i < |reqs| && reqs[i].Fs? then NumChunks(reqs[i]) - j else 0
    {
      var req := reqs[i];
      if req.NonFs? {
        StepNonFs(m0, reqs, i);
        done := done + [Completion(i, -EIO)];
        i := i + 1;
        continue;
      }
      var ret := TransferChunk(dev, m0, reqs, i, j, buffer);
      done := done + [Completion(i, ret)];
      if j + 1 < NumChunks(req) {
        j := j + 1;
      } else {
        i, j := i + 1, 0;
      }
    }
    assert reqs[..i] == reqs;
  }
}
