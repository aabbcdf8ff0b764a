/**
 * The transfer engine: a bounds-checked copy between a disk's backing store
 * and a caller's buffer. Positions and lengths are in 512-byte kernel
 * sectors, whatever hardware sector size the disk was configured with.
 */
module Transfer {
  import opened BlockDefs

  /** Whether sectors `[sector, sector + nsect)` lie inside a store of `size` bytes. */
  predicate InRange(sector: nat, nsect: nat, size: nat)
    ensures InRange(sector, nsect, size) <==> (sector + nsect) * KERNEL_SECTOR_SIZE <= size
    ensures InRange(sector, nsect, size) ==> sector * KERNEL_SECTOR_SIZE <= size
  {
    sector * KERNEL_SECTOR_SIZE + nsect * KERNEL_SECTOR_SIZE <= size
  }

  datatype TransferResult = TransferResult(status: int, store: seq<byte>, buffer: seq<byte>)

  /** What `transfer` does to the store and the buffer, and what it returns. */
  function TransferEffect(store: seq<byte>, buffer: seq<byte>, sector: nat, nsect: nat, write: bool): (r: TransferResult)
    requires InRange(sector, nsect, |store|) ==> nsect * KERNEL_SECTOR_SIZE <= |buffer|
    ensures |r.store| == |store| && |r.buffer| == |buffer|
    ensures r.status == (if InRange(sector, nsect, |store|) then 0 else -EIO)
    // a rejected range touches nothing
    ensures !InRange(sector, nsect, |store|) ==> r.store == store && r.buffer == buffer
    // only a write changes the store, only a read the buffer
    ensures write ==> r.buffer == buffer
    ensures !write ==> r.store == store
  {
    var offset := sector * KERNEL_SECTOR_SIZE;
    var nbytes := nsect * KERNEL_SECTOR_SIZE;
    if offset + nbytes > |store| then
      TransferResult(-EIO, store, buffer)
    else if write then
      TransferResult(0, store[..offset] + buffer[..nbytes] + store[offset + nbytes..], buffer)
    else
      TransferResult(0, store, store[offset..offset + nbytes] + buffer[nbytes..])
  }

  /** An in-range write fills exactly the addressed window of the store from
      the head of the buffer; every other byte of the store keeps its value. */
  lemma TransferWrites(store: seq<byte>, buffer: seq<byte>, sector: nat, nsect: nat)
    requires InRange(sector, nsect, |store|) && nsect * KERNEL_SECTOR_SIZE <= |buffer|
    ensures var r := TransferEffect(store, buffer, sector, nsect, true);
            var offset, nbytes := sector * KERNEL_SECTOR_SIZE, nsect * KERNEL_SECTOR_SIZE;
            && r.store == store[..offset] + buffer[..nbytes] + store[offset + nbytes..]
            && r.store[offset..offset + nbytes] == buffer[..nbytes]
            && r.store[..offset] == store[..offset]
            && r.store[offset + nbytes..] == store[offset + nbytes..]
  {
  }

  /** An in-range read fills exactly the head of the buffer from the
      addressed window; the rest of the buffer keeps its value. */
  lemma TransferReads(store: seq<byte>, buffer: seq<byte>, sector: nat, nsect: nat)
    requires InRange(sector, nsect, |store|) && nsect * KERNEL_SECTOR_SIZE <= |buffer|
    ensures var r := TransferEffect(store, buffer, sector, nsect, false);
            var offset, nbytes := sector * KERNEL_SECTOR_SIZE, nsect * KERNEL_SECTOR_SIZE;
            && r.buffer == store[offset..offset + nbytes] + buffer[nbytes..]
            && r.buffer[..nbytes] == store[offset..offset + nbytes]
            && r.buffer[nbytes..] == buffer[nbytes..]
  {
  }

  /** Reading back a range just written returns exactly the bytes written,
      into whatever buffer the read uses. */
  lemma WriteThenRead(store: seq<byte>, wbuf: seq<byte>, rbuf: seq<byte>, sector: nat, nsect: nat)
    requires InRange(sector, nsect, |store|)
    requires nsect * KERNEL_SECTOR_SIZE <= |wbuf| && nsect * KERNEL_SECTOR_SIZE <= |rbuf|
    ensures var w := TransferEffect(store, wbuf, sector, nsect, true);
            var r := TransferEffect(w.store, rbuf, sector, nsect, false);
            && r.status == 0
            && r.buffer[..nsect * KERNEL_SECTOR_SIZE] == wbuf[..nsect * KERNEL_SECTOR_SIZE]
            && r.store == w.store
  {
    TransferWrites(store, wbuf, sector, nsect);
    var w := TransferEffect(store, wbuf, sector, nsect, true);
    TransferReads(w.store, rbuf, sector, nsect);
  }

  /** A read of a range that a write did not overlap still sees the old bytes. */
  lemma ReadMissesDisjointWrite(store: seq<byte>, wbuf: seq<byte>, rbuf: seq<byte>,
                                wsector: nat, wnsect: nat, rsector: nat, rnsect: nat)
    requires InRange(wsector, wnsect, |store|) && InRange(rsector, rnsect, |store|)
    requires wnsect * KERNEL_SECTOR_SIZE <= |wbuf| && rnsect * KERNEL_SECTOR_SIZE <= |rbuf|
    requires wsector + wnsect <= rsector || rsector + rnsect <= wsector
    ensures var w := TransferEffect(store, wbuf, wsector, wnsect, true);
            var r := TransferEffect(w.store, rbuf, rsector, rnsect, false);
            var roff := rsector * KERNEL_SECTOR_SIZE;
            r.buffer[..rnsect * KERNEL_SECTOR_SIZE] == store[roff..roff + rnsect * KERNEL_SECTOR_SIZE]
  {
    TransferWrites(store, wbuf, wsector, wnsect);
    var w := TransferEffect(store, wbuf, wsector, wnsect, true);
    TransferReads(w.store, rbuf, rsector, rnsect);
    var woff, wlen := wsector * KERNEL_SECTOR_SIZE, wnsect * KERNEL_SECTOR_SIZE;
    var roff, rlen := rsector * KERNEL_SECTOR_SIZE, rnsect * KERNEL_SECTOR_SIZE;
    forall k | roff <= k < roff + rlen
      ensures w.store[k] == store[k]
    {
      if k < woff {
        assert w.store[..woff][k] == store[..woff][k];
      } else {
        assert woff + wlen <= roff;
        assert w.store[woff + wlen..][k - (woff + wlen)] == store[woff + wlen..][k - (woff + wlen)];
      }
    }
  }

  /** `struct disk_dev`: the fields `transfer` uses. The store is allocated
      once with exactly `size` bytes and neither field changes afterwards. */
  class DiskDev {
    const size: nat
    const data: array<byte>

    predicate Valid() {
      data.Length == size
    }

    constructor (size: nat)
      ensures Valid() && this.size == size && fresh(data)
    {
      this.size := size;
      this.data := new byte[size];
    }

    /** `transfer`: rejects a range past the end with `-EIO`; otherwise one
        `memcpy`, into the store on a write and out of it on a read. */
    method Transfer(sector: nat, nsect: nat, buffer: array<byte>, write: bool) returns (ret: int)
      requires Valid() && buffer != data
      requires InRange(sector, nsect, size) ==> nsect * KERNEL_SECTOR_SIZE <= buffer.Length
      modifies data, buffer
      ensures var r := TransferEffect(old(data[..]), old(buffer[..]), sector, nsect, write);
              ret == r.status && data[..] == r.store && buffer[..] == r.buffer
    {
      var offset := sector * KERNEL_SECTOR_SIZE;
      var nbytes := nsect * KERNEL_SECTOR_SIZE;
      if offset + nbytes > size {
        return -EIO;
      }
      ghost var store, buf := data[..], buffer[..];
      if write {
        forall k | 0 <= k < nbytes {
          data[offset + k] := buffer[k];
        }
        assert data[..] == store[..offset] + buf[..nbytes] + store[offset + nbytes..];
      } else {
        forall k | 0 <= k < nbytes {
          buffer[k] := data[offset + k];
        }
        assert buffer[..] == store[offset..offset + nbytes] + buf[nbytes..];
      }
      return 0;
    }
  }
}
