/** Constants and machine types shared by the RAM-disk driver model. */
module BlockDefs {

  /** One byte of the backing store or of a transfer buffer. */
  type byte = bv8

  /** A C `unsigned int`. */
  type u32 = x: int | 0 <= x < 0x1_0000_0000

  /** Bytes per kernel sector; the unit of every request position and length. */
  const KERNEL_SECTOR_SIZE: nat := 512

  /** Minor numbers reserved per disk (whole disk plus partitions). */
  const DEV_MINORS: nat := 16

  /** Size of the driver's global scratch buffer (4 MiB). */
  const SCRATCH_SIZE: nat := 4 * 1024 * 1024

  /** Linux errno values the driver returns, negated at the return site. */
  const EIO: int := 5
  const EFAULT: int := 14
  const ENOTTY: int := 25

  /** The `HDIO_GETGEO` ioctl command number. */
  const HDIO_GETGEO: u32 := 0x0301

  /** `sector_t` narrowed to a C `unsigned int`, as an assignment does. */
  function TruncU32(x: nat): (r: u32)
    ensures x < 0x1_0000_0000 ==> r == x
    ensures (x - r) % 0x1_0000_0000 == 0
  {
    x % 0x1_0000_0000
  }

  datatype Option<T> = None | Some(value: T)

  lemma AppendAssoc<T>(a: seq<T>, b: seq<T>, c: seq<T>)
    ensures (a + b) + c == a + (b + c)
  {
  }
}
