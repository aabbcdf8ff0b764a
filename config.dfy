/**
 * The configuration arithmetic done when the module loads: the byte size
 * of each disk, the number of hardware sectors, the capacity announced to
 * the block layer, and the first minor number of each disk.
 */
module DiskConfig {
  import opened BlockDefs

  const MIB: nat := 1024 * 1024

  /** C `int` arithmetic as a kernel build performs it: two's complement wrap-around. */
  function WrapInt32(x: int): (r: int)
    ensures -0x8000_0000 <= r < 0x8000_0000
    ensures (x - r) % 0x1_0000_0000 == 0
    ensures -0x8000_0000 <= x < 0x8000_0000 ==> r == x
  {
    (x + 0x8000_0000) % 0x1_0000_0000 - 0x8000_0000
  }

  /** `dev->size = diskmb * 1024 * 1024` exactly as written: the product is an `int`. */
  function DiskSizeAsWritten(diskmb: int): (size: int)
    ensures 0 <= diskmb < 2048 ==> size == diskmb * MIB
  {
    WrapInt32(diskmb * MIB)
  }

  /** A 4097 MiB disk gets a backing store of only 1 MiB, and a bigger
      request yields a smaller disk than a 4 MiB one. */
  lemma DiskSizeOverflows()
    ensures DiskSizeAsWritten(4097) == MIB
    ensures DiskSizeAsWritten(4097) < DiskSizeAsWritten(4)
    ensures DiskSizeAsWritten(2048) < 0
  {
  }

  /** The byte size of each disk, computed without overflow. */
  function DiskSize(diskmb: nat): (size: nat)
    ensures size % MIB == 0 && size / MIB == diskmb
    ensures diskmb < 2048 ==> size == DiskSizeAsWritten(diskmb)
  {
    diskmb * MIB
  }

  /** A larger configured size never gives a smaller disk. */
  lemma DiskSizeMonotone(a: nat, b: nat)
    requires a <= b
    ensures DiskSize(a) <= DiskSize(b)
  {
    MulMonotone(MIB, a, b);
  }

  lemma MulMonotone(k: nat, a: nat, b: nat)
    requires a <= b
    ensures k * a <= k * b
  {
    assert k * b == k * a + k * (b - a);
  }

  /** `nsectors = size / hardsect_size`: the number of whole hardware sectors
      in the store. A zero sector size would be a division by zero. */
  function SectorCount(diskmb: nat, hardsectSize: nat): (n: nat)
    requires hardsectSize > 0
    ensures n * hardsectSize <= DiskSize(diskmb) < (n + 1) * hardsectSize
  {
    DiskSize(diskmb) / hardsectSize
  }

  /** `set_capacity(gd, nsectors * (hardsect_size / KERNEL_SECTOR_SIZE))`:
      the capacity announced to the block layer, in 512-byte sectors. */
  function Capacity(diskmb: nat, hardsectSize: nat): (c: nat)
    requires hardsectSize > 0
    // for a whole number of kernel sectors per hardware sector, the capacity
    // is the byte size of the `nsectors` hardware sectors
    ensures hardsectSize % KERNEL_SECTOR_SIZE == 0 ==>
              c * KERNEL_SECTOR_SIZE == SectorCount(diskmb, hardsectSize) * hardsectSize
  {
    var n, k := SectorCount(diskmb, hardsectSize), hardsectSize / KERNEL_SECTOR_SIZE;
    assert (n * k) * KERNEL_SECTOR_SIZE == n * (k * KERNEL_SECTOR_SIZE);
    n * k
  }

  /** The announced capacity never reaches past the end of the backing store,
      whatever the hardware sector size. */
  lemma CapacityWithinStore(diskmb: nat, hardsectSize: nat)
    requires hardsectSize > 0
    ensures Capacity(diskmb, hardsectSize) * KERNEL_SECTOR_SIZE <= DiskSize(diskmb)
  {
    var n := SectorCount(diskmb, hardsectSize);
    var k := hardsectSize / KERNEL_SECTOR_SIZE;
    assert k * KERNEL_SECTOR_SIZE <= hardsectSize;
    MulMonotone(n, k * KERNEL_SECTOR_SIZE, hardsectSize);
    assert Capacity(diskmb, hardsectSize) * KERNEL_SECTOR_SIZE == n * (k * KERNEL_SECTOR_SIZE);
  }

  /** When the hardware sector size is a multiple of 512 that divides the disk
      size, the announced capacity covers the backing store exactly. */
  lemma CapacityExact(diskmb: nat, hardsectSize: nat)
    requires hardsectSize > 0 && hardsectSize % KERNEL_SECTOR_SIZE == 0
    requires DiskSize(diskmb) % hardsectSize == 0
    ensures Capacity(diskmb, hardsectSize) * KERNEL_SECTOR_SIZE == DiskSize(diskmb)
  {
    assert SectorCount(diskmb, hardsectSize) * hardsectSize == DiskSize(diskmb);
  }

  function Abs(x: int): nat {
    if x < 0 then -x else x
  }

  /** C division on `int`: the quotient is truncated toward zero, so the
      remainder is smaller than the divisor and takes the dividend's sign. */
  function CDiv(a: int, b: int): (q: int)
    requires b != 0
    ensures Abs(a - q * b) < Abs(b)
    ensures a - q * b == 0 || (a - q * b < 0 <==> a < 0)
    ensures 0 <= a && 0 < b ==> q == a / b
  {
    if (a >= 0) == (b > 0) then
      (if a >= 0 then a / b else (-a) / (-b))
    else
      -((if a >= 0 then a else -a) / (if b > 0 then b else -b))
  }

  /** Unlike Dafny's `/`, C's division rounds a negative quotient up. */
  lemma CDivTruncates()
    ensures CDiv(-7, 2) == -3 && -7 / 2 == -4
  {
  }

  /** `nsectors = diskmb * 1024 * 1024 / hardsect_size` exactly as written:
      the wrapped `int` size divided in `int`. The two divisions that trap
      in `blk_init` are excluded: by zero, and `INT_MIN / -1`, whose
      quotient does not fit an `int`. */
  function SectorCountAsWritten(diskmb: int, hardsectSize: int): (n: int)
    requires hardsectSize != 0
    requires !(DiskSizeAsWritten(diskmb) == -0x8000_0000 && hardsectSize == -1)
    ensures -0x8000_0000 <= n < 0x8000_0000
    ensures 0 <= diskmb < 2048 && hardsectSize > 0 ==> n == SectorCount(diskmb, hardsectSize)
  {
    var size := DiskSizeAsWritten(diskmb);
    QuotientFitsInt32(size, hardsectSize);
    CDiv(size, hardsectSize)
  }

  /** An `int` quotient fits an `int` unless it is `INT_MIN / -1`. */
  lemma QuotientFitsInt32(a: int, b: int)
    requires -0x8000_0000 <= a < 0x8000_0000 && b != 0
    requires !(a == -0x8000_0000 && b == -1)
    ensures -0x8000_0000 <= CDiv(a, b) < 0x8000_0000
  {
    var m := Abs(a) / Abs(b);
    assert CDiv(a, b) == m || CDiv(a, b) == -m;
    if Abs(b) == 1 {
      assert m == Abs(a);
    } else {
      DivideByTwoOrMore(Abs(a), Abs(b));
    }
  }

  /** Dividing by two or more at least halves a natural number. */
  lemma DivideByTwoOrMore(x: nat, y: nat)
    requires y >= 2
    ensures (x / y) * 2 <= x
  {
    var m := x / y;
    assert x == y * m + x % y;
    MulMonotone(m, 2, y);
  }

  /** For 4097 MiB the sector count is that of a 1 MiB disk, not of 4097 MiB. */
  lemma SectorCountOverflows()
    ensures SectorCountAsWritten(4097, 512) == 2048
    ensures SectorCount(4097, 512) == 4097 * 2048
  {
    DiskSizeOverflows();
  }

  /** A hardware sector size below 512 announces a capacity of zero. */
  lemma CapacityZeroBelowKernelSector(diskmb: nat, hardsectSize: nat)
    requires 0 < hardsectSize < KERNEL_SECTOR_SIZE
    ensures Capacity(diskmb, hardsectSize) == 0
  {
  }

  /** `first_minor = which * DEV_MINORS`: each disk owns a block of minors. */
  function FirstMinor(which: nat): (first: nat)
    ensures first % DEV_MINORS == 0 && first / DEV_MINORS == which
  {
    which * DEV_MINORS
  }

  /** Distinct disks get disjoint minor ranges. */
  lemma MinorRangesDisjoint(a: nat, b: nat)
    requires a != b
    ensures FirstMinor(a) + DEV_MINORS <= FirstMinor(b) || FirstMinor(b) + DEV_MINORS <= FirstMinor(a)
  {
  }
}
