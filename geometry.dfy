/**
 * The legacy geometry reported by `my_getgeo` and the `my_ioctl` command
 * responder. Both read only the module-wide `diskmb` setting, never the
 * device they are asked about.
 */
module Geometry {
  import opened BlockDefs
  import DiskConfig

  /** `struct hd_geometry`: heads and sectors are `unsigned char`,
      cylinders `unsigned short`, start `unsigned long`. */
  datatype Geometry = Geometry(heads: nat, sectors: nat, cylinders: nat, start: nat)

  /** `my_getgeo`: fills the geometry from `diskmb` and returns status 0.
      `(diskmb * 1024) * 2` is an `int` product converted to `unsigned long`,
      and the cylinder count is stored in an `unsigned short`. */
  function GetGeo(diskmb: int): (r: (int, Geometry))
    ensures r.0 == 0
    ensures r.1.heads == 4 && r.1.sectors == 16 && r.1.start == 16
    // neither the `int` wrap-around nor the sign extension disturbs the
    // low 16 bits of the cylinder count
    ensures r.1.cylinders == (32 * diskmb) % 0x1_0000
    ensures 0 <= diskmb < 2048 ==> r.1.cylinders == 32 * diskmb
  {
    var sectors := DiskConfig.WrapInt32((diskmb * 1024) * 2) % 0x1_0000_0000_0000_0000;
    var heads := 4;
    var sectorsPerTrack := 16;
    CylindersLowBits(diskmb, sectors);
    (0, Geometry(heads, sectorsPerTrack, (sectors / heads / sectorsPerTrack) % 0x1_0000, sectorsPerTrack))
  }

  /** The sector count as `unsigned long`, divided by 4 heads and 16 sectors
      per track, keeps the low 16 bits of `32 * diskmb`. */
  lemma CylindersLowBits(diskmb: int, sectors: int)
    requires sectors == DiskConfig.WrapInt32(diskmb * 2048) % 0x1_0000_0000_0000_0000
    ensures (sectors / 4 / 16) % 0x1_0000 == (32 * diskmb) % 0x1_0000
  {
    var w := DiskConfig.WrapInt32(diskmb * 2048);
    var m := (diskmb * 2048 - w) / 0x1_0000_0000;
    var k := w / 0x1_0000_0000_0000_0000;
    assert w == diskmb * 2048 - m * 0x1_0000_0000;
    assert sectors == w - k * 0x1_0000_0000_0000_0000;
    var c := 32 * diskmb - m * 0x400_0000 - k * 0x400_0000_0000_0000;
    assert sectors == 64 * c;
    assert sectors / 4 / 16 == c;
    assert c == 32 * diskmb + 0x1_0000 * (-m * 0x400 - k * 0x400_0000_0000);
    ShiftMod(32 * diskmb, -m * 0x400 - k * 0x400_0000_0000);
  }

  /** Adding a multiple of 2^16 does not change the low 16 bits. */
  lemma ShiftMod(x: int, t: int)
    ensures (x + 0x1_0000 * t) % 0x1_0000 == x % 0x1_0000
  {
    var q := x / 0x1_0000;
    assert x + 0x1_0000 * t == 0x1_0000 * (q + t) + x % 0x1_0000;
  }

  /** While the cylinder count fits its field, the reported geometry
      describes exactly the bytes of the backing store. */
  lemma GeometryCoversDisk(diskmb: nat)
    requires diskmb < 2048
    ensures var g := GetGeo(diskmb).1;
            g.cylinders * g.heads * g.sectors * KERNEL_SECTOR_SIZE == DiskConfig.DiskSize(diskmb)
  {
    var g := GetGeo(diskmb).1;
    assert g.cylinders * g.heads * g.sectors == diskmb * 2048;
  }

  /** What `my_ioctl` hands back: its status and, when the copy to user
      space succeeded, the geometry the caller received. */
  datatype IoctlResult = IoctlResult(status: int, copied: Option<Geometry>)

  /** `my_ioctl`: `HDIO_GETGEO` copies the geometry out (`-EFAULT` when that
      copy faults); every other command fails with `-ENOTTY`. Whether
      `copy_to_user` faults is a parameter. */
  function Ioctl(diskmb: int, cmd: u32, copyFaults: bool): (r: IoctlResult)
    ensures r.status == 0 <==> cmd == HDIO_GETGEO && !copyFaults
    ensures r.status == 0 ==> r.copied == Some(GetGeo(diskmb).1)
    ensures cmd == HDIO_GETGEO && copyFaults ==> r == IoctlResult(-EFAULT, None)
    ensures cmd != HDIO_GETGEO ==> r == IoctlResult(-ENOTTY, None)
  {
    if cmd == HDIO_GETGEO then
      var (_, geo) := GetGeo(diskmb);
      if copyFaults then IoctlResult(-EFAULT, None) else IoctlResult(0, Some(geo))
    else
      IoctlResult(-ENOTTY, None)
  }

  /** The default 4 MiB disk reports 128 cylinders of 4 heads and 16 sectors. */
  lemma DefaultGeometry()
    ensures GetGeo(4).1 == Geometry(4, 16, 128, 16)
    ensures Ioctl(4, HDIO_GETGEO, false) == IoctlResult(0, Some(Geometry(4, 16, 128, 16)))
  {
  }
}
