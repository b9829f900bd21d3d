/**
 * The volume geometry read from the NTFS boot sector (`BootSector` in
 * src/helper.py). Opening the volume is left to the caller: the volume is
 * the byte image `vol`, and `f.read(512)` is its first (at most) 512 bytes.
 */
module Boot {
  import opened Bytes

  const BootSectorSize: nat := 512

  /** The dictionary `read` returns: bytes per sector, sectors per cluster, cluster size, MFT cluster. */
  datatype Geometry = Geometry(bps: nat, spc: nat, cls: nat, mft: nat)

  lemma LETwo(bs: seq<byte>)
    requires |bs| == 2
    ensures LE(bs) == bs[0] as int + 256 * bs[1] as int
  {
    assert bs[1..][1..] == [];
  }

  /**
   * The decoding part of `read`: `bps` is the little-endian u16 at bytes 11-12,
   * `spc` the byte at 13, `mft` the little-endian u64 at bytes 48-55 and the
   * cluster size their product. Indexing byte 13 of a shorter sector raises.
   */
  function DecodeBoot(boot: seq<byte>): (r: Result<Geometry>)
    ensures r.Err? <==> |boot| <= 13
    ensures r.Err? ==> r.fault == IndexError
    ensures r.Ok? ==> r.value.bps == boot[11] as int + 256 * boot[12] as int && r.value.spc == boot[13]
    ensures r.Ok? ==> r.value.cls == r.value.bps * r.value.spc
    ensures r.Ok? ==> r.value.mft == LE(Slice(boot, 48, 56))
    ensures r.Ok? ==> r.value.bps < 0x1_0000 && r.value.spc < 0x100 && r.value.mft < 0x1_0000_0000_0000_0000
  {
    if |boot| <= 13 then Err(IndexError)
    else
      LETwo(boot[11..13]);
      var bps := Field(boot, 11, 2);
      var spc := boot[13];
      FieldIsLE(boot, 48, 8);
      Ok(Geometry(bps, spc, bps * spc, Field(boot, 48, 8)))
  }

  /** Byte offset of the MFT on the volume (`base_offset` in src/worker.py). */
  function MftOffset(g: Geometry): nat { g.mft * g.cls }

  /** A sector saying 512 bytes per sector, 8 sectors per cluster and MFT cluster 100. */
  lemma ExampleGeometry(boot: seq<byte>)
    requires |boot| == BootSectorSize
    requires boot[11] == 0x00 && boot[12] == 0x02 && boot[13] == 8
    requires boot[48..56] == [100, 0, 0, 0, 0, 0, 0, 0]
    ensures DecodeBoot(boot) == Ok(Geometry(512, 8, 4096, 100))
    ensures MftOffset(DecodeBoot(boot).value) == 409600
  {
    assert boot[48..56] == EncodeLE(100, 8);
    LEOfEncode(100, 8);
  }

  class BootSector {
    var bps: nat
    var spc: nat
    var cls: nat
    var mft: nat

    constructor ()
      ensures bps == 0 && spc == 0 && cls == 0 && mft == 0
    {
      bps, spc, cls, mft := 0, 0, 0, 0;
    }

    /**
     * Reads the boot sector of `vol` into the four fields and returns them.
     * On a sector of 13 bytes or fewer `bps` has already been assigned when
     * reading byte 13 raises; the other fields keep their values.
     */
    method Read(vol: seq<byte>) returns (r: Result<Geometry>)
      modifies this
      ensures r == DecodeBoot(Slice(vol, 0, BootSectorSize))
      ensures r.Ok? ==> bps == r.value.bps && spc == r.value.spc && cls == r.value.cls && mft == r.value.mft
      ensures r.Err? ==> bps == Field(vol, 11, 2) && spc == old(spc) && cls == old(cls) && mft == old(mft)
    {
      var boot := Slice(vol, 0, BootSectorSize);
      SliceOfSlice(vol, 0, BootSectorSize, 11, 13);
      bps := Field(boot, 11, 2);
      if |boot| <= 13 {
        return Err(IndexError);
      }
      spc := boot[13];
      cls := bps * spc;
      mft := Field(boot, 48, 8);
      r := Ok(Geometry(bps, spc, cls, mft));
    }
  }
}
