/**
 * The three packed little-endian records of the driver: the 512-byte boot sector
 * (`fat_bs_t`), the 512-byte FSInfo sector (`fat_is_t`) and the 32-byte directory
 * entry (`cluster_entry`). Decoding reads each field at its offset in the packed
 * struct; encoding writes the fields one after another, so the round trips below
 * prove that the offsets agree with the packed field order and widths.
 */
module Records {
  import opened Bytes

  const SECTOR_SIZE: nat := 512
  const ENTRY_SIZE: nat := 32
  /** Directory entries per 512-byte sector. */
  const ENTRIES_PER_SECTOR: nat := 16

  datatype BootSector = BootSector(
    jump: Bytes3,
    oemName: Bytes8,
    bytesPerSector: U16,
    sectorsPerCluster: Byte,
    reservedSectors: U16,
    numberOfFat: Byte,
    rootDirectoriesEntries: U16,
    totalSectors: U16,
    mediaDescriptor: Byte,
    sectorsPerFat: U16,
    sectorsPerTrack: U16,
    heads: U16,
    hiddenSectors: U32,
    totalSectorsLong: U32,
    sectorsPerFatLong: U32,
    driveDescription: U16,
    version: U16,
    rootDirectoryClusterStart: U32,
    fsInformationSector: U16,
    bootSectorsCopySector: U16,
    filler: Bytes12,
    physicalDriveNumber: Byte,
    reserved: Byte,
    extendedBootSignature: Byte,
    volumeId: U32,
    volumeLabel: Bytes11,
    fileSystemType: Bytes8,
    bootCode: Bytes420,
    signature: U16)

  datatype InfoSector = InfoSector(
    signatureStart: U32,
    reserved: Bytes480,
    signatureMiddle: U32,
    freeClusters: U32,
    allocatedClusters: U32,
    reserved2: Bytes12,
    signatureEnd: U32)

  datatype DirEntry = DirEntry(
    name: Bytes11,
    attrib: Byte,
    reserved: Byte,
    creationTimeSeconds: Byte,
    creationTime: U16,
    creationDate: U16,
    accessedDate: U16,
    clusterHigh: U16,
    modificationTime: U16,
    modificationDate: U16,
    clusterLow: U16,
    fileSize: U32)

  /** Reinterprets one 512-byte sector as a `fat_bs_t`. */
  function DecodeBoot(b: seq<Byte>): BootSector
    requires |b| == SECTOR_SIZE
  {
    BootSector(
      b[0..3], b[3..11], Le16(b[11..13]), b[13], Le16(b[14..16]), b[16],
      Le16(b[17..19]), Le16(b[19..21]), b[21], Le16(b[22..24]), Le16(b[24..26]),
      Le16(b[26..28]), Le32(b[28..32]), Le32(b[32..36]), Le32(b[36..40]),
      Le16(b[40..42]), Le16(b[42..44]), Le32(b[44..48]), Le16(b[48..50]),
      Le16(b[50..52]), b[52..64], b[64], b[65], b[66], Le32(b[67..71]),
      b[71..82], b[82..90], b[90..510], Le16(b[510..512]))
  }

  /** The in-memory bytes of a packed `fat_bs_t`, field after field (in six runs of fields). */
  function EncodeBoot(bs: BootSector): (b: seq<Byte>)
    ensures |b| == SECTOR_SIZE
  {
    BootRun0(bs) + BootRun16(bs) + BootRun28(bs) + BootRun44(bs) + BootRun67(bs) + BootRun90(bs)
  }

  /** Bytes 0 to 16: jump, OEM name, bytes per sector, sectors per cluster, reserved sectors. */
  function BootRun0(bs: BootSector): (b: seq<Byte>)
    ensures |b| == 16
  {
    bs.jump + bs.oemName + Enc16(bs.bytesPerSector) + [bs.sectorsPerCluster] + Enc16(bs.reservedSectors)
  }

  /** Bytes 16 to 28: FAT count up to the number of heads. */
  function BootRun16(bs: BootSector): (b: seq<Byte>)
    ensures |b| == 12
  {
    [bs.numberOfFat] + Enc16(bs.rootDirectoriesEntries) + Enc16(bs.totalSectors)
    + [bs.mediaDescriptor] + Enc16(bs.sectorsPerFat) + Enc16(bs.sectorsPerTrack) + Enc16(bs.heads)
  }

  /** Bytes 28 to 44: hidden sectors up to the version. */
  function BootRun28(bs: BootSector): (b: seq<Byte>)
    ensures |b| == 16
  {
    Enc32(bs.hiddenSectors) + Enc32(bs.totalSectorsLong) + Enc32(bs.sectorsPerFatLong)
    + Enc16(bs.driveDescription) + Enc16(bs.version)
  }

  /** Bytes 44 to 67: root cluster up to the extended boot signature. */
  function BootRun44(bs: BootSector): (b: seq<Byte>)
    ensures |b| == 23
  {
    Enc32(bs.rootDirectoryClusterStart) + Enc16(bs.fsInformationSector)
    + Enc16(bs.bootSectorsCopySector) + bs.filler + [bs.physicalDriveNumber] + [bs.reserved]
    + [bs.extendedBootSignature]
  }

  /** Bytes 67 to 90: volume id, label and file system type. */
  function BootRun67(bs: BootSector): (b: seq<Byte>)
    ensures |b| == 23
  {
    Enc32(bs.volumeId) + bs.volumeLabel + bs.fileSystemType
  }

  /** Bytes 90 to 512: boot code and the end signature. */
  function BootRun90(bs: BootSector): (b: seq<Byte>)
    ensures |b| == 422
  {
    bs.bootCode + Enc16(bs.signature)
  }

  /** Reinterprets one 512-byte sector as a `fat_is_t`. */
  function DecodeInfo(b: seq<Byte>): InfoSector
    requires |b| == SECTOR_SIZE
  {
    InfoSector(
      Le32(b[0..4]), b[4..484], Le32(b[484..488]), Le32(b[488..492]),
      Le32(b[492..496]), b[496..508], Le32(b[508..512]))
  }

  /** The in-memory bytes of a packed `fat_is_t`, field after field. */
  function EncodeInfo(info: InfoSector): (b: seq<Byte>)
    ensures |b| == SECTOR_SIZE
  {
    Enc32(info.signatureStart) + info.reserved + Enc32(info.signatureMiddle) + Enc32(info.freeClusters)
    + Enc32(info.allocatedClusters) + info.reserved2 + Enc32(info.signatureEnd)
  }

  /** Reinterprets 32 bytes as a `cluster_entry`. */
  function DecodeEntry(b: seq<Byte>): DirEntry
    requires |b| == ENTRY_SIZE
  {
    DirEntry(
      b[0..11], b[11], b[12], b[13], Le16(b[14..16]), Le16(b[16..18]), Le16(b[18..20]),
      Le16(b[20..22]), Le16(b[22..24]), Le16(b[24..26]), Le16(b[26..28]), Le32(b[28..32]))
  }

  /** The in-memory bytes of a packed `cluster_entry`, field after field. */
  function EncodeEntry(e: DirEntry): (b: seq<Byte>)
    ensures |b| == ENTRY_SIZE
  {
    e.name + [e.attrib] + [e.reserved] + [e.creationTimeSeconds] + Enc16(e.creationTime)
    + Enc16(e.creationDate) + Enc16(e.accessedDate) + Enc16(e.clusterHigh)
    + Enc16(e.modificationTime) + Enc16(e.modificationDate) + Enc16(e.clusterLow)
    + Enc32(e.fileSize)
  }

  lemma DecodeEncodeEntry(e: DirEntry)
    ensures DecodeEntry(EncodeEntry(e)) == e
  {
    var b := EncodeEntry(e);
    // The prefixes of the encoding, one field longer each time.
    var p1 := e.name + [e.attrib];
    var p2 := p1 + [e.reserved];
    var p3 := p2 + [e.creationTimeSeconds];
    var p4 := p3 + Enc16(e.creationTime);
    var p5 := p4 + Enc16(e.creationDate);
    var p6 := p5 + Enc16(e.accessedDate);
    var p7 := p6 + Enc16(e.clusterHigh);
    var p8 := p7 + Enc16(e.modificationTime);
    var p9 := p8 + Enc16(e.modificationDate);
    var p10 := p9 + Enc16(e.clusterLow);
    assert b[0..32] == p10 + Enc32(e.fileSize);
    SliceOfConcat(b, 0, 28, 32, p10, Enc32(e.fileSize));
    SliceOfConcat(b, 0, 26, 28, p9, Enc16(e.clusterLow));
    SliceOfConcat(b, 0, 24, 26, p8, Enc16(e.modificationDate));
    SliceOfConcat(b, 0, 22, 24, p7, Enc16(e.modificationTime));
    SliceOfConcat(b, 0, 20, 22, p6, Enc16(e.clusterHigh));
    SliceOfConcat(b, 0, 18, 20, p5, Enc16(e.accessedDate));
    SliceOfConcat(b, 0, 16, 18, p4, Enc16(e.creationDate));
    SliceOfConcat(b, 0, 14, 16, p3, Enc16(e.creationTime));
    SliceOfConcat(b, 0, 13, 14, p2, [e.creationTimeSeconds]);
    SliceOfConcat(b, 0, 12, 13, p1, [e.reserved]);
    SliceOfConcat(b, 0, 11, 12, e.name, [e.attrib]);
    assert b[11] == b[11..12][0] && b[12] == b[12..13][0] && b[13] == b[13..14][0];
    Le16Enc16(e.creationTime);
    Le16Enc16(e.creationDate);
    Le16Enc16(e.accessedDate);
    Le16Enc16(e.clusterHigh);
    Le16Enc16(e.modificationTime);
    Le16Enc16(e.modificationDate);
    Le16Enc16(e.clusterLow);
    Le32Enc32(e.fileSize);
  }

  lemma EncodeDecodeEntry(b: seq<Byte>)
    requires |b| == ENTRY_SIZE
    ensures EncodeEntry(DecodeEntry(b)) == b
  {
    Enc16Le16(b[14..16]);
    Enc16Le16(b[16..18]);
    Enc16Le16(b[18..20]);
    Enc16Le16(b[20..22]);
    Enc16Le16(b[22..24]);
    Enc16Le16(b[24..26]);
    Enc16Le16(b[26..28]);
    Enc32Le32(b[28..32]);
    assert b[11..12] == [b[11]] && b[12..13] == [b[12]] && b[13..14] == [b[13]];
    // Grow the prefix of `b` one field at a time.
    SliceSplit(b, 0, 11, 12);
    SliceSplit(b, 0, 12, 13);
    SliceSplit(b, 0, 13, 14);
    SliceSplit(b, 0, 14, 16);
    SliceSplit(b, 0, 16, 18);
    SliceSplit(b, 0, 18, 20);
    SliceSplit(b, 0, 20, 22);
    SliceSplit(b, 0, 22, 24);
    SliceSplit(b, 0, 24, 26);
    SliceSplit(b, 0, 26, 28);
    SliceSplit(b, 0, 28, 32);
    assert b == b[0..32];
  }

  lemma DecodeEncodeInfo(info: InfoSector)
    ensures DecodeInfo(EncodeInfo(info)) == info
  {
    var b := EncodeInfo(info);
    var p1 := Enc32(info.signatureStart) + info.reserved;
    var p2 := p1 + Enc32(info.signatureMiddle);
    var p3 := p2 + Enc32(info.freeClusters);
    var p4 := p3 + Enc32(info.allocatedClusters);
    var p5 := p4 + info.reserved2;
    assert b[0..512] == p5 + Enc32(info.signatureEnd);
    SliceOfConcat(b, 0, 508, 512, p5, Enc32(info.signatureEnd));
    SliceOfConcat(b, 0, 496, 508, p4, info.reserved2);
    SliceOfConcat(b, 0, 492, 496, p3, Enc32(info.allocatedClusters));
    SliceOfConcat(b, 0, 488, 492, p2, Enc32(info.freeClusters));
    SliceOfConcat(b, 0, 484, 488, p1, Enc32(info.signatureMiddle));
    SliceOfConcat(b, 0, 4, 484, Enc32(info.signatureStart), info.reserved);
    Le32Enc32(info.signatureStart);
    Le32Enc32(info.signatureMiddle);
    Le32Enc32(info.freeClusters);
    Le32Enc32(info.allocatedClusters);
    Le32Enc32(info.signatureEnd);
  }

  lemma EncodeDecodeInfo(b: seq<Byte>)
    requires |b| == SECTOR_SIZE
    ensures EncodeInfo(DecodeInfo(b)) == b
  {
    Enc32Le32(b[0..4]);
    Enc32Le32(b[484..488]);
    Enc32Le32(b[488..492]);
    Enc32Le32(b[492..496]);
    Enc32Le32(b[508..512]);
    SliceSplit(b, 0, 4, 484);
    SliceSplit(b, 0, 484, 488);
    SliceSplit(b, 0, 488, 492);
    SliceSplit(b, 0, 492, 496);
    SliceSplit(b, 0, 496, 508);
    SliceSplit(b, 0, 508, 512);
    assert b == b[0..512];
  }

  lemma DecodeEncodeBoot(bs: BootSector)
    ensures DecodeBoot(EncodeBoot(bs)) == bs
  {
    var b := EncodeBoot(bs);
    var p1 := BootRun0(bs) + BootRun16(bs);
    var p2 := p1 + BootRun28(bs);
    var p3 := p2 + BootRun44(bs);
    var p4 := p3 + BootRun67(bs);
    assert b[0..512] == p4 + BootRun90(bs);
    SliceOfConcat(b, 0, 90, 512, p4, BootRun90(bs));
    SliceOfConcat(b, 0, 67, 90, p3, BootRun67(bs));
    SliceOfConcat(b, 0, 44, 67, p2, BootRun44(bs));
    SliceOfConcat(b, 0, 28, 44, p1, BootRun28(bs));
    SliceOfConcat(b, 0, 16, 28, BootRun0(bs), BootRun16(bs));
    DecodeRun0(bs, b);
    DecodeRun28(bs, b);
    DecodeRun67(bs, b);
  }

  lemma DecodeRun0(bs: BootSector, b: seq<Byte>)
    requires |b| == SECTOR_SIZE && b[0..16] == BootRun0(bs) && b[16..28] == BootRun16(bs)
    ensures b[0..3] == bs.jump && b[3..11] == bs.oemName
    ensures Le16(b[11..13]) == bs.bytesPerSector && b[13] == bs.sectorsPerCluster
    ensures Le16(b[14..16]) == bs.reservedSectors && b[16] == bs.numberOfFat
    ensures Le16(b[17..19]) == bs.rootDirectoriesEntries && Le16(b[19..21]) == bs.totalSectors
    ensures b[21] == bs.mediaDescriptor && Le16(b[22..24]) == bs.sectorsPerFat
    ensures Le16(b[24..26]) == bs.sectorsPerTrack && Le16(b[26..28]) == bs.heads
  {
    var a1 := bs.jump + bs.oemName;
    var a2 := a1 + Enc16(bs.bytesPerSector);
    var a3 := a2 + [bs.sectorsPerCluster];
    SliceOfConcat(b, 0, 14, 16, a3, Enc16(bs.reservedSectors));
    SliceOfConcat(b, 0, 13, 14, a2, [bs.sectorsPerCluster]);
    SliceOfConcat(b, 0, 11, 13, a1, Enc16(bs.bytesPerSector));
    SliceOfConcat(b, 0, 3, 11, bs.jump, bs.oemName);
    var c1 := [bs.numberOfFat] + Enc16(bs.rootDirectoriesEntries);
    var c2 := c1 + Enc16(bs.totalSectors);
    var c3 := c2 + [bs.mediaDescriptor];
    var c4 := c3 + Enc16(bs.sectorsPerFat);
    var c5 := c4 + Enc16(bs.sectorsPerTrack);
    SliceOfConcat(b, 16, 26, 28, c5, Enc16(bs.heads));
    SliceOfConcat(b, 16, 24, 26, c4, Enc16(bs.sectorsPerTrack));
    SliceOfConcat(b, 16, 22, 24, c3, Enc16(bs.sectorsPerFat));
    SliceOfConcat(b, 16, 21, 22, c2, [bs.mediaDescriptor]);
    SliceOfConcat(b, 16, 19, 21, c1, Enc16(bs.totalSectors));
    SliceOfConcat(b, 16, 17, 19, [bs.numberOfFat], Enc16(bs.rootDirectoriesEntries));
    assert b[13] == b[13..14][0] && b[16] == b[16..17][0] && b[21] == b[21..22][0];
    Le16Enc16(bs.bytesPerSector);
    Le16Enc16(bs.reservedSectors);
    Le16Enc16(bs.rootDirectoriesEntries);
    Le16Enc16(bs.totalSectors);
    Le16Enc16(bs.sectorsPerFat);
    Le16Enc16(bs.sectorsPerTrack);
    Le16Enc16(bs.heads);
  }

  lemma DecodeRun28(bs: BootSector, b: seq<Byte>)
    requires |b| == SECTOR_SIZE && b[28..44] == BootRun28(bs) && b[44..67] == BootRun44(bs)
    ensures Le32(b[28..32]) == bs.hiddenSectors && Le32(b[32..36]) == bs.totalSectorsLong
    ensures Le32(b[36..40]) == bs.sectorsPerFatLong && Le16(b[40..42]) == bs.driveDescription
    ensures Le16(b[42..44]) == bs.version && Le32(b[44..48]) == bs.rootDirectoryClusterStart
    ensures Le16(b[48..50]) == bs.fsInformationSector && Le16(b[50..52]) == bs.bootSectorsCopySector
    ensures b[52..64] == bs.filler && b[64] == bs.physicalDriveNumber
    ensures b[65] == bs.reserved && b[66] == bs.extendedBootSignature
  {
    var a1 := Enc32(bs.hiddenSectors) + Enc32(bs.totalSectorsLong);
    var a2 := a1 + Enc32(bs.sectorsPerFatLong);
    var a3 := a2 + Enc16(bs.driveDescription);
    SliceOfConcat(b, 28, 42, 44, a3, Enc16(bs.version));
    SliceOfConcat(b, 28, 40, 42, a2, Enc16(bs.driveDescription));
    SliceOfConcat(b, 28, 36, 40, a1, Enc32(bs.sectorsPerFatLong));
    SliceOfConcat(b, 28, 32, 36, Enc32(bs.hiddenSectors), Enc32(bs.totalSectorsLong));
    var c1 := Enc32(bs.rootDirectoryClusterStart) + Enc16(bs.fsInformationSector);
    var c2 := c1 + Enc16(bs.bootSectorsCopySector);
    var c3 := c2 + bs.filler;
    var c4 := c3 + [bs.physicalDriveNumber];
    var c5 := c4 + [bs.reserved];
    SliceOfConcat(b, 44, 66, 67, c5, [bs.extendedBootSignature]);
    SliceOfConcat(b, 44, 65, 66, c4, [bs.reserved]);
    SliceOfConcat(b, 44, 64, 65, c3, [bs.physicalDriveNumber]);
    SliceOfConcat(b, 44, 52, 64, c2, bs.filler);
    SliceOfConcat(b, 44, 50, 52, c1, Enc16(bs.bootSectorsCopySector));
    SliceOfConcat(b, 44, 48, 50, Enc32(bs.rootDirectoryClusterStart), Enc16(bs.fsInformationSector));
    assert b[64] == b[64..65][0] && b[65] == b[65..66][0] && b[66] == b[66..67][0];
    Le32Enc32(bs.hiddenSectors);
    Le32Enc32(bs.totalSectorsLong);
    Le32Enc32(bs.sectorsPerFatLong);
    Le16Enc16(bs.driveDescription);
    Le16Enc16(bs.version);
    Le32Enc32(bs.rootDirectoryClusterStart);
    Le16Enc16(bs.fsInformationSector);
    Le16Enc16(bs.bootSectorsCopySector);
  }

  lemma DecodeRun67(bs: BootSector, b: seq<Byte>)
    requires |b| == SECTOR_SIZE && b[67..90] == BootRun67(bs) && b[90..512] == BootRun90(bs)
    ensures Le32(b[67..71]) == bs.volumeId && b[71..82] == bs.volumeLabel
    ensures b[82..90] == bs.fileSystemType && b[90..510] == bs.bootCode
    ensures Le16(b[510..512]) == bs.signature
  {
    SliceOfConcat(b, 67, 82, 90, Enc32(bs.volumeId) + bs.volumeLabel, bs.fileSystemType);
    SliceOfConcat(b, 67, 71, 82, Enc32(bs.volumeId), bs.volumeLabel);
    SliceOfConcat(b, 90, 510, 512, bs.bootCode, Enc16(bs.signature));
    Le32Enc32(bs.volumeId);
    Le16Enc16(bs.signature);
  }

  lemma EncodeDecodeBoot(b: seq<Byte>)
    requires |b| == SECTOR_SIZE
    ensures EncodeBoot(DecodeBoot(b)) == b
  {
    var d := DecodeBoot(b);
    BootBytes0To28(b);
    BootBytes28To67(b);
    Enc32Le32(b[67..71]);
    SliceSplit(b, 67, 71, 82);
    SliceSplit(b, 67, 82, 90);
    assert b[67..90] == BootRun67(d);
    Enc16Le16(b[510..512]);
    SliceSplit(b, 90, 510, 512);
    assert b[90..512] == BootRun90(d);
    SliceSplit(b, 0, 16, 28);
    SliceSplit(b, 0, 28, 44);
    SliceSplit(b, 0, 44, 67);
    SliceSplit(b, 0, 67, 90);
    SliceSplit(b, 0, 90, 512);
    assert b == b[0..512];
  }

  lemma BootBytes0To28(b: seq<Byte>)
    requires |b| == SECTOR_SIZE
    ensures b[0..16] == BootRun0(DecodeBoot(b)) && b[16..28] == BootRun16(DecodeBoot(b))
  {
    Enc16Le16(b[11..13]);
    Enc16Le16(b[14..16]);
    assert b[13..14] == [b[13]];
    SliceSplit(b, 0, 3, 11);
    SliceSplit(b, 0, 11, 13);
    SliceSplit(b, 0, 13, 14);
    SliceSplit(b, 0, 14, 16);
    Enc16Le16(b[17..19]);
    Enc16Le16(b[19..21]);
    Enc16Le16(b[22..24]);
    Enc16Le16(b[24..26]);
    Enc16Le16(b[26..28]);
    assert b[16..17] == [b[16]] && b[21..22] == [b[21]];
    SliceSplit(b, 16, 17, 19);
    SliceSplit(b, 16, 19, 21);
    SliceSplit(b, 16, 21, 22);
    SliceSplit(b, 16, 22, 24);
    SliceSplit(b, 16, 24, 26);
    SliceSplit(b, 16, 26, 28);
  }

  lemma BootBytes28To67(b: seq<Byte>)
    requires |b| == SECTOR_SIZE
    ensures b[28..44] == BootRun28(DecodeBoot(b)) && b[44..67] == BootRun44(DecodeBoot(b))
  {
    Enc32Le32(b[28..32]);
    Enc32Le32(b[32..36]);
    Enc32Le32(b[36..40]);
    Enc16Le16(b[40..42]);
    Enc16Le16(b[42..44]);
    SliceSplit(b, 28, 32, 36);
    SliceSplit(b, 28, 36, 40);
    SliceSplit(b, 28, 40, 42);
    SliceSplit(b, 28, 42, 44);
    Enc32Le32(b[44..48]);
    Enc16Le16(b[48..50]);
    Enc16Le16(b[50..52]);
    assert b[64..65] == [b[64]] && b[65..66] == [b[65]] && b[66..67] == [b[66]];
    SliceSplit(b, 44, 48, 50);
    SliceSplit(b, 44, 50, 52);
    SliceSplit(b, 44, 52, 64);
    SliceSplit(b, 44, 64, 65);
    SliceSplit(b, 44, 65, 66);
    SliceSplit(b, 44, 66, 67);
  }
}
