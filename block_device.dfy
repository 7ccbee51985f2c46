/**
 * The disk collaborator `read_sectors`, modelled as a partial map from sector numbers to
 * 512-byte sectors: a read of `count` sectors succeeds exactly when every one of them is
 * present, and yields them back to back. Reads of cluster buffers are reinterpreted as
 * arrays of 32-byte directory entries.
 */
module BlockDevice {
  import opened Bytes
  import opened Records
  import opened Wrappers

  type Sector = s: seq<Byte> | |s| == SECTOR_SIZE witness seq(512, _ => 0)

  /** A disk: its identity (`disk.uuid`) and the sectors it can deliver. */
  datatype Disk = Disk(uuid: U64, sectors: map<nat, Sector>)

  /** `disks::partition_descriptor`: the partition's identity and its first absolute sector. */
  datatype Partition = Partition(uuid: U64, start: U64)

  predicate Readable(disk: Disk, start: nat, count: nat)
  {
    forall k :: start <= k < start + count ==> k in disk.sectors
  }

  /** Sector `k` of a buffer read from the disk. */
  function SectorOf(data: seq<Byte>, k: nat): seq<Byte>
    requires (k + 1) * SECTOR_SIZE <= |data|
  {
    data[k * SECTOR_SIZE..(k + 1) * SECTOR_SIZE]
  }

  /** `read_sectors(disk, start, count, buffer)`: the bytes read, or `None` when it returns false. */
  function ReadSectors(disk: Disk, start: nat, count: nat): (r: Option<seq<Byte>>)
    ensures r.Some? <==> Readable(disk, start, count)
    ensures r.Some? ==> |r.value| == count * SECTOR_SIZE
    ensures r.Some? ==> forall k :: 0 <= k < count ==> SectorOf(r.value, k) == disk.sectors[start + k]
    decreases count
  {
    if count == 0 then Some([])
    else if start !in disk.sectors then None
    else match ReadSectors(disk, start + 1, count - 1)
      case None => None
      case Some(rest) =>
        var data := disk.sectors[start] + rest;
        SectorsAfterFirst(disk.sectors[start], rest, count);
        Some(data)
  }

  lemma SectorsAfterFirst(first: seq<Byte>, rest: seq<Byte>, count: nat)
    requires count >= 1 && |first| == SECTOR_SIZE && |rest| == (count - 1) * SECTOR_SIZE
    ensures SectorOf(first + rest, 0) == first
    ensures forall k :: 1 <= k < count ==> SectorOf(first + rest, k) == SectorOf(rest, k - 1)
  {
    assert (first + rest)[0..SECTOR_SIZE] == first;
    forall k | 1 <= k < count
      ensures SectorOf(first + rest, k) == SectorOf(rest, k - 1)
    {
      SliceAfterPrefix(first, rest, k * SECTOR_SIZE, (k + 1) * SECTOR_SIZE);
    }
  }

  /** The entries of a cluster buffer, each slot the 32 bytes at its index. */
  function DecodeEntries(data: seq<Byte>): (entries: seq<DirEntry>)
    requires |data| % ENTRY_SIZE == 0
    ensures |entries| == |data| / ENTRY_SIZE
  {
    seq(|data| / ENTRY_SIZE, i requires 0 <= i < |data| / ENTRY_SIZE =>
      DecodeEntry(data[i * ENTRY_SIZE..(i + 1) * ENTRY_SIZE]))
  }

  /** A run of whole sectors holds 16 entries per sector, with no partial entry. */
  lemma SectorsHoldEntries(count: nat)
    ensures (count * SECTOR_SIZE) % ENTRY_SIZE == 0
    ensures (count * SECTOR_SIZE) / ENTRY_SIZE == ENTRIES_PER_SECTOR * count
  {
    DivModUnique(count * 512, 16 * count, 0, 32);
  }

  /**
   * Reads `sectorsPerCluster` sectors at `lba` into a buffer of `16 * sectorsPerCluster`
   * directory entries: exactly the bytes the read returns.
   */
  function ReadCluster(disk: Disk, lba: U64, sectorsPerCluster: Byte): (r: Option<seq<DirEntry>>)
    ensures r.Some? <==> Readable(disk, lba, sectorsPerCluster)
    ensures r.Some? ==> |r.value| == ENTRIES_PER_SECTOR * sectorsPerCluster
  {
    match ReadSectors(disk, lba, sectorsPerCluster)
      case None => None
      case Some(data) =>
        SectorsHoldEntries(sectorsPerCluster);
        Some(DecodeEntries(data))
  }

  /** Entry `16 * k + j` of a cluster buffer is entry `j` of the cluster's sector `k`. */
  lemma ReadClusterEntry(disk: Disk, lba: U64, sectorsPerCluster: Byte, k: nat, j: nat)
    requires Readable(disk, lba, sectorsPerCluster)
    requires k < sectorsPerCluster && j < ENTRIES_PER_SECTOR
    ensures ReadCluster(disk, lba, sectorsPerCluster).value[ENTRIES_PER_SECTOR * k + j]
            == DecodeEntry(disk.sectors[lba + k][j * ENTRY_SIZE..(j + 1) * ENTRY_SIZE])
  {
    var data := ReadSectors(disk, lba, sectorsPerCluster).value;
    ClusterEntryAt(data, sectorsPerCluster, k, j);
    assert SectorOf(data, k) == disk.sectors[lba + k];
  }

  /** In a buffer of whole sectors, entry `16 * k + j` is the `j`-th slot of sector `k`. */
  lemma ClusterEntryAt(data: seq<Byte>, count: nat, k: nat, j: nat)
    requires |data| == count * SECTOR_SIZE && k < count && j < ENTRIES_PER_SECTOR
    ensures |data| % ENTRY_SIZE == 0 && ENTRIES_PER_SECTOR * k + j < |data| / ENTRY_SIZE
    ensures DecodeEntries(data)[ENTRIES_PER_SECTOR * k + j]
            == DecodeEntry(SectorOf(data, k)[j * ENTRY_SIZE..(j + 1) * ENTRY_SIZE])
  {
    DivModUnique(|data|, 16 * count, 0, 32);
    var sectorStart := 512 * k;
    var from := sectorStart + 32 * j;
    assert (16 * k + j) * 32 == from && (16 * k + j + 1) * 32 == from + 32;
    SubSlice(data, sectorStart, sectorStart + 512, 32 * j, 32 * j + 32);
  }
}
