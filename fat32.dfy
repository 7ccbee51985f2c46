/**
 * The FAT32 driver with its globals as the fields of one object: the cached identity
 * (`cached_disk`, `cached_partition`), `partition_start`, and the cached boot and FSInfo
 * sectors (`fat_bs`, `fat_is`; `None` for a null pointer). A ghost log records every
 * `read_sectors` call, so the cache's effect on disk traffic can be stated.
 */
module Fat32 {
  import opened Bytes
  import opened Records
  import opened Geometry
  import opened Directory
  import opened BlockDevice
  import opened Wrappers
  import opened Fat32Spec

  class Driver {
    var cachedDisk: U64
    var cachedPartition: U64
    var partitionStart: U64
    var fatBs: Option<BootSector>
    var fatIs: Option<InfoSector>
    ghost var readLog: seq<ReadRequest>

    /** The globals as one value. */
    function State(): CacheState
      reads this`cachedDisk, this`cachedPartition, this`partitionStart, this`fatBs, this`fatIs
    {
      CacheState(cachedDisk, cachedPartition, partitionStart, fatBs, fatIs)
    }

    /** Static initialisation of the globals. */
    constructor ()
      ensures State() == INITIAL && readLog == []
    {
      cachedDisk, cachedPartition, partitionStart := U64_MAX, U64_MAX, 0;
      fatBs, fatIs := None, None;
      readLog := [];
    }

    /** `read_sectors`, recorded in the log. */
    method Read(ghost purpose: Purpose, disk: Disk, start: U64, count: Byte) returns (data: Option<seq<Byte>>)
      modifies this`readLog
      ensures data == ReadSectors(disk, start, count)
      ensures readLog == old(readLog) + [ReadRequest(purpose, disk.uuid, start, count)]
    {
      data := ReadSectors(disk, start, count);
      readLog := readLog + [ReadRequest(purpose, disk.uuid, start, count)];
    }

    /** `cache_bs`: reads the boot sector at the partition's first sector; null on failure. */
    method CacheBs(disk: Disk, p: Partition)
      modifies this`fatBs, this`readLog
      ensures fatBs == BootSectorAt(disk, p)
      ensures readLog == old(readLog) + [ReadRequest(BootSectorRead, disk.uuid, p.start, METADATA_SECTORS)]
    {
      var data := Read(BootSectorRead, disk, p.start, METADATA_SECTORS);
      if data.Some? {
        fatBs := Some(DecodeBoot(data.value));
      } else {
        fatBs := None;
      }
    }

    /** `cache_is`: reads the FSInfo sector that the cached boot sector points to; null on failure. */
    method CacheIs(disk: Disk, p: Partition)
      requires fatBs.Some?
      modifies this`fatIs, this`readLog
      ensures fatIs == InfoSectorAt(disk, p, fatBs.value)
      ensures readLog == old(readLog) + [ReadRequest(InfoSectorRead, disk.uuid, InfoSectorAddress(p, fatBs.value), METADATA_SECTORS)]
    {
      var infoAt := Add64(p.start, fatBs.value.fsInformationSector);
      var data := Read(InfoSectorRead, disk, infoAt, METADATA_SECTORS);
      if data.Some? {
        fatIs := Some(DecodeInfo(data.value));
      } else {
        fatIs := None;
      }
    }

    /** The identity check at the top of `ls` and `free_size`. */
    method Refresh(disk: Disk, p: Partition)
      requires CanRefresh(State(), disk, p)
      modifies this
      ensures State() == Fat32Spec.Refresh(old(State()), disk, p).state
      ensures readLog == old(readLog) + Fat32Spec.Refresh(old(State()), disk, p).issued
    {
      if cachedDisk != disk.uuid || cachedPartition != p.uuid {
        partitionStart := p.start;
        CacheBs(disk, p);
        CacheIs(disk, p);
        cachedDisk := disk.uuid;
        cachedPartition := p.uuid;
      }
    }

    /** Reads a cluster into a buffer of `16 * sectors_per_cluster` entries, or `null` on failure. */
    method ReadClusterBuffer(disk: Disk, cluster: U64) returns (buffer: Option<array<DirEntry>>)
      requires fatBs.Some?
      modifies this`readLog
      ensures buffer.Some? <==> ClusterEntries(State(), disk, cluster).Some?
      ensures buffer.Some? ==> fresh(buffer.value) && buffer.value[..] == ClusterEntries(State(), disk, cluster).value
      ensures buffer.Some? ==> buffer.value.Length == ENTRIES_PER_SECTOR * fatBs.value.sectorsPerCluster
      ensures readLog == old(readLog) + [ClusterReadOf(State(), disk, cluster)]
    {
      var bs := fatBs.value;
      var data := Read(ClusterRead, disk, ClusterLba(partitionStart, bs, cluster), bs.sectorsPerCluster);
      if data.Some? {
        SectorsHoldEntries(bs.sectorsPerCluster);
        var entries := DecodeEntries(data.value);
        var slots := new DirEntry[|entries|](i requires 0 <= i < |entries| => entries[i]);
        assert slots[..] == entries;
        buffer := Some(slots);
      } else {
        buffer := None;
      }
    }

    /** `files(disk, cluster)`: the records of one cluster; empty when it cannot be read. */
    method ListCluster(disk: Disk, cluster: U64) returns (records: seq<FileRecord>)
      requires fatBs.Some?
      modifies this`readLog
      ensures records == Fat32Spec.ListCluster(State(), disk, cluster).value
      ensures readLog == old(readLog) + Fat32Spec.ListCluster(State(), disk, cluster).issued
    {
      var buffer := ReadClusterBuffer(disk, cluster);
      if buffer.Some? {
        records := ListEntries(buffer.value);
      } else {
        records := [];
      }
    }

    /** The body of `ls` after the identity check. */
    method ListPath(disk: Disk, path: seq<Byte>) returns (records: seq<FileRecord>)
      modifies this`readLog
      ensures records == Listing(State(), disk, path).value
      ensures readLog == old(readLog) + Listing(State(), disk, path).issued
    {
      if fatBs.None? || fatIs.None? {
        return [];
      }
      ghost var s := State();
      var root := ReadClusterBuffer(disk, fatBs.value.rootDirectoryClusterStart);
      ghost var rootRead := ClusterReadOf(s, disk, s.fatBs.value.rootDirectoryClusterStart);
      assert readLog == old(readLog) + [rootRead];
      records := [];
      if root.Some? {
        if path == [] {
          records := ListEntries(root.value);
        } else {
          var found := FindEntry(root.value, path);
          if found.Some? {
            records := ListCluster(disk, EntryCluster(root.value[found.value]));
            assert readLog == old(readLog) + [rootRead] + Fat32Spec.ListCluster(s, disk, EntryCluster(root.value[found.value])).issued;
          }
        }
      }
    }

    /** `fat32::ls`: lists the root directory, or the root entry named by a one-segment path. */
    method Ls(disk: Disk, p: Partition, path: seq<Byte>) returns (records: seq<FileRecord>)
      requires CanRefresh(State(), disk, p)
      modifies this
      ensures State() == Fat32Spec.Ls(old(State()), disk, p, path).state
      ensures records == Fat32Spec.Ls(old(State()), disk, p, path).value
      ensures readLog == old(readLog) + Fat32Spec.Ls(old(State()), disk, p, path).issued
    {
      LsParts(State(), disk, p, path);
      Refresh(disk, p);
      records := ListPath(disk, path);
    }

    /** `fat32::free_size`: free bytes from the cached FSInfo sector, 0 without metadata. */
    method FreeSize(disk: Disk, p: Partition) returns (bytes: U64)
      requires CanRefresh(State(), disk, p)
      modifies this
      ensures State() == Fat32Spec.FreeSize(old(State()), disk, p).state
      ensures bytes == Fat32Spec.FreeSize(old(State()), disk, p).value
      ensures readLog == old(readLog) + Fat32Spec.FreeSize(old(State()), disk, p).issued
    {
      ghost var before := State();
      Refresh(disk, p);
      assert Fat32Spec.Refresh(before, disk, p).state == State();
      if fatBs.None? || fatIs.None? {
        return 0;
      }
      bytes := Mul32(Mul32(fatIs.value.freeClusters, fatBs.value.sectorsPerCluster), FREE_SIZE_SECTOR_BYTES);
    }
  }
}
