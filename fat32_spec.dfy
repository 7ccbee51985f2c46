/**
 * The driver's behaviour as a state machine over its single-slot metadata cache.
 * `CacheState` is the value of the globals `cached_disk`, `cached_partition`,
 * `partition_start`, `fat_bs` and `fat_is`; each operation yields its new state, its
 * result and the reads it issued to the disk, in order.
 */
module Fat32Spec {
  import opened Bytes
  import opened Records
  import opened Geometry
  import opened Directory
  import opened BlockDevice
  import opened Wrappers

  datatype CacheState = CacheState(
    cachedDisk: U64,
    cachedPartition: U64,
    partitionStart: U64,
    fatBs: Option<BootSector>,
    fatIs: Option<InfoSector>)

  /** What a disk read was issued for. */
  datatype Purpose = BootSectorRead | InfoSectorRead | ClusterRead

  datatype ReadRequest = ReadRequest(purpose: Purpose, disk: U64, start: U64, count: nat)

  /** The outcome of one operation: the new cache, the result, the reads issued. */
  datatype Step<T> = Step(state: CacheState, value: T, issued: seq<ReadRequest>)

  /** The globals before the first call: both identities `-1`, no metadata, `partition_start` zero. */
  const INITIAL: CacheState := CacheState(U64_MAX, U64_MAX, 0, None, None)

  /** Sectors per `fat_is_t` or `fat_bs_t` read. */
  const METADATA_SECTORS: Byte := 1

  /** The source hardcodes 512 bytes per sector in `free_size`. */
  const FREE_SIZE_SECTOR_BYTES: U32 := 512

  predicate IsCached(s: CacheState, disk: Disk, p: Partition)
  {
    s.cachedDisk == disk.uuid && s.cachedPartition == p.uuid
  }

  /**
   * On a cache miss `cache_is` dereferences `fat_bs`, which `cache_bs` leaves null when the
   * boot sector cannot be read; the operations are defined only when that does not happen.
   */
  predicate CanRefresh(s: CacheState, disk: Disk, p: Partition)
  {
    IsCached(s, disk, p) || Readable(disk, p.start, 1)
  }

  /** `fat_bs` is never null while `fat_is` is set. */
  predicate Consistent(s: CacheState)
  {
    s.fatIs.Some? ==> s.fatBs.Some?
  }

  /** `cache_bs`: the boot sector at the partition's first sector, or null when the read fails. */
  function BootSectorAt(disk: Disk, p: Partition): Option<BootSector>
  {
    match ReadSectors(disk, p.start, 1)
      case None => None
      case Some(data) => Some(DecodeBoot(data))
  }

  /** Where `cache_is` reads: `partition.start + fs_information_sector` in `uint64_t`. */
  function InfoSectorAddress(p: Partition, bs: BootSector): U64
  {
    Add64(p.start, bs.fsInformationSector)
  }

  /** `cache_is`: the FSInfo sector, or null when the read fails. */
  function InfoSectorAt(disk: Disk, p: Partition, bs: BootSector): Option<InfoSector>
  {
    match ReadSectors(disk, InfoSectorAddress(p, bs), 1)
      case None => None
      case Some(data) => Some(DecodeInfo(data))
  }

  /** The cache check that opens both `ls` and `free_size`. */
  function Refresh(s: CacheState, disk: Disk, p: Partition): Step<()>
    requires CanRefresh(s, disk, p)
  {
    if IsCached(s, disk, p) then Step(s, (), [])
    else
      var bs := BootSectorAt(disk, p).value;
      Step(CacheState(disk.uuid, p.uuid, p.start, Some(bs), InfoSectorAt(disk, p, bs)), (),
           [ReadRequest(BootSectorRead, disk.uuid, p.start, METADATA_SECTORS),
            ReadRequest(InfoSectorRead, disk.uuid, InfoSectorAddress(p, bs), METADATA_SECTORS)])
  }

  /** The read `files(disk, cluster)` issues: `sectors_per_cluster` sectors at `cluster_lba(cluster)`. */
  function ClusterReadOf(s: CacheState, disk: Disk, cluster: U64): ReadRequest
    requires s.fatBs.Some?
  {
    var bs := s.fatBs.value;
    ReadRequest(ClusterRead, disk.uuid, ClusterLba(s.partitionStart, bs, cluster), bs.sectorsPerCluster)
  }

  /** The entries of `cluster`, or `None` when the read fails. */
  function ClusterEntries(s: CacheState, disk: Disk, cluster: U64): Option<seq<DirEntry>>
    requires s.fatBs.Some?
  {
    var bs := s.fatBs.value;
    ReadCluster(disk, ClusterLba(s.partitionStart, bs, cluster), bs.sectorsPerCluster)
  }

  /** `files(disk, cluster)`: the records of one cluster, empty when the read fails. */
  function ListCluster(s: CacheState, disk: Disk, cluster: U64): Step<seq<FileRecord>>
    requires s.fatBs.Some?
  {
    var records := match ClusterEntries(s, disk, cluster)
      case None => []
      case Some(entries) => Files(entries);
    Step(s, records, [ClusterReadOf(s, disk, cluster)])
  }

  /** The body of `ls` after the cache check; it reads clusters but leaves the globals as they are. */
  function Listing(s: CacheState, disk: Disk, path: seq<Byte>): (r: Step<seq<FileRecord>>)
    ensures r.state == s
  {
    if s.fatBs.None? || s.fatIs.None? then Step(s, [], [])
    else
      var root := s.fatBs.value.rootDirectoryClusterStart;
      var rootRead := ClusterReadOf(s, disk, root);
      match ClusterEntries(s, disk, root)
        case None => Step(s, [], [rootRead])
        case Some(entries) =>
          if path == [] then Step(s, Files(entries), [rootRead])
          else match FirstMatch(entries, path)
            case None => Step(s, [], [rootRead])
            case Some(i) =>
              var sub := ListCluster(s, disk, EntryCluster(entries[i]));
              Step(s, sub.value, [rootRead] + sub.issued)
  }

  /** `fat32::ls`. */
  function Ls(s: CacheState, disk: Disk, p: Partition, path: seq<Byte>): Step<seq<FileRecord>>
    requires CanRefresh(s, disk, p)
  {
    var refreshed := Refresh(s, disk, p);
    var listed := Listing(refreshed.state, disk, path);
    Step(listed.state, listed.value, refreshed.issued + listed.issued)
  }

  /** `ls` is the cache check followed by the listing, and only the check changes the globals. */
  lemma LsParts(s: CacheState, disk: Disk, p: Partition, path: seq<Byte>)
    requires CanRefresh(s, disk, p)
    ensures var r := Refresh(s, disk, p);
      Ls(s, disk, p, path) == Step(r.state, Listing(r.state, disk, path).value, r.issued + Listing(r.state, disk, path).issued)
  {
  }

  /** `free_clusters * sectors_per_cluster * 512`, each product an `unsigned int`. */
  function FreeBytes(freeClusters: U32, sectorsPerCluster: Byte): U32
  {
    Mul32(Mul32(freeClusters, sectorsPerCluster), FREE_SIZE_SECTOR_BYTES)
  }

  /** `fat32::free_size`. */
  function FreeSize(s: CacheState, disk: Disk, p: Partition): Step<U64>
    requires CanRefresh(s, disk, p)
  {
    var refreshed := Refresh(s, disk, p);
    var t := refreshed.state;
    var bytes := if t.fatBs.None? || t.fatIs.None? then 0
                 else FreeBytes(t.fatIs.value.freeClusters, t.fatBs.value.sectorsPerCluster);
    Step(t, bytes, refreshed.issued)
  }
}
