/**
 * What the driver promises across calls: the cache is hit or refilled as the identity
 * says, listings are the decoded clusters, and free space is the 32-bit product.
 */
module Fat32Properties {
  import opened Bytes
  import opened Records
  import opened Geometry
  import opened Directory
  import opened BlockDevice
  import opened Wrappers
  import opened Fat32Spec

  /** A one-sector read returns that sector's bytes. */
  lemma ReadOneSector(disk: Disk, start: nat)
    requires start in disk.sectors
    ensures ReadSectors(disk, start, 1) == Some(disk.sectors[start])
  {
    var data := ReadSectors(disk, start, 1).value;
    assert SectorOf(data, 0) == disk.sectors[start];
    assert data == SectorOf(data, 0);
  }

  /** A cache hit issues no read and changes nothing. */
  lemma RefreshHit(s: CacheState, disk: Disk, p: Partition)
    requires IsCached(s, disk, p)
    ensures Refresh(s, disk, p) == Step(s, (), [])
  {
  }

  /**
   * A miss reads the boot sector at `partition.start`, then the FSInfo sector at
   * `partition.start + fs_information_sector`, and caches both under the new identity,
   * also when the FSInfo read fails.
   */
  lemma RefreshMiss(s: CacheState, disk: Disk, p: Partition)
    requires !IsCached(s, disk, p) && p.start in disk.sectors
    ensures var r := Refresh(s, disk, p);
            var bs := DecodeBoot(disk.sectors[p.start]);
            var infoAt := InfoSectorAddress(p, bs);
            && r.issued == [ReadRequest(BootSectorRead, disk.uuid, p.start, 1),
                            ReadRequest(InfoSectorRead, disk.uuid, infoAt, 1)]
            && r.state.cachedDisk == disk.uuid && r.state.cachedPartition == p.uuid
            && r.state.partitionStart == p.start
            && r.state.fatBs == Some(bs)
            && (r.state.fatIs.Some? <==> infoAt in disk.sectors)
            && (r.state.fatIs.Some? ==> r.state.fatIs.value == DecodeInfo(disk.sectors[infoAt]))
  {
    ReadOneSector(disk, p.start);
    var bs := DecodeBoot(disk.sectors[p.start]);
    var infoAt := InfoSectorAddress(p, bs);
    if infoAt in disk.sectors {
      ReadOneSector(disk, infoAt);
    }
  }

  /** After the cache check the identity is cached and `fat_is` is set only with `fat_bs`. */
  lemma RefreshCaches(s: CacheState, disk: Disk, p: Partition)
    requires CanRefresh(s, disk, p) && Consistent(s)
    ensures IsCached(Refresh(s, disk, p).state, disk, p)
    ensures Consistent(Refresh(s, disk, p).state)
  {
  }

  /** Every read `Listing` issues is a cluster read, at most the root and one subdirectory. */
  lemma ListingReadsClusters(s: CacheState, disk: Disk, path: seq<Byte>)
    ensures Listing(s, disk, path).state == s
    ensures |Listing(s, disk, path).issued| <= 2
    ensures forall r :: r in Listing(s, disk, path).issued ==> r.purpose == ClusterRead
  {
  }

  /** `ls` on the cached identity reads no metadata sector and keeps the cache. */
  lemma LsHit(s: CacheState, disk: Disk, p: Partition, path: seq<Byte>)
    requires IsCached(s, disk, p)
    ensures Ls(s, disk, p, path).state == s
    ensures forall r :: r in Ls(s, disk, p, path).issued ==> r.purpose == ClusterRead
  {
    ListingReadsClusters(s, disk, path);
  }

  /** `ls` on a new identity reads both metadata sectors exactly once, first, then only clusters. */
  lemma LsMiss(s: CacheState, disk: Disk, p: Partition, path: seq<Byte>)
    requires !IsCached(s, disk, p) && CanRefresh(s, disk, p)
    ensures var issued := Ls(s, disk, p, path).issued;
            && |issued| >= 2
            && issued[..2] == Refresh(s, disk, p).issued
            && issued[0] == ReadRequest(BootSectorRead, disk.uuid, p.start, 1)
            && issued[1].purpose == InfoSectorRead
            && forall k :: 2 <= k < |issued| ==> issued[k].purpose == ClusterRead
    ensures IsCached(Ls(s, disk, p, path).state, disk, p)
  {
    var refreshed := Refresh(s, disk, p);
    ListingReadsClusters(refreshed.state, disk, path);
    var issued := Ls(s, disk, p, path).issued;
    assert issued == refreshed.issued + Listing(refreshed.state, disk, path).issued;
    forall k | 2 <= k < |issued|
      ensures issued[k].purpose == ClusterRead
    {
      assert issued[k] in Listing(refreshed.state, disk, path).issued;
    }
  }

  /**
   * Calling `ls` again on the same identity and disk hits the cache: no metadata read, the
   * cache unchanged, and the listing the first call would have given for that path.
   */
  lemma LsRepeat(s: CacheState, disk: Disk, p: Partition, first: seq<Byte>, second: seq<Byte>)
    requires CanRefresh(s, disk, p)
    ensures var s1 := Ls(s, disk, p, first).state;
            && CanRefresh(s1, disk, p)
            && Ls(s1, disk, p, second).state == s1
            && (forall r :: r in Ls(s1, disk, p, second).issued ==> r.purpose == ClusterRead)
            && Ls(s1, disk, p, second).value == Ls(s, disk, p, second).value
  {
    var s1 := Ls(s, disk, p, first).state;
    ListingReadsClusters(Refresh(s, disk, p).state, disk, first);
    assert s1 == Refresh(s, disk, p).state;
    LsHit(s1, disk, p, second);
  }

  /** `free_size` after `ls` on the same identity issues no read at all. */
  lemma FreeSizeAfterLs(s: CacheState, disk: Disk, p: Partition, path: seq<Byte>)
    requires CanRefresh(s, disk, p)
    ensures var s1 := Ls(s, disk, p, path).state;
            && CanRefresh(s1, disk, p)
            && FreeSize(s1, disk, p).issued == []
            && FreeSize(s1, disk, p).state == s1
            && FreeSize(s1, disk, p).value == FreeSize(s, disk, p).value
  {
    ListingReadsClusters(Refresh(s, disk, p).state, disk, path);
  }

  /** The cluster `ls` lists for the empty path. */
  function RootEntries(s: CacheState, disk: Disk): Option<seq<DirEntry>>
    requires s.fatBs.Some?
  {
    ClusterEntries(s, disk, s.fatBs.value.rootDirectoryClusterStart)
  }

  /** With both metadata sectors cached and the root cluster readable, `ls("")` lists the root cluster. */
  lemma LsRoot(s: CacheState, disk: Disk, p: Partition)
    requires CanRefresh(s, disk, p)
    requires var t := Refresh(s, disk, p).state;
             t.fatBs.Some? && t.fatIs.Some? && RootEntries(t, disk).Some?
    ensures var t := Refresh(s, disk, p).state;
            Ls(s, disk, p, []).value == Files(RootEntries(t, disk).value)
  {
  }

  /**
   * A non-empty path lists the cluster named by the first existing short-name root entry
   * whose name equals the path, not the root; the directory flag is not checked.
   */
  lemma LsSubdirectory(s: CacheState, disk: Disk, p: Partition, path: seq<Byte>, i: nat)
    requires CanRefresh(s, disk, p) && path != []
    requires var t := Refresh(s, disk, p).state;
             && t.fatBs.Some? && t.fatIs.Some? && RootEntries(t, disk).Some?
             && i < |RootEntries(t, disk).value|
             && Matches(RootEntries(t, disk).value[i], path)
             && forall j :: 0 <= j < i ==> !Matches(RootEntries(t, disk).value[j], path)
    ensures var t := Refresh(s, disk, p).state;
            var sub := ClusterEntries(t, disk, EntryCluster(RootEntries(t, disk).value[i]));
            Ls(s, disk, p, path).value == if sub.Some? then Files(sub.value) else []
  {
    var t := Refresh(s, disk, p).state;
    FirstMatchIsFirst(RootEntries(t, disk).value, path, i);
  }

  /** A path that no root entry matches lists nothing. */
  lemma LsNotFound(s: CacheState, disk: Disk, p: Partition, path: seq<Byte>)
    requires CanRefresh(s, disk, p) && path != []
    requires var t := Refresh(s, disk, p).state;
             && t.fatBs.Some? && t.fatIs.Some? && RootEntries(t, disk).Some?
             && forall j :: 0 <= j < |RootEntries(t, disk).value| ==> !Matches(RootEntries(t, disk).value[j], path)
    ensures Ls(s, disk, p, path).value == []
  {
  }

  /** Without both metadata sectors, or when the root cluster cannot be read, `ls` lists nothing. */
  lemma LsEmptyOnFailure(s: CacheState, disk: Disk, p: Partition, path: seq<Byte>)
    requires CanRefresh(s, disk, p)
    requires var t := Refresh(s, disk, p).state;
             t.fatBs.None? || t.fatIs.None? || RootEntries(t, disk).None?
    ensures Ls(s, disk, p, path).value == []
  {
  }

  /** A disk that fails every read yields an empty listing for the cached identity, without retrying. */
  lemma LsFailingDisk(s: CacheState, disk: Disk, p: Partition, path: seq<Byte>)
    requires IsCached(s, disk, p) && disk.sectors == map[]
    ensures Ls(s, disk, p, path).value == []
    ensures |Ls(s, disk, p, path).issued| <= 1
  {
    if s.fatBs.Some? && s.fatIs.Some? {
      var bs := s.fatBs.value;
      if bs.sectorsPerCluster > 0 {
        var lba := ClusterLba(s.partitionStart, bs, bs.rootDirectoryClusterStart);
        assert lba !in disk.sectors;
        assert !Readable(disk, lba, bs.sectorsPerCluster);
      } else {
        assert RootEntries(s, disk) == Some([]);
      }
    }
  }

  /** `free_size` is zero without both metadata sectors, else the 32-bit free-byte product. */
  lemma FreeSizeValue(s: CacheState, disk: Disk, p: Partition)
    requires CanRefresh(s, disk, p)
    ensures var t := Refresh(s, disk, p).state;
            FreeSize(s, disk, p).value
            == if t.fatBs.None? || t.fatIs.None? then 0
               else (t.fatIs.value.freeClusters * t.fatBs.value.sectorsPerCluster * 512) % U32_MOD
    ensures FreeSize(s, disk, p).issued == Refresh(s, disk, p).issued
  {
    var t := Refresh(s, disk, p).state;
    if t.fatBs.Some? && t.fatIs.Some? {
      FreeBytesModular(t.fatIs.value.freeClusters, t.fatBs.value.sectorsPerCluster);
    }
  }

  /** `free_size` wraps the whole product modulo 2^32 before widening it to `uint64_t`. */
  lemma FreeBytesModular(freeClusters: U32, sectorsPerCluster: Byte)
    ensures FreeBytes(freeClusters, sectorsPerCluster) == (freeClusters * sectorsPerCluster * 512) % U32_MOD
  {
    ModMulLeft(freeClusters * sectorsPerCluster, 512, U32_MOD);
  }

  /** Below 4 GiB the result is the exact free byte count. */
  lemma FreeBytesExact(freeClusters: U32, sectorsPerCluster: Byte)
    requires freeClusters * sectorsPerCluster * 512 < U32_MOD
    ensures FreeBytes(freeClusters, sectorsPerCluster) == freeClusters * sectorsPerCluster * 512
  {
    FreeBytesModular(freeClusters, sectorsPerCluster);
    DivModUnique(freeClusters * sectorsPerCluster * 512, 0, freeClusters * sectorsPerCluster * 512, U32_MOD);
  }

  /** 100 free clusters of 8 sectors are 409600 bytes. */
  lemma FreeBytesExample()
    ensures FreeBytes(100, 8) == 409600
  {
  }

  /** 2^20 free clusters of 8 sectors (4 GiB) are reported as 0 bytes. */
  lemma FreeBytesWraps()
    ensures FreeBytes(0x10_0000, 8) == 0
  {
  }

  /** Both operations keep `fat_is` set only together with `fat_bs`. */
  lemma OperationsKeepConsistent(s: CacheState, disk: Disk, p: Partition, path: seq<Byte>)
    requires CanRefresh(s, disk, p) && Consistent(s)
    ensures Consistent(Ls(s, disk, p, path).state)
    ensures Consistent(FreeSize(s, disk, p).state)
  {
    ListingReadsClusters(Refresh(s, disk, p).state, disk, path);
  }
}
