# FAT32 read-path driver, modelled in Dafny

This project models the FAT32 driver of the thor-os kernel (`kernel/src/fat32.cpp`): the
packed on-disk records it reinterprets, the cluster-to-sector arithmetic, the classification
and listing of directory entries, the single-slot cache of volume metadata kept in globals,
and the two public operations `fat32::ls` and `fat32::free_size`.

Layout, one module per file:

- `wrappers.dfy` (`Wrappers`): `Option`, standing in for a null pointer or a failed read.
- `bytes.dfy` (`Bytes`): `uint8/16/32/64` as bounded integers, C++ unsigned wrap-around
  (`Add64`, `Sub64`, `Mul64`, `Mul32`), little-endian encoding and decoding, modular lemmas.
- `records.dfy` (`Records`): `fat_bs_t`, `fat_is_t` and `cluster_entry` as datatypes with every
  field. `Decode*` reads each field at its packed offset. `Encode*` writes the fields one after
  another. Round trips in both directions prove the offsets, the widths and the total sizes
  (512, 512, 32), as the FAT32 File System Specification v1.03 lays them out.
- `geometry.dfy` (`Geometry`): `cluster_lba` in the source's integer widths, and the
  FirstSectorofCluster formula of the same specification as a reference.
- `directory.dfy` (`Directory`): `entry_exists`, `is_long_name`, the record emitted per entry,
  `files(cluster)` as a function and as the loop over an entry array, and the name scan of `ls`.
- `block_device.dfy` (`BlockDevice`): the disk behind `read_sectors`, modelled as a partial map
  from sector numbers to 512-byte sectors. A read succeeds exactly when every sector it asks
  for is present.
- `fat32_spec.dfy` (`Fat32Spec`): the driver as a state machine. The globals `cached_disk`,
  `cached_partition`, `partition_start`, `fat_bs` and `fat_is` form a `CacheState`. Each operation
  returns its new state, its result and the reads it issued.
- `fat32_properties.dfy` (`Fat32Properties`): what holds across calls. Cache hits read no
  metadata. A miss reads both metadata sectors once. Repeated calls are stable. The listing
  and free-space results are stated in terms of the disk.
- `fat32.dfy` (`Fat32`): class `Driver`, whose fields are the globals. Its methods `CacheBs`,
  `CacheIs`, `Ls` and `FreeSize` update them in place. A ghost `readLog` records every
  `read_sectors` call. Each method is proved equal to its `Fat32Spec` counterpart.

Behaviour is modelled as the code has it, not as a cleaned-up driver would behave:

- A first name byte of 0x00 marks the slot as not existing; the scan skips it and goes on to the
  end of the cluster.
- A long-name entry (attribute 0x0F) is listed, under the 4-byte name `LONG`.
- Names are the raw 11 bytes of the entry; no `8.3` normalisation, no trimming.
- The path lookup takes the first existing, non-long-name root entry whose name equals the
  path. It does not check the directory bit.
- Nothing is validated: no boot-sector, FSInfo or file-system-type signature check.
- The cached identity is updated on every miss, also when the FSInfo read failed.
- `free_size` multiplies by a hardcoded 512, not `bytes_per_sector`. The product is an
  `unsigned int` and wraps modulo 2^32 before it is widened to `uint64_t`.
  `FreeBytesWraps` shows 4 GiB free reported as 0.
- `cluster_lba` computes the FAT size `number_of_fat * sectors_per_fat_long` in 32 bits. The
  rest is `uint64_t`, and `cluster - 2` wraps for clusters 0 and 1.
- `entry.cluster_low + (entry.cluster_high << 16)` is evaluated in `int`. A high half of
  0x8000 or more gives a negative value, which becomes a sign-extended `uint64_t` cluster
  number (`EntryClusterSignExtended`).
- The FSInfo field the source calls `allocated_clusters` (offset 492) is the "next free"
  hint in the FAT32 specification. It is decoded under the source's name and never used.

## Model

| member | source | states |
|---|---|---|
| Records.EncodeBoot | kernel/src/fat32.cpp:11-53 | a packed boot sector occupies exactly 512 bytes |
| Records.DecodeEncodeBoot | kernel/src/fat32.cpp:11-41 | decoding the bytes of a boot sector gives back every field, so each field is read little-endian at its packed offset (`sectors_per_fat_long` at 36, `root_directory_cluster_start` at 44, `fs_information_sector` at 48, `signature` at 510) |
| Records.EncodeDecodeBoot | kernel/src/fat32.cpp:11-41 | every 512-byte sector is exactly the bytes of the boot sector it decodes to: the fields cover the sector without gap or overlap |
| Records.DecodeRun0 | kernel/src/fat32.cpp:12-23 | the fields from `jump` to `heads` are decoded at offsets 0 to 28 |
| Records.DecodeRun28 | kernel/src/fat32.cpp:24-35 | the fields from `hidden_sectors` to `extended_boot_signature` are decoded at offsets 28 to 67 |
| Records.DecodeRun67 | kernel/src/fat32.cpp:36-40 | `volume_id`, `volume_label`, `file_system_type`, `boot_code` and `signature` are decoded at offsets 67 to 512 |
| Records.EncodeInfo | kernel/src/fat32.cpp:43-51 | a packed FSInfo sector occupies exactly 512 bytes |
| Records.DecodeEncodeInfo | kernel/src/fat32.cpp:43-51 | decoding the bytes of an FSInfo sector gives back every field (free cluster count at 488) |
| Records.EncodeDecodeInfo | kernel/src/fat32.cpp:43-51 | every 512-byte sector is exactly the bytes of the FSInfo sector it decodes to |
| Records.EncodeEntry | kernel/src/fat32.cpp:55-70 | a packed directory entry occupies exactly 32 bytes |
| Records.DecodeEncodeEntry | kernel/src/fat32.cpp:55-68 | decoding the bytes of an entry gives back every field (`cluster_high` at 20, `cluster_low` at 26, `file_size` at 28) |
| Records.EncodeDecodeEntry | kernel/src/fat32.cpp:55-70 | every 32-byte slot is exactly the bytes of the entry it decodes to |
| Geometry.ClusterLbaModular | kernel/src/fat32.cpp:108-113 | for a data cluster, `cluster_lba` is `partition_start + reserved_sectors + FAT size + (cluster - 2) * sectors_per_cluster` modulo 2^64, with the FAT size taken modulo 2^32 |
| Geometry.ClusterLbaExact | kernel/src/fat32.cpp:108-113 | without overflow, `cluster_lba` equals the FirstSectorofCluster formula over unbounded integers |
| Geometry.ClusterLbaAffine | kernel/src/fat32.cpp:108-113 | clusters `c1 <= c2` (both at least 2) start `(c2 - c1) * sectors_per_cluster` sectors apart, modulo 2^64 |
| Geometry.ClusterLbaStep | kernel/src/fat32.cpp:108-113 | consecutive clusters start `sectors_per_cluster` sectors apart |
| Geometry.FirstDataClusterLba | kernel/src/fat32.cpp:108-113 | cluster 2 starts right after the reserved sectors and the FAT copies |
| Directory.ClassifyRaw | kernel/src/fat32.cpp:115-121 | an entry does not exist exactly when its byte 0 is 0x00 or 0xE5, and is a long name exactly when its byte 11 is 0x0F, whatever its other bytes |
| Directory.RecordFields | kernel/src/fat32.cpp:130-142 | a listed record's hidden, system and directory flags are attribute bits 0, 1 and 4, its size is `file_size`, its name is `LONG` for attribute 0x0F and the 11 raw name bytes otherwise |
| Directory.LongNameRecord | kernel/src/fat32.cpp:130-141 | a long-name entry is listed as a hidden system non-directory named `LONG` |
| Directory.Files | kernel/src/fat32.cpp:123-149 | `files` emits at most one record per entry |
| Directory.FilesAppend | kernel/src/fat32.cpp:126-146 | listing consecutive runs of entries concatenates their listings: on-disk order is kept |
| Directory.FilesLength | kernel/src/fat32.cpp:126-146 | the number of records is the number of existing entries |
| Directory.FilesAt | kernel/src/fat32.cpp:126-146 | every existing entry is listed, at the position given by the existing entries before it |
| Directory.FilesSound | kernel/src/fat32.cpp:126-146 | every record is the record of some existing entry |
| Directory.FilesSkip | kernel/src/fat32.cpp:126-127 | a free (0x00) or deleted (0xE5) slot is skipped and the entries after it are still listed |
| Directory.ListEntries | kernel/src/fat32.cpp:123-149 | the loop over the entry array returns exactly `Files` of the array |
| Directory.FirstMatch | kernel/src/fat32.cpp:187-193 | the index found is the first existing short-name entry whose name equals the path, and none is found exactly when no entry matches |
| Directory.FindEntry | kernel/src/fat32.cpp:187-193 | the scan of the root cluster array returns the first matching index, or none |
| Directory.MatchNeedsElevenBytes | kernel/src/fat32.cpp:189 | under the 11-byte comparison the model uses for line 189, only a path of 11 bytes can equal a name field |
| Directory.EntryClusterValid | kernel/src/fat32.cpp:190 | with `cluster_high` below 0x8000 the listed cluster is `cluster_high * 2^16 + cluster_low` |
| Directory.EntryClusterSignExtended | kernel/src/fat32.cpp:190 | with `cluster_high` of 0x8000 or more the `int` result is negative and the cluster number is sign-extended to 64 bits |
| BlockDevice.ReadSectors | kernel/src/fat32.cpp:154 | a read succeeds exactly when every requested sector exists, and returns them in order, 512 bytes each |
| BlockDevice.ReadCluster | kernel/src/fat32.cpp:151-159 | a cluster read fills a buffer of exactly `16 * sectors_per_cluster` entries, that is `sectors_per_cluster` sectors |
| BlockDevice.ReadClusterEntry | kernel/src/fat32.cpp:181-183 | entry `16k + j` of a cluster buffer is the `j`-th 32-byte slot of the cluster's `k`-th sector |
| Fat32Properties.RefreshHit | kernel/src/fat32.cpp:164 | on the cached `(disk.uuid, partition.uuid)` the cache check reads nothing and changes nothing |
| Fat32Properties.RefreshMiss | kernel/src/fat32.cpp:164-172 | on a new identity the boot sector is read at `partition.start`, then the FSInfo sector at `partition.start + fs_information_sector`; both are cached under the new identity, also when the FSInfo read failed |
| Fat32Properties.RefreshCaches | kernel/src/fat32.cpp:164-172 | after the check the requested identity is cached, and `fat_is` is set only together with `fat_bs` |
| Fat32Spec.Listing | kernel/src/fat32.cpp:174-197 | the part of `ls` after the identity check leaves every global as it was |
| Fat32Properties.ListingReadsClusters | kernel/src/fat32.cpp:174-197 | after the check, `ls` changes no global and issues at most two reads, both cluster reads |
| Fat32Properties.LsHit | kernel/src/fat32.cpp:163-172 | `ls` on the cached identity reads no metadata sector and keeps the cache |
| Fat32Properties.LsMiss | kernel/src/fat32.cpp:163-172 | `ls` on a new identity reads the boot sector then the FSInfo sector, once each and first, then only clusters |
| Fat32Properties.LsRepeat | kernel/src/fat32.cpp:163-198 | a second `ls` on the same identity and disk reads no metadata, keeps the cache and returns the listing the first call would have returned for that path |
| Fat32Properties.FreeSizeAfterLs | kernel/src/fat32.cpp:200-217 | `free_size` after `ls` on the same identity issues no read and returns what it would have returned alone |
| Fat32Properties.LsRoot | kernel/src/fat32.cpp:183-185 | with both metadata sectors cached and the root cluster readable, the empty path lists the root cluster |
| Fat32Properties.LsSubdirectory | kernel/src/fat32.cpp:186-193 | a non-empty path lists the cluster `cluster_low + (cluster_high << 16)` of the first matching root entry, not the root, whatever its directory bit |
| Fat32Properties.LsNotFound | kernel/src/fat32.cpp:186-197 | a path that matches no root entry lists nothing |
| Fat32Properties.LsEmptyOnFailure | kernel/src/fat32.cpp:174-197 | a missing boot or FSInfo sector, or an unreadable root cluster, lists nothing |
| Fat32Properties.LsFailingDisk | kernel/src/fat32.cpp:183-197 | a disk that fails every read lists nothing for the cached identity, with at most one read |
| Fat32Properties.FreeSizeValue | kernel/src/fat32.cpp:211-216 | `free_size` is 0 without both metadata sectors, else `free_clusters * sectors_per_cluster * 512` modulo 2^32 |
| Fat32Properties.FreeBytesModular | kernel/src/fat32.cpp:216 | the two `unsigned int` products equal the whole product modulo 2^32 |
| Fat32Properties.FreeBytesExact | kernel/src/fat32.cpp:216 | below 2^32 the result is the exact free byte count |
| Fat32Properties.FreeBytesExample | kernel/src/fat32.cpp:216 | 100 free clusters of 8 sectors give 409600 bytes |
| Fat32Properties.FreeBytesWraps | kernel/src/fat32.cpp:216 | 2^20 free clusters of 8 sectors (4 GiB) are reported as 0 |
| Fat32Properties.OperationsKeepConsistent | kernel/src/fat32.cpp:164-172 | `ls` and `free_size` keep `fat_is` set only together with `fat_bs` |
| Fat32.Driver.constructor | kernel/src/fat32.cpp:72-77 | the globals start with both identities `-1`, `partition_start` 0 and both pointers null |
| Fat32.Driver.Read | kernel/src/fat32.cpp:82 | a `read_sectors` call returns what the disk holds and is appended to the read log |
| Fat32.Driver.CacheBs | kernel/src/fat32.cpp:79-90 | `fat_bs` becomes the decoded sector at `partition.start`, or null if it cannot be read, after one read |
| Fat32.Driver.CacheIs | kernel/src/fat32.cpp:92-106 | `fat_is` becomes the decoded sector at `partition.start + fs_information_sector`, or null if it cannot be read, after one read |
| Fat32.Driver.Refresh | kernel/src/fat32.cpp:164-172 | the identity check updates the globals and the read log as `Fat32Spec.Refresh` says |
| Fat32.Driver.ReadClusterBuffer | kernel/src/fat32.cpp:152-154 | a fresh buffer of `16 * sectors_per_cluster` entries holding the cluster at `cluster_lba(cluster)`, or none when the read fails |
| Fat32.Driver.ListCluster | kernel/src/fat32.cpp:151-159 | `files(disk, cluster)` lists the cluster's entries, or nothing when the read fails |
| Fat32.Driver.ListPath | kernel/src/fat32.cpp:174-197 | the body of `ls` after the identity check returns `Fat32Spec.Listing` and issues its reads |
| Fat32.Driver.Ls | kernel/src/fat32.cpp:163-198 | `ls` leaves the globals, the result and the read log as `Fat32Spec.Ls` says |
| Fat32.Driver.FreeSize | kernel/src/fat32.cpp:200-217 | `free_size` leaves the globals, the result and the read log as `Fat32Spec.FreeSize` says |

## Left out

- The body of `read_sectors` and all disk I/O. The disk is a map from sector numbers to
  512-byte sectors, and a missing sector means a failed read. A read of zero sectors, which
  `sectors_per_cluster == 0` would request, succeeds with no data.
- Fat32.Driver.CacheIs: requires `fat_bs` to be set. The source dereferences it even after
  `cache_bs` has set it to null. No recovery is invented for that case.
- Fat32.Driver.Ls: requires, on a cache miss, that the boot sector at `partition.start` can be
  read. Otherwise the source reaches the null dereference in `cache_is`.
- Fat32.Driver.FreeSize: the same requirement as `Ls`, for the same reason.
- Fat32.Driver.Refresh: the same requirement as `Ls`, for the same reason.
- Memory management: the `unique_ptr` release, the leak of the previous `fat_bs`/`fat_is` on a
  re-cache, and `unique_heap_array` allocation. The cached sectors are owned values and
  pointer aliasing plays no part.
- `path == entry.name` compares a string with a NUL-terminated `char*`. The 11-byte name field
  is not NUL-terminated, so the real comparison may read past it. The model compares the path
  with the 11 name bytes.
- `disks::file` is not part of this model. A record's name is only the bytes the driver copies
  (4 for `LONG`, 11 otherwise); the rest of that buffer is not modelled.
- Signature checks, long-file-name (VFAT) decoding and FAT-chain walking for directories
  larger than one cluster. The source has none of them.
- Concurrency on the cache globals: the code is single-threaded and has no locking.
- `programs/cat/src/main.cpp`, `tlib/include/tlib/config.hpp`, `kernel/include/vfs.hpp`,
  `tlib/include/tlib/net.hpp` and `tlib/include/tlib/directory_entry.hpp`. They are CLI
  plumbing, macros, declarations without bodies, network syscalls and a plain struct.
