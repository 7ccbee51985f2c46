/**
 * Cluster-to-sector arithmetic (`cluster_lba`). The driver computes the first sector of
 * a data cluster with the FirstSectorofCluster formula of the FAT32 File System
 * Specification ("FAT Data Structure"), in C++ unsigned arithmetic: the FAT-region size
 * `number_of_fat * sectors_per_fat_long` is an `unsigned int` product (32 bits), the rest
 * is `uint64_t`, and `cluster - 2` wraps for clusters 0 and 1.
 */
module Geometry {
  import opened Bytes
  import opened Records

  /** Clusters 0 and 1 are reserved; the data region starts at cluster 2. */
  const FIRST_DATA_CLUSTER: nat := 2

  /** The sector count of all FAT copies, as the `unsigned int` product the source computes. */
  function FatRegionSectors(bs: BootSector): U32
  {
    Mul32(bs.numberOfFat, bs.sectorsPerFatLong)
  }

  /** `cluster_lba`: the absolute sector of `cluster`, step by step in the source's integer widths. */
  function ClusterLba(partitionStart: U64, bs: BootSector, cluster: U64): U64
  {
    var fatBegin := Add64(partitionStart, bs.reservedSectors);
    var clusterBegin := Add64(fatBegin, FatRegionSectors(bs));
    Add64(clusterBegin, Mul64(Sub64(cluster, FIRST_DATA_CLUSTER), bs.sectorsPerCluster))
  }

  /** FirstSectorofCluster over unbounded integers, the reference formula. */
  function FirstSectorOfCluster(partitionStart: int, bs: BootSector, cluster: int): int
  {
    partitionStart + bs.reservedSectors + bs.numberOfFat * bs.sectorsPerFatLong
    + (cluster - FIRST_DATA_CLUSTER) * bs.sectorsPerCluster
  }

  /** The sector where the data region (cluster 2) begins, reduced like the source reduces it. */
  function DataRegionStart(partitionStart: U64, bs: BootSector): int
  {
    partitionStart + bs.reservedSectors + FatRegionSectors(bs)
  }

  /** For a data cluster, `cluster_lba` is the reference formula reduced modulo 2^64 (with the FAT size reduced modulo 2^32). */
  lemma ClusterLbaModular(partitionStart: U64, bs: BootSector, cluster: U64)
    requires cluster >= FIRST_DATA_CLUSTER
    ensures ClusterLba(partitionStart, bs, cluster)
            == (DataRegionStart(partitionStart, bs) + (cluster - FIRST_DATA_CLUSTER) * bs.sectorsPerCluster) % U64_MOD
  {
    var steps := cluster - FIRST_DATA_CLUSTER;
    assert Sub64(cluster, FIRST_DATA_CLUSTER) == steps by {
      DivModUnique(steps, 0, steps, U64_MOD);
    }
    Add64Chain(partitionStart, bs.reservedSectors, FatRegionSectors(bs),
               Mul64(steps, bs.sectorsPerCluster), steps * bs.sectorsPerCluster);
  }

  /**
   * When neither the FAT size nor the sector address overflows, `cluster_lba` is exactly
   * FirstSectorofCluster.
   */
  lemma ClusterLbaExact(partitionStart: U64, bs: BootSector, cluster: U64)
    requires cluster >= FIRST_DATA_CLUSTER
    requires bs.numberOfFat * bs.sectorsPerFatLong < U32_MOD
    requires FirstSectorOfCluster(partitionStart, bs, cluster) < U64_MOD
    ensures ClusterLba(partitionStart, bs, cluster) == FirstSectorOfCluster(partitionStart, bs, cluster)
  {
    Mul32Exact(bs.numberOfFat, bs.sectorsPerFatLong);
    var steps := cluster - FIRST_DATA_CLUSTER;
    MulNonneg(bs.numberOfFat, bs.sectorsPerFatLong);
    MulNonneg(steps, bs.sectorsPerCluster);
    var exact := FirstSectorOfCluster(partitionStart, bs, cluster);
    DivModUnique(exact, 0, exact, U64_MOD);
    ClusterLbaModular(partitionStart, bs, cluster);
  }

  /** `cluster_lba` is affine in the cluster number: clusters `c1 <= c2` lie `(c2 - c1) * sectors_per_cluster` sectors apart, modulo 2^64. */
  lemma ClusterLbaAffine(partitionStart: U64, bs: BootSector, c1: U64, c2: U64)
    requires FIRST_DATA_CLUSTER <= c1 <= c2
    ensures ClusterLba(partitionStart, bs, c2)
            == (ClusterLba(partitionStart, bs, c1) + (c2 - c1) * bs.sectorsPerCluster) % U64_MOD
  {
    ClusterLbaModular(partitionStart, bs, c1);
    ClusterLbaModular(partitionStart, bs, c2);
    var spc := bs.sectorsPerCluster;
    MulAddDistr(c1 - FIRST_DATA_CLUSTER, c2 - c1, c2 - FIRST_DATA_CLUSTER, spc);
    ModStride(ClusterLba(partitionStart, bs, c1), ClusterLba(partitionStart, bs, c2), DataRegionStart(partitionStart, bs),
              (c1 - FIRST_DATA_CLUSTER) * spc, (c2 - c1) * spc, (c2 - FIRST_DATA_CLUSTER) * spc, U64_MOD);
  }

  /** Consecutive clusters are `sectors_per_cluster` sectors apart (with `uint64_t` wrap-around). */
  lemma ClusterLbaStep(partitionStart: U64, bs: BootSector, cluster: U64)
    requires FIRST_DATA_CLUSTER <= cluster < U64_MAX
    ensures ClusterLba(partitionStart, bs, cluster + 1)
            == Add64(ClusterLba(partitionStart, bs, cluster), bs.sectorsPerCluster)
  {
    ClusterLbaAffine(partitionStart, bs, cluster, cluster + 1);
    MulOne(cluster + 1 - cluster, bs.sectorsPerCluster);
  }

  /** Cluster 2, the usual root directory cluster, starts the data region. */
  lemma FirstDataClusterLba(partitionStart: U64, bs: BootSector)
    ensures ClusterLba(partitionStart, bs, FIRST_DATA_CLUSTER) == DataRegionStart(partitionStart, bs) % U64_MOD
  {
    ClusterLbaModular(partitionStart, bs, FIRST_DATA_CLUSTER);
  }
}
