/**
 * Directory entries: classification (`entry_exists`, `is_long_name`), decoding to the
 * records handed to the virtual filesystem (`files(cluster)`), the one-segment name
 * lookup of `ls`, and the starting cluster an entry names.
 */
module Directory {
  import opened Bytes
  import opened Records
  import opened Wrappers

  /** First name byte of a never-used slot. The driver skips it and keeps scanning. */
  const FREE_MARK: Byte := 0x00
  /** First name byte of a deleted entry. */
  const DELETED_MARK: Byte := 0xE5
  /** Attribute value of a long-file-name (VFAT) entry. */
  const LONG_NAME_ATTRIB: Byte := 0x0F
  /** The placeholder name `"LONG"` listed for a long-file-name entry. */
  const LONG_NAME: seq<Byte> := [0x4C, 0x4F, 0x4E, 0x47]

  const ATTR_HIDDEN: bv8 := 0x01
  const ATTR_SYSTEM: bv8 := 0x02
  const ATTR_DIRECTORY: bv8 := 0x10

  /** `entry_exists`: the slot is neither free nor deleted. */
  predicate EntryExists(e: DirEntry)
  {
    !(e.name[0] == FREE_MARK || e.name[0] == DELETED_MARK)
  }

  /** `is_long_name`. */
  predicate IsLongName(e: DirEntry)
  {
    e.attrib == LONG_NAME_ATTRIB
  }

  /** A listed file, as the driver fills `disks::file`. */
  datatype FileRecord = FileRecord(name: seq<Byte>, hidden: bool, system: bool, directory: bool, size: U32)

  /** `attrib & mask` tested for non-zero, as the conversion of the masked value to `bool` does. */
  function HasAttrib(attrib: Byte, mask: bv8): bool
  {
    (attrib as bv8) & mask != 0
  }

  /** The record `files` emits for one existing entry. */
  function ToRecord(e: DirEntry): FileRecord
  {
    FileRecord(
      if IsLongName(e) then LONG_NAME else e.name,
      HasAttrib(e.attrib, ATTR_HIDDEN),
      HasAttrib(e.attrib, ATTR_SYSTEM),
      HasAttrib(e.attrib, ATTR_DIRECTORY),
      e.fileSize)
  }

  /**
   * Classification depends on two raw bytes only: byte 0 (0x00 or 0xE5 means the slot
   * does not exist) and byte 11 (0x0F means a long-name entry), whatever the other bytes hold.
   */
  lemma ClassifyRaw(b: seq<Byte>)
    requires |b| == ENTRY_SIZE
    ensures !EntryExists(DecodeEntry(b)) <==> b[0] == 0x00 || b[0] == 0xE5
    ensures IsLongName(DecodeEntry(b)) <==> b[11] == 0x0F
  {
  }

  /** The three flags of a record are bits 0, 1 and 4 of the attribute byte; the size is the entry's file size. */
  lemma RecordFields(e: DirEntry)
    ensures ToRecord(e).hidden <==> e.attrib % 2 == 1
    ensures ToRecord(e).system <==> (e.attrib / 2) % 2 == 1
    ensures ToRecord(e).directory <==> (e.attrib / 16) % 2 == 1
    ensures ToRecord(e).size == e.fileSize
    ensures ToRecord(e).name == if e.attrib == 0x0F then LONG_NAME else e.name
  {
  }

  /** A long-name entry is listed as a hidden system file named `"LONG"` that is not a directory. */
  lemma LongNameRecord(e: DirEntry)
    requires IsLongName(e)
    ensures ToRecord(e) == FileRecord(LONG_NAME, true, true, false, e.fileSize)
  {
  }

  /** `files(cluster)`: one record per existing entry, in on-disk order. */
  function Files(entries: seq<DirEntry>): (records: seq<FileRecord>)
    ensures |records| <= |entries|
  {
    if entries == [] then []
    else
      var last := entries[|entries| - 1];
      Files(entries[..|entries| - 1]) + (if EntryExists(last) then [ToRecord(last)] else [])
  }

  /** The number of existing entries, counted from the front. */
  function ExistingCount(entries: seq<DirEntry>): nat
  {
    if entries == [] then 0
    else (if EntryExists(entries[0]) then 1 else 0) + ExistingCount(entries[1..])
  }

  /** Listing a concatenation lists each part in turn: the scan keeps on-disk order. */
  lemma {:induction false} FilesAppend(a: seq<DirEntry>, b: seq<DirEntry>)
    ensures Files(a + b) == Files(a) + Files(b)
    decreases |b|
  {
    if b == [] {
      assert a + b == a;
    } else {
      var last := b[|b| - 1];
      assert (a + b)[..|a + b| - 1] == a + b[..|b| - 1];
      FilesAppend(a, b[..|b| - 1]);
    }
  }

  lemma {:induction false} ExistingCountAppend(a: seq<DirEntry>, b: seq<DirEntry>)
    ensures ExistingCount(a + b) == ExistingCount(a) + ExistingCount(b)
    decreases |a|
  {
    if a == [] {
      assert a + b == b;
    } else {
      assert (a + b)[1..] == a[1..] + b;
      ExistingCountAppend(a[1..], b);
    }
  }

  /** Exactly the existing entries are listed: one record each, none for free or deleted slots. */
  lemma {:induction false} FilesLength(entries: seq<DirEntry>)
    ensures |Files(entries)| == ExistingCount(entries)
    decreases |entries|
  {
    if entries != [] {
      var n := |entries| - 1;
      FilesLength(entries[..n]);
      ExistingCountAppend(entries[..n], [entries[n]]);
      assert entries[..n] + [entries[n]] == entries;
      assert ExistingCount([entries[n]]) == if EntryExists(entries[n]) then 1 else 0 by {
        assert [entries[n]][1..] == [];
      }
    }
  }

  /**
   * Every existing entry is listed, at the position given by the number of existing
   * entries before it; so records keep the entries' relative order.
   */
  lemma FilesAt(entries: seq<DirEntry>, i: nat)
    requires i < |entries| && EntryExists(entries[i])
    ensures ExistingCount(entries[..i]) < |Files(entries)|
    ensures Files(entries)[ExistingCount(entries[..i])] == ToRecord(entries[i])
  {
    var before, rest := entries[..i], entries[i + 1..];
    assert entries == before + [entries[i]] + rest;
    FilesAppend(before + [entries[i]], rest);
    FilesAppend(before, [entries[i]]);
    assert Files([entries[i]]) == [ToRecord(entries[i])] by {
      assert [entries[i]][..0] == [];
    }
    FilesLength(before);
  }

  /** Every listed record comes from an existing entry. */
  lemma {:induction false} FilesSound(entries: seq<DirEntry>, k: nat)
    requires k < |Files(entries)|
    ensures exists i :: 0 <= i < |entries| && EntryExists(entries[i]) && Files(entries)[k] == ToRecord(entries[i])
    decreases |entries|
  {
    var n := |entries| - 1;
    var prefix := entries[..n];
    var tail := if EntryExists(entries[n]) then [ToRecord(entries[n])] else [];
    assert Files(entries) == Files(prefix) + tail;
    if k < |Files(prefix)| {
      FilesSound(prefix, k);
      var i :| 0 <= i < |prefix| && EntryExists(prefix[i]) && Files(prefix)[k] == ToRecord(prefix[i]);
      assert entries[i] == prefix[i] && Files(entries)[k] == Files(prefix)[k];
    } else {
      assert tail != [] && Files(entries)[k] == tail[0];
    }
  }

  /**
   * A slot that does not exist (free 0x00 or deleted 0xE5) is skipped and the scan goes on:
   * the entries after a free slot are still listed.
   */
  lemma FilesSkip(before: seq<DirEntry>, e: DirEntry, after: seq<DirEntry>)
    requires !EntryExists(e)
    ensures Files(before + [e] + after) == Files(before + after)
  {
    FilesAppend(before + [e], after);
    FilesAppend(before, [e]);
    FilesAppend(before, after);
    assert [e][..0] == [];
  }

  /** The entry `ls` looks for: an existing short-name entry whose 11-byte name equals the path. */
  predicate Matches(e: DirEntry, path: seq<Byte>)
  {
    EntryExists(e) && !IsLongName(e) && path == e.name
  }

  /** The index of the first entry that matches `path`, if any. */
  function FirstMatch(entries: seq<DirEntry>, path: seq<Byte>): (r: Option<nat>)
    ensures r.Some? ==> r.value < |entries| && Matches(entries[r.value], path)
    ensures r.Some? ==> forall j :: 0 <= j < r.value ==> !Matches(entries[j], path)
    ensures r.None? <==> forall j :: 0 <= j < |entries| ==> !Matches(entries[j], path)
  {
    if entries == [] then None
    else if Matches(entries[0], path) then Some(0)
    else match FirstMatch(entries[1..], path)
      case None => None
      case Some(k) => Some(k + 1)
  }

  /** Only 11-byte paths can match: the comparison is against the whole 11-byte name field. */
  lemma MatchNeedsElevenBytes(entries: seq<DirEntry>, path: seq<Byte>)
    requires |path| != 11
    ensures FirstMatch(entries, path) == None
  {
  }

  /**
   * The starting cluster `entry.cluster_low + (entry.cluster_high << 16)`, evaluated in C++
   * `int` arithmetic and then converted to the `uint64_t` parameter: a shift that reaches
   * bit 31 gives a negative `int`, which the conversion sign-extends.
   */
  function EntryCluster(e: DirEntry): U64
  {
    var shifted := e.clusterHigh * 0x1_0000;
    var asInt := if shifted < 0x8000_0000 then shifted else shifted - U32_MOD;
    var sum := e.clusterLow + asInt;
    if sum < 0 then sum + U64_MOD else sum
  }

  /** For a high half below 0x8000 (every valid FAT32 cluster number) the cluster is `high * 2^16 + low`. */
  lemma EntryClusterValid(e: DirEntry)
    requires e.clusterHigh < 0x8000
    ensures EntryCluster(e) == e.clusterHigh * 0x1_0000 + e.clusterLow
    ensures EntryCluster(e) < 0x8000_0000
  {
  }

  /** A high half of 0x8000 or more yields a cluster number sign-extended to 64 bits. */
  lemma EntryClusterSignExtended(e: DirEntry)
    requires e.clusterHigh >= 0x8000
    ensures EntryCluster(e) == U64_MOD - U32_MOD + e.clusterHigh * 0x1_0000 + e.clusterLow
    ensures EntryCluster(e) >= U64_MOD - 0x8000_0000
  {
  }

  /** `files(cluster)`: the loop over the entry array that pushes one record per existing entry. */
  method ListEntries(cluster: array<DirEntry>) returns (records: seq<FileRecord>)
    ensures records == Files(cluster[..])
  {
    records := [];
    var i := 0;
    while i < cluster.Length
      invariant 0 <= i <= cluster.Length
      invariant records == Files(cluster[..i])
    {
      var entry := cluster[i];
      if EntryExists(entry) {
        records := records + [ToRecord(entry)];
      }
      assert cluster[..i + 1][..i] == cluster[..i];
      i := i + 1;
    }
    assert cluster[..i] == cluster[..];
  }

  /** The scan of the root cluster in `ls` for the entry that names the path. */
  method FindEntry(cluster: array<DirEntry>, path: seq<Byte>) returns (found: Option<nat>)
    ensures found == FirstMatch(cluster[..], path)
  {
    var i := 0;
    while i < cluster.Length
      invariant 0 <= i <= cluster.Length
      invariant forall j :: 0 <= j < i ==> !Matches(cluster[j], path)
    {
      var entry := cluster[i];
      if EntryExists(entry) && !IsLongName(entry) {
        if path == entry.name {
          FirstMatchIsFirst(cluster[..], path, i);
          return Some(i);
        }
      }
      i := i + 1;
    }
    return None;
  }

  /** The first matching index is the one `FirstMatch` reports. */
  lemma FirstMatchIsFirst(entries: seq<DirEntry>, path: seq<Byte>, i: nat)
    requires i < |entries| && Matches(entries[i], path)
    requires forall j :: 0 <= j < i ==> !Matches(entries[j], path)
    ensures FirstMatch(entries, path) == Some(i)
  {
    var r := FirstMatch(entries, path);
    assert r.Some?;
    assert !(r.value < i) && !(i < r.value);
  }
}
