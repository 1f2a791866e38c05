/** Formatting a disk, and writing the file system's own data out and reading it back. */
module Format {
  import opened Basics
  import opened Bitmap
  import opened Clusters
  import opened Ownership
  import opened Inodes
  import opened FileViews
  import opened AllocationSteps
  import opened Truncation
  import opened Occupancy
  import opened FlatFile
  import opened TableImage
  import opened Storage
  import opened Entries
  import opened Directories
  import opened Namespace
  import opened Vfs

  // ----- Runs of clusters on disk -----

  /** The piece of bytes that goes into cluster j of a run, zero-padded. */
  function Piece(bytes: seq<byte>, j: nat): (c: Cluster)
    requires j * CLUSTER_SIZE < |bytes|
    ensures IsCluster(c)
  {
    var rest := bytes[j * CLUSTER_SIZE..];
    if |rest| >= CLUSTER_SIZE then rest[..CLUSTER_SIZE] else rest + Zeros(CLUSTER_SIZE - |rest|)
  }

  /** The first j clusters of the run have been written. */
  ghost predicate Written(disk: seq<Cluster>, disk': seq<Cluster>, start: nat, bytes: seq<byte>, j: nat) {
    && |disk'| == |disk| && start + j <= |disk| && j <= ClustersFor(|bytes|)
    && (forall c :: 0 <= c < |disk| && !(start <= c < start + j) ==> disk'[c] == disk[c])
    && (forall i :: 0 <= i < j ==> i * CLUSTER_SIZE < |bytes| && disk'[start + i] == Piece(bytes, i))
  }

  method WriteRun(disk: seq<Cluster>, start: nat, bytes: seq<byte>) returns (disk': seq<Cluster>)
    requires start + ClustersFor(|bytes|) <= |disk|
    ensures Written(disk, disk', start, bytes, ClustersFor(|bytes|))
  {
    disk' := disk;
    var offset, j := 0, 0;
    while offset < |bytes|
      invariant Written(disk, disk', start, bytes, j)
      invariant offset == Min(|bytes|, j * CLUSTER_SIZE)
      decreases |bytes| - offset
    {
      RunStep(|bytes|, j);
      disk' := disk'[start + j := Piece(bytes, j)];
      offset := if |bytes| - offset > CLUSTER_SIZE then offset + CLUSTER_SIZE else |bytes|;
      j := j + 1;
    }
    RunDone(|bytes|, j);
  }

  lemma RunStep(n: nat, j: nat)
    requires j * CLUSTER_SIZE < n
    ensures j + 1 <= ClustersFor(n)
  {
  }

  lemma RunDone(n: nat, j: nat)
    requires n <= j * CLUSTER_SIZE && j <= ClustersFor(n)
    ensures j == ClustersFor(n)
  {
  }

  /** What was written reads back. */
  lemma WrittenRegion(disk: seq<Cluster>, disk': seq<Cluster>, start: nat, bytes: seq<byte>)
    requires Written(disk, disk', start, bytes, ClustersFor(|bytes|))
    ensures RegionOk(disk', start, |bytes|) && Region(disk', start, |bytes|) == bytes
  {
    hide Piece;
    forall c | start <= c < start + ClustersFor(|bytes|) ensures IsCluster(disk'[c]) {
      assert disk'[start + (c - start)] == Piece(bytes, c - start);
    }
    forall i | 0 <= i < |bytes| ensures Region(disk', start, |bytes|)[i] == bytes[i] {
      RegionIndex(start, |bytes|, i);
      PieceByte(bytes, i);
      assert disk'[start + i / CLUSTER_SIZE] == Piece(bytes, i / CLUSTER_SIZE);
    }
  }

  lemma PieceByte(bytes: seq<byte>, i: nat)
    requires i < |bytes|
    ensures i / CLUSTER_SIZE * CLUSTER_SIZE < |bytes|
    ensures Piece(bytes, i / CLUSTER_SIZE)[i % CLUSTER_SIZE] == bytes[i]
  {
  }

  method ReadRun(disk: seq<Cluster>, start: nat, n: nat) returns (bytes: seq<byte>)
    requires RegionOk(disk, start, n)
    ensures bytes == Region(disk, start, n)
  {
    bytes := [];
    var j := 0;
    while |bytes| < n
      invariant |bytes| == Min(n, j * CLUSTER_SIZE)
      invariant bytes == Region(disk, start, n)[..|bytes|]
      decreases n - |bytes|
    {
      RunStep(n, j);
      var chunkSize := if n - |bytes| > CLUSTER_SIZE then CLUSTER_SIZE else n - |bytes|;
      var buffer := disk[start + j];
      RegionChunk(disk, start, n, j, chunkSize);
      assert bytes + buffer[..chunkSize] == Region(disk, start, n)[..|bytes| + chunkSize];
      bytes := bytes + buffer[..chunkSize];
      j := j + 1;
    }
  }

  lemma RegionChunk(disk: seq<Cluster>, start: nat, n: nat, j: nat, chunkSize: nat)
    requires RegionOk(disk, start, n) && chunkSize <= CLUSTER_SIZE && j * CLUSTER_SIZE + chunkSize <= n && chunkSize > 0
    ensures start + j < |disk| && IsCluster(disk[start + j])
    ensures disk[start + j][..chunkSize] == Region(disk, start, n)[j * CLUSTER_SIZE..j * CLUSTER_SIZE + chunkSize]
  {
    assert j < ClustersFor(n);
    var part := Region(disk, start, n)[j * CLUSTER_SIZE..j * CLUSTER_SIZE + chunkSize];
    forall i | 0 <= i < chunkSize ensures disk[start + j][i] == part[i] {
      assert (j * CLUSTER_SIZE + i) / CLUSTER_SIZE == j && (j * CLUSTER_SIZE + i) % CLUSTER_SIZE == i;
    }
  }

  // ----- The bitmap as bytes -----

  function BitmapBytes(bits: seq<bv8>): (bytes: seq<byte>)
    ensures |bytes| == |bits|
  {
    seq(|bits|, i requires 0 <= i < |bits| => bits[i] as int)
  }

  lemma BitsRoundTrip(b: bv8)
    ensures (b as int) as bv8 == b
  {
  }

  method LoadBitmap(bitmap: Bitmap, bytes: seq<byte>, ghost bits: seq<bv8>)
    requires bitmap.Valid() && |bits| == bitmap.buffer.Length && bytes == BitmapBytes(bits)
    modifies bitmap.buffer
    ensures bitmap.buffer[..] == bits
  {
    for i := 0 to bitmap.buffer.Length
      invariant bitmap.buffer[..i] == bits[..i]
    {
      BitsRoundTrip(bits[i]);
      bitmap.buffer[i] := bytes[i] as bv8;
    }
  }

  // ----- The file system's own data -----

  function BitmapLength(total: nat): nat {
    (total + 7) / 8
  }

  /** The clusters of the bitmap end before those of the inode table exactly up to 32768 clusters. */
  lemma LayoutFits(total: nat)
    ensures BITMAP_START + ClustersFor(BitmapLength(total)) <= TABLE_START <==> total <= 32768
    ensures TABLE_START + ClustersFor(INODE_SIZE * INODE_COUNT) == DATA_START
  {
  }

  /** Disk clusters below the data area are nobody's; writing them moves no file. */
  lemma {:induction false} OwnDataOwned(v: Volume, disk': seq<Cluster>, key: Key, path: Path)
    requires Sound(v) && |disk'| == |v.disk| && Position(v.roots, key, path)
    requires forall c :: v.reserved <= c < |v.disk| ==> disk'[c] == v.disk[c]
    ensures Owned(disk', v.roots, key, path) == Owned(v.disk, v.roots, key, path)
    decreases |path|
  {
    if path != [] {
      PositionParent(v.roots, key, path);
      OwnDataOwned(v, disk', key, path[..|path| - 1]);
      SoundAt(v, key, path[..|path| - 1]);
    }
  }

  lemma OwnDataSound(v: Volume, disk': seq<Cluster>)
    requires Sound(v) && |disk'| == |v.disk| && WholeClusters(disk')
    requires forall c :: v.reserved <= c < |v.disk| ==> disk'[c] == v.disk[c]
    ensures Sound(v.(disk := disk')) && SameOwned(v, v.(disk := disk'))
  {
    forall key, path | Position(v.roots, key, path)
      ensures Owned(disk', v.roots, key, path) == Owned(v.disk, v.roots, key, path)
    {
      OwnDataOwned(v, disk', key, path);
    }
  }

  lemma OwnDataFile(v: Volume, disk': seq<Cluster>, inodes: seq<Inode>, j: nat)
    requires Sound(v) && OfTable(v, inodes) && |disk'| == |v.disk| && j < |inodes|
    requires forall c :: v.reserved <= c < |v.disk| ==> disk'[c] == v.disk[c]
    ensures SameFile(v.disk, disk', inodes[j], inodes[j])
  {
    forall l | 0 <= l < MAX_FILE_CLUSTERS ensures ViewOf(disk', inodes[j], l) == ViewOf(v.disk, inodes[j], l) {
      LookupPosition(inodes, j, l);
      LookupIsOwned(v.disk, inodes, j, l);
      LookupIsOwned(disk', inodes, j, l);
      OwnDataOwned(v, disk', Slot(j, SlotFor(l)), PathFor(l));
      SoundAt(v, Slot(j, SlotFor(l)), PathFor(l));
    }
  }

  /** Everything a mount needs is on disk: superblock, bitmap and inode table. */
  ghost predicate SavedSystem(disk: seq<Cluster>, table: seq<Inode>, bits: seq<bv8>, super: Superblock) {
    && |disk| == super.totalClusters && |bits| == BitmapLength(|disk|) && |table| == INODE_COUNT
    && TableSaved(disk, table, DATA_START)
    && disk[0] == SuperCluster(super)
    && RegionOk(disk, BITMAP_START, |bits|) && Region(disk, BITMAP_START, |bits|) == BitmapBytes(bits)
  }

  /** All numbers fit the 32 bits they have on disk, and the superblock is one. */
  ghost predicate Storable(table: seq<Inode>, super: Superblock) {
    && TableOk(table) && (forall id :: 0 <= id < |table| ==> InodeFits(table[id]))
    && SuperFits(super, super.totalClusters)
  }

  /** Writes the inode table out when it has changed, and the bitmap always. */
  method Flush(s: Storage)
    requires s.Valid() && Sound(s.Vol(TableRoots(s.table))) && s.reserved == DATA_START
    requires |s.table| == INODE_COUNT && DATA_START <= |s.disk| == s.super.totalClusters <= 32768
    modifies s`disk, s`dirty
    ensures s.Valid() && Sound(s.Vol(TableRoots(s.table))) && !s.dirty && |s.disk| == |old(s.disk)|
    ensures SavedSystem(s.disk, s.table, s.bitmap.buffer[..], s.super)
    ensures forall j :: 0 <= j < |s.table| ==> SameFile(old(s.disk), s.disk, s.table[j], s.table[j])
  {
    hide Sound, TableRoots, Flags, Region, TableBytes, BitmapBytes, SuperCluster, SameFile, Piece;
    ghost var v := s.Vol(TableRoots(s.table));
    WholeVolume(v);
    LayoutFits(|s.disk|);
    var disk := s.disk;
    if s.dirty {
      disk := WriteRun(disk, TABLE_START, TableBytes(s.table));
      WrittenRegion(s.disk, disk, TABLE_START, TableBytes(s.table));
    }
    ghost var saved := disk;
    assert TableSaved(saved, s.table, DATA_START);
    disk := WriteRun(disk, BITMAP_START, BitmapBytes(s.bitmap.buffer[..]));
    WrittenRegion(saved, disk, BITMAP_START, BitmapBytes(s.bitmap.buffer[..]));
    BesideTable(saved, disk, s.table);
    WrittenWhole(s.disk, saved, disk);
    OwnDataSound(v, disk);
    forall j | 0 <= j < |s.table| ensures SameFile(s.disk, disk, s.table[j], s.table[j]) {
      OwnDataFile(v, disk, s.table, j);
    }
    s.disk := disk;
    s.dirty := false;
  }

  lemma WholeVolume(v: Volume)
    requires Sound(v)
    ensures WholeClusters(v.disk) && |v.used| == |v.disk|
  {
  }

  lemma WrittenWhole(a: seq<Cluster>, b: seq<Cluster>, c: seq<Cluster>)
    requires WholeClusters(a) && |a| == |b| == |c|
    requires forall i :: 0 <= i < |a| ==> b[i] == a[i] || IsCluster(b[i])
    requires forall i :: 0 <= i < |a| ==> c[i] == b[i] || IsCluster(c[i])
    ensures WholeClusters(c)
  {
  }

  /** One cluster of bitmap does not touch the table. */
  lemma BesideTable(disk: seq<Cluster>, disk': seq<Cluster>, table: seq<Inode>)
    requires TableSaved(disk, table, DATA_START) && |disk'| == |disk|
    requires forall c :: TABLE_START <= c < |disk| ==> disk'[c] == disk[c]
    ensures TableSaved(disk', table, DATA_START)
  {
    hide TableBytes;
    forall i | 0 <= i < INODE_SIZE * |table| ensures TABLE_START + i / CLUSTER_SIZE < |disk| {
      RegionIndex(TABLE_START, INODE_SIZE * |table|, i);
    }
    assert Region(disk', TABLE_START, INODE_SIZE * |table|) == Region(disk, TABLE_START, INODE_SIZE * |table|);
  }

  /** Reads superblock, bitmap and inode table back. */
  method Mount(disk: seq<Cluster>, ghost table: seq<Inode>, ghost bits: seq<bv8>, ghost super: Superblock)
    returns (status: Status, s: Storage?)
    requires |disk| > 0 && IsCluster(disk[0])
    requires SuperOf(disk[0]).magic == MAGIC_NUMBER ==>
               SavedSystem(disk, table, bits, super) && Storable(table, super) && |disk| <= 32768
    ensures status == if SuperOf(disk[0]).magic == MAGIC_NUMBER then Ok else InvalidArgument
    ensures status == Ok ==>
              && s != null && fresh(s) && fresh(s.bitmap) && fresh(s.bitmap.buffer) && s.Valid() && !s.dirty
              && s.disk == disk && s.table == table && s.bitmap.buffer[..] == bits && s.super == super
              && s.reserved == DATA_START
  {
    hide Region, TableBytes, BitmapBytes, Flags, SuperCluster, SuperOf, TableFrom, InodeFits, SuperWords;
    var super' := SuperOf(disk[0]);
    if super'.magic != MAGIC_NUMBER {
      return InvalidArgument, null;
    }
    SuperRoundTrip(super);
    var bitmap := new Bitmap(super'.totalClusters);
    var bytes := ReadRun(disk, BITMAP_START, bitmap.buffer.Length);
    LoadBitmap(bitmap, bytes, bits);
    bytes := ReadRun(disk, super'.inodeTableStart, INODE_SIZE * INODE_COUNT);
    TableRoundTrip(table);
    s := new Storage(disk, bitmap, TableFrom(bytes, INODE_COUNT), false, super', super'.dataStart);
    return Ok, s;
  }

  /** Unmounting and mounting again gives back the same bitmap, the same inodes and the same files. */
  method Remount(s: Storage) returns (status: Status, s': Storage?)
    requires s.Valid() && Sound(s.Vol(TableRoots(s.table))) && s.reserved == DATA_START
    requires |s.table| == INODE_COUNT && DATA_START <= |s.disk| == s.super.totalClusters <= 32768
    requires Storable(s.table, s.super)
    modifies s`disk, s`dirty
    ensures status == Ok && s' != null && fresh(s') && s'.Valid()
    ensures s'.table == old(s.table) && s'.bitmap.Used() == old(s.bitmap.Used()) && s'.super == s.super
    ensures Sound(s'.Vol(TableRoots(s'.table))) && s'.reserved == DATA_START && |s'.disk| == |old(s.disk)| && !s'.dirty
    ensures forall j :: 0 <= j < |s'.table| ==> SameFile(old(s.disk), s'.disk, s'.table[j], s'.table[j])
  {
    hide Sound, TableRoots, Flags, SameFile, Image, SuperCluster, SuperOf, SuperWords, TableSaved, InodeFits;
    Flush(s);
    SuperRoundTrip(s.super);
    status, s' := Mount(s.disk, s.table, s.bitmap.buffer[..], s.super);
    assert s'.Vol(TableRoots(s'.table)) == s.Vol(TableRoots(s.table));
  }

  // ----- Formatting -----

  /** fs_superblock_initialize. */
  function NewSuperblock(total: nat): Superblock {
    Superblock(MAGIC_NUMBER, total, 0, TABLE_START, ClustersFor(INODE_SIZE * INODE_COUNT),
               TABLE_START + ClustersFor(INODE_SIZE * INODE_COUNT))
  }

  lemma SuperWordsAre(total: nat)
    ensures SuperWords(NewSuperblock(total).(rootInodeId := ROOT_INODE)) == [0x46530001, total, 2, 2, 21, 23]
  {
  }

  /** The superblock of a formatted disk, byte by byte. */
  lemma SuperBytes(total: nat)
    requires total <= MAX_CLUSTERS
    ensures var c := SuperCluster(NewSuperblock(total).(rootInodeId := ROOT_INODE));
            && c[0..4] == [1, 0, 0x53, 0x46]
            && c[4..8] == [total % 256, total / 256 % 256, total / 65536 % 256, total / 16777216 % 256]
            && c[8..12] == [2, 0, 0, 0] && c[12..16] == [2, 0, 0, 0] && c[16..20] == [21, 0, 0, 0] && c[20..24] == [23, 0, 0, 0]
  {
    var super := NewSuperblock(total).(rootInodeId := ROOT_INODE);
    SuperWordsAre(total);
    hide *;
    SuperWord(super, 0, 0);
    SuperWord(super, 1, 4);
    SmallWord(super, 2, 8);
    SmallWord(super, 3, 12);
    SmallWord(super, 4, 16);
    SmallWord(super, 5, 20);
  }

  lemma SmallWord(super: Superblock, i: nat, from: nat)
    requires i < 6 && from == 4 * i && SuperWords(super)[i] < 256
    ensures SuperCluster(super)[from..from + 4] == [SuperWords(super)[i], 0, 0, 0]
  {
    hide *;
    SuperWord(super, i, from);
  }

  /** The inode of the bitmap or of the inode table: in use, named nowhere, without clusters. */
  function MetadataInode(id: nat): (ino: Inode)
    ensures InodeOk(ino)
  {
    EmptyInode(id).(isUsed := true)
  }

  function FirstTable(): (table: seq<Inode>)
    ensures |table| == INODE_COUNT && TableOk(table)
    ensures forall id :: 0 <= id < |table| ==> NoPointers(table[id]) && (table[id].isUsed <==> id < 2)
    ensures forall id :: 0 <= id < |table| ==> table[id].size == 0 && table[id].kind == Regular
  {
    seq(INODE_COUNT, id requires 0 <= id => if id < 2 then MetadataInode(id) else EmptyInode(id))
  }

  /** The clusters marked before any file is made. */
  ghost predicate MetadataMarked(used: seq<bool>, total: nat) {
    |used| == total && forall c :: 0 <= c < total ==> (used[c] <==> c < MetadataEnd(total))
  }

  function MetadataEnd(total: nat): nat {
    if BITMAP_START + ClustersFor(BitmapLength(total)) > DATA_START then BITMAP_START + ClustersFor(BitmapLength(total))
    else DATA_START
  }

  lemma MetadataEndFits(total: nat)
    requires total >= 23
    ensures MetadataEnd(total) <= total && BITMAP_START + ClustersFor(BitmapLength(total)) <= total
    ensures total >= 24 ==> MetadataEnd(total) < total
    ensures total <= 32768 ==> MetadataEnd(total) == DATA_START
  {
  }

  /** Marks superblock, bitmap and inode table used; fails on a disk too small for them. */
  method MarkMetadata(bitmap: Bitmap) returns (status: Status)
    requires bitmap.Valid() && forall c :: 0 <= c < bitmap.total ==> !bitmap.Used()[c]
    modifies bitmap.buffer
    ensures status == if bitmap.total < DATA_START then OutOfBounds else Ok
    ensures status == Ok ==> MetadataMarked(bitmap.Used(), bitmap.total)
    ensures status == Ok ==> forall c :: 0 <= c < bitmap.total ==>
                               (bitmap.Used()[c] <==> c < 23 || c < 1 + ((bitmap.total + 7) / 8 + 4095) / 4096)
  {
    hide Flags;
    status := bitmap.MarkUsed(0);
    var end := BITMAP_START + ClustersFor(BitmapLength(bitmap.total));
    for c := BITMAP_START to end
      invariant c <= bitmap.total
      invariant forall i :: 0 <= i < bitmap.total ==> (bitmap.Used()[i] <==> i < c)
    {
      status := bitmap.MarkUsed(c);
      if status != Ok {
        return;
      }
    }
    LayoutFits(bitmap.total);
    for c := TABLE_START to TABLE_START + ClustersFor(INODE_SIZE * INODE_COUNT)
      invariant c <= bitmap.total || c == TABLE_START
      invariant forall i :: 0 <= i < bitmap.total ==> (bitmap.Used()[i] <==> i < end || i < c)
    {
      status := bitmap.MarkUsed(c);
      if status != Ok {
        return;
      }
    }
    return Ok;
  }

  /** With everything below e used and nothing else, one cluster more is cluster e. */
  lemma OneMoreIsNext(used: seq<bool>, used': seq<bool>, e: nat)
    requires e <= |used| == |used'| && forall c :: 0 <= c < |used| ==> (used[c] <==> c < e)
    requires TookLowest(used, used', 1)
    ensures e < |used| && forall c :: 0 <= c < |used| ==> (used'[c] <==> c <= e)
  {
    CountIsSize(used, |used|);
    CountIsSize(used', |used'|);
    var a, b := UsedSet(used, |used|), UsedSet(used', |used'|);
    assert a <= b;
    RemovedSize(b, a);
    var fresh' := b - a;
    assert |fresh'| == 1;
    HasElement(fresh');
    var x :| x in fresh';
    assert used'[x] && !used[x];
    if x > e {
      assert used'[e];
      assert e in fresh';
      OnlyElement(fresh', x, e);
    }
    forall c | 0 <= c < |used| ensures used'[c] <==> c <= e {
      if used'[c] && c > e {
        assert c in fresh';
        OnlyElement(fresh', x, c);
      }
    }
  }

  /** Nothing is owned by inodes without pointers. */
  lemma EmptySound(v: Volume, table: seq<Inode>)
    requires Shaped(v) && OfTable(v, table) && forall id :: 0 <= id < |table| ==> NoPointers(table[id])
    ensures Sound(v)
  {
    forall key, path | Position(v.roots, key, path) ensures Owned(v.disk, v.roots, key, path) == 0 {
      assert key == Slot(key.id, key.k);
      assert NoPointers(table[key.id]);
      AtNothing(v.disk, path);
    }
  }

  /** The root directory with its two entries. */
  ghost predicate RootMade(disk: seq<Cluster>, table: seq<Inode>) {
    && TableOk(table) && |table| == INODE_COUNT
    && (forall id :: 0 <= id < |table| ==> (table[id].isUsed <==> id <= ROOT_INODE))
    && (forall id :: 0 <= id < |table| && id != ROOT_INODE ==> table[id] == FirstTable()[id])
    && table[ROOT_INODE].kind == Directory && table[ROOT_INODE].linkCount == 1 && table[ROOT_INODE].size == 24
    && GoodDirectory(disk, table[ROOT_INODE]) && Dir(disk, table[ROOT_INODE]) == FirstNames(ROOT_INODE, ROOT_INODE)
  }

  const ROOT_INODE := 2

  /** Makes the root directory in a file system that has no files. */
  method MakeRoot(s: Storage) returns (status: Status)
    requires s.Valid() && s.table == FirstTable() && s.reserved == MetadataEnd(|s.disk|) && 23 <= |s.disk| <= MAX_CLUSTERS
    requires WholeClusters(s.disk) && MetadataMarked(s.bitmap.Used(), |s.disk|)
    modifies s`disk, s`table, s`dirty, s.bitmap.buffer
    ensures s.Valid() && |s.disk| == |old(s.disk)| && (status == Ok || status == NoSpace)
    ensures status == Ok <==> |s.disk| >= 24
    ensures status == Ok ==>
              && RootMade(s.disk, s.table) && Sound(s.Vol(TableRoots(s.table)))
              && forall c :: 0 <= c < |s.disk| ==> (s.bitmap.Used()[c] <==> c <= s.reserved)
  {
    hide Image, TableRoots, Flags, GoodDirectory, Dir, TookLowest, FirstNames, SameFile;
    ghost var v := s.Vol(TableRoots(s.table));
    MetadataEndFits(|s.disk|);
    EmptySound(v, s.table);
    ghost var table := s.table;
    var root;
    hide Sound;
    status, root := s.AllocateInode(Directory);
    assert !table[2].isUsed && root == 2;
    NewHasNoPointers(root, Directory);
    DropSound(s.disk, s.bitmap.Used(), s.reserved, table, NewInode(root, Directory));
    ghost var used, before := s.bitmap.Used(), s.table;
    status := CreateNew(s, root, root);
    if status == Ok {
      OneMoreIsNext(used, s.bitmap.Used(), s.reserved);
      OnlyRootChanged(before, s.table, s.disk);
    } else {
      FullOfMetadata(s.Vol(map[]), |s.disk|);
    }
  }

  lemma UsedAt(v: Volume, c: nat)
    requires AllUsed(v) && c < |v.used|
    ensures v.used[c]
  {
  }

  lemma FullOfMetadata(v: Volume, total: nat)
    requires AllUsed(v) && MetadataMarked(v.used, total) && total >= 23
    ensures total == 23
  {
    MetadataEndFits(total);
    if MetadataEnd(total) < total {
      UsedAt(v, MetadataEnd(total));
    }
  }

  lemma OnlyRootChanged(before: seq<Inode>, table: seq<Inode>, disk: seq<Cluster>)
    requires before == FirstTable()[ROOT_INODE := NewInode(ROOT_INODE, Directory)]
    requires TableOk(table) && |table| == INODE_COUNT
    requires forall id :: 0 <= id < |table| && id != ROOT_INODE ==> table[id] == before[id]
    requires SameLabels(before[ROOT_INODE], table[ROOT_INODE]) && table[ROOT_INODE].size == 24
    requires GoodDirectory(disk, table[ROOT_INODE]) && Dir(disk, table[ROOT_INODE]) == FirstNames(ROOT_INODE, ROOT_INODE)
    ensures RootMade(disk, table)
  {
    hide GoodDirectory, Dir, FirstNames;
  }

  /** With more than one bitmap cluster the second one lies where the inode table begins. */
  lemma BitmapOverTable(disk: seq<Cluster>, table: seq<Inode>, bits: seq<bv8>, total: nat, i: nat)
    requires total > 32768 && |bits| == BitmapLength(total) && TableOk(table) && |table| == INODE_COUNT
    requires table[0].isUsed && (i == 8 || i == 84) && (CLUSTER_SIZE + i < |bits| ==> bits[CLUSTER_SIZE + i] != 1)
    requires TABLE_START < |disk| && disk[TABLE_START] == Piece(BitmapBytes(bits), 1)
    ensures !TableSaved(disk, table, DATA_START)
  {
    hide Region;
    if TableSaved(disk, table, DATA_START) {
      RegionAt(disk, TABLE_START, INODE_SIZE * |table|, i);
      UsedByte(table);
      PieceAt(BitmapBytes(bits), 1, i);
      if CLUSTER_SIZE + i < |bits| {
        NotOne(bits[CLUSTER_SIZE + i]);
      }
    }
  }

  lemma NotOne(b: bv8)
    requires b != 1
    ensures b as int != 1
  {
    BitsRoundTrip(b);
  }

  /** A byte of the bitmap that reads 1 marks its first cluster used and its second free. */
  lemma OneByte(bits: seq<bv8>, total: nat, j: nat)
    requires j < |bits| == BitmapLength(total) && bits[j] == 1
    ensures 8 * j < total && Flags(bits, total)[8 * j]
    ensures 8 * j + 1 < total ==> !Flags(bits, total)[8 * j + 1]
  {
    assert (8 * j) / 8 == j && (8 * j) % 8 == 0;
    assert (8 * j + 1) / 8 == j && (8 * j + 1) % 8 == 1;
  }

  lemma ZeroByte(b: bv8)
    requires forall i :: 0 <= i < 8 ==> !Bit(b, i)
    ensures b == 0
  {
    assert !Bit(b, 0) && !Bit(b, 1) && !Bit(b, 2) && !Bit(b, 3) && !Bit(b, 4) && !Bit(b, 5) && !Bit(b, 6) && !Bit(b, 7);
    NoBits(b);
  }

  lemma NoBits(b: bv8)
    requires !Bit(b, 0) && !Bit(b, 1) && !Bit(b, 2) && !Bit(b, 3) && !Bit(b, 4) && !Bit(b, 5) && !Bit(b, 6) && !Bit(b, 7)
    ensures b == 0
  {
  }

  lemma FreeByte(bits: seq<bv8>, total: nat, j: nat)
    requires |bits| == BitmapLength(total) && 8 * j + 8 <= total
    requires forall c :: 8 * j <= c < 8 * j + 8 ==> !Flags(bits, total)[c]
    ensures bits[j] == 0
  {
    hide Bit;
    forall i | 0 <= i < 8 ensures !Bit(bits[j], i) {
      assert (8 * j + i) / 8 == j && (8 * j + i) % 8 == i;
      assert !Flags(bits, total)[8 * j + i];
    }
    ZeroByte(bits[j]);
  }

  lemma RegionAt(disk: seq<Cluster>, start: nat, n: nat, i: nat)
    requires RegionOk(disk, start, n) && i < n && i < CLUSTER_SIZE
    ensures start < |disk| && IsCluster(disk[start]) && Region(disk, start, n)[i] == disk[start][i]
  {
    RegionIndex(start, n, i);
  }

  lemma PieceAt(bytes: seq<byte>, j: nat, i: nat)
    requires j * CLUSTER_SIZE < |bytes| && i < CLUSTER_SIZE
    ensures Piece(bytes, j)[i] == if j * CLUSTER_SIZE + i < |bytes| then bytes[j * CLUSTER_SIZE + i] else 0
  {
  }

  lemma {:induction false} FirstByteOfWord(ws: seq<nat>, i: nat)
    requires i < |ws|
    ensures EncodeWords(ws)[4 * i] == ws[i] % 256
  {
    hide InodeWords;
    if i > 0 {
      FirstByteOfWord(ws[1..], i - 1);
    } else {
      assert Encode(ws[0], 4)[0] == ws[0] % 256;
    }
  }

  lemma RecordsOfTwo(table: seq<Inode>, i: nat)
    requires |table| > 1 && (forall id :: 0 <= id < |table| ==> InodeOk(table[id])) && i < INODE_SIZE
    ensures TableBytes(table)[i] == EncodeWords(InodeWords(table[0]))[i]
    ensures TableBytes(table)[INODE_SIZE + i] == EncodeWords(InodeWords(table[1]))[i]
  {
    var first, rest, second := EncodeWords(InodeWords(table[0])), TableBytes(table[1..]), EncodeWords(InodeWords(table[1]));
    assert TableBytes(table) == first + rest && |first| == INODE_SIZE;
    assert table[1..][0] == table[1] && rest == second + TableBytes(table[1..][1..]) && |second| == INODE_SIZE;
    hide *;
    JoinAt(first, rest, i);
    JoinAt(second, rest[|second|..], i);
    assert rest == second + rest[|second|..];
  }

  lemma JoinAt(a: seq<byte>, b: seq<byte>, i: nat)
    requires i < |a|
    ensures (a + b)[i] == a[i] && (i < |b| ==> (a + b)[|a| + i] == b[i])
  {
  }

  lemma UsedByte(table: seq<Inode>)
    requires |table| > 1 && TableOk(table) && table[0].isUsed
    ensures TableBytes(table)[8] == 1 && TableBytes(table)[84] == 1
  {
    hide EncodeWords, TableBytes;
    RecordsOfTwo(table, 8);
    RecordsOfTwo(table, 0);
    FirstByteOfWord(InodeWords(table[0]), 2);
    FirstByteOfWord(InodeWords(table[1]), 0);
  }

  /** What a formatted disk holds. */
  ghost predicate Formatted(disk: seq<Cluster>, table: seq<Inode>, bits: seq<bv8>, total: nat) {
    && |disk| == total >= 24 && |bits| == BitmapLength(total) && RootMade(disk, table)
    && (forall c :: 0 <= c < total ==> (Flags(bits, total)[c] <==> c <= MetadataEnd(total)))
    && Sound(Volume(disk, Flags(bits, total), TableRoots(table), MetadataEnd(total)))
  }

  /**
   Formats a disk. The bitmap is written last; with more than 32768 clusters its second cluster overwrites the
   first cluster of the inode table, so that a mount finds neither the bitmap's inode nor the root directory.
   */
  method FormatDisk(disk: seq<Cluster>, total: nat)
    returns (status: Status, disk': seq<Cluster>, ghost table: seq<Inode>, ghost bits: seq<bv8>)
    requires |disk| == total <= MAX_CLUSTERS && WholeClusters(disk)
    ensures status == if total == 0 then InvalidArgument else if total < 23 then OutOfBounds
                      else if total == 23 then NoSpace else Ok
    ensures status == Ok ==>
              && Formatted(disk', table, bits, total)
              && (SavedSystem(disk', table, bits, NewSuperblock(total).(rootInodeId := ROOT_INODE)) <==> total <= 32768)
    ensures status == Ok ==>
              && IsCluster(disk'[0])
              && disk'[0][0..4] == [1, 0, 0x53, 0x46]
              && disk'[0][4..8] == [total % 256, total / 256 % 256, total / 65536 % 256, total / 16777216 % 256]
              && disk'[0][8..12] == [2, 0, 0, 0] && disk'[0][12..16] == [2, 0, 0, 0]
              && disk'[0][16..20] == [21, 0, 0, 0] && disk'[0][20..24] == [23, 0, 0, 0]
    ensures status == Ok && total <= 32768 ==>
              var super := SuperOf(disk'[0]);
              && super.inodeTableStart + super.inodeTableSize == super.dataStart
              && super.totalClusters == total && super.rootInodeId == 2 && |table| == 1024 && TableOk(table)
              && RegionOk(disk', super.inodeTableStart, 84 * 1024)
              && Region(disk', super.inodeTableStart, 84 * 1024) == TableBytes(table)
  {
    hide Flags, Sound, TableRoots, RootMade, Region, TableBytes, BitmapBytes, SuperCluster, Piece, MetadataMarked;
    table, bits := [], [];
    if total == 0 {
      return InvalidArgument, disk, table, bits;
    }
    var super := NewSuperblock(total);
    var d := disk[0 := SuperCluster(super)];
    var bitmap := new Bitmap(total);
    status := MarkMetadata(bitmap);
    if status != Ok {
      return status, d, table, bits;
    }
    MetadataEndFits(total);
    var s := new Storage(d, bitmap, FirstTable(), true, super, MetadataEnd(total));
    status := MakeRoot(s);
    if status != Ok {
      return status, s.disk, table, bits;
    }
    table, bits := s.table, bitmap.buffer[..];
    disk' := WriteOwnData(s.disk, s.table, bitmap.buffer[..], super.(rootInodeId := ROOT_INODE), total);
    SuperBytes(total);
    if total <= 32768 {
      SuperRoundTrip(super.(rootInodeId := ROOT_INODE));
    }
    return Ok, disk', table, bits;
  }

  lemma RootTable(disk: seq<Cluster>, table: seq<Inode>)
    requires RootMade(disk, table)
    ensures TableOk(table) && |table| == INODE_COUNT && table[0].isUsed
  {
    hide GoodDirectory, Dir, FirstNames, FirstTable;
  }

  /** Writing below the data area keeps everything about the formatted system. */
  lemma StillFormatted(disk: seq<Cluster>, disk': seq<Cluster>, table: seq<Inode>, bits: seq<bv8>, total: nat)
    requires Formatted(disk, table, bits, total) && |disk'| == |disk| && WholeClusters(disk')
    requires forall c :: MetadataEnd(total) <= c < |disk| ==> disk'[c] == disk[c]
    ensures Formatted(disk', table, bits, total)
  {
    hide GoodDirectory, Dir, FirstNames, FirstTable, Flags, Sound, TableRoots, SameFile;
    var v := Volume(disk, Flags(bits, total), TableRoots(table), MetadataEnd(total));
    OwnDataSound(v, disk');
    OwnDataFile(v, disk', table, ROOT_INODE);
    DirectoryKept(disk, disk', table[ROOT_INODE]);
  }

  lemma FormattedWhole(disk: seq<Cluster>, table: seq<Inode>, bits: seq<bv8>, total: nat)
    requires Formatted(disk, table, bits, total)
    ensures WholeClusters(disk)
  {
  }

  /** The bitmap is the last thing written: what it leaves of the inode table. */
  lemma OwnDataSaved(d0: seq<Cluster>, d1: seq<Cluster>, d2: seq<Cluster>, table: seq<Inode>, bits: seq<bv8>, total: nat)
    requires |d0| == total >= 24 && |bits| == BitmapLength(total) && TableOk(table) && |table| == INODE_COUNT
    requires table[0].isUsed
    requires forall c :: 0 <= c < total ==> (Flags(bits, total)[c] <==> c <= MetadataEnd(total))
    requires Written(d0, d1, TABLE_START, TableBytes(table), ClustersFor(|TableBytes(table)|))
    requires Written(d1, d2, BITMAP_START, BitmapBytes(bits), ClustersFor(|bits|))
    requires total <= MAX_CLUSTERS
    ensures TableSaved(d2, table, DATA_START) <==> total <= 32768
  {
    hide Flags, Region, TableBytes, BitmapBytes, Piece;
    LayoutFits(total);
    MetadataEndFits(total);
    WrittenRegion(d0, d1, TABLE_START, TableBytes(table));
    if total <= 32768 {
      BesideTable(d1, d2, table);
    } else {
      BigLayout(total);
      assert d2[BITMAP_START + 1] == Piece(BitmapBytes(bits), 1);
      if CLUSTER_SIZE + 8 < |bits| && bits[CLUSTER_SIZE + 8] == 1 {
        OneByte(bits, total, CLUSTER_SIZE + 8);
        FreeByte(bits, total, CLUSTER_SIZE + 84);
        BitmapOverTable(d2, table, bits, total, 84);
      } else {
        BitmapOverTable(d2, table, bits, total, 8);
      }
    }
  }

  lemma BigLayout(total: nat)
    requires 32768 < total
    ensures ClustersFor(BitmapLength(total)) >= 2
    ensures MetadataEnd(total) >= 32832 ==> total >= 40000
  {
  }

  /** Superblock, inode table and bitmap, in this order. */
  method WriteOwnData(disk: seq<Cluster>, table: seq<Inode>, bits: seq<bv8>, super: Superblock, total: nat)
    returns (disk': seq<Cluster>)
    requires Formatted(disk, table, bits, total) && super == NewSuperblock(total).(rootInodeId := ROOT_INODE)
    requires total <= MAX_CLUSTERS
    ensures Formatted(disk', table, bits, total)
    ensures SavedSystem(disk', table, bits, super) <==> total <= 32768
    ensures disk'[0] == SuperCluster(super)
  {
    hide Flags, Sound, TableRoots, RootMade, Region, TableBytes, BitmapBytes, SuperCluster, Piece;
    RootTable(disk, table);
    MetadataEndFits(total);
    LayoutFits(total);
    var d0 := disk[0 := SuperCluster(super)];
    var d1 := WriteRun(d0, TABLE_START, TableBytes(table));
    WrittenRegion(d0, d1, TABLE_START, TableBytes(table));
    disk' := WriteRun(d1, BITMAP_START, BitmapBytes(bits));
    WrittenRegion(d1, disk', BITMAP_START, BitmapBytes(bits));
    OwnDataSaved(d0, d1, disk', table, bits, total);
    FormattedWhole(disk, table, bits, total);
    WrittenWhole(d0, d1, disk');
    StillFormatted(disk, disk', table, bits, total);
  }

  // ----- The first namespace -----

  ghost function FirstNamespace(): Namespace {
    Namespace(map[ROOT_INODE := FirstNames(ROOT_INODE, ROOT_INODE)], map[ROOT_INODE := 0],
              map[0 := Regular, 1 := Regular, ROOT_INODE := Directory])
  }

  lemma FirstTree()
    ensures TreeOk(FirstNamespace(), ROOT_INODE)
  {
    var ns := FirstNamespace();
    forall d, name, t ensures !Child(ns, d, name, t) {
    }
    assert NamedOnce(ns);
    assert Dots(ns, ROOT_INODE);
    assert ns.dirs.Keys == ns.depth.Keys;
    hide Child, NamedOnce, Dots, FirstNames;
    assert forall d :: d in ns.dirs ==> d == ROOT_INODE;
    TreeParts(ns, ROOT_INODE);
  }

  lemma FirstShows(disk: seq<Cluster>, table: seq<Inode>)
    requires RootMade(disk, table)
    ensures Shows(disk, table, FirstNamespace().dirs, FirstNamespace().kinds, map[])
  {
    hide GoodDirectory, Dir, FirstNames;
    var kinds := FirstNamespace().kinds;
    forall id: nat ensures id in kinds <==> id < |table| && table[id].isUsed {
    }
    forall id: nat | id < |table| ensures Stored(disk, table[id]) {
      if id == ROOT_INODE {
        GoodIsStored(disk, table[id]);
      } else {
        assert table[id] == FirstTable()[id];
        FirstStored(disk, id);
      }
    }
  }

  /** The two inodes kept for the file system's own data are empty files. */
  ghost function FirstFiles(): map<nat, seq<byte>> {
    map[0 := [], 1 := []]
  }

  lemma FirstContents(disk: seq<Cluster>, table: seq<Inode>)
    requires RootMade(disk, table)
    ensures FilesOf(disk, table, FirstNamespace().kinds, map[]) == FirstFiles()
  {
    hide GoodDirectory, Dir, FirstNames;
    var kinds := FirstNamespace().kinds;
    assert table[0] == FirstTable()[0] && table[1] == FirstTable()[1];
    assert Content(disk, table[0]) == [] && Content(disk, table[1]) == [];
    forall id ensures id in FilesOf(disk, table, kinds, map[]) <==> id == 0 || id == 1 {
    }
  }

  lemma FirstStored(disk: seq<Cluster>, id: nat)
    requires id < INODE_COUNT
    ensures Stored(disk, FirstTable()[id])
  {
  }

  // ----- Everything fits 32 bits -----

  lemma {:induction false} BelowSize(s: set<nat>, n: nat)
    requires forall x :: x in s ==> x < n
    ensures |s| <= n
  {
    if n == 0 {
      assert s == {};
    } else {
      BelowSize(s - {n - 1}, n - 1);
      assert s <= (s - {n - 1}) + {n - 1};
      if n - 1 in s {
        assert s == (s - {n - 1}) + {n - 1};
      } else {
        assert s == s - {n - 1};
      }
    }
  }

  ghost function DataClusters(disk: seq<Cluster>, ino: Inode, n: nat): set<nat>
    requires InodeOk(ino)
  {
    set l: nat | l < n :: Lookup(disk, ino, l)
  }

  lemma {:induction false} DataClustersSize(v: Volume, table: seq<Inode>, id: nat, n: nat)
    requires Sound(v) && OfTable(v, table) && id < |table| && n <= MAX_FILE_CLUSTERS
    requires forall l :: 0 <= l < n ==> Lookup(v.disk, table[id], l) != 0
    ensures |DataClusters(v.disk, table[id], n)| == n
  {
    hide Sound, TableRoots, Lookup;
    var ino := table[id];
    if n > 0 {
      DataClustersSize(v, table, id, n - 1);
      forall l: nat | l < n - 1 ensures Lookup(v.disk, ino, l) != Lookup(v.disk, ino, n - 1) {
        DifferentClusters(v, table, id, l, n - 1);
      }
      assert DataClusters(v.disk, ino, n) == DataClusters(v.disk, ino, n - 1) + {Lookup(v.disk, ino, n - 1)};
    } else {
      assert DataClusters(v.disk, ino, 0) == {};
    }
  }

  lemma DifferentClusters(v: Volume, table: seq<Inode>, id: nat, l: nat, m: nat)
    requires Sound(v) && OfTable(v, table) && id < |table| && l < m < MAX_FILE_CLUSTERS && Lookup(v.disk, table[id], l) != 0
    ensures Lookup(v.disk, table[id], l) != Lookup(v.disk, table[id], m)
  {
    hide Sound, TableRoots, Lookup;
    LookupPosition(table, id, l);
    LookupPosition(table, id, m);
    LookupIsOwned(v.disk, table, id, l);
    LookupIsOwned(v.disk, table, id, m);
    if Lookup(v.disk, table[id], l) == Lookup(v.disk, table[id], m) {
      SameOwner(v, Slot(id, SlotFor(l)), PathFor(l), Slot(id, SlotFor(m)), PathFor(m));
      PathInjective(l, m);
    }
  }

  /** A dense file is no larger than the disk. */
  lemma DenseFits(v: Volume, table: seq<Inode>, id: nat)
    requires Sound(v) && OfTable(v, table) && id < |table| && Stored(v.disk, table[id])
    ensures ClustersFor(table[id].size) <= |v.disk|
  {
    hide Sound, TableRoots, Lookup;
    var n := ClustersFor(table[id].size);
    DenseIsMapped(v, table, id, table[id].size);
    DataClustersSize(v, table, id, n);
    forall x | x in DataClusters(v.disk, table[id], n) ensures x < |v.disk| {
      var l: nat :| l < n && x == Lookup(v.disk, table[id], l);
      LookupInRange(v, table, id, l);
    }
    BelowSize(DataClusters(v.disk, table[id], n), |v.disk|);
  }

  /** On a disk of at most 32768 clusters every inode record fits. */
  lemma StoredFits(v: Volume, table: seq<Inode>, id: nat)
    requires Sound(v) && OfTable(v, table) && id < |table| <= MAX_CLUSTERS && |v.disk| <= 32768
    requires Stored(v.disk, table[id])
    ensures InodeFits(table[id])
  {
    DenseFits(v, table, id);
    forall k | 0 <= k < SLOT_COUNT ensures Pointer(table[id], k) < MAX_CLUSTERS {
      RootPosition(table, id, k, v.disk);
      SoundAt(v, Slot(id, k), []);
    }
    hide Sound, TableRoots, Dense;
    RecordFits(table[id]);
  }

  lemma RecordFits(ino: Inode)
    requires InodeOk(ino) && ino.id < MAX_CLUSTERS && ino.linkCount <= 1
    requires ClustersFor(ino.size) <= 32768 && ino.clusterCount == ClustersFor(ino.size)
    requires forall k :: 0 <= k < SLOT_COUNT ==> Pointer(ino, k) < MAX_CLUSTERS
    ensures InodeFits(ino)
  {
    ClusterBounds(ino.size);
    forall k | 0 <= k < DIRECT_POINTERS ensures ino.directClusters[k] < MAX_CLUSTERS {
      assert Pointer(ino, k) < MAX_CLUSTERS;
    }
    assert Pointer(ino, SINGLE_SLOT) < MAX_CLUSTERS && Pointer(ino, DOUBLE_SLOT) < MAX_CLUSTERS;
    assert Pointer(ino, TRIPLE_SLOT) < MAX_CLUSTERS;
  }

  lemma ShownFits(v: Volume, table: seq<Inode>, dirs: map<nat, map<Name, nat>>, kinds: map<nat, FileType>)
    requires Sound(v) && OfTable(v, table) && |v.disk| <= 32768 && Shows(v.disk, table, dirs, kinds, map[])
    ensures forall id :: 0 <= id < |table| ==> InodeFits(table[id])
  {
    hide Sound, TableRoots, Shows, InodeFits, Stored;
    forall id | 0 <= id < |table| ensures InodeFits(table[id]) {
      ShowsFacts(v.disk, table, dirs, kinds, id, map[]);
      StoredFits(v, table, id);
    }
  }

  lemma RootStorable(disk: seq<Cluster>, table: seq<Inode>, bits: seq<bv8>, total: nat)
    requires Formatted(disk, table, bits, total) && total <= 32768
    ensures Storable(table, NewSuperblock(total).(rootInodeId := ROOT_INODE))
  {
    hide RootMade, Flags, Sound, Shows, InodeFits, TableRoots;
    LayoutFits(total);
    FirstShows(disk, table);
    RootTable(disk, table);
    ShownFits(Volume(disk, Flags(bits, total), TableRoots(table), MetadataEnd(total)), table,
              FirstNamespace().dirs, FirstNamespace().kinds);
  }

  /** The root directory names itself twice, and the two inodes before it are kept for the system's own data. */
  lemma FirstIs()
    ensures FirstNamespace().dirs == map[2 := map[[46] := 2, [46, 46] := 2]] && FirstNamespace().depth == map[2 := 0]
    ensures FirstNamespace().kinds == map[0 := Regular, 1 := Regular, 2 := Directory]
    ensures FirstFiles() == map[0 := [], 1 := []]
  {
  }

  /** A formatted and mounted disk: the root directory alone, exactly clusters 0 to 23 in use, nothing open. */
  method FormatAndMount(disk: seq<Cluster>, total: nat, descriptors: nat) returns (vfs: Vfs)
    requires |disk| == total && 24 <= total <= 32768 && WholeClusters(disk)
    ensures fresh(vfs) && fresh(vfs.storage) && fresh(vfs.storage.bitmap.buffer)
    ensures vfs.ns == FirstNamespace() && vfs.root == ROOT_INODE && vfs.storage.Valid() && vfs.Files() == FirstFiles()
    ensures vfs.openFiles == seq(descriptors, _ => Descriptor(false, 0)) && vfs.held == map[]
    ensures |vfs.storage.disk| == total && !vfs.storage.dirty
    ensures vfs.storage.bitmap.Valid() && forall c :: 0 <= c < total ==> (vfs.storage.bitmap.Used()[c] <==> c <= 23)
    ensures vfs.Valid()
  {
    hide Sound, TableRoots, Flags, RootMade, Region, SuperCluster, Image, TableSaved, Shows, TreeOk, FirstNamespace;
    hide FilesOf, FirstFiles, NewSuperblock;
    var status, d, table, bits := FormatDisk(disk, total);
    ghost var super := NewSuperblock(total).(rootInodeId := ROOT_INODE);
    RootStorable(d, table, bits, total);
    SuperRoundTrip(super);
    LayoutFits(total);
    MetadataEndFits(total);
    var s;
    status, s := Mount(d, table, bits, super);
    FirstShows(d, table);
    FirstContents(d, table);
    FirstTree();
    vfs := new Vfs(s, s.super.rootInodeId, descriptors, FirstNamespace());
  }
}
