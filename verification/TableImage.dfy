/** What the superblock, the inode table and the bitmap look like on disk. */
module TableImage {
  import opened Basics
  import opened Clusters
  import opened Inodes
  import opened AllocationSteps

  const MAGIC_NUMBER := 0x46530001
  const INODE_SIZE := 84
  const INODE_COUNT := 1024
  const BITMAP_START := 1
  const TABLE_START := 2
  /** The first cluster of the data area, when the bitmap takes one cluster. */
  const DATA_START := 23

  // ----- Words and records -----

  function EncodeWords(ws: seq<nat>): (bytes: seq<byte>)
    ensures |bytes| == 4 * |ws|
  {
    if ws == [] then [] else Encode(ws[0], 4) + EncodeWords(ws[1..])
  }

  function DecodeWords(bytes: seq<byte>, n: nat): (ws: seq<nat>)
    requires |bytes| >= 4 * n
    ensures |ws| == n
  {
    if n == 0 then [] else [LittleEndian(bytes[..4])] + DecodeWords(bytes[4..], n - 1)
  }

  lemma {:induction false} WordsRoundTrip(ws: seq<nat>, rest: seq<byte>)
    requires forall i :: 0 <= i < |ws| ==> ws[i] < MAX_CLUSTERS
    ensures DecodeWords(EncodeWords(ws) + rest, |ws|) == ws
  {
    if ws != [] {
      var bytes := EncodeWords(ws) + rest;
      assert Pow256(4) == MAX_CLUSTERS;
      EncodeRoundTrip(ws[0], 4);
      assert bytes[..4] == Encode(ws[0], 4);
      assert bytes[4..] == EncodeWords(ws[1..]) + rest;
      WordsRoundTrip(ws[1..], rest);
      assert ws == [ws[0]] + ws[1..];
    }
  }

  function KindCode(kind: FileType): nat {
    match kind
    case Regular => 0
    case Directory => 1
    case Symlink => 2
  }

  function KindOf(code: nat): FileType {
    if code == 0 then Regular else if code == 1 then Directory else Symlink
  }

  function InodeWords(ino: Inode): (ws: seq<nat>)
    requires InodeOk(ino)
    ensures 4 * |ws| == INODE_SIZE
  {
    [ino.id, KindCode(ino.kind), if ino.isUsed then 1 else 0, ino.linkCount, ino.size, ino.clusterCount]
    + ino.directClusters + [ino.singleIndirect, ino.doubleIndirect, ino.tripleIndirect]
  }

  function InodeOf(ws: seq<nat>): (ino: Inode)
    requires 4 * |ws| == INODE_SIZE
    ensures InodeOk(ino)
  {
    Inode(ws[0], KindOf(ws[1]), ws[2] % 256 != 0, ws[3], ws[4], ws[5], ws[6..18], ws[18], ws[19], ws[20])
  }

  /** Every number of the record fits 32 bits. */
  ghost predicate InodeFits(ino: Inode) {
    InodeOk(ino) && forall i :: 0 <= i < |InodeWords(ino)| ==> InodeWords(ino)[i] < MAX_CLUSTERS
  }

  lemma RecordRoundTrip(ino: Inode)
    requires InodeOk(ino)
    ensures InodeOf(InodeWords(ino)) == ino
  {
    assert InodeWords(ino)[6..18] == ino.directClusters;
  }

  function TableBytes(table: seq<Inode>): (bytes: seq<byte>)
    requires forall id :: 0 <= id < |table| ==> InodeOk(table[id])
    ensures |bytes| == INODE_SIZE * |table|
  {
    if table == [] then [] else EncodeWords(InodeWords(table[0])) + TableBytes(table[1..])
  }

  function TableFrom(bytes: seq<byte>, n: nat): (table: seq<Inode>)
    requires |bytes| >= INODE_SIZE * n
    ensures |table| == n && forall id :: 0 <= id < |table| ==> InodeOk(table[id])
  {
    if n == 0 then []
    else [InodeOf(DecodeWords(bytes, 21))] + TableFrom(bytes[INODE_SIZE..], n - 1)
  }

  /** The table read back from its bytes is the table. */
  lemma {:induction false} TableRoundTrip(table: seq<Inode>)
    requires forall id :: 0 <= id < |table| ==> InodeOk(table[id]) && InodeFits(table[id])
    ensures TableFrom(TableBytes(table), |table|) == table
  {
    if table != [] {
      var words, rest := InodeWords(table[0]), TableBytes(table[1..]);
      WordsRoundTrip(words, rest);
      RecordRoundTrip(table[0]);
      assert TableBytes(table)[INODE_SIZE..] == rest;
      TableRoundTrip(table[1..]);
      assert table == [table[0]] + table[1..];
    }
  }

  // ----- Runs of clusters -----

  ghost predicate RegionOk(disk: seq<Cluster>, start: nat, n: nat) {
    && start + ClustersFor(n) <= |disk|
    && forall c :: start <= c < start + ClustersFor(n) ==> IsCluster(disk[c])
  }

  lemma RegionIndex(start: nat, n: nat, i: nat)
    requires i < n
    ensures start <= start + i / CLUSTER_SIZE < start + ClustersFor(n)
  {
  }

  /** The first n bytes of the clusters from start on. */
  ghost function Region(disk: seq<Cluster>, start: nat, n: nat): (bytes: seq<byte>)
    requires RegionOk(disk, start, n)
    ensures |bytes| == n
  {
    seq(n, i requires 0 <= i < n =>
      RegionIndex(start, n, i);
      disk[start + i / CLUSTER_SIZE][i % CLUSTER_SIZE])
  }

  /** Records of the table follow each other. */
  lemma {:induction false} RecordAt(table: seq<Inode>, id: nat)
    requires id < |table| && forall j :: 0 <= j < |table| ==> InodeOk(table[j])
    ensures 84 * id + 84 <= |TableBytes(table)|
    ensures TableBytes(table)[84 * id..84 * id + 84] == EncodeWords(InodeWords(table[id]))
  {
    var first, rest := EncodeWords(InodeWords(table[0])), TableBytes(table[1..]);
    assert TableBytes(table) == first + rest;
    if id == 0 {
      assert (first + rest)[0..84] == first;
    } else {
      RecordAt(table[1..], id - 1);
      assert (first + rest)[84 * id..84 * id + 84] == rest[84 * (id - 1)..84 * (id - 1) + 84];
    }
  }

  /** The i-th word lies at four times i. */
  lemma {:induction false} WordAt(ws: seq<nat>, i: nat)
    requires i < |ws|
    ensures EncodeWords(ws)[4 * i..4 * i + 4] == Encode(ws[i], 4)
  {
    var first, rest := Encode(ws[0], 4), EncodeWords(ws[1..]);
    assert EncodeWords(ws) == first + rest;
    if i == 0 {
      assert (first + rest)[0..4] == first;
    } else {
      WordAt(ws[1..], i - 1);
      assert (first + rest)[4 * i..4 * i + 4] == rest[4 * (i - 1)..4 * (i - 1) + 4];
    }
  }

  /** The record of an inode: 0 is a regular file, 1 a directory and 2 a symbolic link, and a byte says whether it is used. */
  lemma RecordLabels(ino: Inode)
    requires InodeFits(ino)
    ensures var b := EncodeWords(InodeWords(ino));
            && |b| == 84 && LittleEndian(b[0..4]) == ino.id
            && b[4..8] == [if ino.kind == Regular then 0 else if ino.kind == Directory then 1 else 2, 0, 0, 0]
            && b[8..12] == [if ino.isUsed then 1 else 0, 0, 0, 0]
  {
    var ws := InodeWords(ino);
    InodeWordsAre(ino, 0);
    hide *;
    WordBytes(ws, 0, 0);
    WordBytes(ws, 1, 4);
    WordBytes(ws, 2, 8);
  }

  /** The rest of it: links, size, clusters, the direct clusters and the three pointer clusters. */
  lemma RecordNumbers(ino: Inode, k: nat)
    requires InodeFits(ino) && k < 12
    ensures var b := EncodeWords(InodeWords(ino));
            && |b| == 84 && LittleEndian(b[12..16]) == ino.linkCount && LittleEndian(b[16..20]) == ino.size
            && LittleEndian(b[20..24]) == ino.clusterCount && LittleEndian(b[24 + 4 * k..28 + 4 * k]) == ino.directClusters[k]
            && LittleEndian(b[72..76]) == ino.singleIndirect && LittleEndian(b[76..80]) == ino.doubleIndirect
            && LittleEndian(b[80..84]) == ino.tripleIndirect
  {
    var ws := InodeWords(ino);
    InodeWordsAre(ino, k);
    hide *;
    WordBytes(ws, 3, 12);
    WordBytes(ws, 4, 16);
    WordBytes(ws, 5, 20);
    WordBytes(ws, 6 + k, 24 + 4 * k);
    WordBytes(ws, 18, 72);
    WordBytes(ws, 19, 76);
    WordBytes(ws, 20, 80);
  }

  lemma InodeWordsAre(ino: Inode, k: nat)
    requires InodeFits(ino) && k < 12
    ensures var ws := InodeWords(ino);
            && |ws| == 21 && |EncodeWords(ws)| == 84 && (forall i :: 0 <= i < 21 ==> ws[i] < MAX_CLUSTERS)
            && ws[0] == ino.id && ws[1] == (if ino.kind == Regular then 0 else if ino.kind == Directory then 1 else 2)
            && ws[2] == (if ino.isUsed then 1 else 0) && ws[3] == ino.linkCount && ws[4] == ino.size
            && ws[5] == ino.clusterCount && ws[6 + k] == ino.directClusters[k]
            && ws[18] == ino.singleIndirect && ws[19] == ino.doubleIndirect && ws[20] == ino.tripleIndirect
  {
  }

  lemma WordBytes(ws: seq<nat>, i: nat, from: nat)
    requires i < |ws| && from == 4 * i
    ensures from + 4 <= |EncodeWords(ws)|
    ensures ws[i] < MAX_CLUSTERS ==> LittleEndian(EncodeWords(ws)[from..from + 4]) == ws[i]
    ensures EncodeWords(ws)[from..from + 4] ==
            [ws[i] % 256, ws[i] / 256 % 256, ws[i] / 65536 % 256, ws[i] / 16777216 % 256]
  {
    WordAt(ws, i);
    assert Pow256(4) == MAX_CLUSTERS;
    if ws[i] < MAX_CLUSTERS {
      EncodeRoundTrip(ws[i], 4);
    }
    EncodedBytes(ws[i]);
  }

  // ----- The superblock -----

  datatype Superblock = Superblock(magic: nat, totalClusters: nat, rootInodeId: nat, inodeTableStart: nat,
                                   inodeTableSize: nat, dataStart: nat)

  function SuperWords(super: Superblock): (ws: seq<nat>)
    ensures |ws| == 6
  {
    [super.magic, super.totalClusters, super.rootInodeId, super.inodeTableStart, super.inodeTableSize, super.dataStart]
  }

  function SuperCluster(super: Superblock): (c: Cluster)
    ensures IsCluster(c)
  {
    EncodeWords(SuperWords(super)) + Zeros(CLUSTER_SIZE - 24)
  }

  function SuperOf(c: Cluster): Superblock
    requires IsCluster(c)
  {
    var ws := DecodeWords(c, 6);
    Superblock(ws[0], ws[1], ws[2], ws[3], ws[4], ws[5])
  }

  lemma SuperRoundTrip(super: Superblock)
    requires forall i :: 0 <= i < 6 ==> SuperWords(super)[i] < MAX_CLUSTERS
    ensures SuperOf(SuperCluster(super)) == super
  {
    WordsRoundTrip(SuperWords(super), Zeros(CLUSTER_SIZE - 24));
  }

  /** The words of a superblock follow each other on disk. */
  lemma SuperWord(super: Superblock, i: nat, from: nat)
    requires i < 6 && from == 4 * i
    ensures var w := SuperWords(super)[i];
            SuperCluster(super)[from..from + 4] == [w % 256, w / 256 % 256, w / 65536 % 256, w / 16777216 % 256]
  {
    var b, c := EncodeWords(SuperWords(super)), SuperCluster(super);
    assert c[..24] == b;
    WordBytes(SuperWords(super), i, from);
    hide *;
    assert c[from..from + 4] == c[..24][from..from + 4];
  }

  /** The superblock of a disk of total clusters whose bitmap takes one cluster. */
  ghost predicate SuperFits(super: Superblock, total: nat) {
    && (forall i :: 0 <= i < 6 ==> SuperWords(super)[i] < MAX_CLUSTERS)
    && super.magic == MAGIC_NUMBER && super.dataStart == DATA_START && super.totalClusters == total
    && super.inodeTableStart == TABLE_START
  }

  // ----- Disk and memory -----

  /** The inode table on disk is the table in memory, below the data area. */
  ghost predicate TableSaved(disk: seq<Cluster>, table: seq<Inode>, reserved: nat) {
    && TableOk(table) && reserved <= |disk|
    && TABLE_START + ClustersFor(INODE_SIZE * |table|) <= reserved
    && RegionOk(disk, TABLE_START, INODE_SIZE * |table|)
    && Region(disk, TABLE_START, INODE_SIZE * |table|) == TableBytes(table)
  }

  /** The superblock is on disk, and so is the inode table unless it is marked dirty. */
  ghost predicate Image(disk: seq<Cluster>, table: seq<Inode>, dirty: bool, super: Superblock, reserved: nat) {
    && 1 <= reserved && 1 <= |disk| && disk[0] == SuperCluster(super)
    && (!dirty ==> TableSaved(disk, table, reserved))
  }

  /** Writes to the data area leave both as they are. */
  lemma ImageStays(disk: seq<Cluster>, disk': seq<Cluster>, table: seq<Inode>, dirty: bool, super: Superblock,
                   reserved: nat)
    requires Image(disk, table, dirty, super, reserved) && |disk'| == |disk|
    requires forall c :: 0 <= c < reserved && c < |disk| ==> disk'[c] == disk[c]
    ensures Image(disk', table, dirty, super, reserved)
  {
    if !dirty {
      assert forall i :: 0 <= i < INODE_SIZE * |table| ==>
          TABLE_START + i / CLUSTER_SIZE < reserved by {
        forall i | 0 <= i < INODE_SIZE * |table| ensures TABLE_START + i / CLUSTER_SIZE < reserved {
          RegionIndex(TABLE_START, INODE_SIZE * |table|, i);
        }
      }
      assert Region(disk', TABLE_START, INODE_SIZE * |table|) == Region(disk, TABLE_START, INODE_SIZE * |table|);
    }
  }

  lemma DataWriteKeepsImage(disk: seq<Cluster>, table: seq<Inode>, dirty: bool, super: Superblock, reserved: nat,
                            c: nat, data: Cluster)
    requires Image(disk, table, dirty, super, reserved) && reserved <= c < |disk|
    ensures Image(disk[c := data], table, dirty, super, reserved)
  {
    hide Image;
    ImageStays(disk, disk[c := data], table, dirty, super, reserved);
  }

  lemma DirtyImage(disk: seq<Cluster>, table: seq<Inode>, dirty: bool, super: Superblock, reserved: nat, table': seq<Inode>)
    requires Image(disk, table, dirty, super, reserved)
    ensures Image(disk, table', true, super, reserved)
  {
  }
}
