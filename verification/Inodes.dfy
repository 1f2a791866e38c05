/** Inode records, and where a logical cluster of a file sits among the inode's pointers. */
module Inodes {
  import opened Clusters
  import opened Ownership

  const DIRECT_POINTERS := 12
  const SINGLE_SLOT := 12
  const DOUBLE_SLOT := 13
  const TRIPLE_SLOT := 14
  const SLOT_COUNT := 15

  /** First logical clusters of the double and triple trees, and the first cluster beyond all trees. */
  const DOUBLE_START := DIRECT_POINTERS + POINTERS_PER_CLUSTER
  const SQUARE := POINTERS_PER_CLUSTER * POINTERS_PER_CLUSTER
  const TRIPLE_START := DOUBLE_START + SQUARE
  const MAX_FILE_CLUSTERS := TRIPLE_START + SQUARE * POINTERS_PER_CLUSTER

  datatype FileType = Regular | Directory | Symlink

  datatype Inode = Inode(id: nat, kind: FileType, isUsed: bool, linkCount: nat, size: nat, clusterCount: nat,
                         directClusters: seq<nat>, singleIndirect: nat, doubleIndirect: nat, tripleIndirect: nat)

  predicate InodeOk(ino: Inode) {
    |ino.directClusters| == DIRECT_POINTERS
  }

  function Pointer(ino: Inode, k: nat): nat
    requires InodeOk(ino) && k < SLOT_COUNT
  {
    if k < DIRECT_POINTERS then ino.directClusters[k]
    else if k == SINGLE_SLOT then ino.singleIndirect
    else if k == DOUBLE_SLOT then ino.doubleIndirect
    else ino.tripleIndirect
  }

  /** The two records describe the same kind of file. */
  predicate SameLabels(ino: Inode, ino': Inode) {
    ino'.kind == ino.kind && ino'.isUsed == ino.isUsed && ino'.linkCount == ino.linkCount
  }

  function SetPointer(ino: Inode, k: nat, c: nat): (ino': Inode)
    requires InodeOk(ino) && k < SLOT_COUNT
    ensures InodeOk(ino') && ino'.id == ino.id && ino'.size == ino.size && SameLabels(ino, ino')
    ensures forall j :: 0 <= j < SLOT_COUNT ==> Pointer(ino', j) == if j == k then c else Pointer(ino, j)
  {
    if k < DIRECT_POINTERS then ino.(directClusters := ino.directClusters[k := c])
    else if k == SINGLE_SLOT then ino.(singleIndirect := c)
    else if k == DOUBLE_SLOT then ino.(doubleIndirect := c)
    else ino.(tripleIndirect := c)
  }

  function EmptyInode(id: nat): (ino: Inode)
    ensures InodeOk(ino) && ino.id == id
  {
    Inode(id, Regular, false, 0, 0, 0, seq(DIRECT_POINTERS, _ => 0), 0, 0, 0)
  }

  function NewInode(id: nat, kind: FileType): (ino: Inode)
    ensures InodeOk(ino)
  {
    EmptyInode(id).(kind := kind, isUsed := true, linkCount := 1)
  }

  function SlotDepth(k: nat): nat {
    if k < DIRECT_POINTERS then 0 else if k == SINGLE_SLOT then 1 else if k == DOUBLE_SLOT then 2 else 3
  }

  // ----- Positions of logical clusters -----

  function SlotFor(l: nat): (k: nat)
    ensures k < SLOT_COUNT
  {
    if l < DIRECT_POINTERS then l
    else if l < DOUBLE_START then SINGLE_SLOT
    else if l < TRIPLE_START then DOUBLE_SLOT
    else TRIPLE_SLOT
  }

  function PathFor(l: nat): (p: Path)
    ensures |p| == SlotDepth(SlotFor(l))
  {
    if l < DIRECT_POINTERS then []
    else if l < DOUBLE_START then [l - DIRECT_POINTERS]
    else if l < TRIPLE_START then
      var r := l - DOUBLE_START;
      [r / POINTERS_PER_CLUSTER, r % POINTERS_PER_CLUSTER]
    else
      var r := l - TRIPLE_START;
      [r / SQUARE, r % SQUARE / POINTERS_PER_CLUSTER, r % SQUARE % POINTERS_PER_CLUSTER]
  }

  lemma PathInRange(l: nat)
    requires l < MAX_FILE_CLUSTERS
    ensures forall i :: 0 <= i < |PathFor(l)| ==> PathFor(l)[i] < POINTERS_PER_CLUSTER
  {
  }

  /** Different logical clusters sit at different positions. */
  lemma PathInjective(l: nat, m: nat)
    requires SlotFor(l) == SlotFor(m) && PathFor(l) == PathFor(m)
    ensures l == m
  {
    if SlotFor(l) == DOUBLE_SLOT {
      assert PathFor(l)[0] == PathFor(m)[0] && PathFor(l)[1] == PathFor(m)[1];
    } else if SlotFor(l) == TRIPLE_SLOT {
      assert PathFor(l)[0] == PathFor(m)[0] && PathFor(l)[1] == PathFor(m)[1] && PathFor(l)[2] == PathFor(m)[2];
    } else if SlotFor(l) == SINGLE_SLOT {
      assert PathFor(l)[0] == PathFor(m)[0];
    }
  }

  // ----- The inode table as a set of roots -----

  ghost predicate TableOk(table: seq<Inode>) {
    forall id :: 0 <= id < |table| ==> InodeOk(table[id]) && table[id].id == id
  }

  lemma SameEntry(table: seq<Inode>, id: nat)
    requires id < |table|
    ensures table[id := table[id]] == table
  {
  }

  lemma RewrittenEntry(table: seq<Inode>, id: nat, a: Inode, b: Inode)
    requires id < |table|
    ensures table[id := a][id := b] == table[id := b]
  {
  }

  ghost function Keys(n: nat): (ks: set<Key>)
    ensures forall key :: key in ks <==> key.Slot? && key.id < n && key.k < SLOT_COUNT
  {
    set id, k | 0 <= id < n && 0 <= k < SLOT_COUNT :: Slot(id, k)
  }

  ghost function TableRoots(table: seq<Inode>): (r: Roots)
    requires TableOk(table)
    ensures forall key :: key in r <==> key.Slot? && key.id < |table| && key.k < SLOT_COUNT
    ensures forall id, k :: 0 <= id < |table| && 0 <= k < SLOT_COUNT ==>
              r[Slot(id, k)] == Root(Pointer(table[id], k), SlotDepth(k))
  {
    map key | key in Keys(|table|) :: Root(Pointer(table[key.id], key.k), SlotDepth(key.k))
  }

  /** Setting one pointer of one inode changes one root. */
  lemma TableRootsUpdate(table: seq<Inode>, id: nat, k: nat, c: nat)
    requires TableOk(table) && id < |table| && k < SLOT_COUNT
    ensures TableOk(table[id := SetPointer(table[id], k, c)])
    ensures TableRoots(table[id := SetPointer(table[id], k, c)]) ==
            TableRoots(table)[Slot(id, k) := TableRoots(table)[Slot(id, k)].(cluster := c)]
  {
    var table' := table[id := SetPointer(table[id], k, c)];
    var r, r' := TableRoots(table), TableRoots(table');
    var want := r[Slot(id, k) := r[Slot(id, k)].(cluster := c)];
    assert r'.Keys == want.Keys;
    forall key | key in r' ensures r'[key] == want[key] {
      assert key == Slot(key.id, key.k);
    }
  }

  ghost function Lookup(disk: seq<Cluster>, ino: Inode, l: nat): nat
    requires InodeOk(ino)
  {
    At(disk, Pointer(ino, SlotFor(l)), PathFor(l))
  }

  /** The logical clusters of inode id are leaf positions of its roots. */
  lemma LookupPosition(table: seq<Inode>, id: nat, l: nat)
    requires TableOk(table) && id < |table| && l < MAX_FILE_CLUSTERS
    ensures LeafPosition(TableRoots(table), Slot(id, SlotFor(l)), PathFor(l))
  {
    PathInRange(l);
  }

  lemma LookupIsOwned(disk: seq<Cluster>, table: seq<Inode>, id: nat, l: nat)
    requires TableOk(table) && id < |table|
    ensures Slot(id, SlotFor(l)) in TableRoots(table)
    ensures Lookup(disk, table[id], l) == Owned(disk, TableRoots(table), Slot(id, SlotFor(l)), PathFor(l))
  {
  }

  /** The cluster behind pointer i of cluster c, 0 when there is none. */
  ghost function PointerIn(disk: seq<Cluster>, c: nat, i: nat): nat
    requires i < POINTERS_PER_CLUSTER
  {
    if c == 0 || c >= |disk| || !IsCluster(disk[c]) then 0 else Ptr(disk[c], i)
  }

  /**
   Twelve clusters hang from the inode, the next 1024 from one pointer cluster, the next 1024 * 1024 from two levels
   of pointer clusters and the next 1024 * 1024 * 1024 from three.
   */
  lemma LookupByLevel(disk: seq<Cluster>, ino: Inode, l: nat)
    requires InodeOk(ino) && l < 12 + 1024 + 1024 * 1024 + 1024 * 1024 * 1024
    ensures l < 12 ==> Lookup(disk, ino, l) == ino.directClusters[l]
    ensures 12 <= l < 1036 ==> Lookup(disk, ino, l) == PointerIn(disk, ino.singleIndirect, l - 12)
    ensures 1036 <= l < 1049612 ==>
              var r := l - 1036;
              Lookup(disk, ino, l) == PointerIn(disk, PointerIn(disk, ino.doubleIndirect, r / 1024), r % 1024)
    ensures l >= 1049612 ==>
              var r := l - 1049612;
              Lookup(disk, ino, l) ==
              PointerIn(disk, PointerIn(disk, PointerIn(disk, ino.tripleIndirect, r / 1048576), r % 1048576 / 1024), r % 1024)
  {
    var k, p := SlotFor(l), PathFor(l);
    if 12 <= l < 1036 {
      AtOne(disk, ino.singleIndirect, l - 12);
    } else if 1036 <= l < 1049612 {
      AtTwo(disk, ino.doubleIndirect, (l - 1036) / 1024, (l - 1036) % 1024);
    } else if l >= 1049612 {
      var r := l - 1049612;
      assert r % 1048576 % 1024 == r % 1024;
      AtThree(disk, ino.tripleIndirect, r / 1048576, r % 1048576 / 1024, r % 1024);
    }
  }

  lemma AtOne(disk: seq<Cluster>, root: nat, i: nat)
    requires i < POINTERS_PER_CLUSTER
    ensures At(disk, root, [i]) == PointerIn(disk, root, i)
  {
    assert [i][..0] == [];
  }

  lemma AtTwo(disk: seq<Cluster>, root: nat, i: nat, j: nat)
    requires i < POINTERS_PER_CLUSTER && j < POINTERS_PER_CLUSTER
    ensures At(disk, root, [i, j]) == PointerIn(disk, PointerIn(disk, root, i), j)
  {
    assert [i, j][..1] == [i];
    AtOne(disk, root, i);
  }

  lemma AtThree(disk: seq<Cluster>, root: nat, i: nat, j: nat, k: nat)
    requires i < POINTERS_PER_CLUSTER && j < POINTERS_PER_CLUSTER && k < POINTERS_PER_CLUSTER
    ensures At(disk, root, [i, j, k]) == PointerIn(disk, PointerIn(disk, PointerIn(disk, root, i), j), k)
  {
    assert [i, j, k][..2] == [i, j];
    AtTwo(disk, root, i, j);
  }
}
