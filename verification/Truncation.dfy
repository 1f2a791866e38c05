/** What releasing a tree of clusters takes away, and why everybody else's clusters stay. */
module Truncation {
  import opened Clusters
  import opened Ownership
  import opened Inodes
  import opened FileViews
  import opened AllocationSteps

  /** Cluster c is owned at position path of key or below it. */
  ghost predicate OwnedBelow(v: Volume, key: Key, path: Path, c: nat) {
    c != 0 && exists p :: Position(v.roots, key, p) && path <= p && Owned(v.disk, v.roots, key, p) == c
  }

  ghost predicate OwnedBelowFirst(v: Volume, key: Key, path: Path, n: nat, c: nat) {
    exists j: nat :: j < n && OwnedBelow(v, key, path + [j], c)
  }

  lemma BelowNothing(v: Volume, key: Key, path: Path, c: nat)
    requires key in v.roots && Owned(v.disk, v.roots, key, path) == 0
    ensures !OwnedBelow(v, key, path, c)
  {
    forall p | Position(v.roots, key, p) && path <= p ensures Owned(v.disk, v.roots, key, p) == 0 {
      AtBelowNothing(v.disk, v.roots[key].cluster, path, p);
    }
  }

  lemma BelowLeaf(v: Volume, key: Key, path: Path, c: nat)
    requires LeafPosition(v.roots, key, path)
    ensures OwnedBelow(v, key, path, c) <==> c != 0 && c == Owned(v.disk, v.roots, key, path)
  {
    forall p | Position(v.roots, key, p) && path <= p ensures p == path {
    }
    assert path <= path;
  }

  lemma BelowSplit(v: Volume, key: Key, path: Path, c: nat)
    requires Position(v.roots, key, path) && |path| < v.roots[key].depth
    ensures OwnedBelow(v, key, path, c) <==>
            c != 0 && (c == Owned(v.disk, v.roots, key, path) || OwnedBelowFirst(v, key, path, POINTERS_PER_CLUSTER, c))
  {
    hide Owned;
    assert path <= path;
    if OwnedBelow(v, key, path, c) {
      var p :| Position(v.roots, key, p) && path <= p && Owned(v.disk, v.roots, key, p) == c;
      if p != path {
        assert path + [p[|path|]] <= p;
        assert OwnedBelow(v, key, path + [p[|path|]], c);
      }
    }
    if OwnedBelowFirst(v, key, path, POINTERS_PER_CLUSTER, c) {
      var j: nat :| j < POINTERS_PER_CLUSTER && OwnedBelow(v, key, path + [j], c);
      var p :| Position(v.roots, key, p) && path + [j] <= p && Owned(v.disk, v.roots, key, p) == c;
      assert path <= p;
    }
  }

  lemma BelowWhole(v: Volume, key: Key, c: nat)
    ensures OwnedBelow(v, key, [], c) <==> OwnedUnder(v, key, c)
  {
    if OwnedUnder(v, key, c) {
      var p :| Position(v.roots, key, p) && Owned(v.disk, v.roots, key, p) == c;
      assert [] <= p;
    }
  }

  lemma SoundCluster(v: Volume, c: nat)
    requires Sound(v) && c < |v.disk|
    ensures IsCluster(v.disk[c])
  {
  }

  // ----- Bitmaps before and after -----

  /** Exactly the clusters at or below path have been released. */
  ghost predicate Released(v: Volume, key: Key, path: Path, used: seq<bool>, used': seq<bool>) {
    |used| == |used'| && forall c: nat :: c < |used| ==> (used'[c] <==> used[c] && !OwnedBelow(v, key, path, c))
  }

  /** The clusters below the first n pointers of the pointer cluster at path have been released. */
  ghost predicate ReleasedFirst(v: Volume, key: Key, path: Path, n: nat, used: seq<bool>, used': seq<bool>) {
    |used| == |used'| && forall c: nat :: c < |used| ==> (used'[c] <==> used[c] && !OwnedBelowFirst(v, key, path, n, c))
  }

  lemma ReleasedNone(v: Volume, key: Key, path: Path, used: seq<bool>)
    ensures ReleasedFirst(v, key, path, 0, used, used)
  {
  }

  lemma ReleasedNext(v: Volume, key: Key, path: Path, n: nat, used0: seq<bool>, used: seq<bool>, used': seq<bool>)
    requires ReleasedFirst(v, key, path, n, used0, used) && Released(v, key, path + [n], used, used')
    ensures ReleasedFirst(v, key, path, n + 1, used0, used')
  {
    hide OwnedBelow;
    forall c: nat | c < |used0| ensures used'[c] <==> used0[c] && !OwnedBelowFirst(v, key, path, n + 1, c) {
      assert OwnedBelowFirst(v, key, path, n + 1, c) <==> OwnedBelowFirst(v, key, path, n, c) || OwnedBelow(v, key, path + [n], c);
    }
  }

  lemma ReleasedLeaf(v: Volume, key: Key, path: Path, used: seq<bool>)
    requires LeafPosition(v.roots, key, path) && 0 < Owned(v.disk, v.roots, key, path) < |used|
    ensures Released(v, key, path, used, used[Owned(v.disk, v.roots, key, path) := false])
  {
    hide OwnedBelow, Owned;
    forall c: nat | c < |used|
      ensures used[Owned(v.disk, v.roots, key, path) := false][c] <==> used[c] && !OwnedBelow(v, key, path, c)
    {
      BelowLeaf(v, key, path, c);
    }
  }

  lemma ReleasedNothing(v: Volume, key: Key, path: Path, used: seq<bool>)
    requires key in v.roots && Owned(v.disk, v.roots, key, path) == 0
    ensures Released(v, key, path, used, used)
  {
    hide OwnedBelow;
    forall c: nat | c < |used| ensures !OwnedBelow(v, key, path, c) {
      BelowNothing(v, key, path, c);
    }
  }

  /** The pointers' clusters and then the pointer cluster itself. */
  lemma ReleasedAll(v: Volume, key: Key, path: Path, used0: seq<bool>, used: seq<bool>)
    requires Position(v.roots, key, path) && |path| < v.roots[key].depth
    requires 0 < Owned(v.disk, v.roots, key, path) < |used|
    requires ReleasedFirst(v, key, path, POINTERS_PER_CLUSTER, used0, used)
    ensures Released(v, key, path, used0, used[Owned(v.disk, v.roots, key, path) := false])
  {
    hide OwnedBelow, Owned, OwnedBelowFirst;
    var used' := used[Owned(v.disk, v.roots, key, path) := false];
    forall c: nat | c < |used0| ensures used'[c] <==> used0[c] && !OwnedBelow(v, key, path, c) {
      BelowSplit(v, key, path, c);
      ZeroBelow(v, key, path, POINTERS_PER_CLUSTER, c);
    }
  }

  lemma ZeroBelow(v: Volume, key: Key, path: Path, n: nat, c: nat)
    ensures c == 0 ==> !OwnedBelowFirst(v, key, path, n, c) && !OwnedBelow(v, key, path, c)
  {
  }

  /** Cluster c is owned below one of the first n pointers of inode id. */
  ghost predicate OwnedBySlots(v: Volume, id: nat, n: nat, c: nat) {
    exists k: nat :: k < n && OwnedUnder(v, Slot(id, k), c)
  }

  ghost predicate ReleasedSlots(v: Volume, id: nat, n: nat, used: seq<bool>, used': seq<bool>) {
    |used| == |used'| && forall c: nat :: c < |used| ==> (used'[c] <==> used[c] && !OwnedBySlots(v, id, n, c))
  }

  lemma NoSlotsReleased(v: Volume, id: nat, used: seq<bool>)
    ensures ReleasedSlots(v, id, 0, used, used)
  {
  }

  lemma ReleasedNextSlot(v: Volume, id: nat, n: nat, used0: seq<bool>, used: seq<bool>, used': seq<bool>)
    requires ReleasedSlots(v, id, n, used0, used) && Released(v, Slot(id, n), [], used, used')
    ensures ReleasedSlots(v, id, n + 1, used0, used')
  {
    hide OwnedBelow, OwnedUnder;
    forall c: nat | c < |used0| ensures used'[c] <==> used0[c] && !OwnedBySlots(v, id, n + 1, c) {
      BelowWhole(v, Slot(id, n), c);
      assert OwnedBySlots(v, id, n + 1, c) <==> OwnedBySlots(v, id, n, c) || OwnedUnder(v, Slot(id, n), c);
    }
  }

  /** Exactly the clusters of inode id have been released. */
  ghost predicate Truncated(v: Volume, id: nat, used: seq<bool>, used': seq<bool>) {
    |used| == |used'| && forall c: nat :: c < |used| ==> (used'[c] <==> used[c] && !OwnedByInode(v, id, c))
  }

  lemma AllSlotsReleased(v: Volume, id: nat, used: seq<bool>, used': seq<bool>)
    requires ReleasedSlots(v, id, SLOT_COUNT, used, used')
    ensures Truncated(v, id, used, used')
  {
    hide OwnedUnder;
    forall c: nat | c < |used| ensures used'[c] <==> used[c] && !OwnedByInode(v, id, c) {
      assert OwnedBySlots(v, id, SLOT_COUNT, c) <==> OwnedByInode(v, id, c);
    }
  }

  // ----- The volume after an inode has let go of its clusters -----

  ghost predicate NoPointers(ino: Inode) {
    InodeOk(ino) && forall k :: 0 <= k < SLOT_COUNT ==> Pointer(ino, k) == 0
  }

  lemma NoPointersOwnNothing(v: Volume, inodes: seq<Inode>, id: nat)
    requires OfTable(v, inodes) && id < |inodes| && NoPointers(inodes[id])
    ensures forall c: nat :: !OwnedByInode(v, id, c)
  {
    forall c: nat, k | 0 <= k < SLOT_COUNT ensures !OwnedUnder(v, Slot(id, k), c) {
      forall p | Position(v.roots, Slot(id, k), p) ensures Owned(v.disk, v.roots, Slot(id, k), p) == 0 {
        AtNothing(v.disk, p);
      }
    }
  }

  /** Nobody else loses anything when one inode is emptied and exactly its clusters are released. */
  lemma TruncatedIsSound(v: Volume, v': Volume, inodes: seq<Inode>, inodes': seq<Inode>, id: nat)
    requires Sound(v) && OfTable(v, inodes) && OfTable(v', inodes') && id < |inodes| == |inodes'|
    requires v'.disk == v.disk && v'.reserved == v.reserved && Truncated(v, id, v.used, v'.used)
    requires NoPointers(inodes'[id]) && forall j :: 0 <= j < |inodes| && j != id ==> inodes'[j] == inodes[j]
    ensures Sound(v') && OthersSame(v, v', inodes, inodes', id)
  {
    hide TableRoots;
    forall k, p | Position(v'.roots, k, p)
      ensures Position(v.roots, k, p)
      ensures Owned(v'.disk, v'.roots, k, p) == if k.id == id then 0 else Owned(v.disk, v.roots, k, p)
    {
      assert k == Slot(k.id, k.k);
      AtNothing(v.disk, p);
    }
    forall c | 0 <= c < v.reserved ensures v'.used[c] {
      ReservedIsUnowned(v, id, c);
    }
    forall k, p | Position(v'.roots, k, p) && Owned(v'.disk, v'.roots, k, p) != 0
      ensures InData(v', Owned(v'.disk, v'.roots, k, p))
    {
      OtherKeepsCluster(v, id, k, p);
      SoundAt(v, k, p);
    }
  }

  lemma ReservedIsUnowned(v: Volume, id: nat, c: nat)
    requires Sound(v) && c < v.reserved
    ensures !OwnedByInode(v, id, c)
  {
  }

  lemma OtherKeepsCluster(v: Volume, id: nat, key: Key, path: Path)
    requires Sound(v) && Position(v.roots, key, path) && key.Slot? && key.id != id
    ensures !OwnedByInode(v, id, Owned(v.disk, v.roots, key, path))
  {
    var c := Owned(v.disk, v.roots, key, path);
    forall k | 0 <= k < SLOT_COUNT ensures !OwnedUnder(v, Slot(id, k), c) {
      forall p | Position(v.roots, Slot(id, k), p) && Owned(v.disk, v.roots, Slot(id, k), p) == c ensures c == 0 {
        if c != 0 {
          SameOwner(v, key, path, Slot(id, k), p);
          assert false;
        }
      }
    }
  }

  /**
   Truncating gives back exactly what was taken: an inode that owned nothing, grown and written in any way
   and then truncated, leaves the bitmap as it was.
   */
  lemma WriteThenTruncateRestores(v: Volume, w: Volume, inodes: seq<Inode>, inodes': seq<Inode>, id: nat, used': seq<bool>)
    requires Sound(v) && OfTable(v, inodes) && OfTable(w, inodes') && id < |inodes| && NoPointers(inodes[id])
    requires FileStep(v, w, inodes, inodes', id)
    requires Truncated(w, id, w.used, used')
    ensures used' == v.used
  {
    hide Sound, TableRoots, OwnedByInode, OthersSame, KeepsOwned, KeepsReserved;
    NoPointersOwnNothing(v, inodes, id);
    forall c: nat | c < |v.used| ensures used'[c] == v.used[c] {
      assert OwnedByInode(w, id, c) && v.used[c] ==> OwnedByInode(v, id, c);
    }
  }

  /** On one disk, an inode with the same pointers owns the same clusters. */
  lemma SameInodeOwns(v: Volume, w: Volume, inodes: seq<Inode>, inodes': seq<Inode>, j: nat, c: nat)
    requires OfTable(v, inodes) && OfTable(w, inodes') && v.disk == w.disk
    requires j < |inodes| && j < |inodes'| && inodes'[j] == inodes[j]
    ensures OwnedByInode(v, j, c) <==> OwnedByInode(w, j, c)
  {
    forall k | 0 <= k < SLOT_COUNT ensures OwnedUnder(v, Slot(j, k), c) <==> OwnedUnder(w, Slot(j, k), c) {
      assert v.roots[Slot(j, k)] == w.roots[Slot(j, k)];
      forall p ensures Position(v.roots, Slot(j, k), p) <==> Position(w.roots, Slot(j, k), p) {
      }
      forall p ensures Owned(v.disk, v.roots, Slot(j, k), p) == Owned(w.disk, w.roots, Slot(j, k), p) {
      }
    }
  }

  lemma OneOwner(v: Volume, i: nat, j: nat, c: nat)
    requires Sound(v) && OwnedByInode(v, i, c) && OwnedByInode(v, j, c)
    ensures i == j
  {
    var k :| 0 <= k < SLOT_COUNT && OwnedUnder(v, Slot(i, k), c);
    var p :| Position(v.roots, Slot(i, k), p) && Owned(v.disk, v.roots, Slot(i, k), p) == c;
    var l :| 0 <= l < SLOT_COUNT && OwnedUnder(v, Slot(j, l), c);
    var q :| Position(v.roots, Slot(j, l), q) && Owned(v.disk, v.roots, Slot(j, l), q) == c;
    SameOwner(v, Slot(i, k), p, Slot(j, l), q);
  }

  /** What inode id owned is still marked used, but nobody owns it. */
  ghost predicate Lost(v: Volume, w: Volume, id: nat) {
    forall c: nat :: OwnedByInode(v, id, c) ==> c < |w.used| && w.used[c] && forall j: nat :: !OwnedByInode(w, j, c)
  }

  /** An inode dropped without truncating it loses its clusters. */
  lemma DroppedIsLost(v: Volume, u: Volume, w: Volume, inodes: seq<Inode>, inodes': seq<Inode>, id: nat)
    requires Sound(v) && SameOwned(v, u) && OfTable(u, inodes) && OfTable(w, inodes') && u.disk == w.disk
    requires id < |inodes| == |inodes'| && NoPointers(inodes'[id]) && inodes' == inodes[id := inodes'[id]]
    requires |w.used| == |v.used| && forall c :: 0 <= c < |v.used| && v.used[c] ==> w.used[c]
    ensures Lost(v, w, id)
  {
    hide TableRoots, OwnedByInode, Sound, SameOwned, NoPointers;
    NoPointersOwnNothing(w, inodes', id);
    forall c: nat | OwnedByInode(v, id, c)
      ensures c < |w.used| && w.used[c] && forall j: nat :: !OwnedByInode(w, j, c)
    {
      OwnedInUse(v, id, c);
      forall j: nat ensures !OwnedByInode(w, j, c) {
        if j < |inodes| && j != id {
          SameInodeOwns(u, w, inodes, inodes', j, c);
          SameOwnedSameOwner(v, u, j, c);
          if OwnedByInode(w, j, c) {
            OneOwner(v, id, j, c);
          }
        } else if j >= |inodes| {
          NoInodeOwnsNothing(w, inodes', j, c);
        }
      }
    }
  }

  lemma OwnedInUse(v: Volume, id: nat, c: nat)
    requires Sound(v) && OwnedByInode(v, id, c)
    ensures c < |v.used| && v.used[c]
  {
    var k :| 0 <= k < SLOT_COUNT && OwnedUnder(v, Slot(id, k), c);
    var p :| Position(v.roots, Slot(id, k), p) && Owned(v.disk, v.roots, Slot(id, k), p) == c;
    SoundAt(v, Slot(id, k), p);
  }

  lemma NoInodeOwnsNothing(w: Volume, inodes: seq<Inode>, j: nat, c: nat)
    requires OfTable(w, inodes) && j >= |inodes|
    ensures !OwnedByInode(w, j, c)
  {
  }

  /** Which clusters an inode owns does not depend on file data. */
  lemma TruncatedSame(v: Volume, w: Volume, id: nat, used: seq<bool>, used': seq<bool>)
    requires SameOwned(v, w) && Truncated(w, id, used, used')
    ensures Truncated(v, id, used, used')
  {
    forall c: nat | c < |used| ensures used'[c] <==> used[c] && !OwnedByInode(v, id, c) {
      SameOwnedSameOwner(v, w, id, c);
    }
  }

  // ----- What truncation means for the clusters of files -----

  /** A file's data clusters and the pointer clusters its inode names are its own. */
  lemma OwnsItsClusters(v: Volume, table: seq<Inode>, id: nat, l: nat)
    requires OfTable(v, table) && id < |table| && l < MAX_FILE_CLUSTERS
    ensures var c := Lookup(v.disk, table[id], l); c != 0 ==> OwnedByInode(v, id, c)
    ensures var c := table[id].singleIndirect; c != 0 ==> OwnedByInode(v, id, c)
    ensures var c := table[id].doubleIndirect; c != 0 ==> OwnedByInode(v, id, c)
    ensures var c := table[id].tripleIndirect; c != 0 ==> OwnedByInode(v, id, c)
  {
    LookupPosition(table, id, l);
    LookupIsOwned(v.disk, table, id, l);
    RootPosition(table, id, SINGLE_SLOT, v.disk);
    RootPosition(table, id, DOUBLE_SLOT, v.disk);
    RootPosition(table, id, TRIPLE_SLOT, v.disk);
    hide TableRoots, Lookup;
    assert OwnedUnder(v, Slot(id, SlotFor(l)), Lookup(v.disk, table[id], l)) || Lookup(v.disk, table[id], l) == 0;
    assert OwnedUnder(v, Slot(id, SINGLE_SLOT), table[id].singleIndirect) || table[id].singleIndirect == 0;
    assert OwnedUnder(v, Slot(id, DOUBLE_SLOT), table[id].doubleIndirect) || table[id].doubleIndirect == 0;
    assert OwnedUnder(v, Slot(id, TRIPLE_SLOT), table[id].tripleIndirect) || table[id].tripleIndirect == 0;
  }

  /** A cluster of one file belongs to no other. */
  lemma OwnedByOneOnly(v: Volume, i: nat, j: nat, c: nat)
    requires Sound(v) && OwnedByInode(v, i, c) && OwnedByInode(v, j, c)
    ensures i == j
  {
    var k: nat :| k < SLOT_COUNT && OwnedUnder(v, Slot(i, k), c);
    var m: nat :| m < SLOT_COUNT && OwnedUnder(v, Slot(j, m), c);
    var p :| Position(v.roots, Slot(i, k), p) && Owned(v.disk, v.roots, Slot(i, k), p) == c;
    var q :| Position(v.roots, Slot(j, m), q) && Owned(v.disk, v.roots, Slot(j, m), q) == c;
    SameOwner(v, Slot(i, k), p, Slot(j, m), q);
  }

  lemma OwnedIsUsed(v: Volume, id: nat, c: nat)
    requires Sound(v) && OwnedByInode(v, id, c)
    ensures c < |v.used| && v.used[c]
  {
    var k: nat :| k < SLOT_COUNT && OwnedUnder(v, Slot(id, k), c);
    var p :| Position(v.roots, Slot(id, k), p) && Owned(v.disk, v.roots, Slot(id, k), p) == c;
    SoundAt(v, Slot(id, k), p);
  }

  /** A truncated file's clusters are free, data and pointers; every other file's are in use as before. */
  lemma TruncatedFrees(v: Volume, table: seq<Inode>, id: nat, used: seq<bool>, j: nat, l: nat)
    requires Sound(v) && OfTable(v, table) && id < |table| && j < |table| && l < MAX_FILE_CLUSTERS
    requires Truncated(v, id, v.used, used)
    ensures var owned := [Lookup(v.disk, table[j], l), table[j].singleIndirect, table[j].doubleIndirect, table[j].tripleIndirect];
            forall c :: c in owned && c != 0 ==> c < |used| && (used[c] <==> j != id)
  {
    OwnsItsClusters(v, table, j, l);
    hide OwnedByInode, Sound, TableRoots, Lookup;
    var owned := [Lookup(v.disk, table[j], l), table[j].singleIndirect, table[j].doubleIndirect, table[j].tripleIndirect];
    forall c | c in owned && c != 0
      ensures c < |used| && (used[c] <==> j != id)
    {
      OwnedIsUsed(v, j, c);
      if OwnedByInode(v, id, c) {
        OwnedByOneOnly(v, id, j, c);
      }
    }
  }
}
