/** An inode whose pointers are rebuilt in bulk over a list of data clusters. */
module Rebuild {
  import opened Bitmap
  import opened Clusters
  import opened Ownership
  import opened PointerTrees
  import opened Inodes
  import opened FileViews
  import opened AllocationSteps
  import opened Truncation
  import opened FlatFile
  import opened Occupancy

  /** The first logical cluster below pointer k. */
  function SlotStart(k: nat): nat {
    if k <= SINGLE_SLOT then k else if k == DOUBLE_SLOT then DOUBLE_START else TRIPLE_START
  }

  lemma SlotEnds(k: nat)
    requires k < SLOT_COUNT
    ensures SlotStart(k) + Width(SlotDepth(k)) == if k < TRIPLE_SLOT then SlotStart(k + 1) else MAX_FILE_CLUSTERS
  {
    assert Width(0) == 1 && Width(1) == POINTERS_PER_CLUSTER && Width(2) == SQUARE && Width(3) == SQUARE * POINTERS_PER_CLUSTER;
  }

  lemma SlotStartsGrow(j: nat, k: nat)
    requires j < k < SLOT_COUNT
    ensures SlotStart(j) + Width(SlotDepth(j)) <= SlotStart(k)
  {
    SlotEnds(j);
  }

  // ----- The pointers of one inode -----

  ghost predicate LeavesAre(disk: seq<Cluster>, ino: Inode, data: seq<nat>)
    requires InodeOk(ino)
  {
    forall k, p :: 0 <= k < SLOT_COUNT && |p| == SlotDepth(k) && InRange(p) ==>
      At(disk, Pointer(ino, k), p) == if SlotStart(k) + Index(p) < |data| then data[SlotStart(k) + Index(p)] else 0
  }

  ghost predicate PointersAreNew(disk: seq<Cluster>, used0: seq<bool>, used: seq<bool>, ino: Inode)
    requires InodeOk(ino)
  {
    forall k :: 0 <= k < SLOT_COUNT ==> InnerAreNew(disk, used0, used, Pointer(ino, k), SlotDepth(k))
  }

  ghost predicate PointersOnce(disk: seq<Cluster>, ino: Inode)
    requires InodeOk(ino)
  {
    forall j, p, k, q :: 0 <= j < SLOT_COUNT && 0 <= k < SLOT_COUNT && Inner(p, SlotDepth(j)) && Inner(q, SlotDepth(k))
      && At(disk, Pointer(ino, j), p) != 0 && At(disk, Pointer(ino, j), p) == At(disk, Pointer(ino, k), q)
      ==> j == k && p == q
  }

  ghost predicate IsPointerCluster(disk: seq<Cluster>, ino: Inode, c: nat)
    requires InodeOk(ino)
  {
    exists k :: 0 <= k < SLOT_COUNT && IsInner(disk, Pointer(ino, k), SlotDepth(k), c)
  }

  ghost predicate TakenForPointers(disk: seq<Cluster>, used0: seq<bool>, used: seq<bool>, ino: Inode)
    requires InodeOk(ino)
  {
    forall c: nat :: NewlyUsed(used0, used, c) ==> IsPointerCluster(disk, ino, c)
  }

  /** Some cluster of the list lies below position path of pointer k. */
  ghost predicate HasDataBelow(k: nat, path: Path, n: nat) {
    exists q :: |q| == SlotDepth(k) && InRange(q) && path <= q && SlotStart(k) + Index(q) < n
  }

  ghost predicate PointersNeeded(disk: seq<Cluster>, ino: Inode, n: nat)
    requires InodeOk(ino)
  {
    forall k, p :: 0 <= k < SLOT_COUNT && Inner(p, SlotDepth(k)) && At(disk, Pointer(ino, k), p) != 0 ==> HasDataBelow(k, p, n)
  }

  /** The inode's leaves are data, in order; its pointer clusters are the clusters taken since used0, each used once. */
  ghost predicate Rebuilt(disk: seq<Cluster>, used0: seq<bool>, used: seq<bool>, ino: Inode, data: seq<nat>) {
    && InodeOk(ino)
    && LeavesAre(disk, ino, data)
    && PointersAreNew(disk, used0, used, ino)
    && PointersOnce(disk, ino)
    && TakenForPointers(disk, used0, used, ino)
    && PointersNeeded(disk, ino, |data|)
  }

  lemma NothingRebuilt(disk: seq<Cluster>, used: seq<bool>, ino: Inode)
    requires NoPointers(ino)
    ensures Rebuilt(disk, used, used, ino, [])
  {
    forall p: Path ensures At(disk, 0, p) == 0 {
      AtNothing(disk, p);
    }
  }

  // ----- One more pointer -----

  ghost predicate CanAdd(disk: seq<Cluster>, disk': seq<Cluster>, used0: seq<bool>, used: seq<bool>, used': seq<bool>,
                         ino: Inode, k: nat, c: nat, data: seq<nat>, chunk: seq<nat>)
  {
    && Rebuilt(disk, used0, used, ino, data) && k < SLOT_COUNT && Pointer(ino, k) == 0
    && OnlyFreeChanged(disk, used, disk', used') && |used0| == |used|
    && |used0| > 0 && used0[0] && (forall x :: 0 <= x < |used| && used0[x] ==> used[x])
    && |data| == SlotStart(k) && 0 < |chunk| <= Width(SlotDepth(k))
    && Tree(disk', used, used', c, SlotDepth(k), chunk)
  }

  lemma AddAt(disk: seq<Cluster>, disk': seq<Cluster>, used0: seq<bool>, used: seq<bool>, used': seq<bool>,
              ino: Inode, k: nat, c: nat, data: seq<nat>, chunk: seq<nat>, j: nat, p: Path)
    requires CanAdd(disk, disk', used0, used, used', ino, k, c, data, chunk)
    requires j < SLOT_COUNT && |p| <= SlotDepth(j) && InRange(p)
    ensures At(disk', Pointer(SetPointer(ino, k, c), j), p) ==
            if j == k then At(disk', c, p) else At(disk, Pointer(ino, j), p)
    ensures j == k ==> At(disk, Pointer(ino, j), p) == 0
  {
    hide Width, LeavesAre, Tree, TakenForPointers, PointersOnce, PointersNeeded;
    AtNothing(disk, p);
    assert InnerAreNew(disk, used0, used, Pointer(ino, j), SlotDepth(j));
    AtStays(disk, used0, used, disk', used', Pointer(ino, j), SlotDepth(j), p);
  }

  lemma AddLeaves(disk: seq<Cluster>, disk': seq<Cluster>, used0: seq<bool>, used: seq<bool>, used': seq<bool>,
                  ino: Inode, k: nat, c: nat, data: seq<nat>, chunk: seq<nat>)
    requires CanAdd(disk, disk', used0, used, used', ino, k, c, data, chunk)
    ensures LeavesAre(disk', SetPointer(ino, k, c), data + chunk)
  {
    hide At, Width, Index, SetPointer, Pointer, PointersAreNew, PointersOnce, TakenForPointers, SlotStart;
    hide PointersNeeded, InnerNeeded;
    var ino' := SetPointer(ino, k, c);
    forall j, p | 0 <= j < SLOT_COUNT && |p| == SlotDepth(j) && InRange(p)
      ensures At(disk', Pointer(ino', j), p) ==
              if SlotStart(j) + Index(p) < |data + chunk| then (data + chunk)[SlotStart(j) + Index(p)] else 0
    {
      AddAt(disk, disk', used0, used, used', ino, k, c, data, chunk, j, p);
      IndexBound(p);
      if j < k {
        SlotStartsGrow(j, k);
      } else if k < j {
        SlotStartsGrow(k, j);
      }
    }
  }

  lemma AddInner(disk: seq<Cluster>, disk': seq<Cluster>, used0: seq<bool>, used: seq<bool>, used': seq<bool>,
                 ino: Inode, k: nat, c: nat, data: seq<nat>, chunk: seq<nat>, j: nat, p: Path)
    requires CanAdd(disk, disk', used0, used, used', ino, k, c, data, chunk)
    requires j < SLOT_COUNT && Inner(p, SlotDepth(j)) && At(disk', Pointer(SetPointer(ino, k, c), j), p) != 0
    ensures var x := At(disk', Pointer(SetPointer(ino, k, c), j), p);
            NewlyUsed(used0, used', x) && (NewlyUsed(used, used', x) <==> j == k)
  {
    AddAt(disk, disk', used0, used, used', ino, k, c, data, chunk, j, p);
    hide At, Width, Index, SetPointer, Pointer, HasLeaves, LeavesAre, PointersOnce, TakenForPointers, SlotStart;
    hide PointersNeeded, InnerNeeded;
    assert InnerAreNew(disk, used0, used, Pointer(ino, j), SlotDepth(j));
  }

  lemma AddOnce(disk: seq<Cluster>, disk': seq<Cluster>, used0: seq<bool>, used: seq<bool>, used': seq<bool>,
                ino: Inode, k: nat, c: nat, data: seq<nat>, chunk: seq<nat>)
    requires CanAdd(disk, disk', used0, used, used', ino, k, c, data, chunk)
    ensures PointersOnce(disk', SetPointer(ino, k, c))
  {
    hide At, Width, Index, SetPointer, Pointer, HasLeaves, LeavesAre, PointersAreNew, TakenForPointers, SlotStart;
    hide PointersNeeded, InnerNeeded;
    var ino' := SetPointer(ino, k, c);
    forall i, p, j, q | 0 <= i < SLOT_COUNT && 0 <= j < SLOT_COUNT && Inner(p, SlotDepth(i)) && Inner(q, SlotDepth(j))
                        && At(disk', Pointer(ino', i), p) != 0 && At(disk', Pointer(ino', i), p) == At(disk', Pointer(ino', j), q)
      ensures i == j && p == q
    {
      AddAt(disk, disk', used0, used, used', ino, k, c, data, chunk, i, p);
      AddAt(disk, disk', used0, used, used', ino, k, c, data, chunk, j, q);
      AddInner(disk, disk', used0, used, used', ino, k, c, data, chunk, i, p);
      AddInner(disk, disk', used0, used, used', ino, k, c, data, chunk, j, q);
    }
  }

  lemma AddTaken(disk: seq<Cluster>, disk': seq<Cluster>, used0: seq<bool>, used: seq<bool>, used': seq<bool>,
                 ino: Inode, k: nat, c: nat, data: seq<nat>, chunk: seq<nat>, x: nat)
    requires CanAdd(disk, disk', used0, used, used', ino, k, c, data, chunk) && NewlyUsed(used0, used', x)
    ensures IsPointerCluster(disk', SetPointer(ino, k, c), x)
  {
    hide At, Width, Index, SetPointer, Pointer, HasLeaves, LeavesAre, PointersAreNew, PointersOnce, SlotStart;
    hide PointersNeeded, InnerNeeded;
    var ino' := SetPointer(ino, k, c);
    if used[x] {
      assert IsPointerCluster(disk, ino, x);
      var j :| 0 <= j < SLOT_COUNT && IsInner(disk, Pointer(ino, j), SlotDepth(j), x);
      var p :| Inner(p, SlotDepth(j)) && At(disk, Pointer(ino, j), p) == x;
      AddAt(disk, disk', used0, used, used', ino, k, c, data, chunk, j, p);
      assert IsInner(disk', Pointer(ino', j), SlotDepth(j), x);
    } else {
      assert IsInner(disk', c, SlotDepth(k), x);
      assert Pointer(ino', k) == c;
    }
  }

  lemma AddNeeded(disk: seq<Cluster>, disk': seq<Cluster>, used0: seq<bool>, used: seq<bool>, used': seq<bool>,
                  ino: Inode, k: nat, c: nat, data: seq<nat>, chunk: seq<nat>, j: nat, p: Path)
    requires CanAdd(disk, disk', used0, used, used', ino, k, c, data, chunk)
    requires j < SLOT_COUNT && Inner(p, SlotDepth(j)) && At(disk', Pointer(SetPointer(ino, k, c), j), p) != 0
    ensures HasDataBelow(j, p, |data + chunk|)
  {
    hide At, Width, Index, SetPointer, Pointer, HasLeaves, LeavesAre, PointersAreNew, PointersOnce, TakenForPointers;
    AddAt(disk, disk', used0, used, used', ino, k, c, data, chunk, j, p);
    if j == k {
      if p == [] {
        assert p <= Leftmost(SlotDepth(k));
      } else {
        assert HasLeafBelow(p, SlotDepth(k), chunk);
      }
    } else {
      assert HasDataBelow(j, p, |data|);
    }
  }

  /** Giving the next pointer a newly built tree. */
  lemma AddPointer(disk: seq<Cluster>, disk': seq<Cluster>, used0: seq<bool>, used: seq<bool>, used': seq<bool>,
                   ino: Inode, k: nat, c: nat, data: seq<nat>, chunk: seq<nat>)
    requires CanAdd(disk, disk', used0, used, used', ino, k, c, data, chunk)
    ensures Rebuilt(disk', used0, used', SetPointer(ino, k, c), data + chunk)
  {
    hide At, Width, Index, SetPointer, Pointer, HasLeaves, LeavesAre, PointersOnce, SlotStart;
    AddLeaves(disk, disk', used0, used, used', ino, k, c, data, chunk);
    AddOnce(disk, disk', used0, used, used', ino, k, c, data, chunk);
    var ino' := SetPointer(ino, k, c);
    forall j, p | 0 <= j < SLOT_COUNT && Inner(p, SlotDepth(j)) && At(disk', Pointer(ino', j), p) != 0
      ensures NewlyUsed(used0, used', At(disk', Pointer(ino', j), p))
    {
      AddInner(disk, disk', used0, used, used', ino, k, c, data, chunk, j, p);
    }
    forall j, p | 0 <= j < SLOT_COUNT && Inner(p, SlotDepth(j)) && At(disk', Pointer(ino', j), p) != 0
      ensures HasDataBelow(j, p, |data + chunk|)
    {
      AddNeeded(disk, disk', used0, used, used', ino, k, c, data, chunk, j, p);
    }
    forall x: nat | NewlyUsed(used0, used', x) ensures IsPointerCluster(disk', ino', x) {
      AddTaken(disk, disk', used0, used, used', ino, k, c, data, chunk, x);
    }
  }

  /** The leaf of logical cluster l is cluster l of the list. */
  lemma PlaceOfPath(l: nat)
    requires l < MAX_FILE_CLUSTERS
    ensures SlotStart(SlotFor(l)) + Index(PathFor(l)) == l && InRange(PathFor(l))
  {
    PathInRange(l);
    var p := PathFor(l);
    assert Width(0) == 1 && Width(1) == POINTERS_PER_CLUSTER && Width(2) == SQUARE;
    if |p| >= 1 {
      assert Index(p) == p[0] * Width(|p| - 1) + Index(p[1..]);
    }
    if |p| >= 2 {
      assert Index(p[1..]) == p[1] * Width(|p| - 2) + Index(p[1..][1..]);
    }
    if |p| >= 3 {
      assert Index(p[1..][1..]) == p[2] * Width(0) + Index(p[1..][1..][1..]);
    }
  }

  /** The bulk builder and the index walker agree, cluster by cluster. */
  lemma RebuiltLookup(disk: seq<Cluster>, used0: seq<bool>, used: seq<bool>, ino: Inode, data: seq<nat>, l: nat)
    requires Rebuilt(disk, used0, used, ino, data) && l < MAX_FILE_CLUSTERS
    ensures Lookup(disk, ino, l) == if l < |data| then data[l] else 0
  {
    PlaceOfPath(l);
    hide At, Index, PathFor;
  }

  // ----- Files and ownership while only free clusters change -----

  lemma {:induction false} SettledOwned(v: Volume, disk': seq<Cluster>, used': seq<bool>, key: Key, path: Path)
    requires Sound(v) && OnlyFreeChanged(v.disk, v.used, disk', used') && Position(v.roots, key, path)
    ensures Owned(disk', v.roots, key, path) == Owned(v.disk, v.roots, key, path)
    decreases |path|
  {
    if path != [] {
      PositionParent(v.roots, key, path);
      SettledOwned(v, disk', used', key, path[..|path| - 1]);
      SoundAt(v, key, path[..|path| - 1]);
    }
  }

  lemma SettledSound(v: Volume, disk': seq<Cluster>, used': seq<bool>)
    requires Sound(v) && OnlyFreeChanged(v.disk, v.used, disk', used') && WholeClusters(disk')
    ensures Sound(v.(disk := disk', used := used'))
    ensures SameOwned(v, v.(disk := disk', used := used'))
  {
    forall key, path | Position(v.roots, key, path)
      ensures Owned(disk', v.roots, key, path) == Owned(v.disk, v.roots, key, path)
    {
      SettledOwned(v, disk', used', key, path);
    }
  }

  lemma SettledFile(v: Volume, disk': seq<Cluster>, used': seq<bool>, inodes: seq<Inode>, j: nat)
    requires Sound(v) && OfTable(v, inodes) && OnlyFreeChanged(v.disk, v.used, disk', used') && j < |inodes|
    ensures SameFile(v.disk, disk', inodes[j], inodes[j])
  {
    forall l | 0 <= l < MAX_FILE_CLUSTERS ensures ViewOf(disk', inodes[j], l) == ViewOf(v.disk, inodes[j], l) {
      LookupPosition(inodes, j, l);
      LookupIsOwned(v.disk, inodes, j, l);
      LookupIsOwned(disk', inodes, j, l);
      SettledOwned(v, disk', used', Slot(j, SlotFor(l)), PathFor(l));
      SoundAt(v, Slot(j, SlotFor(l)), PathFor(l));
    }
  }

  lemma SettledOthers(v: Volume, disk': seq<Cluster>, used': seq<bool>, inodes: seq<Inode>, inodes': seq<Inode>, id: nat)
    requires Sound(v) && OfTable(v, inodes) && OnlyFreeChanged(v.disk, v.used, disk', used')
    requires TableOk(inodes') && |inodes'| == |inodes| && forall j :: 0 <= j < |inodes| && j != id ==> inodes'[j] == inodes[j]
    ensures OthersKept(v.disk, disk', inodes, inodes', id)
  {
    forall j | 0 <= j < |inodes| && j != id ensures SameFile(v.disk, disk', inodes[j], inodes[j]) {
      SettledFile(v, disk', used', inodes, j);
    }
  }

  // ----- The new pointers in place of the old ones -----

  /** The clusters of the list exist, are distinct and have been taken since used0. */
  ghost predicate TakenOnce(used0: seq<bool>, used: seq<bool>, data: seq<nat>) {
    && (forall i :: 0 <= i < |data| ==> NewlyUsed(used0, used, data[i]))
    && (forall i, j :: 0 <= i < j < |data| ==> data[i] != data[j])
  }

  /** A cluster of the rebuilt inode: a pointer cluster or one of the list, at one place only. */
  lemma RebuiltOwned(disk: seq<Cluster>, used1: seq<bool>, used: seq<bool>, ino: Inode, data: seq<nat>, k: nat, p: Path)
    requires Rebuilt(disk, used1, used, ino, data) && k < SLOT_COUNT && |p| <= SlotDepth(k) && InRange(p)
    ensures var c := At(disk, Pointer(ino, k), p);
            c != 0 ==> if |p| < SlotDepth(k) then NewlyUsed(used1, used, c)
                       else SlotStart(k) + Index(p) < |data| && c == data[SlotStart(k) + Index(p)]
  {
    hide At, Index, SlotStart, Width, Pointer, PointersOnce, TakenForPointers, PointersNeeded;
    assert InnerAreNew(disk, used1, used, Pointer(ino, k), SlotDepth(k));
  }

  lemma SamePlace(j: nat, p: Path, k: nat, q: Path)
    requires j < SLOT_COUNT && k < SLOT_COUNT && |p| == SlotDepth(j) && |q| == SlotDepth(k) && InRange(p) && InRange(q)
    requires SlotStart(j) + Index(p) == SlotStart(k) + Index(q)
    ensures j == k && p == q
  {
    IndexBound(p);
    IndexBound(q);
    if j < k {
      SlotStartsGrow(j, k);
    } else if k < j {
      SlotStartsGrow(k, j);
    }
    IndexInjective(p, q);
  }

  lemma RebuiltOnce(disk: seq<Cluster>, used0: seq<bool>, used1: seq<bool>, used: seq<bool>, ino: Inode, data: seq<nat>,
                    j: nat, p: Path, k: nat, q: Path)
    requires Rebuilt(disk, used1, used, ino, data) && TakenOnce(used0, used1, data) && j < SLOT_COUNT && k < SLOT_COUNT
    requires |p| <= SlotDepth(j) && InRange(p) && |q| <= SlotDepth(k) && InRange(q)
    requires At(disk, Pointer(ino, j), p) != 0 && At(disk, Pointer(ino, j), p) == At(disk, Pointer(ino, k), q)
    ensures j == k && p == q
  {
    hide At, Width, Index, Pointer, SlotStart, SlotDepth;
    RebuiltOwned(disk, used1, used, ino, data, j, p);
    RebuiltOwned(disk, used1, used, ino, data, k, q);
    if |p| == SlotDepth(j) && |q| == SlotDepth(k) {
      SamePlace(j, p, k, q);
    } else {
      assert Inner(p, SlotDepth(j)) && Inner(q, SlotDepth(k));
    }
  }

  /** Everything known once the old tree has been released and the inode points at the new one. */
  ghost predicate Replaced(v: Volume, disk: seq<Cluster>, used1: seq<bool>, used2: seq<bool>, used3: seq<bool>,
                           table: seq<Inode>, id: nat, ino: Inode, data: seq<nat>)
  {
    && Sound(v) && OfTable(v, table) && id < |table| && InodeOk(ino) && ino.id == id
    && |v.used| == |used1| == |used2| == |used3|
    && OnlyFreeChanged(v.disk, v.used, disk, used2) && WholeClusters(disk)
    && (forall c :: 0 <= c < |v.used| && v.used[c] ==> used1[c])
    && (forall c :: 0 <= c < |v.used| && used1[c] ==> used2[c])
    && TakenOnce(v.used, used1, data) && Rebuilt(disk, used1, used2, ino, data)
    && Truncated(v.(disk := disk, used := used2), id, used2, used3)
  }

  lemma ReplacedOwned(v: Volume, disk: seq<Cluster>, used1: seq<bool>, used2: seq<bool>, used3: seq<bool>,
                      table: seq<Inode>, id: nat, ino: Inode, data: seq<nat>, k: nat, p: Path)
    requires Replaced(v, disk, used1, used2, used3, table, id, ino, data)
    requires k < SLOT_COUNT && |p| <= SlotDepth(k) && InRange(p) && At(disk, Pointer(ino, k), p) != 0
    ensures NewlyUsed(v.used, used2, At(disk, Pointer(ino, k), p))
  {
    RebuiltOwned(disk, used1, used2, ino, data, k, p);
  }

  lemma ReplacedKeepsUsed(v: Volume, disk: seq<Cluster>, used1: seq<bool>, used2: seq<bool>, used3: seq<bool>,
                          table: seq<Inode>, id: nat, ino: Inode, data: seq<nat>, c: nat)
    requires Replaced(v, disk, used1, used2, used3, table, id, ino, data) && NewlyUsed(v.used, used2, c)
    ensures used3[c] && c >= v.reserved
  {
    var w := v.(disk := disk, used := used2);
    SettledSound(v, disk, used2);
    forall k | 0 <= k < SLOT_COUNT ensures !OwnedUnder(w, Slot(id, k), c) {
      forall p | Position(w.roots, Slot(id, k), p) ensures Owned(w.disk, w.roots, Slot(id, k), p) != c {
        SoundAt(v, Slot(id, k), p);
      }
    }
  }

  lemma ReplacedAt(v: Volume, disk: seq<Cluster>, used1: seq<bool>, used2: seq<bool>, used3: seq<bool>,
                   table: seq<Inode>, id: nat, ino: Inode, data: seq<nat>, key: Key, path: Path)
    requires Replaced(v, disk, used1, used2, used3, table, id, ino, data)
    requires Position(TableRoots(table[id := ino]), key, path)
    ensures key == Slot(key.id, key.k) && key.k < SLOT_COUNT && |path| <= SlotDepth(key.k) && InRange(path)
    ensures var c := Owned(disk, TableRoots(table[id := ino]), key, path);
            && (key.id == id ==> c == At(disk, Pointer(ino, key.k), path))
            && (key.id != id ==> Position(v.roots, key, path) && c == Owned(v.disk, v.roots, key, path))
            && (key.id != id && c != 0 ==> InData(v, c) && used3[c])
            && (c != 0 ==> v.reserved <= c < |disk| && used3[c] && (v.used[c] <==> key.id != id))
  {
    var c := Owned(disk, TableRoots(table[id := ino]), key, path);
    var w := v.(disk := disk, used := used2);
    SettledSound(v, disk, used2);
    if key.id == id {
      if c != 0 {
        ReplacedOwned(v, disk, used1, used2, used3, table, id, ino, data, key.k, path);
        ReplacedKeepsUsed(v, disk, used1, used2, used3, table, id, ino, data, c);
      }
    } else {
      assert Position(v.roots, key, path);
      SettledOwned(v, disk, used2, key, path);
      SoundAt(v, key, path);
      OtherKeepsCluster(w, id, key, path);
    }
  }

  /** Releasing the old tree and pointing the inode at the new one keeps the volume sound. */
  lemma ReplacedSound(v: Volume, disk: seq<Cluster>, used1: seq<bool>, used2: seq<bool>, used3: seq<bool>,
                      table: seq<Inode>, id: nat, ino: Inode, data: seq<nat>)
    requires Replaced(v, disk, used1, used2, used3, table, id, ino, data)
    ensures TableOk(table[id := ino])
    ensures Sound(Volume(disk, used3, TableRoots(table[id := ino]), v.reserved))
  {
    var x := Volume(disk, used3, TableRoots(table[id := ino]), v.reserved);
    forall c | 0 <= c < v.reserved ensures used3[c] {
      SettledSound(v, disk, used2);
      ReservedIsUnowned(v.(disk := disk, used := used2), id, c);
    }
    assert Shaped(x);
    hide Owned, At, Rebuilt, TableRoots, Truncated, TakenOnce, Pointer, Sound;
    forall key, path | Position(x.roots, key, path) && Owned(x.disk, x.roots, key, path) != 0
      ensures InData(x, Owned(x.disk, x.roots, key, path))
    {
      ReplacedAt(v, disk, used1, used2, used3, table, id, ino, data, key, path);
    }
    forall key, path, key', path' | Position(x.roots, key, path) && Position(x.roots, key', path')
                                    && Owned(x.disk, x.roots, key, path) != 0
                                    && Owned(x.disk, x.roots, key, path) == Owned(x.disk, x.roots, key', path')
      ensures key == key' && path == path'
    {
      ReplacedAt(v, disk, used1, used2, used3, table, id, ino, data, key, path);
      ReplacedAt(v, disk, used1, used2, used3, table, id, ino, data, key', path');
      if key.id == id {
        RebuiltOnce(disk, v.used, used1, used2, ino, data, key.k, path, key'.k, path');
      } else {
        SameOwner(v, key, path, key', path');
      }
    }
    SoundFromParts(x);
  }

  lemma SoundFromParts(v: Volume)
    requires Shaped(v) && OwnedAreUsed(v) && OwnedOnce(v)
    ensures Sound(v)
  {
  }

  // ----- The move takes as many clusters as it gives back -----

  lemma PathOfPlace(k: nat, p: Path)
    requires k < SLOT_COUNT && |p| == SlotDepth(k) && InRange(p) && SlotStart(k) + Index(p) < MAX_FILE_CLUSTERS
    ensures SlotFor(SlotStart(k) + Index(p)) == k && PathFor(SlotStart(k) + Index(p)) == p
  {
    hide SlotStart, Index, PathFor, SlotFor;
    var l := SlotStart(k) + Index(p);
    PlaceOfPath(l);
    SamePlace(k, p, SlotFor(l), PathFor(l));
  }

  lemma RebuiltOnTheWay(disk: seq<Cluster>, used1: seq<bool>, used: seq<bool>, ino: Inode, data: seq<nat>, k: nat, p: Path)
    requires Rebuilt(disk, used1, used, ino, data) && |data| <= MAX_FILE_CLUSTERS
    requires forall i :: 0 <= i < |data| ==> data[i] != 0
    requires k < SLOT_COUNT && |p| <= SlotDepth(k) && InRange(p)
    ensures At(disk, Pointer(ino, k), p) != 0 <==> OnTheWay(k, p, |data|)
  {
    hide At, SlotStart, Index, PathFor, SlotFor, Width, SlotDepth;
    if At(disk, Pointer(ino, k), p) != 0 {
      var q := p;
      if |p| < SlotDepth(k) {
        assert Inner(p, SlotDepth(k));
        assert HasDataBelow(k, p, |data|);
        q :| |q| == SlotDepth(k) && InRange(q) && p <= q && SlotStart(k) + Index(q) < |data|;
      }
      PathOfPlace(k, q);
      assert SlotFor(SlotStart(k) + Index(q)) == k && p <= PathFor(SlotStart(k) + Index(q));
    }
    if OnTheWay(k, p, |data|) {
      var l: nat :| l < |data| && SlotFor(l) == k && p <= PathFor(l);
      RebuiltLookup(disk, used1, used, ino, data, l);
      AboveMapped(disk, Pointer(ino, k), p, PathFor(l));
    }
  }

  /** The rebuilt inode owns the clusters of the list and their pointer clusters, and no more. */
  lemma RebuiltOccupies(v: Volume, table: seq<Inode>, id: nat, used1: seq<bool>, used: seq<bool>, data: seq<nat>)
    requires OfTable(v, table) && id < |table| && Rebuilt(v.disk, used1, used, table[id], data)
    requires |data| <= MAX_FILE_CLUSTERS && forall i :: 0 <= i < |data| ==> data[i] != 0
    ensures Occupies(v, id, |data|)
  {
    hide Rebuilt, OnTheWay, At;
    forall k: nat, p: Path | Position(v.roots, Slot(id, k), p)
      ensures Owned(v.disk, v.roots, Slot(id, k), p) != 0 <==> OnTheWay(k, p, |data|)
    {
      RebuiltOnTheWay(v.disk, used1, used, table[id], data, k, p);
    }
  }

  ghost predicate AllTakenAreListed(used0: seq<bool>, used1: seq<bool>, data: seq<nat>) {
    forall c: nat :: NewlyUsed(used0, used1, c) ==> c in data
  }

  /** What is used after the move: what was used and not the file's, and what is the file's now. */
  lemma UsedAfterMove(v: Volume, disk: seq<Cluster>, used1: seq<bool>, used2: seq<bool>, used3: seq<bool>,
                      table: seq<Inode>, id: nat, ino: Inode, data: seq<nat>, c: nat)
    requires Replaced(v, disk, used1, used2, used3, table, id, ino, data) && AllTakenAreListed(v.used, used1, data)
    requires |data| <= MAX_FILE_CLUSTERS && c < |v.used| && TableOk(table[id := ino])
    ensures var x := Volume(disk, used3, TableRoots(table[id := ino]), v.reserved);
            && (used3[c] <==> (v.used[c] && !OwnedByInode(v, id, c)) || OwnedByInode(x, id, c))
            && (OwnedByInode(x, id, c) ==> !v.used[c])
  {
    var w, x := v.(disk := disk, used := used2), Volume(disk, used3, TableRoots(table[id := ino]), v.reserved);
    SettledSound(v, disk, used2);
    SameOwnedSameOwner(v, w, id, c);
    hide Rebuilt, Sound, TableRoots, Owned, At, Pointer, SameOwned, Replaced, Truncated;
    NewOwned(v, disk, used1, used2, used3, table, id, ino, data, c);
    ReplacedFacts(v, disk, used1, used2, used3, table, id, ino, data, c);
    if OwnedByInode(v, id, c) {
      ReplacedOldUsed(v, disk, used1, used2, used3, table, id, ino, data, c);
    }
  }

  lemma ReplacedOldUsed(v: Volume, disk: seq<Cluster>, used1: seq<bool>, used2: seq<bool>, used3: seq<bool>,
                        table: seq<Inode>, id: nat, ino: Inode, data: seq<nat>, c: nat)
    requires Replaced(v, disk, used1, used2, used3, table, id, ino, data) && OwnedByInode(v, id, c)
    ensures c < |v.used| && v.used[c]
  {
    OwnedInUse(v, id, c);
  }

  lemma ReplacedFacts(v: Volume, disk: seq<Cluster>, used1: seq<bool>, used2: seq<bool>, used3: seq<bool>,
                      table: seq<Inode>, id: nat, ino: Inode, data: seq<nat>, c: nat)
    requires Replaced(v, disk, used1, used2, used3, table, id, ino, data) && c < |v.used|
    ensures |used2| == |used3| == |v.used|
    ensures v.used[c] ==> used2[c]
    ensures used3[c] <==> used2[c] && !OwnedByInode(v.(disk := disk, used := used2), id, c)
  {
  }

  /** The inode's new clusters are exactly those taken during the move. */
  lemma NewOwned(v: Volume, disk: seq<Cluster>, used1: seq<bool>, used2: seq<bool>, used3: seq<bool>,
                 table: seq<Inode>, id: nat, ino: Inode, data: seq<nat>, c: nat)
    requires Replaced(v, disk, used1, used2, used3, table, id, ino, data) && AllTakenAreListed(v.used, used1, data)
    requires |data| <= MAX_FILE_CLUSTERS && TableOk(table[id := ino])
    ensures OwnedByInode(Volume(disk, used3, TableRoots(table[id := ino]), v.reserved), id, c) <==>
            NewlyUsed(v.used, used2, c)
  {
    var table' := table[id := ino];
    var x := Volume(disk, used3, TableRoots(table'), v.reserved);
    if OwnedByInode(x, id, c) {
      var k :| 0 <= k < SLOT_COUNT && OwnedUnder(x, Slot(id, k), c);
      var p :| Position(x.roots, Slot(id, k), p) && Owned(x.disk, x.roots, Slot(id, k), p) == c;
      ReplacedAt(v, disk, used1, used2, used3, table, id, ino, data, Slot(id, k), p);
      ReplacedOwned(v, disk, used1, used2, used3, table, id, ino, data, k, p);
    }
    if NewlyUsed(v.used, used2, c) {
      NotReservedIsNonzero(v, used2, c);
      if used1[c] {
        assert NewlyUsed(v.used, used1, c);
        var l :| 0 <= l < |data| && data[l] == c;
        RebuiltLookup(disk, used1, used2, ino, data, l);
        LookupPosition(table', id, l);
        LookupIsOwned(disk, table', id, l);
        assert OwnedUnder(x, Slot(id, SlotFor(l)), c);
      } else {
        assert NewlyUsed(used1, used2, c);
        assert IsPointerCluster(disk, ino, c);
        var k :| 0 <= k < SLOT_COUNT && IsInner(disk, Pointer(ino, k), SlotDepth(k), c);
        var p :| Inner(p, SlotDepth(k)) && At(disk, Pointer(ino, k), p) == c;
        assert Position(x.roots, Slot(id, k), p) && Owned(x.disk, x.roots, Slot(id, k), p) == c;
        assert OwnedUnder(x, Slot(id, k), c);
      }
    }
  }

  lemma NotReservedIsNonzero(v: Volume, used2: seq<bool>, c: nat)
    requires Sound(v) && NewlyUsed(v.used, used2, c)
    ensures c != 0
  {
  }

  /** A move gives back everything the file owned and takes exactly what its clusters need. */
  lemma MoveCount(v: Volume, disk: seq<Cluster>, used1: seq<bool>, used2: seq<bool>, used3: seq<bool>,
                  table: seq<Inode>, id: nat, ino: Inode, data: seq<nat>)
    requires Replaced(v, disk, used1, used2, used3, table, id, ino, data) && AllTakenAreListed(v.used, used1, data)
    requires |data| <= MAX_FILE_CLUSTERS
    requires forall i :: 0 <= i < |data| ==> data[i] != 0
    ensures CountUsed(used3, |used3|) + |ClustersOf(v, id)| == CountUsed(v.used, |v.used|) + |data| + PointerClusters(|data|)
  {
    ReplacedSound(v, disk, used1, used2, used3, table, id, ino, data);
    var n, table' := |data|, table[id := ino];
    var x := Volume(disk, used3, TableRoots(table'), v.reserved);
    RebuiltOccupies(x, table', id, used1, used2, data);
    OccupiedClusters(x, table', id, n);
    CountIsSize(v.used, |v.used|);
    CountIsSize(used3, |used3|);
    var old', new' := ClustersOf(v, id), ClustersAt(x, id, Positions(n));
    var before, after := UsedSet(v.used, |v.used|), UsedSet(used3, |used3|);
    hide Rebuilt, Sound, TableRoots, Owned, OwnedByInode, Positions, ClustersAt, Occupies, PointerClusters;
    forall c: nat ensures c in after <==> (c in before && c !in old') || c in new' {
      if c < |v.used| {
        UsedAfterMove(v, disk, used1, used2, used3, table, id, ino, data, c);
      } else if c in new' {
        OwnedInUse(x, id, c);
      }
    }
    forall c | c in old' ensures c in before {
      OwnedInUse(v, id, c);
    }
    forall c | c in new' ensures c !in before {
      OwnedInUse(x, id, c);
      UsedAfterMove(v, disk, used1, used2, used3, table, id, ino, data, c);
    }
    SwapSize(before, after, old', new');
  }

  lemma SwapSize(before: set<nat>, after: set<nat>, gone: set<nat>, added: set<nat>)
    requires forall c: nat :: c in after <==> (c in before && c !in gone) || c in added
    requires gone <= before && added !! before
    ensures |after| == |before| - |gone| + |added|
  {
    assert after == (before - gone) + added;
    RemovedSize(before, gone);
  }
}
