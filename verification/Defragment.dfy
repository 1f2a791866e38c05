/** Defragmentation: a file's clusters are copied to one free run and its pointers are rebuilt over it. */
module Defragment {
  import opened Basics
  import opened Bitmap
  import opened Clusters
  import opened Ownership
  import opened Inodes
  import opened FileViews
  import opened AllocationSteps
  import opened Truncation
  import opened PointerTrees
  import opened FlatFile
  import opened Rebuild
  import opened PointerCounts
  import opened Occupancy
  import opened Storage
  import opened TableImage

  lemma ConsumedStep(total: nat, i: nat, w: nat, m: nat, n: nat)
    requires m == Min(total, i * w) && m < total && n == Min(total - m, w)
    ensures m == i * w && m + n == Min(total, (i + 1) * w)
  {
  }

  /** Takes a free cluster without writing to it. */
  method TakeFree(s: Storage) returns (status: Status, b: nat)
    requires s.Valid() && |s.disk| > 0 && s.bitmap.Used()[0]
    modifies s.bitmap.buffer
    ensures s.Valid() && (status == Ok || status == NoSpace)
    ensures status == Ok <==> FreeClusters(old(s.bitmap.Used())) > 0
    ensures status == Ok ==>
              && 0 < b < |s.disk| && !old(s.bitmap.Used())[b] && (forall j :: 0 <= j < b ==> old(s.bitmap.Used())[j])
              && s.bitmap.Used() == old(s.bitmap.Used())[b := true]
              && FreeClusters(s.bitmap.Used()) == FreeClusters(old(s.bitmap.Used())) - 1
    ensures status == NoSpace ==> s.bitmap.Used() == old(s.bitmap.Used())
  {
    hide Flags, FreeClusters, Image;
    status, b := s.bitmap.FindFree();
    if status != Ok {
      NoneFree(s.bitmap.Used());
      return status, 0;
    }
    OneFewerFree(s.bitmap.Used(), b);
    status := s.bitmap.MarkUsed(b);
  }

  /** The file system's own clusters are marked used. */
  ghost predicate ReservedUsed(reserved: nat, used: seq<bool>) {
    forall c :: 0 <= c < reserved && c < |used| ==> used[c]
  }

  lemma ReservedStays(disk: seq<Cluster>, used: seq<bool>, disk': seq<Cluster>, used': seq<bool>, reserved: nat)
    requires ReservedUsed(reserved, used) && OnlyFreeChanged(disk, used, disk', used')
    ensures ReservedUsed(reserved, used')
  {
  }

  /** Builds a tree with d pointer levels over the data clusters from a position on, as many as it holds. */
  method BuildTree(s: Storage, d: nat, data: seq<nat>, from: nat) returns (status: Status, root: nat, m: nat)
    requires s.Valid() && WholeClusters(s.disk) && 0 < |s.disk| <= MAX_CLUSTERS && s.bitmap.Used()[0]
    requires from < |data| && forall i :: 0 <= i < |data| ==> 0 < data[i] < MAX_CLUSTERS
    requires ReservedUsed(s.reserved, s.bitmap.Used())
    modifies s`disk, s.bitmap.buffer
    ensures s.Valid() && WholeClusters(s.disk) && (status == Ok || status == NoSpace)
    ensures OnlyFreeChanged(old(s.disk), old(s.bitmap.Used()), s.disk, s.bitmap.Used())
    ensures status == Ok ==>
              && m == Min(|data| - from, Width(d)) && root < MAX_CLUSTERS
              && Tree(s.disk, old(s.bitmap.Used()), s.bitmap.Used(), root, d, data[from..from + m])
    ensures var needed := ForestClusters(d, Min(|data| - from, Width(d)));
            && (status == Ok <==> needed <= FreeClusters(old(s.bitmap.Used())))
            && FreeClusters(s.bitmap.Used()) == if status == Ok then FreeClusters(old(s.bitmap.Used())) - needed else 0
    decreases d
  {
    hide Image, Tree, Width, Flags, FreeClusters, ForestClusters;
    ghost var disk0, used0 := s.disk, s.bitmap.Used();
    if d == 0 {
      DataTree(s.disk, used0, data[from]);
      WidthZero();
      NoForest(1);
      assert data[from..from + 1] == [data[from]];
      return Ok, data[from], 1;
    }
    OneTree(d, Min(|data| - from, Width(d)));
    EmptyForest(d - 1);
    status, root := TakeFree(s);
    if status != Ok {
      return status, 0, 0;
    }
    var buffer := ZeroCluster();
    EmptyTree(disk0[root := buffer], used0, root, d);
    m := 0;
    var i := 0;
    AllPointersZero();
    assert data[from..from + 0] == [];
    while from + m < |data| && i < POINTERS_PER_CLUSTER
      invariant s.Valid() && WholeClusters(s.disk) && IsCluster(buffer) && i <= POINTERS_PER_CLUSTER
      invariant OnlyFreeChanged(disk0, used0, s.disk, s.bitmap.Used())
      invariant ReservedUsed(s.reserved, s.bitmap.Used())
      invariant s.reserved <= root < |s.disk| && s.bitmap.Used()[root]
      invariant forall j :: i <= j < POINTERS_PER_CLUSTER ==> Ptr(buffer, j) == 0
      invariant m == Min(|data| - from, i * Width(d - 1)) <= Min(|data| - from, Width(d))
      invariant FreeClusters(used0) == FreeClusters(s.bitmap.Used()) + 1 + ForestClusters(d - 1, m)
      invariant Tree(s.disk[root := buffer], used0, s.bitmap.Used(), root, d, data[from..from + m])
      decreases POINTERS_PER_CLUSTER - i
    {
      ghost var disk1, used1 := s.disk, s.bitmap.Used();
      var child, n;
      NextTree(d, i, m, |data| - from);
      status, child, n := BuildTree(s, d - 1, data, from + m);
      OnlyFreeChangedTransitive(disk0, used0, disk1, used1, s.disk, s.bitmap.Used());
      ReservedStays(disk1, used1, s.disk, s.bitmap.Used(), s.reserved);
      if status != Ok {
        return status, 0, 0;
      }
      ConsumedStep(|data| - from, i, Width(d - 1), m, n);
      Graft(disk1, s.disk, used0, used1, s.bitmap.Used(), root, buffer, i, child, d,
            data[from..from + m], data[from + m..from + m + n]);
      assert data[from..from + m] + data[from + m..from + m + n] == data[from..from + (m + n)];
      OtherPointersStay(buffer, i, child);
      buffer := SetPtr(buffer, i, child);
      m, i := m + n, i + 1;
    }
    WidthStep(d, i, m, |data| - from);
    DataWriteKeepsImage(s.disk, s.table, s.dirty, s.super, s.reserved, root, buffer);
    s.disk := s.disk[root := buffer];
    return Ok, root, m;
  }

  lemma NoForest(n: nat)
    ensures ForestClusters(0, n) == 0
  {
  }

  /** The next subtree of a pointer cluster: what it takes is part of what the whole takes. */
  lemma NextTree(d: nat, i: nat, m: nat, total: nat)
    requires d > 0 && i < POINTERS_PER_CLUSTER && m == Min(total, i * Width(d - 1)) < total
    ensures var n := Min(total - m, Width(d - 1));
            && m + n <= Min(total, Width(d))
            && ForestClusters(d - 1, m) + ForestClusters(d - 1, n) == ForestClusters(d - 1, m + n)
            && ForestClusters(d - 1, m + n) <= ForestClusters(d - 1, Min(total, Width(d)))
  {
    var w := Width(d - 1);
    var n := Min(total - m, w);
    assert Width(d) == POINTERS_PER_CLUSTER * w;
    hide ForestClusters, Width;
    MulMonotone(i + 1, POINTERS_PER_CLUSTER, w);
    assert (i + 1) * w == i * w + w;
    ForestAfter(d - 1, i, n);
    ForestMonotone(d - 1, m + n, Min(total, Width(d)));
  }

  lemma WidthZero()
    ensures Width(0) == 1
  {
  }

  lemma WidthStep(d: nat, i: nat, m: nat, total: nat)
    requires d > 0 && i <= POINTERS_PER_CLUSTER && m == Min(total, i * Width(d - 1))
    requires m == total || i == POINTERS_PER_CLUSTER
    ensures m == Min(total, Width(d))
  {
    MulMonotone(i, POINTERS_PER_CLUSTER, Width(d - 1));
  }

  lemma AllPointersZero()
    ensures forall j :: 0 <= j < POINTERS_PER_CLUSTER ==> Ptr(ZeroCluster(), j) == 0
  {
    forall j | 0 <= j < POINTERS_PER_CLUSTER ensures Ptr(ZeroCluster(), j) == 0 {
      ZeroPtr(j);
    }
  }

  lemma OtherPointersStay(c: Cluster, i: nat, v: nat)
    requires IsCluster(c) && i < POINTERS_PER_CLUSTER && v < MAX_CLUSTERS
    ensures forall j :: i < j < POINTERS_PER_CLUSTER ==> Ptr(SetPtr(c, i, v), j) == Ptr(c, j)
  {
    forall j | i < j < POINTERS_PER_CLUSTER ensures Ptr(SetPtr(c, i, v), j) == Ptr(c, j) {
      SetPtrFacts(c, i, v, j);
    }
  }

  // ----- All pointers of an inode -----

  /** Fills pointer k with a tree over the clusters from m on. */
  method BuildSlot(s: Storage, ino: Inode, data: seq<nat>, k: nat, m: nat, ghost disk0: seq<Cluster>,
                   ghost used0: seq<bool>)
    returns (status: Status, ino': Inode, m': nat)
    requires s.Valid() && WholeClusters(s.disk) && 0 < |s.disk| <= MAX_CLUSTERS && InodeOk(ino)
    requires |used0| > 0 && used0[0] && OnlyFreeChanged(disk0, used0, s.disk, s.bitmap.Used())
    requires m < |data| && k < SLOT_COUNT && m == SlotStart(k) && Pointer(ino, k) == 0
    requires forall i :: 0 <= i < |data| ==> 0 < data[i] < MAX_CLUSTERS
    requires ReservedUsed(s.reserved, s.bitmap.Used())
    requires Rebuilt(s.disk, used0, s.bitmap.Used(), ino, data[..m])
    modifies s`disk, s.bitmap.buffer
    ensures s.Valid() && WholeClusters(s.disk) && (status == Ok || status == NoSpace)
    ensures OnlyFreeChanged(disk0, used0, s.disk, s.bitmap.Used())
    ensures status == Ok ==>
              && InodeOk(ino') && (exists c: nat :: ino' == SetPointer(ino, k, c))
              && m' == m + Min(|data| - m, Width(SlotDepth(k)))
              && Rebuilt(s.disk, used0, s.bitmap.Used(), ino', data[..m'])
    ensures var needed := ForestClusters(SlotDepth(k), Min(|data| - m, Width(SlotDepth(k))));
            && (status == Ok <==> needed <= FreeClusters(old(s.bitmap.Used())))
            && FreeClusters(s.bitmap.Used()) == if status == Ok then FreeClusters(old(s.bitmap.Used())) - needed else 0
  {
    hide Image, Tree, Width, Flags, Rebuilt, SetPointer, Pointer, FreeClusters, ForestClusters;
    ghost var disk1, used1 := s.disk, s.bitmap.Used();
    var root, n;
    status, root, n := BuildTree(s, SlotDepth(k), data, m);
    OnlyFreeChangedTransitive(disk0, used0, disk1, used1, s.disk, s.bitmap.Used());
    if status != Ok {
      return status, ino, m;
    }
    AddPointer(disk1, s.disk, used0, used1, s.bitmap.Used(), ino, k, root, data[..m], data[m..m + n]);
    assert data[..m] + data[m..m + n] == data[..m + n];
    return Ok, SetPointer(ino, k, root), m + n;
  }

  /** The inode without its pointers. */
  function Cleared(ino: Inode): (ino': Inode)
    ensures NoPointers(ino') && ino'.id == ino.id
  {
    ino.(directClusters := seq(DIRECT_POINTERS, _ => 0), singleIndirect := 0, doubleIndirect := 0, tripleIndirect := 0)
  }

  /** Points the inode at the clusters of data, in order. */
  method RebuildPointers(s: Storage, ino: Inode, data: seq<nat>) returns (status: Status, ino': Inode)
    requires s.Valid() && WholeClusters(s.disk) && 0 < |s.disk| <= MAX_CLUSTERS && s.bitmap.Used()[0]
    requires |data| <= MAX_FILE_CLUSTERS && forall i :: 0 <= i < |data| ==> 0 < data[i] < MAX_CLUSTERS
    requires ReservedUsed(s.reserved, s.bitmap.Used())
    modifies s`disk, s.bitmap.buffer
    ensures s.Valid() && WholeClusters(s.disk) && (status == Ok || status == NoSpace)
    ensures OnlyFreeChanged(old(s.disk), old(s.bitmap.Used()), s.disk, s.bitmap.Used())
    ensures status == Ok ==>
              && InodeOk(ino')
              && ino' == ino.(directClusters := ino'.directClusters, singleIndirect := ino'.singleIndirect,
                              doubleIndirect := ino'.doubleIndirect, tripleIndirect := ino'.tripleIndirect,
                              clusterCount := |data|)
              && Rebuilt(s.disk, old(s.bitmap.Used()), s.bitmap.Used(), ino', data)
    ensures status == Ok <==> PointerClusters(|data|) <= FreeClusters(old(s.bitmap.Used()))
    ensures FreeClusters(s.bitmap.Used()) ==
            if status == Ok then FreeClusters(old(s.bitmap.Used())) - PointerClusters(|data|) else 0
  {
    hide Image, Tree, Width, Flags, Rebuilt, FreeClusters, ForestClusters, PointerClusters, SlotStart, SlotDepth;
    ghost var disk0, used0 := s.disk, s.bitmap.Used();
    ino' := Cleared(ino);
    NothingRebuilt(s.disk, used0, ino');
    NoPointerClusters();
    FirstSlot();
    assert data[..0] == [];
    var m := 0;
    var k := 0;
    while k < SLOT_COUNT && m < |data|
      invariant s.Valid() && WholeClusters(s.disk) && k <= SLOT_COUNT
      invariant OnlyFreeChanged(disk0, used0, s.disk, s.bitmap.Used())
      invariant ino' == ino.(directClusters := ino'.directClusters, singleIndirect := ino'.singleIndirect,
                             doubleIndirect := ino'.doubleIndirect, tripleIndirect := ino'.tripleIndirect)
      invariant InodeOk(ino') && forall j :: k <= j < SLOT_COUNT ==> Pointer(ino', j) == 0
      invariant m == Min(|data|, if k < SLOT_COUNT then SlotStart(k) else MAX_FILE_CLUSTERS)
      invariant FreeClusters(used0) == FreeClusters(s.bitmap.Used()) + PointerClusters(m)
      invariant Rebuilt(s.disk, used0, s.bitmap.Used(), ino', data[..m])
      decreases SLOT_COUNT - k
    {
      ReservedStays(disk0, used0, s.disk, s.bitmap.Used(), s.reserved);
      NextSlot(k, |data|);
      status, ino', m := BuildSlot(s, ino', data, k, m, disk0, used0);
      if status != Ok {
        return;
      }
      SlotEnds(k);
      k := k + 1;
    }
    assert data[..m] == data;
    RebuiltCount(s.disk, used0, s.bitmap.Used(), ino', data);
    return Ok, ino'.(clusterCount := |data|);
  }

  lemma FirstSlot()
    ensures SlotStart(0) == 0
  {
  }

  /** What the tree at the next pointer takes is part of what all pointers take. */
  lemma NextSlot(k: nat, total: nat)
    requires k < SLOT_COUNT && SlotStart(k) < total
    ensures var m, n := SlotStart(k), Min(total - SlotStart(k), Width(SlotDepth(k)));
            && PointerClusters(m) + ForestClusters(SlotDepth(k), n) == PointerClusters(m + n) <= PointerClusters(total)
  {
    hide PointerClusters, ForestClusters, Width, SlotStart, SlotDepth;
    var m, n := SlotStart(k), Min(total - SlotStart(k), Width(SlotDepth(k)));
    SlotAdds(k, n);
    PointersMonotone(m + n, total);
  }

  lemma RebuiltCount(disk: seq<Cluster>, used0: seq<bool>, used: seq<bool>, ino: Inode, data: seq<nat>)
    requires Rebuilt(disk, used0, used, ino, data)
    ensures Rebuilt(disk, used0, used, ino.(clusterCount := |data|), data)
  {
    assert SamePointers(ino, ino.(clusterCount := |data|));
  }

  // ----- Moving one file -----

  /** The file's first n clusters lie in a row on disk. */
  ghost predicate Consecutive(disk: seq<Cluster>, ino: Inode, n: nat, start: nat)
    requires InodeOk(ino)
  {
    forall l :: 0 <= l < n ==> Lookup(disk, ino, l) == start + l
  }

  function Run(start: nat, n: nat): (run: seq<nat>)
    ensures |run| == n && forall i :: 0 <= i < n ==> run[i] == start + i
  {
    seq(n, i requires 0 <= i => start + i)
  }

  ghost predicate RunMarked(used: seq<bool>, used': seq<bool>, start: nat, n: nat) {
    |used'| == |used| && forall c :: 0 <= c < |used| ==> (used'[c] <==> used[c] || start <= c < start + n)
  }

  ghost predicate RunUnmarked(used: seq<bool>, used': seq<bool>, start: nat, n: nat) {
    |used'| == |used| && forall c :: 0 <= c < |used| ==> (used'[c] <==> used[c] && !(start <= c < start + n))
  }

  ghost predicate Copied(disk: seq<Cluster>, disk': seq<Cluster>, from: seq<nat>, start: nat) {
    && |disk'| == |disk| && start + |from| <= |disk|
    && (forall i :: 0 <= i < |from| ==> from[i] < |disk| && disk'[start + i] == disk[from[i]])
    && (forall c :: 0 <= c < |disk| && !(start <= c < start + |from|) ==> disk'[c] == disk[c])
  }

  /** Marking a free run takes just its clusters. */
  lemma {:induction false} RunCount(used: seq<bool>, used': seq<bool>, start: nat, n: nat, m: nat)
    requires RunFree(used, start, n) && RunMarked(used, used', start, n) && m <= |used|
    ensures CountUsed(used', m) == CountUsed(used, m) + if m <= start then 0 else Min(m - start, n)
  {
    if m > 0 {
      RunCount(used, used', start, n, m - 1);
    }
  }

  lemma RunTakes(used: seq<bool>, used': seq<bool>, start: nat, n: nat)
    requires RunFree(used, start, n) && RunMarked(used, used', start, n)
    ensures FreeClusters(used) == FreeClusters(used') + n
  {
    RunCount(used, used', start, n, |used|);
  }

  /** With every other cluster taken, giving the run back leaves just the run free. */
  lemma OnlyRunFree(used: seq<bool>, used': seq<bool>, start: nat, n: nat)
    requires start + n <= |used| && RunUnmarked(used, used', start, n) && FreeClusters(used) == 0
    ensures forall c :: 0 <= c < |used'| ==> (used'[c] <==> !(start <= c < start + n))
    ensures FreeClusters(used') == n
  {
    FullCount(used, |used|);
    RunTakes(used', used, start, n);
  }

  method MarkRun(s: Storage, start: nat, n: nat)
    requires s.Valid() && start + n <= |s.disk|
    modifies s.bitmap.buffer
    ensures s.Valid() && RunMarked(old(s.bitmap.Used()), s.bitmap.Used(), start, n)
  {
    hide Image, Flags;
    for i := 0 to n
      invariant s.Valid() && RunMarked(old(s.bitmap.Used()), s.bitmap.Used(), start, i)
    {
      var marked := s.bitmap.MarkUsed(start + i);
    }
  }

  method UnmarkRun(s: Storage, start: nat, n: nat)
    requires s.Valid() && start + n <= |s.disk|
    modifies s.bitmap.buffer
    ensures s.Valid() && RunUnmarked(old(s.bitmap.Used()), s.bitmap.Used(), start, n)
  {
    hide Image, Flags;
    for i := 0 to n
      invariant s.Valid() && RunUnmarked(old(s.bitmap.Used()), s.bitmap.Used(), start, i)
    {
      var freed := s.bitmap.MarkFree(start + i);
    }
  }

  method CopyClusters(s: Storage, from: seq<nat>, start: nat)
    requires s.Valid() && s.reserved <= start && start + |from| <= |s.disk|
    requires forall i :: 0 <= i < |from| ==> from[i] < |s.disk| && !(start <= from[i] < start + |from|)
    modifies s`disk
    ensures s.Valid() && Copied(old(s.disk), s.disk, from, start)
  {
    hide Image;
    for i := 0 to |from|
      invariant s.Valid() && Copied(old(s.disk), s.disk, from[..i], start)
    {
      var buffer := s.disk[from[i]];
      DataWriteKeepsImage(s.disk, s.table, s.dirty, s.super, s.reserved, start + i, buffer);
      s.disk := s.disk[start + i := buffer];
      assert from[..i + 1] == from[..i] + [from[i]];
    }
    assert from[..|from|] == from;
  }

  /** The clusters of the file, as long as every one of them is mapped. */
  method ResolveAll(s: Storage, ino: Inode, n: nat) returns (status: Status, clusters: seq<nat>)
    requires s.Valid() && InodeOk(ino) && ino.id < |s.table| && n <= MAX_FILE_CLUSTERS && Sound(s.With(ino))
    modifies s`disk, s.bitmap.buffer
    ensures s.Valid() && s.disk == old(s.disk) && s.bitmap.Used() == old(s.bitmap.Used())
    ensures status == Ok ==> |clusters| == n && forall l :: 0 <= l < n ==> clusters[l] == Lookup(s.disk, ino, l) != 0
    ensures status != Ok ==> exists l :: 0 <= l < n && Lookup(s.disk, ino, l) == 0
  {
    hide Image, Sound, Grew, Lookup, TableRoots, Flags;
    clusters := [];
    for i := 0 to n
      invariant s.Valid() && s.disk == old(s.disk) && s.bitmap.Used() == old(s.bitmap.Used())
      invariant |clusters| == i && forall l :: 0 <= l < i ==> clusters[l] == Lookup(s.disk, ino, l) != 0
    {
      var ino', physical;
      status, ino', physical := s.ResolveCluster(ino, i, false);
      if status != Ok {
        return status, [];
      }
      clusters := clusters + [physical];
    }
    return Ok, clusters;
  }

  lemma CopiedIsFresh(disk: seq<Cluster>, used: seq<bool>, disk': seq<Cluster>, used': seq<bool>, from: seq<nat>,
                      start: nat)
    requires RunFree(used, start, |from|) && Copied(disk, disk', from, start) && RunMarked(used, used', start, |from|)
    requires |disk| == |used| && WholeClusters(disk)
    ensures OnlyFreeChanged(disk, used, disk', used') && WholeClusters(disk')
    ensures TakenOnce(used, used', Run(start, |from|)) && AllTakenAreListed(used, used', Run(start, |from|))
  {
    forall c: nat | NewlyUsed(used, used', c) ensures c in Run(start, |from|) {
      assert Run(start, |from|)[c - start] == c;
    }
    forall c | 0 <= c < |disk'| ensures IsCluster(disk'[c]) {
      if start <= c < start + |from| {
        assert disk'[start + (c - start)] == disk[from[c - start]];
      }
    }
  }

  lemma UnmarkedIsFresh(disk: seq<Cluster>, used: seq<bool>, disk': seq<Cluster>, used1: seq<bool>, used2: seq<bool>,
                        start: nat, n: nat)
    requires RunFree(used, start, n) && OnlyFreeChanged(disk, used, disk', used1) && RunUnmarked(used1, used2, start, n)
    ensures OnlyFreeChanged(disk, used, disk', used2)
  {
  }

  /** The moved file reads the same, and its clusters lie in a row. */
  lemma MovedFile(v: Volume, disk1: seq<Cluster>, used1: seq<bool>, disk2: seq<Cluster>, used2: seq<bool>,
                  table: seq<Inode>, id: nat, ino: Inode, before: seq<nat>, start: nat)
    requires Sound(v) && OfTable(v, table) && id < |table| && |before| <= MAX_FILE_CLUSTERS && InodeOk(ino)
    requires forall l :: 0 <= l < |before| ==> before[l] == Lookup(v.disk, table[id], l) != 0
    requires Copied(v.disk, disk1, before, start) && RunMarked(v.used, used1, start, |before|) && start > 0
    requires OnlyFreeChanged(disk1, used1, disk2, used2) && Rebuilt(disk2, used1, used2, ino, Run(start, |before|))
    ensures Consecutive(disk2, ino, |before|, start)
    ensures forall l :: |before| <= l < MAX_FILE_CLUSTERS ==> Lookup(disk2, ino, l) == 0
    ensures forall l :: 0 <= l < |before| ==> ViewOf(disk2, ino, l) == ViewOf(v.disk, table[id], l)
  {
    hide Rebuilt, Lookup, Sound, TableRoots;
    forall l | 0 <= l < MAX_FILE_CLUSTERS
      ensures Lookup(disk2, ino, l) == if l < |before| then start + l else 0
      ensures l < |before| ==> ViewOf(disk2, ino, l) == ViewOf(v.disk, table[id], l)
    {
      RebuiltLookup(disk2, used1, used2, ino, Run(start, |before|), l);
      LookupInRange(v, table, id, l);
      if l < |before| {
        assert disk1[start + l] == v.disk[before[l]] && used1[start + l];
      }
    }
  }

  /** Before the move: the run exists and is clear of the file's clusters. */
  lemma RunIsClear(v: Volume, table: seq<Inode>, id: nat, clusters: seq<nat>, start: nat)
    requires Sound(v) && OfTable(v, table) && id < |table| && |clusters| <= MAX_FILE_CLUSTERS
    requires forall l :: 0 <= l < |clusters| ==> clusters[l] == Lookup(v.disk, table[id], l) != 0
    requires RunFree(v.used, start, |clusters|) && |clusters| > 0
    ensures 0 < start && v.reserved <= start && start + |clusters| <= |v.disk| == |v.used| <= MAX_CLUSTERS
    ensures WholeClusters(v.disk) && v.used[0] && ReservedUsed(v.reserved, v.used)
    ensures forall i :: 0 <= i < |clusters| ==>
              clusters[i] < |v.disk| && !(start <= clusters[i] < start + |clusters|)
  {
    assert v.used[0] && !v.used[start];
    forall l | 0 <= l < |clusters|
      ensures clusters[l] < |v.disk| && !(start <= clusters[l] < start + |clusters|)
    {
      LookupPosition(table, id, l);
      LookupIsOwned(v.disk, table, id, l);
      SoundAt(v, Slot(id, SlotFor(l)), PathFor(l));
    }
  }

  /** After the copy: everything the pointer builder asks for. */
  lemma ReadyToRebuild(disk: seq<Cluster>, used: seq<bool>, disk': seq<Cluster>, used': seq<bool>, start: nat, n: nat)
    requires OnlyFreeChanged(disk, used, disk', used') && WholeClusters(disk')
    requires 0 < start && start + n <= |disk| <= MAX_CLUSTERS && n > 0 && used[0]
    ensures 0 < |disk'| <= MAX_CLUSTERS && used'[0]
    ensures forall i :: 0 <= i < n ==> 0 < Run(start, n)[i] < MAX_CLUSTERS
  {
  }

  lemma MoveIsReplacement(v: Volume, disk1: seq<Cluster>, used1: seq<bool>, disk2: seq<Cluster>, used2: seq<bool>,
                          used3: seq<bool>, table: seq<Inode>, id: nat, ino: Inode, data: seq<nat>)
    requires Sound(v) && OfTable(v, table) && id < |table| && InodeOk(ino) && ino.id == id
    requires OnlyFreeChanged(v.disk, v.used, disk1, used1) && OnlyFreeChanged(disk1, used1, disk2, used2)
    requires WholeClusters(disk2) && TakenOnce(v.used, used1, data) && Rebuilt(disk2, used1, used2, ino, data)
    requires Truncated(v.(disk := disk2, used := used2), id, used2, used3)
    requires AllTakenAreListed(v.used, used1, data) && |data| <= MAX_FILE_CLUSTERS
    requires forall i :: 0 <= i < |data| ==> data[i] != 0
    ensures TableOk(table[id := ino]) && Sound(Volume(disk2, used3, TableRoots(table[id := ino]), v.reserved))
    ensures OthersKept(v.disk, disk2, table, table[id := ino], id)
    ensures Occupies(Volume(disk2, used3, TableRoots(table[id := ino]), v.reserved), id, |data|)
    ensures CountUsed(used3, |used3|) + |ClustersOf(v, id)| == CountUsed(v.used, |v.used|) + |data| + PointerClusters(|data|)
  {
    OnlyFreeChangedTransitive(v.disk, v.used, disk1, used1, disk2, used2);
    ReplacedSound(v, disk2, used1, used2, used3, table, id, ino, data);
    RebuiltOccupies(Volume(disk2, used3, TableRoots(table[id := ino]), v.reserved), table[id := ino], id, used1, used2,
                    data);
    MoveCount(v, disk2, used1, used2, used3, table, id, ino, data);
    hide Sound, TableRoots;
    SettledOthers(v, disk2, used2, table, table[id := ino], id);
  }

  lemma MoveAbandoned(v: Volume, disk2: seq<Cluster>, used2: seq<bool>, used3: seq<bool>, table: seq<Inode>, id: nat,
                      start: nat, n: nat)
    requires Sound(v) && OfTable(v, table) && id < |table| && RunFree(v.used, start, n)
    requires OnlyFreeChanged(v.disk, v.used, disk2, used2) && WholeClusters(disk2) && RunUnmarked(used2, used3, start, n)
    ensures Sound(v.(disk := disk2, used := used3)) && SameOwned(v, v.(disk := disk2, used := used3))
    ensures OthersKept(v.disk, disk2, table, table, id) && SameFile(v.disk, disk2, table[id], table[id])
  {
    UnmarkedIsFresh(v.disk, v.used, disk2, used2, used3, start, n);
    SettledSound(v, disk2, used3);
    SettledOthers(v, disk2, used3, table, table, id);
    SettledFile(v, disk2, used3, table, id);
  }

  /** Equal views of the clusters a size needs make equal contents. */
  lemma ViewsMakeContent(disk: seq<Cluster>, disk': seq<Cluster>, ino: Inode, ino': Inode)
    requires WellStored(disk, ino) && InodeOk(ino') && ino'.size == ino.size && ino'.clusterCount == ino.clusterCount
    requires forall l :: 0 <= l < ino.clusterCount ==> ViewOf(disk', ino', l) == ViewOf(disk, ino, l)
    ensures WellStored(disk', ino') && Content(disk', ino') == Content(disk, ino)
  {
    hide ViewOf;
    forall k: nat | k < ino.size ensures ByteAt(disk', ino', k) == ByteAt(disk, ino, k) {
      ClusterBounds(ino.size);
      assert k / CLUSTER_SIZE < ino.clusterCount;
    }
  }

  method IsContiguous(clusters: seq<nat>) returns (contiguous: bool)
    requires |clusters| > 1
    ensures contiguous <==> forall i :: 0 < i < |clusters| ==> clusters[i] == clusters[i - 1] + 1
  {
    for i := 1 to |clusters|
      invariant forall j :: 0 < j < i ==> clusters[j] == clusters[j - 1] + 1
    {
      if clusters[i] != clusters[i - 1] + 1 {
        return false;
      }
    }
    return true;
  }

  lemma FileUnchanged(disk: seq<Cluster>, ino: Inode)
    requires InodeOk(ino)
    ensures SameFile(disk, disk, ino, ino)
  {
  }

  lemma MovedContent(disk: seq<Cluster>, disk': seq<Cluster>, ino: Inode, ino': Inode)
    requires InodeOk(ino) && InodeOk(ino') && ino'.size == ino.size && ino'.clusterCount == ino.clusterCount
    requires forall l :: 0 <= l < ino.clusterCount ==> ViewOf(disk', ino', l) == ViewOf(disk, ino, l)
    ensures WellStored(disk, ino) ==> WellStored(disk', ino') && Content(disk', ino') == Content(disk, ino)
  {
    if WellStored(disk, ino) {
      ViewsMakeContent(disk, disk', ino, ino');
    }
  }

  lemma UnmovedContent(disk: seq<Cluster>, disk': seq<Cluster>, ino: Inode)
    requires InodeOk(ino) && SameFile(disk, disk', ino, ino)
    ensures WellStored(disk, ino) ==> WellStored(disk', ino) && Content(disk', ino) == Content(disk, ino)
  {
    if WellStored(disk, ino) {
      SameContent(disk, disk', ino, ino);
    }
  }

  lemma OccupiedCountOf(v: Volume, table: seq<Inode>, id: nat, n: nat)
    requires Sound(v) && OfTable(v, table) && id < |table| && n <= MAX_FILE_CLUSTERS
    ensures Occupies(v, id, n) ==> |ClustersOf(v, id)| == n + PointerClusters(n)
  {
    hide Occupies, Sound, TableRoots, ClustersOf, PointerClusters;
    if Occupies(v, id, n) {
      OccupiedCount(v, table, id, n);
    }
  }

  /** There is room for n clusters in a row. */
  ghost predicate RunFreeSomewhere(used: seq<bool>, n: nat) {
    exists start: nat :: RunFree(used, start, n)
  }

  ghost predicate IsConsecutive(disk: seq<Cluster>, ino: Inode, n: nat)
    requires InodeOk(ino)
  {
    exists start: nat :: Consecutive(disk, ino, n, start)
  }

  /** A file in use of at least two clusters, all mapped and not in a row, while as many free ones lie in a row. */
  ghost predicate Scattered(v: Volume, table: seq<Inode>, id: nat)
    requires TableOk(table)
  {
    && id < |table| && table[id].isUsed && table[id].kind == Regular && table[id].size > 0 && table[id].clusterCount > 1
    && (forall l :: 0 <= l < table[id].clusterCount ==> Lookup(v.disk, table[id], l) != 0)
    && !IsConsecutive(v.disk, table[id], table[id].clusterCount)
    && RunFreeSomewhere(v.used, table[id].clusterCount)
  }

  /** What this means for the pointers and the bitmap. */
  lemma ScatteredMeans(v: Volume, table: seq<Inode>, id: nat)
    requires TableOk(table)
    ensures Scattered(v, table, id) <==>
            && id < |table| && table[id].isUsed && table[id].kind == Regular && table[id].size > 0
            && table[id].clusterCount >= 2
            && (forall l :: 0 <= l < table[id].clusterCount ==> Lookup(v.disk, table[id], l) != 0)
            && (exists l :: 0 < l < table[id].clusterCount && Lookup(v.disk, table[id], l) != Lookup(v.disk, table[id], l - 1) + 1)
            && (exists s: nat, e: nat :: s <= e <= |v.used| && e - s == table[id].clusterCount && true !in v.used[s..e])
  {
    hide Lookup;
    if id < |table| && table[id].clusterCount >= 2 {
      InARowOrNot(v.disk, table[id], table[id].clusterCount);
      FreeSomewhere(v.used, table[id].clusterCount);
    }
  }

  lemma InARowOrNot(disk: seq<Cluster>, ino: Inode, n: nat)
    requires InodeOk(ino) && n >= 2
    ensures IsConsecutive(disk, ino, n) <==> forall l :: 0 < l < n ==> Lookup(disk, ino, l) == Lookup(disk, ino, l - 1) + 1
  {
    hide Lookup;
    var clusters := seq(n, l requires 0 <= l < n => Lookup(disk, ino, l));
    ContiguousIsConsecutive(disk, ino, clusters);
    assert (forall i :: 0 < i < |clusters| ==> clusters[i] == clusters[i - 1] + 1) <==>
           (forall l :: 0 < l < n ==> Lookup(disk, ino, l) == Lookup(disk, ino, l - 1) + 1) by {
      if forall l :: 0 < l < n ==> Lookup(disk, ino, l) == Lookup(disk, ino, l - 1) + 1 {
        forall i | 0 < i < |clusters| ensures clusters[i] == clusters[i - 1] + 1 {
          assert Lookup(disk, ino, i) == Lookup(disk, ino, i - 1) + 1;
        }
      }
      if forall i :: 0 < i < |clusters| ==> clusters[i] == clusters[i - 1] + 1 {
        forall l | 0 < l < n ensures Lookup(disk, ino, l) == Lookup(disk, ino, l - 1) + 1 {
          assert clusters[l] == clusters[l - 1] + 1;
        }
      }
    }
  }

  lemma FreeSomewhere(used: seq<bool>, n: nat)
    ensures RunFreeSomewhere(used, n) <==> exists s: nat, e: nat :: s <= e <= |used| && e - s == n && true !in used[s..e]
  {
    if exists s: nat, e: nat :: s <= e <= |used| && e - s == n && true !in used[s..e] {
      var s: nat, e: nat :| s <= e <= |used| && e - s == n && true !in used[s..e];
      RunIsPiece(used, s, n);
    }
    if RunFreeSomewhere(used, n) {
      var start: nat :| RunFree(used, start, n);
      RunIsPiece(used, start, n);
      assert true !in used[start..start + n];
    }
  }

  lemma {:induction false} InARow(clusters: seq<nat>, n: nat)
    requires 0 < n <= |clusters| && forall i :: 0 < i < |clusters| ==> clusters[i] == clusters[i - 1] + 1
    ensures forall i :: 0 <= i < n ==> clusters[i] == clusters[0] + i
  {
    if n > 1 {
      InARow(clusters, n - 1);
      assert clusters[n - 1] == clusters[n - 2] + 1;
    }
  }

  lemma ContiguousIsConsecutive(disk: seq<Cluster>, ino: Inode, clusters: seq<nat>)
    requires InodeOk(ino) && |clusters| > 1 && forall l :: 0 <= l < |clusters| ==> clusters[l] == Lookup(disk, ino, l)
    ensures (forall i :: 0 < i < |clusters| ==> clusters[i] == clusters[i - 1] + 1) <==> IsConsecutive(disk, ino, |clusters|)
  {
    hide Lookup;
    if forall i :: 0 < i < |clusters| ==> clusters[i] == clusters[i - 1] + 1 {
      InARow(clusters, |clusters|);
      assert Consecutive(disk, ino, |clusters|, clusters[0]);
    }
    if IsConsecutive(disk, ino, |clusters|) {
      var start: nat :| Consecutive(disk, ino, |clusters|, start);
      forall i | 0 < i < |clusters| ensures clusters[i] == clusters[i - 1] + 1 {
        assert Lookup(disk, ino, i) == start + i && Lookup(disk, ino, i - 1) == start + (i - 1);
      }
    }
  }

  lemma OnlyRunIsRun(used: seq<bool>, start: nat, n: nat)
    requires start + n <= |used| && forall c :: 0 <= c < |used| ==> (used[c] <==> !(start <= c < start + n))
    ensures RunFreeSomewhere(used, n)
  {
    assert RunFree(used, start, n);
  }

  lemma NowhereFree(used: seq<bool>, n: nat)
    requires forall s: nat :: !RunFree(used, s, n)
    ensures !RunFreeSomewhere(used, n)
  {
  }

  lemma SomewhereFree(used: seq<bool>, start: nat, n: nat)
    requires RunFree(used, start, n)
    ensures RunFreeSomewhere(used, n) && start + n <= |used|
  {
  }

  /** A file that is looked at to the end: a short one, one that lies in a row, or one that was moved. */
  ghost predicate Counted(disk: seq<Cluster>, table: seq<Inode>, id: nat, moved: bool)
    requires TableOk(table)
  {
    && id < |table| && table[id].isUsed && table[id].kind == Regular && table[id].size > 0
    && (table[id].clusterCount <= 1 || moved
        || ((forall l :: 0 <= l < table[id].clusterCount ==> Lookup(disk, table[id], l) != 0)
            && IsConsecutive(disk, table[id], table[id].clusterCount)))
  }

  /** What this means for the pointers. */
  lemma CountedMeans(disk: seq<Cluster>, table: seq<Inode>, id: nat, moved: bool)
    requires TableOk(table)
    ensures Counted(disk, table, id, moved) <==>
            && id < |table| && table[id].isUsed && table[id].kind == Regular && table[id].size > 0
            && (table[id].clusterCount <= 1 || moved
                || ((forall l :: 0 <= l < table[id].clusterCount ==> Lookup(disk, table[id], l) != 0)
                    && (forall l :: 0 < l < table[id].clusterCount ==>
                          Lookup(disk, table[id], l) == Lookup(disk, table[id], l - 1) + 1)))
  {
    hide Lookup;
    if id < |table| && table[id].clusterCount >= 2 {
      InARowOrNot(disk, table[id], table[id].clusterCount);
    }
  }

  lemma ConsecutiveFrom(disk: seq<Cluster>, ino: Inode, n: nat, start: nat)
    requires InodeOk(ino) && Consecutive(disk, ino, n, start)
    ensures n > 0 ==> Lookup(disk, ino, 0) == start && forall l :: 0 <= l < n ==> Lookup(disk, ino, l) == start + l
  {
    hide Lookup;
  }

  class Defragmenter {
    const storage: Storage
    var filesProcessed: nat
    var clustersMoved: nat
    var totalClustersUsed: nat
    var highestUsedCluster: nat

    constructor (s: Storage)
      ensures storage == s && filesProcessed == 0 && clustersMoved == 0
    {
      storage := s;
      filesProcessed, clustersMoved, totalClustersUsed, highestUsedCluster := 0, 0, 0, 0;
    }

    method CountFile(n: nat, last: nat, moved: nat)
      modifies this
      ensures filesProcessed == old(filesProcessed) + 1 && clustersMoved == old(clustersMoved) + moved
      ensures totalClustersUsed == old(totalClustersUsed) + n
      ensures highestUsedCluster == if last > old(highestUsedCluster) then last else old(highestUsedCluster)
    {
      filesProcessed := filesProcessed + 1;
      clustersMoved := clustersMoved + moved;
      totalClustersUsed := totalClustersUsed + n;
      if last > highestUsedCluster {
        highestUsedCluster := last;
      }
    }

    /** The copy and the new pointers; on a full disk the run is given back and the file is left alone. */
    method MoveTo(id: nat, clusters: seq<nat>, start: nat) returns (moved: bool)
      requires storage.Valid() && Sound(storage.Vol(TableRoots(storage.table)))
      requires id < |storage.table| && |clusters| == storage.table[id].clusterCount <= MAX_FILE_CLUSTERS
      requires forall l :: 0 <= l < |clusters| ==> clusters[l] == Lookup(storage.disk, storage.table[id], l) != 0
      requires RunFree(storage.bitmap.Used(), start, |clusters|) && |clusters| > 0
      modifies storage`disk, storage`table, storage`dirty, storage.bitmap.buffer
      ensures storage.Valid() && Sound(storage.Vol(TableRoots(storage.table)))
      ensures OthersKept(old(storage.disk), storage.disk, old(storage.table), storage.table, id)
      ensures |storage.table| == |old(storage.table)|
      ensures moved <==> |clusters| + PointerClusters(|clusters|) <= FreeClusters(old(storage.bitmap.Used()))
      ensures !moved ==>
                forall c :: 0 <= c < |storage.disk| ==> (storage.bitmap.Used()[c] <==> !(start <= c < start + |clusters|))
      ensures !moved ==> FreeClusters(storage.bitmap.Used()) == |clusters|
      ensures !moved ==> SameOwned(old(storage.Vol(TableRoots(storage.table))), storage.Vol(TableRoots(storage.table)))
      ensures moved ==> Occupies(storage.Vol(TableRoots(storage.table)), id, |clusters|)
      ensures moved ==>
                CountUsed(storage.bitmap.Used(), |storage.disk|) + |ClustersOf(old(storage.Vol(TableRoots(storage.table))), id)|
                == old(CountUsed(storage.bitmap.Used(), |storage.disk|)) + |clusters| + PointerClusters(|clusters|)
      ensures !moved ==> storage.table == old(storage.table)
                         && SameFile(old(storage.disk), storage.disk, storage.table[id], storage.table[id])
      ensures moved ==>
                var ino, ino' := old(storage.table)[id], storage.table[id];
                && ino' == ino.(directClusters := ino'.directClusters, singleIndirect := ino'.singleIndirect,
                                doubleIndirect := ino'.doubleIndirect, tripleIndirect := ino'.tripleIndirect)
                && Consecutive(storage.disk, ino', |clusters|, start)
                && (forall l :: |clusters| <= l < MAX_FILE_CLUSTERS ==> Lookup(storage.disk, ino', l) == 0)
                && (forall l :: 0 <= l < |clusters| ==> ViewOf(storage.disk, ino', l) == ViewOf(old(storage.disk), ino, l))
    {
      hide Image, Sound, TableRoots, Rebuilt, Truncated, Occupies, CountUsed, ClustersOf, PointerClusters;
      hide AllTakenAreListed, OthersKept, SameFile, OnlyFreeChanged, TakenOnce, Copied;
      hide ReservedUsed, RunMarked, RunUnmarked, RunFree, Flags, Consecutive, WholeClusters, Lookup, ViewOf;
      hide FreeClusters, SameOwned;
      ghost var v, table := storage.Vol(TableRoots(storage.table)), storage.table;
      RunIsClear(v, table, id, clusters, start);
      MarkRun(storage, start, |clusters|);
      RunTakes(v.used, storage.bitmap.Used(), start, |clusters|);
      CopyClusters(storage, clusters, start);
      ghost var disk1, used1 := storage.disk, storage.bitmap.Used();
      CopiedIsFresh(v.disk, v.used, disk1, used1, clusters, start);
      ReadyToRebuild(v.disk, v.used, disk1, used1, start, |clusters|);
      ReservedStays(v.disk, v.used, disk1, used1, storage.reserved);
      var ino := storage.table[id];
      var status, ino2 := RebuildPointers(storage, ino, Run(start, |clusters|));
      ghost var disk2, used2 := storage.disk, storage.bitmap.Used();
      OnlyFreeChangedTransitive(v.disk, v.used, disk1, used1, disk2, used2);
      if status != Ok {
        UnmarkRun(storage, start, |clusters|);
        OnlyRunFree(used2, storage.bitmap.Used(), start, |clusters|);
        MoveAbandoned(v, disk2, used2, storage.bitmap.Used(), table, id, start, |clusters|);
        return false;
      }
      SettledSound(v, disk2, used2);
      SameEntry(table, id);
      var ino1;
      status, ino1 := storage.TruncateFile(ino);
      ino1 := ino1.(directClusters := ino2.directClusters, singleIndirect := ino2.singleIndirect,
                    doubleIndirect := ino2.doubleIndirect, tripleIndirect := ino2.tripleIndirect,
                    size := ino.size, clusterCount := |clusters|);
      assert ino1 == ino2;
      status := storage.WriteInode(ino1);
      assert storage.table == table[id := ino2];
      MoveIsReplacement(v, disk1, used1, disk2, used2, storage.bitmap.Used(), table, id, ino2, Run(start, |clusters|));
      MovedFile(v, disk1, used1, disk2, used2, table, id, ino2, clusters, start);
      return true;
    }

    /**
     Moves one regular file into a free run when its clusters are not already in a row. Whatever happens, the
     volume stays sound, every other file is as it was, and so is this file's content.
     */
    method ProcessInode(id: nat) returns (ghost moved: bool)
      requires storage.Valid() && Sound(storage.Vol(TableRoots(storage.table)))
      requires id < |storage.table| ==> storage.table[id].clusterCount <= MAX_FILE_CLUSTERS
      modifies this, storage`disk, storage`table, storage`dirty, storage.bitmap.buffer
      ensures storage.Valid() && Sound(storage.Vol(TableRoots(storage.table)))
      ensures OthersKept(old(storage.disk), storage.disk, old(storage.table), storage.table, id)
      ensures !moved ==> storage.table == old(storage.table)
                         && (id < |storage.table| ==>
                               SameFile(old(storage.disk), storage.disk, storage.table[id], storage.table[id]))
      ensures |storage.table| == |old(storage.table)|
      ensures moved ==>
                && id < |storage.table|
                && var ino, ino' := old(storage.table)[id], storage.table[id];
                && ino.isUsed && ino.kind == Regular
                && ino' == ino.(directClusters := ino'.directClusters, singleIndirect := ino'.singleIndirect,
                                doubleIndirect := ino'.doubleIndirect, tripleIndirect := ino'.tripleIndirect)
                && (exists start: nat :: Consecutive(storage.disk, ino', ino.clusterCount, start))
                && (forall l :: ino.clusterCount <= l < MAX_FILE_CLUSTERS ==> Lookup(storage.disk, ino', l) == 0)
      ensures id < |storage.table| == |old(storage.table)| && WellStored(old(storage.disk), old(storage.table)[id]) ==>
                && WellStored(storage.disk, storage.table[id])
                && Content(storage.disk, storage.table[id]) == Content(old(storage.disk), old(storage.table)[id])
      ensures moved ==>
                var n := old(storage.table)[id].clusterCount;
                && Occupies(storage.Vol(TableRoots(storage.table)), id, n)
                && (CountUsed(storage.bitmap.Used(), |storage.disk|) == old(CountUsed(storage.bitmap.Used(), |storage.disk|)) <==>
                      |ClustersOf(old(storage.Vol(TableRoots(storage.table))), id)| == n + PointerClusters(n))
                && (Occupies(old(storage.Vol(TableRoots(storage.table))), id, n) ==>
                      CountUsed(storage.bitmap.Used(), |storage.disk|) == old(CountUsed(storage.bitmap.Used(), |storage.disk|)))
      ensures moved <==> Scattered(old(storage.Vol(TableRoots(storage.table))), old(storage.table), id)
                         && var n := old(storage.table)[id].clusterCount;
                            n + PointerClusters(n) <= FreeClusters(old(storage.bitmap.Used()))
      ensures !moved && !Scattered(old(storage.Vol(TableRoots(storage.table))), old(storage.table), id) ==>
                storage.disk == old(storage.disk) && storage.bitmap.Used() == old(storage.bitmap.Used())
      ensures !moved && Scattered(old(storage.Vol(TableRoots(storage.table))), old(storage.table), id) ==>
                var n := old(storage.table)[id].clusterCount;
                && FreeClusters(storage.bitmap.Used()) == n && RunFreeSomewhere(storage.bitmap.Used(), n)
                && storage.table == old(storage.table)
                && SameOwned(old(storage.Vol(TableRoots(storage.table))), storage.Vol(TableRoots(storage.table)))
      ensures clustersMoved == old(clustersMoved) + (if moved then old(storage.table)[id].clusterCount else 0)
      ensures moved ==>
                var ino, used := storage.table[id], old(storage.bitmap.Used());
                var start, n := Lookup(storage.disk, ino, 0), ino.clusterCount;
                && (forall l :: 0 <= l < n ==> Lookup(storage.disk, ino, l) == start + l)
                && start + n <= |used| && true !in used[start..start + n]
                && forall s: nat, e: nat :: s < start && s <= e <= |used| && e - s == n ==> true in used[s..e]
      ensures if Counted(old(storage.disk), old(storage.table), id, moved) then
                var n := storage.table[id].clusterCount;
                var last := if n == 0 then 0 else Lookup(storage.disk, storage.table[id], n - 1);
                && filesProcessed == old(filesProcessed) + 1 && totalClustersUsed == old(totalClustersUsed) + n
                && highestUsedCluster == if last > old(highestUsedCluster) then last else old(highestUsedCluster)
              else
                && filesProcessed == old(filesProcessed) && totalClustersUsed == old(totalClustersUsed)
                && highestUsedCluster == old(highestUsedCluster)
    {
      hide Image, Sound, TableRoots, OthersKept, SameFile, RunFree, Flags, Consecutive, Lookup, ViewOf, WellStored;
      hide Content, Occupies, CountUsed, ClustersOf, PointerClusters;
      hide FreeClusters, IsConsecutive, RunFreeSomewhere, SameOwned;
      KeptNothing(storage.disk, storage.table, id);
      ghost var used0 := storage.bitmap.Used();
      moved := false;
      if id >= |storage.table| {
        return;
      }
      ghost var disk0, table0 := storage.disk, storage.table;
      FileUnchanged(disk0, table0[id]);
      var ino := storage.table[id];
      if !ino.isUsed || ino.kind != Regular || ino.size == 0 {
        return;
      }
      var n := ino.clusterCount;
      SameEntry(storage.table, id);
      if n <= 1 {
        var physical := 0;
        if n == 1 {
          var status, ino', c := storage.ResolveCluster(ino, 0, false);
          if status == Ok {
            physical := c;
          }
        }
        CountFile(n, physical, 0);
        return;
      }
      var status, clusters := ResolveAll(storage, ino, n);
      if status != Ok {
        return;
      }
      var contiguous := IsContiguous(clusters);
      ContiguousIsConsecutive(storage.disk, ino, clusters);
      if contiguous {
        CountFile(n, clusters[n - 1], 0);
        return;
      }
      var start;
      status, start := storage.bitmap.FindContiguous(n);
      if status != Ok {
        NowhereFree(storage.bitmap.Used(), n);
        return;
      }
      SomewhereFree(storage.bitmap.Used(), start, n);
      OccupiedCountOf(storage.Vol(TableRoots(storage.table)), storage.table, id, n);
      var done := MoveTo(id, clusters, start);
      if done {
        moved := true;
        ConsecutiveFrom(storage.disk, storage.table[id], n, start);
        MovedContent(disk0, storage.disk, table0[id], storage.table[id]);
        CountFile(n, start + n - 1, n);
      } else {
        UnmovedContent(disk0, storage.disk, table0[id]);
        OnlyRunIsRun(storage.bitmap.Used(), start, n);
      }
    }
  }
}
