/** Facts about single steps of the allocator: following pointers, reading and writing through them. */
module AllocationSteps {
  import opened Basics
  import opened Bitmap
  import opened Clusters
  import opened Ownership
  import opened Inodes
  import opened FileViews

  ghost predicate SameSystem(v: Volume, v': Volume) {
    v.disk == v'.disk && v.used == v'.used && v.roots == v'.roots
  }

  ghost predicate AllUsed(v: Volume) {
    forall c :: 0 <= c < |v.used| ==> v.used[c]
  }

  lemma FullIsFull(v: Volume, w: Volume)
    requires AllUsed(v) && v.used == w.used
    ensures AllUsed(w)
  {
  }

  /** What resolving logical cluster l on behalf of ino may do, and what it reports. */
  ghost predicate Resolved(v: Volume, v': Volume, ino: Inode, ino': Inode, l: nat, allocate: bool,
                           status: Status, physical: nat)
    requires InodeOk(ino) && InodeOk(ino')
  {
    && Sound(v')
    && Grew(v, v', Slot(ino.id, SlotFor(l)), PathFor(l))
    && ino' == SetPointer(ino, SlotFor(l), Pointer(ino', SlotFor(l)))
    && (status == Ok ==> physical == Lookup(v'.disk, ino', l) != 0)
    && (status == Ok && Lookup(v.disk, ino, l) == 0 ==>
          physical < |v'.disk| && v'.disk[physical] == ZeroCluster())
    && (allocate ==> status == Ok || status == NoSpace)
    && (status == NoSpace ==>
          allocate && AllUsed(v') && Lookup(v'.disk, ino', l) == Lookup(v.disk, ino, l) == 0)
    && (!allocate ==> ino' == ino && SameSystem(v, v'))
    && (!allocate ==> status == if Lookup(v.disk, ino, l) == 0 then OutOfBounds else Ok)
  }

  lemma SetPointerSame(ino: Inode, k: nat)
    requires InodeOk(ino) && k < SLOT_COUNT
    ensures SetPointer(ino, k, Pointer(ino, k)) == ino
  {
    if k < DIRECT_POINTERS {
      assert ino.directClusters[k := ino.directClusters[k]] == ino.directClusters;
    }
  }

  lemma GrewLonger(a: Volume, b: Volume, key: Key, p1: Path, p2: Path)
    requires Grew(a, b, key, p1) && p1 <= p2
    ensures Grew(a, b, key, p2)
  {
  }

  lemma RootPosition(table: seq<Inode>, id: nat, k: nat, disk: seq<Cluster>)
    requires TableOk(table) && id < |table| && k < SLOT_COUNT
    ensures Position(TableRoots(table), Slot(id, k), [])
    ensures TableRoots(table)[Slot(id, k)].depth == SlotDepth(k)
    ensures Owned(disk, TableRoots(table), Slot(id, k), []) == Pointer(table[id], k)
  {
  }

  lemma PrefixPosition(table: seq<Inode>, id: nat, l: nat, p: Path)
    requires TableOk(table) && id < |table| && l < MAX_FILE_CLUSTERS && p <= PathFor(l)
    ensures Position(TableRoots(table), Slot(id, SlotFor(l)), p)
    ensures TableRoots(table)[Slot(id, SlotFor(l))].depth == |PathFor(l)|
  {
    PathInRange(l);
  }

  /** The volume whose roots are the pointers of the given inodes. */
  ghost predicate Describes(v: Volume, inodes: seq<Inode>, ino: Inode) {
    && TableOk(inodes) && InodeOk(ino) && ino.id < |inodes| && inodes[ino.id] == ino
    && v.roots == TableRoots(inodes)
  }

  /** Part of the way from ino to logical cluster l has been followed, down to prefix q of its path. */
  ghost predicate PartWay(a: Volume, b: Volume, ino: Inode, ino': Inode, l: nat, allocate: bool, q: Path)
    requires InodeOk(ino) && InodeOk(ino')
  {
    && Sound(b)
    && q <= PathFor(l)
    && Grew(a, b, Slot(ino.id, SlotFor(l)), q)
    && ino' == SetPointer(ino, SlotFor(l), Pointer(ino', SlotFor(l)))
    && (!allocate ==> ino' == ino && SameSystem(a, b))
  }

  /** The way ends for lack of space before anything was taken. */
  lemma NoSpaceAtRoot(a: Volume, ino: Inode, l: nat, allocate: bool)
    requires InodeOk(ino) && PartWay(a, a, ino, ino, l, allocate, []) && AllUsed(a) && allocate
    requires Pointer(ino, SlotFor(l)) == 0
    ensures Resolved(a, a, ino, ino, l, allocate, NoSpace, 0)
  {
    AtNothing(a.disk, PathFor(l));
    GrewLonger(a, a, Slot(ino.id, SlotFor(l)), [], PathFor(l));
  }

  /** The way ends for lack of space below prefix q. */
  lemma StopForSpace(a: Volume, b: Volume, ino: Inode, ino': Inode, l: nat, allocate: bool, q: Path, o: nat,
                     inodes: seq<Inode>, inodes': seq<Inode>)
    requires l < MAX_FILE_CLUSTERS && Describes(a, inodes, ino) && Describes(b, inodes', ino') && ino.id == ino'.id
    requires q + [o] <= PathFor(l) && Slot(ino.id, SlotFor(l)) in b.roots
    requires Owned(b.disk, b.roots, Slot(ino.id, SlotFor(l)), q + [o]) == 0
    requires PartWay(a, b, ino, ino', l, allocate, q) && AllUsed(b) && allocate && |q| < |PathFor(l)|
    ensures Resolved(a, b, ino, ino', l, allocate, NoSpace, 0)
  {
    GrewLonger(a, b, Slot(ino.id, SlotFor(l)), q, PathFor(l));
    PrefixPosition(inodes, ino.id, l, PathFor(l));
    PrefixPosition(inodes', ino.id, l, PathFor(l));
    LookupIsOwned(a.disk, inodes, ino.id, l);
    LookupIsOwned(b.disk, inodes', ino.id, l);
    BeyondPathSame(a, b, Slot(ino.id, SlotFor(l)), q, PathFor(l));
    AtBelowNothing(b.disk, Pointer(ino', SlotFor(l)), q + [o], PathFor(l));
  }

  /** The way ends at a missing pointer that was not to be allocated. */
  lemma StopAtHole(a: Volume, b: Volume, ino: Inode, ino': Inode, inodes: seq<Inode>, l: nat, allocate: bool, q: Path)
    requires InodeOk(ino) && Describes(b, inodes, ino') && ino'.id == ino.id
    requires PartWay(a, b, ino, ino', l, allocate, q) && !allocate
    requires Slot(ino.id, SlotFor(l)) in b.roots && Owned(b.disk, b.roots, Slot(ino.id, SlotFor(l)), q) == 0
    ensures Resolved(a, b, ino, ino', l, allocate, OutOfBounds, 0)
  {
    AtBelowNothing(b.disk, Pointer(ino, SlotFor(l)), q, PathFor(l));
    GrewLonger(a, b, Slot(ino.id, SlotFor(l)), q, PathFor(l));
  }

  /** What following one pointer below position path reports. */
  ghost predicate Followed(v: Volume, v': Volume, key: Key, path: Path, allocate: bool, status: Status, child: nat)
    requires key in v.roots && v'.roots == v.roots
  {
    && Sound(v') && Grew(v, v', key, path)
    && (status == Ok || status == NoSpace)
    && (status == Ok ==> child == Owned(v'.disk, v'.roots, key, path))
    && (allocate && status == Ok ==> child != 0)
    && (!allocate ==> status == Ok)
    && (!allocate || status == NoSpace ==> SameSystem(v, v'))
    && (status == NoSpace ==> AllUsed(v') && Owned(v.disk, v.roots, key, path) == 0)
    && (status == Ok && Owned(v.disk, v.roots, key, path) == 0 && child != 0 ==>
          child < |v'.disk| && v'.disk[child] == ZeroCluster())
  }

  /** The outcome of the latest step: the cluster at the path, or a full disk. */
  ghost predicate Arrived(v: Volume, key: Key, path: Path, allocate: bool, status: Status, c: nat)
    requires key in v.roots
  {
    && Sound(v) && Position(v.roots, key, path)
    && (status == Ok || status == NoSpace)
    && (status == Ok ==> c == Owned(v.disk, v.roots, key, path))
    && (status == Ok && allocate ==> c != 0)
    && (status == NoSpace ==> allocate && AllUsed(v) && Owned(v.disk, v.roots, key, path) == 0)
  }

  /** One more pointer on the way. */
  lemma OneFurther(a: Volume, b: Volume, c: Volume, ino: Inode, ino': Inode, l: nat, allocate: bool,
                   q: Path, o: nat, status: Status, child: nat)
    requires InodeOk(ino) && InodeOk(ino') && PartWay(a, b, ino, ino', l, allocate, q)
    requires Slot(ino.id, SlotFor(l)) in b.roots && c.roots == b.roots && q + [o] <= PathFor(l)
    requires Position(b.roots, Slot(ino.id, SlotFor(l)), q + [o])
    requires Followed(b, c, Slot(ino.id, SlotFor(l)), q + [o], allocate, status, child)
    ensures PartWay(a, c, ino, ino', l, allocate, q + [o])
    ensures Arrived(c, Slot(ino.id, SlotFor(l)), q + [o], allocate, status, child)
    ensures status == NoSpace ==> PartWay(a, c, ino, ino', l, allocate, q)
  {
    GrewTransitive(a, b, c, Slot(ino.id, SlotFor(l)), q, q + [o]);
  }

  /** The last pointer on the way is the data cluster. */
  lemma LastPointer(a: Volume, b: Volume, c: Volume, ino: Inode, ino': Inode, l: nat, allocate: bool,
                    q: Path, o: nat, status: Status, child: nat, inodes: seq<Inode>, inodes': seq<Inode>)
    requires l < MAX_FILE_CLUSTERS && Describes(a, inodes, ino) && Describes(b, inodes', ino') && ino'.id == ino.id
    requires PartWay(a, b, ino, ino', l, allocate, q) && c.roots == b.roots && q + [o] == PathFor(l)
    requires Followed(b, c, Slot(ino.id, SlotFor(l)), q + [o], allocate, status, child)
    ensures Resolved(a, c, ino, ino', l, allocate, if status == Ok && child == 0 then OutOfBounds else status, child)
  {
    hide Sound, At, Owned, TableRoots, Position, SetPointer, Pointer, PathFor;
    PrefixPosition(inodes, ino.id, l, PathFor(l));
    PrefixPosition(inodes', ino.id, l, PathFor(l));
    OneFurther(a, b, c, ino, ino', l, allocate, q, o, status, child);
    LookupIsOwned(a.disk, inodes, ino.id, l);
    LookupIsOwned(b.disk, inodes', ino.id, l);
    LookupIsOwned(c.disk, inodes', ino.id, l);
    BeyondPathSame(a, b, Slot(ino.id, SlotFor(l)), q, PathFor(l));
  }

  lemma BeyondPathSame(a: Volume, b: Volume, key: Key, q: Path, path: Path)
    requires Grew(a, b, key, q) && |q| < |path| && Position(b.roots, key, path) && key in a.roots
    ensures Owned(b.disk, b.roots, key, path) == Owned(a.disk, a.roots, key, path)
  {
  }

  /** How far a write has come: data is on disk at offset, and the size covers it. */
  ghost predicate WriteState(v: Volume, w: Volume, inodes: seq<Inode>, inodes': seq<Inode>, ino: Inode, ino': Inode,
                             offset: nat, data: seq<byte>)
    requires InodeOk(ino) && InodeOk(ino') && TableOk(inodes) && TableOk(inodes')
  {
    && FileStep(v, w, inodes, inodes', ino.id)
    && Wrote(v.disk, w.disk, ino, ino', offset, data)
    && ino'.size == GrownSize(ino.size, offset, |data|)
  }

  lemma WriteStateStart(v: Volume, inodes: seq<Inode>, ino: Inode, offset: nat)
    requires Sound(v) && InodeOk(ino) && TableOk(inodes)
    ensures WriteState(v, v, inodes, inodes, ino, ino, offset, [])
  {
    hide Sound, Wrote;
    FileStepNothing(v, inodes, ino.id);
    WroteNothing(v.disk, ino, offset);
  }

  lemma WriteStateFacts(v: Volume, w: Volume, inodes: seq<Inode>, inodes': seq<Inode>, ino: Inode, ino': Inode,
                        offset: nat, data: seq<byte>)
    requires InodeOk(ino) && InodeOk(ino') && TableOk(inodes) && TableOk(inodes')
    requires WriteState(v, w, inodes, inodes', ino, ino', offset, data)
    ensures FileStep(v, w, inodes, inodes', ino.id) && Wrote(v.disk, w.disk, ino, ino', offset, data) && Sound(w)
    ensures ino'.size == GrownSize(ino.size, offset, |data|)
  {
  }

  lemma WriteStateStuck(v: Volume, w: Volume, x: Volume, inodes: seq<Inode>, inodes1: seq<Inode>, inodes2: seq<Inode>,
                        ino: Inode, ino1: Inode, ino2: Inode, offset: nat, data: seq<byte>)
    requires InodeOk(ino) && InodeOk(ino1) && InodeOk(ino2) && ino1.id == ino.id
    requires TableOk(inodes) && TableOk(inodes1) && TableOk(inodes2) && ino1.size == ino2.size
    requires WriteState(v, w, inodes, inodes1, ino, ino1, offset, data)
    requires FileStep(w, x, inodes1, inodes2, ino.id) && SameFile(w.disk, x.disk, ino1, ino2)
    ensures WriteState(v, x, inodes, inodes2, ino, ino2, offset, data)
  {
    hide Sound, Wrote, FileStep, SameFile;
    FileStepTransitive(v, w, x, inodes, inodes1, inodes2, ino.id);
    WroteSame(v.disk, w.disk, x.disk, ino, ino1, ino2, offset, data);
  }

  lemma WriteStateChunk(v: Volume, w: Volume, x: Volume, inodes: seq<Inode>, inodes1: seq<Inode>, inodes2: seq<Inode>,
                        ino: Inode, ino1: Inode, ino2: Inode, offset: nat, data: seq<byte>, chunk: seq<byte>, all: seq<byte>, n: nat)
    requires InodeOk(ino) && ino.id < |inodes1| == |inodes2| && TableOk(inodes) && TableOk(inodes1) && OfTable(x, inodes2)
    requires OfTable(w, inodes1) && inodes1[ino.id] == ino1 && inodes2[ino.id] == ino2 && ino1.size == ino2.size
    requires WriteState(v, w, inodes, inodes1, ino, ino1, offset, data)
    requires FileStep(w, x, inodes1, inodes2, ino.id)
    requires all == data + chunk && n == |all| && |chunk| > 0 && (offset + |data|) % CLUSTER_SIZE + |chunk| <= CLUSTER_SIZE
    requires offset + |data| + |chunk| <= MAX_FILE_CLUSTERS * CLUSTER_SIZE
    requires var l := (offset + |data|) / CLUSTER_SIZE;
             var base := BaseOf(ViewOf(w.disk, ino1, l));
             IsCluster(base) &&
             ClusterWritten(w, x, inodes1, inodes2, ino.id, l, Patch(base, (offset + |data|) % CLUSTER_SIZE, chunk))
    ensures var resized := ino2.(size := GrownSize(ino.size, offset, n));
            && TableOk(inodes2[ino.id := resized]) && TableRoots(inodes2[ino.id := resized]) == x.roots
            && WriteState(v, x, inodes, inodes2[ino.id := resized], ino, resized, offset, all)
  {
    var resized := ino2.(size := GrownSize(ino.size, offset, n));
    WriteStateFacts(v, w, inodes, inodes1, ino, ino1, offset, data);
    hide Sound, Wrote, FileStep, ViewOf, ClusterWritten, TableRoots;
    FileStepTransitive(v, w, x, inodes, inodes1, inodes2, ino.id);
    WroteStep(v, w, x, ino, inodes1, inodes2, ino.id, offset, data, chunk);
    SizeOnly(v, x, inodes, inodes2, ino2, resized);
    SizeOnlyWrote(v.disk, x.disk, ino, ino2, resized, offset, all);
  }

  lemma WriteStateResize(v: Volume, w: Volume, inodes: seq<Inode>, inodes': seq<Inode>, ino: Inode, ino': Inode,
                         ino2: Inode, offset: nat, data: seq<byte>)
    requires InodeOk(ino) && TableOk(inodes) && OfTable(w, inodes')
    requires ino.id == ino'.id < |inodes'| && inodes'[ino.id] == ino' && SamePointers(ino', ino2) && ino2.size == ino'.size
    requires WriteState(v, w, inodes, inodes', ino, ino', offset, data)
    ensures TableOk(inodes'[ino.id := ino2]) && TableRoots(inodes'[ino.id := ino2]) == w.roots
    ensures WriteState(v, w, inodes, inodes'[ino.id := ino2], ino, ino2, offset, data)
  {
    hide Sound, Wrote, FileStep, TableRoots;
    SizeOnly(v, w, inodes, inodes', ino', ino2);
    SizeOnlyWrote(v.disk, w.disk, ino, ino', ino2, offset, data);
  }

  function GrownSize(size: nat, offset: nat, n: nat): nat {
    if n > 0 && offset + n > size then offset + n else size
  }

  /** A cluster still missing after a write up to it was missing before. */
  lemma HoleFromStart(v: Volume, disk: seq<Cluster>, inodes: seq<Inode>, ino: Inode, ino': Inode, offset: nat,
                      data: seq<byte>)
    requires Sound(v) && OfTable(v, inodes) && ino.id < |inodes| && inodes[ino.id] == ino && InodeOk(ino')
    requires Wrote(v.disk, disk, ino, ino', offset, data)
    requires ViewOf(disk, ino', (offset + |data|) / CLUSTER_SIZE) == Hole
    requires (offset + |data|) / CLUSTER_SIZE < MAX_FILE_CLUSTERS
    ensures ViewOf(v.disk, ino, (offset + |data|) / CLUSTER_SIZE) == Hole
  {
    var l := (offset + |data|) / CLUSTER_SIZE;
    var k := l * CLUSTER_SIZE;
    LookupInRange(v, inodes, ino.id, l);
    assert k / CLUSTER_SIZE == l && k % CLUSTER_SIZE == 0;
    assert ByteAt(disk, ino', k) == WrittenByte(ByteAt(v.disk, ino, k), k, offset, data);
    hide Sound, Lookup, TableRoots, Wrote;
  }

  lemma GrowsOnce(size: nat, offset: nat, m: nat, n: nat)
    requires m < n
    ensures GrownSize(size, offset, n) ==
            if offset + n > GrownSize(size, offset, m) then offset + n else GrownSize(size, offset, m)
  {
  }

  function ClustersFor(size: nat): nat {
    (size + CLUSTER_SIZE - 1) / CLUSTER_SIZE
  }

  lemma FileStepSound(v: Volume, v': Volume, inodes: seq<Inode>, inodes': seq<Inode>, id: nat)
    requires TableOk(inodes) && TableOk(inodes') && FileStep(v, v', inodes, inodes', id)
    ensures Sound(v')
  {
  }

  lemma WroteSame(d0: seq<Cluster>, d: seq<Cluster>, d': seq<Cluster>, ino0: Inode, ino: Inode, ino': Inode,
                  offset: nat, data: seq<byte>)
    requires InodeOk(ino0) && InodeOk(ino) && InodeOk(ino')
    requires Wrote(d0, d, ino0, ino, offset, data) && SameFile(d, d', ino, ino')
    ensures Wrote(d0, d', ino0, ino', offset, data)
  {
    hide ViewOf, WrittenByte;
    forall k: nat | k < MAX_FILE_CLUSTERS * CLUSTER_SIZE
      ensures ByteAt(d', ino', k) == WrittenByte(ByteAt(d0, ino0, k), k, offset, data)
    {
      assert ByteAt(d, ino, k) == WrittenByte(ByteAt(d0, ino0, k), k, offset, data);
    }
  }

  /** The two records hold the same pointers. */
  ghost predicate SamePointers(ino: Inode, ino': Inode) {
    && InodeOk(ino) && InodeOk(ino') && ino'.id == ino.id
    && forall k :: 0 <= k < SLOT_COUNT ==> Pointer(ino, k) == Pointer(ino', k)
  }

  lemma SizeKeepsRoots(table: seq<Inode>, id: nat, ino: Inode)
    requires TableOk(table) && id < |table| && SamePointers(table[id], ino)
    ensures TableOk(table[id := ino]) && TableRoots(table[id := ino]) == TableRoots(table)
  {
    var table' := table[id := ino];
    forall key | key in TableRoots(table') ensures TableRoots(table')[key] == TableRoots(table)[key] {
      assert key == Slot(key.id, key.k);
    }
    assert TableRoots(table').Keys == TableRoots(table).Keys;
  }

  /** Sizes and counts do not matter for where the data is. */
  lemma SizeOnly(v: Volume, w: Volume, inodes: seq<Inode>, inodes': seq<Inode>, ino: Inode, ino': Inode)
    requires TableOk(inodes) && OfTable(w, inodes') && ino.id < |inodes'| && inodes'[ino.id] == ino
    requires SamePointers(ino, ino') && FileStep(v, w, inodes, inodes', ino.id)
    ensures TableOk(inodes'[ino.id := ino']) && TableRoots(inodes'[ino.id := ino']) == w.roots
    ensures FileStep(v, w, inodes, inodes'[ino.id := ino'], ino.id)
  {
    var inodes2 := inodes'[ino.id := ino'];
    forall key | key in TableRoots(inodes2) ensures TableRoots(inodes2)[key] == TableRoots(inodes')[key] {
      assert key == Slot(key.id, key.k);
    }
    assert TableRoots(inodes2).Keys == TableRoots(inodes').Keys;
    assert TableRoots(inodes2) == TableRoots(inodes');
  }

  lemma SizeOnlyWrote(d0: seq<Cluster>, d: seq<Cluster>, ino0: Inode, ino: Inode, ino': Inode, offset: nat, data: seq<byte>)
    requires InodeOk(ino0) && SamePointers(ino, ino') && Wrote(d0, d, ino0, ino, offset, data)
    ensures Wrote(d0, d, ino0, ino', offset, data)
  {
    forall l | 0 <= l < MAX_FILE_CLUSTERS ensures ViewOf(d, ino', l) == ViewOf(d, ino, l) {
    }
    WroteSame(d0, d, d, ino0, ino, ino', offset, data);
  }

  /** The file reads the same, hole by hole and byte by byte. */
  ghost predicate SameFile(disk: seq<Cluster>, disk': seq<Cluster>, ino: Inode, ino': Inode)
    requires InodeOk(ino) && InodeOk(ino')
  {
    forall l :: 0 <= l < MAX_FILE_CLUSTERS ==> ViewOf(disk', ino', l) == ViewOf(disk, ino, l)
  }

  lemma PatchWhole(a: seq<byte>, b: seq<byte>, data: seq<byte>)
    requires |a| == |b|
    ensures |data| == |a| ==> Patch(a, 0, data) == Patch(b, 0, data)
  {
  }

  /** Apart from an allocated cluster, which reads as zeros, resolving changes no file. */
  ghost predicate OnlyBacked(v: Volume, w: Volume, inodes: seq<Inode>, inodes': seq<Inode>, id: nat, l: nat)
    requires TableOk(inodes) && TableOk(inodes') && id < |inodes| == |inodes'|
  {
    && ViewOf(w.disk, inodes'[id], l) == Data(BaseOf(ViewOf(v.disk, inodes[id], l)))
    && forall j, m :: 0 <= j < |inodes| && 0 <= m < MAX_FILE_CLUSTERS && (j, m) != (id, l) ==>
         ViewOf(w.disk, inodes'[j], m) == ViewOf(v.disk, inodes[j], m)
  }

  lemma ResolvedViews(v: Volume, w: Volume, inodes: seq<Inode>, inodes': seq<Inode>, ino: Inode, ino': Inode, l: nat,
                      status: Status, physical: nat)
    requires Describes(v, inodes, ino) && Describes(w, inodes', ino') && ino'.id == ino.id && |inodes| == |inodes'|
    requires Sound(v) && l < MAX_FILE_CLUSTERS && Resolved(v, w, ino, ino', l, true, status, physical)
    ensures FileStep(v, w, inodes, inodes', ino.id) && ino'.size == ino.size
    ensures status == Ok ==>
              && physical == Lookup(w.disk, ino', l) != 0 && w.reserved <= physical < |w.disk| && IsCluster(w.disk[physical])
              && w.disk[physical] == BaseOf(ViewOf(v.disk, ino, l))
              && OnlyBacked(v, w, inodes, inodes', ino.id, l)
    ensures status == NoSpace ==>
              AllUsed(w) && SameFile(v.disk, w.disk, ino, ino') && ViewOf(v.disk, ino, l) == Hole
  {
    GrewIsFileStep(v, w, inodes, inodes', ino.id, l);
    LookupInRange(w, inodes', ino.id, l);
    LookupInRange(v, inodes, ino.id, l);
    forall j, m | 0 <= j < |inodes| && 0 <= m < MAX_FILE_CLUSTERS
      ensures (j, m) != (ino.id, l) ==> ViewOf(w.disk, inodes'[j], m) == ViewOf(v.disk, inodes[j], m)
      ensures ViewOf(v.disk, inodes[j], m) != Hole ==> ViewOf(w.disk, inodes'[j], m) == ViewOf(v.disk, inodes[j], m)
    {
      GrewViews(v, w, inodes, inodes', ino.id, l, j, m);
    }
    hide Sound, Grew, Lookup, FileStep, TableRoots, SetPointer, Pointer;
  }

  lemma WrittenAfterResolve(v: Volume, w: Volume, x: Volume, inodes: seq<Inode>, inodes': seq<Inode>, id: nat, l: nat,
                            data: Cluster)
    requires TableOk(inodes) && TableOk(inodes') && id < |inodes| == |inodes'|
    requires OnlyBacked(v, w, inodes, inodes', id, l) && ClusterWritten(w, x, inodes', inodes', id, l, data)
    ensures ClusterWritten(v, x, inodes, inodes', id, l, data)
  {
    hide ViewOf;
  }

  function ReadLength(size: nat, offset: nat, count: nat): nat {
    if offset >= size then 0 else Min(count, size - offset)
  }

  ghost predicate RangeMapped(disk: seq<Cluster>, ino: Inode, offset: nat, n: nat)
    requires InodeOk(ino)
  {
    forall k :: offset <= k < offset + n ==> ByteAt(disk, ino, k) >= 0
  }

  /** bytes are the n bytes of the file from offset on. */
  ghost predicate IsRange(disk: seq<Cluster>, ino: Inode, offset: nat, n: nat, bytes: seq<byte>)
    requires InodeOk(ino)
  {
    |bytes| == n && forall k :: offset <= k < offset + n ==> bytes[k - offset] == ByteAt(disk, ino, k)
  }

  lemma RangeIsMapped(disk: seq<Cluster>, ino: Inode, offset: nat, n: nat, bytes: seq<byte>)
    requires InodeOk(ino) && IsRange(disk, ino, offset, n, bytes)
    ensures RangeMapped(disk, ino, offset, n)
  {
  }

  lemma HoleInRange(disk: seq<Cluster>, ino: Inode, offset: nat, n: nat, k: nat)
    requires InodeOk(ino) && offset <= k < offset + n && ViewOf(disk, ino, k / CLUSTER_SIZE) == Hole
    ensures !RangeMapped(disk, ino, offset, n)
  {
    assert ByteAt(disk, ino, k) == -1;
  }

  lemma ReadChunk(disk: seq<Cluster>, ino: Inode, offset: nat, bytes: seq<byte>, data: Cluster, n: nat)
    requires InodeOk(ino) && IsRange(disk, ino, offset, |bytes|, bytes)
    requires 0 < n && (offset + |bytes|) % CLUSTER_SIZE + n <= CLUSTER_SIZE
    requires IsCluster(data) && ViewOf(disk, ino, (offset + |bytes|) / CLUSTER_SIZE) == Data(data)
    ensures var q := (offset + |bytes|) % CLUSTER_SIZE;
            IsRange(disk, ino, offset, |bytes| + n, bytes + data[q..q + n])
  {
    hide Lookup;
    var q := (offset + |bytes|) % CLUSTER_SIZE;
    var bytes' := bytes + data[q..q + n];
    forall k | offset <= k < offset + |bytes| + n ensures bytes'[k - offset] == ByteAt(disk, ino, k) {
      ChunkPlaces(offset, |bytes|, n, k);
    }
  }

  /** Clusters taken since v all belong to inode id, and none has been given back. */
  ghost predicate TakenBy(v: Volume, v': Volume, id: nat) {
    && |v.used| == |v'.used|
    && LowestFirst(v.used, v'.used)
    && (forall c :: 0 <= c < |v.used| && v.used[c] ==> v'.used[c])
    && (forall c :: 0 <= c < |v.used| && v'.used[c] && !v.used[c] ==> OwnedByInode(v', id, c))
  }

  ghost predicate OwnedByInode(v: Volume, id: nat, c: nat) {
    exists k :: 0 <= k < SLOT_COUNT && OwnedUnder(v, Slot(id, k), c)
  }

  /** Everything inode id may do to a volume by growing and writing its own file. */
  ghost predicate FileStep(v: Volume, v': Volume, inodes: seq<Inode>, inodes': seq<Inode>, id: nat)
    requires TableOk(inodes) && TableOk(inodes')
  {
    && Sound(v') && |v.disk| == |v'.disk| && v.reserved == v'.reserved
    && OthersSame(v, v', inodes, inodes', id)
    && TakenBy(v, v', id)
    && KeepsReserved(v, v')
    && KeepsOwned(v, v', id)
    && OwnsOnlyNew(v, v', id)
  }

  /** What inode id owns now it owned before, or it was free. */
  ghost predicate OwnsOnlyNew(v: Volume, v': Volume, id: nat) {
    forall c: nat :: OwnedByInode(v', id, c) && c < |v.used| && v.used[c] ==> OwnedByInode(v, id, c)
  }

  lemma TakenWasFree(v: Volume, v': Volume, key: Key, path: Path)
    requires SamePositions(v, v') && TakesFree(v, v') && Position(v'.roots, key, path)
    ensures Owned(v'.disk, v'.roots, key, path) == Owned(v.disk, v.roots, key, path)
            || WasFree(v, Owned(v'.disk, v'.roots, key, path))
  {
  }

  lemma GrewOwnsOnlyNew(v: Volume, v': Volume, inodes: seq<Inode>, inodes': seq<Inode>, id: nat, key: Key, path: Path)
    requires OfTable(v, inodes) && OfTable(v', inodes') && |inodes| == |inodes'| && Grew(v, v', key, path)
    ensures OwnsOnlyNew(v, v', id)
  {
    forall c: nat | OwnedByInode(v', id, c) && c < |v.used| && v.used[c] ensures OwnedByInode(v, id, c) {
      var k :| 0 <= k < SLOT_COUNT && OwnedUnder(v', Slot(id, k), c);
      var p :| Position(v'.roots, Slot(id, k), p) && Owned(v'.disk, v'.roots, Slot(id, k), p) == c;
      SamePosition(v, v', Slot(id, k), p);
      TakenWasFree(v, v', Slot(id, k), p);
      assert OwnedUnder(v, Slot(id, k), c);
    }
  }

  /** What inode id owned it still owns, at the same positions; everybody else owns exactly what they did. */
  ghost predicate KeepsOwned(v: Volume, v': Volume, id: nat) {
    forall key, p :: Position(v.roots, key, p) && (key.id != id || Owned(v.disk, v.roots, key, p) != 0) ==>
      && Position(v'.roots, key, p)
      && Owned(v'.disk, v'.roots, key, p) == Owned(v.disk, v.roots, key, p)
  }

  lemma OwnedByInodeStays(v: Volume, v': Volume, id: nat, c: nat)
    requires KeepsOwned(v, v', id) && OwnedByInode(v, id, c)
    ensures OwnedByInode(v', id, c)
  {
    var k :| 0 <= k < SLOT_COUNT && OwnedUnder(v, Slot(id, k), c);
    var p :| Position(v.roots, Slot(id, k), p) && Owned(v.disk, v.roots, Slot(id, k), p) == c;
    assert Position(v'.roots, Slot(id, k), p) && Owned(v'.disk, v'.roots, Slot(id, k), p) == c;
    assert OwnedUnder(v', Slot(id, k), c);
  }

  lemma FileStepNothing(v: Volume, inodes: seq<Inode>, id: nat)
    requires Sound(v) && TableOk(inodes)
    ensures FileStep(v, v, inodes, inodes, id)
  {
  }

  lemma FileStepTransitive(a: Volume, b: Volume, c: Volume, i1: seq<Inode>, i2: seq<Inode>, i3: seq<Inode>, id: nat)
    requires TableOk(i1) && TableOk(i2) && TableOk(i3)
    requires FileStep(a, b, i1, i2, id) && FileStep(b, c, i2, i3, id)
    ensures FileStep(a, c, i1, i3, id)
  {
    forall x | 0 <= x < a.reserved ensures SameCluster(a, c, x) {
      assert SameCluster(a, b, x) && SameCluster(b, c, x);
    }
    forall x | 0 <= x < |a.used| && c.used[x] && !a.used[x] ensures OwnedByInode(c, id, x) {
      if b.used[x] {
        OwnedByInodeStays(b, c, id, x);
      }
    }
    forall x: nat | OwnedByInode(c, id, x) && x < |a.used| && a.used[x] ensures OwnedByInode(a, id, x) {
      assert OwnedByInode(b, id, x);
    }
  }

  /** Growth along one path of inode id is such a step. */
  lemma GrewIsFileStep(v: Volume, v': Volume, inodes: seq<Inode>, inodes': seq<Inode>, id: nat, l: nat)
    requires Sound(v) && Sound(v') && OfTable(v, inodes) && OfTable(v', inodes') && |inodes| == |inodes'|
    requires id < |inodes| && l < MAX_FILE_CLUSTERS
    requires Grew(v, v', Slot(id, SlotFor(l)), PathFor(l))
    ensures FileStep(v, v', inodes, inodes', id)
  {
    forall j, m | 0 <= j < |inodes| && j != id && 0 <= m < MAX_FILE_CLUSTERS
      ensures ViewOf(v'.disk, inodes'[j], m) == ViewOf(v.disk, inodes[j], m)
    {
      GrewViews(v, v', inodes, inodes', id, l, j, m);
    }
    GrewOwnsOnlyNew(v, v', inodes, inodes', id, Slot(id, SlotFor(l)), PathFor(l));
    hide Sound, ViewOf, TableRoots, PathFor, Owned;
    forall c | 0 <= c < |v.used| && v'.used[c] && !v.used[c] ensures OwnedByInode(v', id, c) {
      assert OwnedUnder(v', Slot(id, SlotFor(l)), c);
    }
  }

  /** So is overwriting the data of one cluster. */
  lemma ClusterWriteIsFileStep(v: Volume, inodes: seq<Inode>, id: nat, l: nat, data: Cluster)
    requires Sound(v) && OfTable(v, inodes) && id < |inodes| && l < MAX_FILE_CLUSTERS && IsCluster(data)
    requires Lookup(v.disk, inodes[id], l) != 0
    ensures Lookup(v.disk, inodes[id], l) < |v.disk|
    ensures var v' := v.(disk := v.disk[Lookup(v.disk, inodes[id], l) := data]);
            FileStep(v, v', inodes, inodes, id) && ClusterWritten(v, v', inodes, inodes, id, l, data) && SameOwned(v, v')
  {
    LookupPosition(inodes, id, l);
    LookupIsOwned(v.disk, inodes, id, l);
    LeafWriteViews(v, inodes, id, l, data);
    WriteLeaf(v, Slot(id, SlotFor(l)), PathFor(l), data);
    SoundAt(v, Slot(id, SlotFor(l)), PathFor(l));
    var v' := v.(disk := v.disk[Lookup(v.disk, inodes[id], l) := data]);
    SameOwnedOwnsOnlyNew(v, v', id);
    hide Sound, ViewOf, TableRoots, PathFor, At;
  }

  lemma SameOwnedOwnsOnlyNew(v: Volume, v': Volume, id: nat)
    requires SameOwned(v, v')
    ensures OwnsOnlyNew(v, v', id)
  {
    forall c: nat | OwnedByInode(v', id, c) ensures OwnedByInode(v, id, c) {
      var k :| 0 <= k < SLOT_COUNT && OwnedUnder(v', Slot(id, k), c);
      var p :| Position(v'.roots, Slot(id, k), p) && Owned(v'.disk, v'.roots, Slot(id, k), p) == c;
      SamePosition(v, v', Slot(id, k), p);
      assert OwnedUnder(v, Slot(id, k), c);
    }
  }

  lemma SameOwnedSameOwner(v: Volume, w: Volume, id: nat, c: nat)
    requires SameOwned(v, w)
    ensures OwnedByInode(v, id, c) <==> OwnedByInode(w, id, c)
  {
    if OwnedByInode(v, id, c) {
      var k :| 0 <= k < SLOT_COUNT && OwnedUnder(v, Slot(id, k), c);
      var p :| Position(v.roots, Slot(id, k), p) && Owned(v.disk, v.roots, Slot(id, k), p) == c;
      SamePosition(v, w, Slot(id, k), p);
      assert OwnedUnder(w, Slot(id, k), c);
    }
    if OwnedByInode(w, id, c) {
      var k :| 0 <= k < SLOT_COUNT && OwnedUnder(w, Slot(id, k), c);
      var p :| Position(w.roots, Slot(id, k), p) && Owned(w.disk, w.roots, Slot(id, k), p) == c;
      SamePosition(v, w, Slot(id, k), p);
      assert OwnedUnder(v, Slot(id, k), c);
    }
  }

  lemma DirectResolved(a: Volume, b: Volume, ino: Inode, ino': Inode, l: nat, allocate: bool, physical: nat,
                       inodes: seq<Inode>, inodes': seq<Inode>)
    requires Describes(a, inodes, ino) && Describes(b, inodes', ino') && ino'.id == ino.id && PathFor(l) == []
    requires PartWay(a, b, ino, ino', l, allocate, []) && Slot(ino.id, SlotFor(l)) in b.roots
    requires physical == Owned(b.disk, b.roots, Slot(ino.id, SlotFor(l)), []) != 0
    requires Pointer(ino, SlotFor(l)) == 0 ==> physical < |b.disk| && b.disk[physical] == ZeroCluster()
    ensures Resolved(a, b, ino, ino', l, allocate, Ok, physical)
  {
    LookupIsOwned(b.disk, inodes', ino.id, l);
    LookupIsOwned(a.disk, inodes, ino.id, l);
  }
}
