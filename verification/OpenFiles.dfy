/** An open file descriptor: four cached clusters with write-back, over the file's clusters on disk. */
module OpenFiles {
  import opened Basics
  import opened Bitmap
  import opened Clusters
  import opened Ownership
  import opened Inodes
  import opened FileViews
  import opened AllocationSteps
  import opened Truncation
  import opened Occupancy
  import opened FlatFile
  import opened CachePages
  import opened CacheTouches
  import opened Storage
  import opened TableImage

  datatype Origin = FromStart | FromCurrent | FromEnd | Other

  /** The state of one file behind a descriptor: storage is sound, and cache and disk together hold bytes. */
  ghost predicate Holds(disk: seq<Cluster>, used: seq<bool>, table: seq<Inode>, reserved: nat, id: nat,
                        bytes: seq<byte>, slots: seq<CacheSlot>)
  {
    && TableOk(table) && id < |table|
    && Sound(Volume(disk, used, TableRoots(table), reserved))
    && Coherent(disk, table[id], bytes, slots)
  }

  /** A page written to disk, and the inode put back with the cached size. */
  lemma FlushSucceeded(v: Volume, w: Volume, table: seq<Inode>, id: nat, ino': Inode, bytes: seq<byte>,
                       slots: seq<CacheSlot>, i: nat)
    requires Holds(v.disk, v.used, table, v.reserved, id, bytes, slots) && OfTable(v, table)
    requires i < |slots| && slots[i].dirty && InodeOk(ino') && ino'.id == id
    requires OfTable(w, table[id := ino']) && FileStep(v, w, table, table[id := ino'], id)
    requires Wrote(v.disk, w.disk, table[id], ino', slots[i].logical * CLUSTER_SIZE, slots[i].buffer)
    requires ino'.size == GrownSize(table[id].size, slots[i].logical * CLUSTER_SIZE, CLUSTER_SIZE)
    requires ino'.clusterCount == ClustersFor(ino'.size)
    ensures var table' := table[id := ino'.(size := |bytes|)];
            && Holds(w.disk, w.used, table', w.reserved, id, bytes, slots[i := slots[i].(dirty := false)])
            && OthersKept(v.disk, w.disk, table, table', id)
  {
    var stored, table' := ino'.(size := |bytes|), table[id := ino'.(size := |bytes|)];
    RewrittenEntry(table, id, ino', stored);
    FileStepSound(v, w, table, table[id := ino'], id);
    FlushPage(v.disk, w.disk, table[id], ino', bytes, slots, i);
    SizeOnly(v, w, table, table[id := ino'], ino', stored);
    assert w == Volume(w.disk, w.used, TableRoots(table'), w.reserved);
    hide Sound, Coherent, Wrote, TableRoots, SameFile;
    FileStepKeepsOthers(v, w, table, table', table', id);
  }

  /** No space: the inode in the table is the old one, and the file is as before. */
  lemma FlushAbandoned(v: Volume, w: Volume, table: seq<Inode>, id: nat, ino': Inode, bytes: seq<byte>,
                       slots: seq<CacheSlot>, offset: nat)
    requires Holds(v.disk, v.used, table, v.reserved, id, bytes, slots) && OfTable(v, table)
    requires InodeOk(ino') && ino'.id == id
    requires OfTable(w, table[id := ino']) && FileStep(v, w, table, table[id := ino'], id)
    requires Wrote(v.disk, w.disk, table[id], ino', offset, [])
    ensures Holds(w.disk, w.used, table, w.reserved, id, bytes, slots)
    ensures OthersKept(v.disk, w.disk, table, table, id)
    ensures forall l: nat :: l < MAX_FILE_CLUSTERS && ViewOf(v.disk, table[id], l) == Hole ==> ViewOf(w.disk, table[id], l) == Hole
  {
    var table' := table[id := ino'];
    FileStepSound(v, w, table, table', id);
    FileStepKeepsPointers(v, w, table, table', id);
    AbandonSound(w, w.(roots := TableRoots(table)), table, table', id);
    hide Sound, Wrote, TableRoots, ByteAt;
    forall k: nat | k < MAX_FILE_CLUSTERS * CLUSTER_SIZE
      ensures ByteAt(w.disk, table[id], k) == ByteAt(v.disk, table[id], k)
    {
      WroteNoByte(v.disk, w.disk, table[id], ino', offset, k);
      AbandonByte(v.disk, w.disk, table[id], ino', k);
    }
    forall l: nat | l < MAX_FILE_CLUSTERS && ViewOf(v.disk, table[id], l) == Hole ensures ViewOf(w.disk, table[id], l) == Hole {
      StillHole(v, w.(roots := TableRoots(table)), table, id, l);
    }
    FlushFailed(v.disk, w.disk, table[id], bytes, slots);
    hide Coherent, SameFile;
    FileStepKeepsOthers(v, w, table, table', table, id);
  }

  lemma StillHole(v: Volume, w: Volume, table: seq<Inode>, id: nat, l: nat)
    requires Sound(w) && OfTable(w, table) && id < |table| && l < MAX_FILE_CLUSTERS && ViewOf(v.disk, table[id], l) == Hole
    requires ByteAt(w.disk, table[id], l * CLUSTER_SIZE) == ByteAt(v.disk, table[id], l * CLUSTER_SIZE)
    ensures ViewOf(w.disk, table[id], l) == Hole
  {
    hide Sound, Lookup, TableRoots;
    LookupInRange(w, table, id, l);
  }

  /** The inode is the file that was opened; if that file owned only clusters it needed, so does the file now. */
  ghost predicate Keeps(disk: seq<Cluster>, used: seq<bool>, table: seq<Inode>, reserved: nat, id: nat,
                        bytes: seq<byte>, found: Inode, tidy: bool)
  {
    && TableOk(table) && id < |table| && SameLabels(found, table[id])
    && (tidy ==> Within(Volume(disk, used, TableRoots(table), reserved), id, ClustersFor(|bytes|)))
  }

  lemma PageInside(l: nat, n: nat)
    requires l * CLUSTER_SIZE < n
    ensures ClustersFor(l * CLUSTER_SIZE + CLUSTER_SIZE) <= ClustersFor(n)
  {
  }

  lemma FlushKeeps(v: Volume, w: Volume, table: seq<Inode>, id: nat, ino': Inode, bytes: seq<byte>,
                   found: Inode, tidy: bool, l: nat)
    requires Keeps(v.disk, v.used, table, v.reserved, id, bytes, found, tidy) && OfTable(v, table)
    requires InodeOk(ino') && ino'.id == id && SameLabels(table[id], ino') && OfTable(w, table[id := ino'])
    requires Fills(v, w, id, ClustersFor(l * CLUSTER_SIZE + CLUSTER_SIZE)) && l * CLUSTER_SIZE < |bytes|
    ensures Keeps(w.disk, w.used, table[id := ino'.(size := |bytes|)], w.reserved, id, bytes, found, tidy)
  {
    var stored := ino'.(size := |bytes|);
    RewrittenEntry(table, id, ino', stored);
    assert SamePointers(ino', stored);
    SizeKeepsRoots(table[id := ino'], id, stored);
    hide TableRoots, Within, Fills, ClustersFor;
    assert v == Volume(v.disk, v.used, TableRoots(table), v.reserved);
    assert w == Volume(w.disk, w.used, TableRoots(table[id := stored]), w.reserved);
    if tidy {
      PageInside(l, |bytes|);
      FillsMore(v, w, id, ClustersFor(l * CLUSTER_SIZE + CLUSTER_SIZE), ClustersFor(|bytes|));
      FilledWithin(v, w, id, ClustersFor(|bytes|));
    }
  }

  lemma KeepsFacts(disk: seq<Cluster>, used: seq<bool>, table: seq<Inode>, reserved: nat, id: nat,
                   bytes: seq<byte>, found: Inode, tidy: bool)
    requires Keeps(disk, used, table, reserved, id, bytes, found, tidy)
    ensures id < |table| && SameLabels(found, table[id])
  {
  }

  lemma BeginKeeps(disk: seq<Cluster>, used: seq<bool>, table: seq<Inode>, reserved: nat, id: nat, bytes: seq<byte>)
    requires TableOk(table) && id < |table|
    ensures Keeps(disk, used, table, reserved, id, bytes, table[id],
                  Within(Volume(disk, used, TableRoots(table), reserved), id, ClustersFor(|bytes|)))
  {
    hide TableRoots, Within, ClustersFor;
  }

  lemma AbandonKeeps(v: Volume, w: Volume, table: seq<Inode>, id: nat, ino': Inode, bytes: seq<byte>,
                     found: Inode, tidy: bool, l: nat)
    requires Keeps(v.disk, v.used, table, v.reserved, id, bytes, found, tidy) && OfTable(v, table)
    requires InodeOk(ino') && ino'.id == id && OfTable(w, table[id := ino'])
    requires FileStep(v, w, table, table[id := ino'], id)
    requires Fills(v, w, id, ClustersFor(l * CLUSTER_SIZE + CLUSTER_SIZE)) && l * CLUSTER_SIZE < |bytes|
    ensures Keeps(w.disk, w.used, table, w.reserved, id, bytes, found, tidy)
  {
    FileStepKeepsPointers(v, w, table, table[id := ino'], id);
    hide TableRoots, Fills, ClustersFor, Owned, OnTheWay, FileStep;
    var x := Volume(w.disk, w.used, TableRoots(table), w.reserved);
    assert v == Volume(v.disk, v.used, TableRoots(table), v.reserved);
    if tidy {
      PageInside(l, |bytes|);
      FillsMore(v, w, id, ClustersFor(l * CLUSTER_SIZE + CLUSTER_SIZE), ClustersFor(|bytes|));
      FilledWithin(v, w, id, ClustersFor(|bytes|));
      forall k: nat, p: Path | Position(x.roots, Slot(id, k), p) && Owned(x.disk, x.roots, Slot(id, k), p) != 0
        ensures OnTheWay(k, p, ClustersFor(|bytes|))
      {
        AbandonedOwned(w.disk, table, table[id := ino'], id, Slot(id, k), p);
      }
    }
  }

  lemma ResizeKeeps(disk: seq<Cluster>, used: seq<bool>, table: seq<Inode>, reserved: nat, id: nat,
                    bytes: seq<byte>, bytes': seq<byte>, found: Inode, tidy: bool)
    requires Keeps(disk, used, table, reserved, id, bytes, found, tidy) && |bytes| <= |bytes'|
    ensures Keeps(disk, used, table[id := table[id].(size := |bytes'|)], reserved, id, bytes', found, tidy)
  {
    var resized := table[id].(size := |bytes'|);
    assert SamePointers(table[id], resized);
    SizeKeepsRoots(table, id, resized);
    hide TableRoots;
    if tidy {
      var v := Volume(disk, used, TableRoots(table), reserved);
      WithinMore(v, id, ClustersFor(|bytes|), ClustersFor(|bytes'|));
    }
  }

  lemma EmptyWithin(v: Volume, table: seq<Inode>, id: nat, n: nat)
    requires OfTable(v, table) && id < |table| && NoPointers(table[id])
    ensures Within(v, id, n)
  {
    EmptyOccupies(v, table, id);
    OccupiesIsWithin(v, id, 0, n);
  }

  lemma NeededWithin(v: Volume, id: nat, n: nat)
    ensures Occupies(v, id, n) ==> Within(v, id, n)
  {
    hide Occupies, Within;
    if Occupies(v, id, n) {
      OccupiesIsWithin(v, id, n, n);
    }
  }

  lemma WithinMore(v: Volume, id: nat, m: nat, n: nat)
    requires Within(v, id, m) && m <= n
    ensures Within(v, id, n)
  {
    forall k: nat, p: Path | Position(v.roots, Slot(id, k), p) && Owned(v.disk, v.roots, Slot(id, k), p) != 0
      ensures OnTheWay(k, p, n)
    {
      FurtherOnTheWay(k, p, m, n);
    }
  }

  /** A closed file of which nothing is cached occupies exactly the clusters it needs. */
  lemma ClosedOccupies(v: Volume, table: seq<Inode>, id: nat, bytes: seq<byte>, found: Inode, tidy: bool)
    requires OfTable(v, table) && Keeps(v.disk, v.used, table, v.reserved, id, bytes, found, tidy) && tidy
    requires Dense(v.disk, table[id]) && table[id].size == |bytes| <= MAX_FILE_BYTES
    ensures Occupies(v, id, ClustersFor(table[id].size))
  {
    hide TableRoots, Within, Dense;
    assert v == Volume(v.disk, v.used, TableRoots(table), v.reserved);
    DenseIsMapped(v, table, id, |bytes|);
    MappedOccupies(v, table, id, ClustersFor(|bytes|));
  }

  lemma PageWaits(disk: seq<Cluster>, table: seq<Inode>, id: nat, slots: seq<CacheSlot>, i: nat)
    requires id < |table| && InodeOk(table[id]) && i < |slots| && slots[i].dirty
    requires ViewOf(disk, table[id], slots[i].logical) == Hole
    ensures Waits(disk, table, id, slots)
  {
    hide ViewOf;
  }

  lemma AllOrNothing(l: nat, written: nat)
    requires written < CLUSTER_SIZE && (written == 0 || (l * CLUSTER_SIZE + written) % CLUSTER_SIZE == 0)
    ensures written == 0
  {
  }

  lemma HoldsFacts(disk: seq<Cluster>, used: seq<bool>, table: seq<Inode>, reserved: nat, id: nat,
                   bytes: seq<byte>, slots: seq<CacheSlot>)
    requires Holds(disk, used, table, reserved, id, bytes, slots)
    ensures TableOk(table) && id < |table| && InodeOk(table[id]) && table[id].id == id
    ensures Sound(Volume(disk, used, TableRoots(table), reserved))
    ensures table[id].size == |bytes| <= MAX_FILE_BYTES
    ensures forall i :: 0 <= i < |slots| ==> IsCluster(slots[i].buffer)
    ensures forall i :: 0 <= i < |slots| && slots[i].dirty ==>
              && slots[i].logical * CLUSTER_SIZE + CLUSTER_SIZE <= MAX_FILE_CLUSTERS * CLUSTER_SIZE
              && slots[i].logical * CLUSTER_SIZE < |bytes|
  {
    hide Sound, TableRoots, Backed;
    forall i | 0 <= i < |slots| ensures slots[i].buffer == Page(bytes, slots[i].logical) {
    }
  }

  lemma HoldsTouch(disk: seq<Cluster>, used: seq<bool>, table: seq<Inode>, reserved: nat, id: nat,
                   bytes: seq<byte>, slots: seq<CacheSlot>, i: nat, stamp: nat)
    requires Holds(disk, used, table, reserved, id, bytes, slots) && i < |slots|
    ensures Holds(disk, used, table, reserved, id, bytes, slots[i := slots[i].(stamp := stamp)]) && Distinct(slots)
  {
    TouchSlot(disk, table[id], bytes, slots, i, stamp);
  }

  lemma HoldsReadPage(disk: seq<Cluster>, used: seq<bool>, table: seq<Inode>, reserved: nat, id: nat,
                      bytes: seq<byte>, slots: seq<CacheSlot>, l: nat, data: seq<byte>)
    requires Holds(disk, used, table, reserved, id, bytes, slots) && !Cached(slots, l)
    ensures var n := ReadLength(|bytes|, l * CLUSTER_SIZE, CLUSTER_SIZE);
            && RangeMapped(disk, table[id], l * CLUSTER_SIZE, n)
            && n <= CLUSTER_SIZE
            && (IsRange(disk, table[id], l * CLUSTER_SIZE, n, data) ==>
                  |data| == n && data + Zeros(CLUSTER_SIZE - n) == Page(bytes, l)
                  && (n == CLUSTER_SIZE ==> data == Page(bytes, l)))
  {
    MissReadsPage(disk, table[id], bytes, slots, l, data);
    assert data + Zeros(0) == data;
  }

  lemma HoldsPut(disk: seq<Cluster>, used: seq<bool>, table: seq<Inode>, reserved: nat, id: nat,
                 bytes: seq<byte>, slots: seq<CacheSlot>, l: nat, stamp: nat, i: nat)
    requires Holds(disk, used, table, reserved, id, bytes, slots) && !Cached(slots, l)
    requires i <= |slots| && (i < |slots| ==> !slots[i].dirty)
    ensures Holds(disk, used, table, reserved, id, bytes, Put(slots, i, CacheSlot(l, Page(bytes, l), false, stamp)))
    ensures Distinct(slots)
  {
    PutPage(disk, table[id], bytes, slots, l, stamp, i);
  }

  /** Patching a cached page writes the bytes, and the inode takes the new size at once. */
  lemma HoldsWrite(disk: seq<Cluster>, used: seq<bool>, table: seq<Inode>, reserved: nat, id: nat,
                   bytes: seq<byte>, slots: seq<CacheSlot>, i: nat, position: nat, chunk: seq<byte>)
    requires Holds(disk, used, table, reserved, id, bytes, slots)
    requires i < |slots| && slots[i].logical == position / CLUSTER_SIZE && position <= |bytes|
    requires 0 < |chunk| && position % CLUSTER_SIZE + |chunk| <= CLUSTER_SIZE && position + |chunk| <= MAX_FILE_BYTES
    ensures IsCluster(slots[i].buffer)
    ensures var bytes' := Splice(bytes, position, chunk);
            var table' := table[id := table[id].(size := |bytes'|)];
            && Holds(disk, used, table', reserved, id, bytes',
                     slots[i := slots[i].(buffer := Patch(slots[i].buffer, position % CLUSTER_SIZE, chunk), dirty := true)])
            && OthersKept(disk, disk, table, table', id)
            && (|bytes'| == |bytes| ==> table' == table)
  {
    var bytes' := Splice(bytes, position, chunk);
    var resized := table[id].(size := |bytes'|);
    var table' := table[id := resized];
    WritePage(disk, table[id], bytes, slots, i, position, chunk);
    hide Sound, Coherent, Splice;
    assert SamePointers(table[id], resized);
    SizeKeepsRoots(table, id, resized);
  }

  lemma HoldsDistinct(disk: seq<Cluster>, used: seq<bool>, table: seq<Inode>, reserved: nat, id: nat,
                      bytes: seq<byte>, slots: seq<CacheSlot>)
    requires Holds(disk, used, table, reserved, id, bytes, slots)
    ensures Distinct(slots)
  {
  }

  lemma HoldsSlot(disk: seq<Cluster>, used: seq<bool>, table: seq<Inode>, reserved: nat, id: nat,
                  bytes: seq<byte>, slots: seq<CacheSlot>, i: nat)
    requires Holds(disk, used, table, reserved, id, bytes, slots) && i < |slots|
    ensures slots[i].buffer == Page(bytes, slots[i].logical)
  {
  }

  lemma HoldsEmptied(disk: seq<Cluster>, used: seq<bool>, table: seq<Inode>, reserved: nat, id: nat,
                     bytes: seq<byte>, slots: seq<CacheSlot>)
    requires Holds(disk, used, table, reserved, id, bytes, slots) && AllClean(slots)
    ensures Holds(disk, used, table, reserved, id, bytes, [])
    ensures Dense(disk, table[id]) && Content(disk, table[id]) == bytes
    ensures table[id].clusterCount == ClustersFor(table[id].size)
  {
    CleanIsOnDisk(disk, table[id], bytes, slots);
  }

  /** The part of a page from q on is the matching part of the bytes. */
  lemma PageSlice(bytes: seq<byte>, position: nat, n: nat)
    requires position + n <= |bytes| && position % CLUSTER_SIZE + n <= CLUSTER_SIZE
    ensures var q := position % CLUSTER_SIZE;
            Page(bytes, position / CLUSTER_SIZE)[q..q + n] == bytes[position..position + n]
  {
  }

  /** What a plain byte sequence returns for a read. */
  function ReadBytes(bytes: seq<byte>, position: nat, count: nat): (r: seq<byte>)
    ensures |r| == ReadLength(|bytes|, position, count)
  {
    if position >= |bytes| then [] else bytes[position..position + Min(count, |bytes| - position)]
  }

  lemma SpliceGrows(bytes: seq<byte>, position: nat, data: seq<byte>)
    requires position <= |bytes|
    ensures |bytes| <= |Splice(bytes, position, data)|
  {
  }

  lemma SpliceNothing(bytes: seq<byte>, position: nat)
    ensures position <= |bytes| ==> Splice(bytes, position, []) == bytes
  {
  }

  lemma SpliceChunk(bytes: seq<byte>, position: nat, data: seq<byte>, chunk: seq<byte>)
    requires position <= |bytes|
    ensures position + |data| <= |Splice(bytes, position, data)|
    ensures Splice(Splice(bytes, position, data), position + |data|, chunk) == Splice(bytes, position, data + chunk)
  {
  }

  lemma MoreRead(bytes: seq<byte>, start: nat, count: nat, out: seq<byte>, chunk: seq<byte>)
    requires out <= ReadBytes(bytes, start, count) && |out| + |chunk| <= |ReadBytes(bytes, start, count)|
    requires start + |out| + |chunk| <= |bytes| && chunk == bytes[start + |out|..start + |out| + |chunk|]
    ensures out + chunk <= ReadBytes(bytes, start, count)
  {
  }

  lemma MoreWritten(bytes: seq<byte>, start: nat, data: seq<byte>, total: nat, n: nat)
    requires start <= |bytes| && total + n <= |data|
    ensures start + total <= |Splice(bytes, start, data[..total])|
    ensures Splice(Splice(bytes, start, data[..total]), start + total, data[total..][..n]) ==
            Splice(bytes, start, data[..total + n])
  {
    hide Splice;
    SpliceChunk(bytes, start, data[..total], data[total..][..n]);
    assert data[..total] + data[total..][..n] == data[..total + n];
  }

  lemma RecentEmpty(counter: nat)
    ensures Recent([], counter, [])
  {
  }

  lemma OpensHeld(disk: seq<Cluster>, used: seq<bool>, table: seq<Inode>, reserved: nat, id: nat)
    requires TableOk(table) && id < |table| && Sound(Volume(disk, used, TableRoots(table), reserved))
    requires WellStored(disk, table[id])
    ensures Holds(disk, used, table, reserved, id, Content(disk, table[id]), [])
  {
    OpensCoherent(disk, table[id]);
  }

  lemma EmptiedWellStored(disk: seq<Cluster>, ino: Inode)
    requires InodeOk(ino) && ino.size == 0 && ino.clusterCount == 0
    ensures WellStored(disk, ino) && Content(disk, ino) == []
  {
  }

  // ----- The plain byte sequence a descriptor is compared with -----

  datatype Plain = Plain(bytes: seq<byte>, position: nat)

  datatype Op = ReadOp(count: nat) | WriteOp(data: seq<byte>) | SeekOp(offset: int, origin: Origin)

  datatype Reply = Reply(status: Status, bytes: seq<byte>, count: nat)

  /** Where a seek would go. */
  function SeekTarget(size: nat, position: nat, offset: int, origin: Origin): int {
    match origin
    case FromStart => offset
    case FromCurrent => position + offset
    case FromEnd => size + offset
    case Other => -1
  }

  function SeekStatus(size: nat, position: nat, offset: int, origin: Origin): Status {
    if origin == Other then InvalidArgument
    else if SeekTarget(size, position, offset, origin) < 0 then OutOfBounds
    else Ok
  }

  /** A write the density hypothesis allows: it starts within the file and stays within the largest file. */
  predicate Allowed(p: Plain, op: Op) {
    op.WriteOp? ==> p.position <= |p.bytes| && p.position + |op.data| <= MAX_FILE_BYTES
  }

  function PlainStep(p: Plain, mayRead: bool, mayWrite: bool, op: Op): (r: (Plain, Reply))
    requires mayWrite ==> Allowed(p, op)
  {
    match op
    case ReadOp(count) =>
      if !mayRead then (p, Reply(InvalidArgument, [], 0))
      else
        var out := ReadBytes(p.bytes, p.position, count);
        (p.(position := p.position + |out|), Reply(Ok, out, |out|))
    case WriteOp(data) =>
      if !mayWrite then (p, Reply(InvalidArgument, [], 0))
      else (Plain(Splice(p.bytes, p.position, data), p.position + |data|), Reply(Ok, [], |data|))
    case SeekOp(offset, origin) =>
      var status := SeekStatus(|p.bytes|, p.position, offset, origin);
      (if status == Ok then p.(position := SeekTarget(|p.bytes|, p.position, offset, origin)) else p, Reply(status, [], 0))
  }

  ghost predicate AllAllowed(p: Plain, mayRead: bool, mayWrite: bool, ops: seq<Op>)
    decreases |ops|
  {
    ops == [] || ((mayWrite ==> Allowed(p, ops[0])) &&
                  AllAllowed(PlainStep(p, mayRead, mayWrite, ops[0]).0, mayRead, mayWrite, ops[1..]))
  }

  ghost function PlainRun(p: Plain, mayRead: bool, mayWrite: bool, ops: seq<Op>): (r: (Plain, seq<Reply>))
    requires AllAllowed(p, mayRead, mayWrite, ops)
    ensures |r.1| == |ops|
    decreases |ops|
  {
    if ops == [] then (p, [])
    else
      var first := PlainStep(p, mayRead, mayWrite, ops[0]);
      var rest := PlainRun(first.0, mayRead, mayWrite, ops[1..]);
      (rest.0, [first.1] + rest.1)
  }

  /** The byte sequence and position a descriptor starts with. */
  ghost function Started(disk: seq<Cluster>, ino: Inode, append: bool, emptied: bool): Plain
    requires InodeOk(ino)
  {
    var bytes := if emptied then [] else Content(disk, ino);
    Plain(bytes, if append then |bytes| else 0)
  }

  /** A page that is not written back has no cluster on disk. */
  ghost predicate Waits(disk: seq<Cluster>, table: seq<Inode>, id: nat, slots: seq<CacheSlot>) {
    id < |table| && InodeOk(table[id])
    && exists i :: 0 <= i < |slots| && slots[i].dirty && ViewOf(disk, table[id], slots[i].logical) == Hole
  }

  /** How far writing data from start on has come: what the file holds, what was touched and what waits in the cache. */
  ghost predicate Progress(bytes0: seq<byte>, start: nat, data: seq<byte>, total: nat, touches0: seq<nat>,
                           bytes: seq<byte>, touches: seq<nat>, slots: seq<CacheSlot>, ok: bool)
  {
    && start <= |bytes0| && total <= |data|
    && (ok ==> total == 0 || total == |data| || (start + total) % CLUSTER_SIZE == 0)
    && bytes == Splice(bytes0, start, data[..total])
    && touches == touches0 + ClusterRun(start / CLUSTER_SIZE, EndCluster(start, total))
    && (ok ==> WrittenOut(slots, start, start + total))
  }

  lemma ProgressStarts(bytes: seq<byte>, start: nat, data: seq<byte>, touches: seq<nat>, slots: seq<CacheSlot>)
    requires start <= |bytes|
    ensures Progress(bytes, start, data, 0, touches, bytes, touches, slots, true)
  {
    SpliceNothing(bytes, start);
    assert data[..0] == [];
    NothingWritten(slots, start);
  }

  lemma Progresses(bytes0: seq<byte>, start: nat, data: seq<byte>, total: nat, n: nat, touches0: seq<nat>,
                   bytes: seq<byte>, touches: seq<nat>, slots: seq<CacheSlot>,
                   bytes': seq<byte>, touches': seq<nat>, slots': seq<CacheSlot>, ok: bool)
    requires Progress(bytes0, start, data, total, touches0, bytes, touches, slots, true)
    requires total + n <= |data| && start + total <= |bytes| && bytes' == Splice(bytes, start + total, data[total..][..n])
    requires touches' == if n > 0 then touches + [(start + total) / CLUSTER_SIZE] else touches
    requires n > 0 ==> n == Min(|data| - total, CLUSTER_SIZE - (start + total) % CLUSTER_SIZE)
    requires ok ==> n > 0 && OneWritten(slots, slots', (start + total) / CLUSTER_SIZE, (start + total + n) % CLUSTER_SIZE == 0)
    ensures Progress(bytes0, start, data, total + n, touches0, bytes', touches', slots', ok)
  {
    hide Splice, WrittenOut, OneWritten, ClusterRun, EndCluster;
    MoreWritten(bytes0, start, data, total, n);
    if n > 0 {
      NextCluster(start, total, n);
      OneClusterMore(start / CLUSTER_SIZE, EndCluster(start, total));
    }
    if ok {
      WrittenOutStep(slots, slots', start, start + total, start + total + n);
    }
  }

  lemma ProgressIs(bytes0: seq<byte>, start: nat, data: seq<byte>, total: nat, touches0: seq<nat>,
                   bytes: seq<byte>, touches: seq<nat>, slots: seq<CacheSlot>, ok: bool)
    requires Progress(bytes0, start, data, total, touches0, bytes, touches, slots, ok)
    ensures start <= |bytes0| && total <= |data| && bytes == Splice(bytes0, start, data[..total])
    ensures touches == touches0 + ClusterRun(start / CLUSTER_SIZE, EndCluster(start, total))
    ensures ok ==> WrittenOut(slots, start, start + total)
  {
  }

  class OpenFile {
    const storage: Storage
    var isOpen: bool
    var inodeId: nat
    var position: nat
    var cachedSize: nat
    var allowRead: bool
    var allowWrite: bool
    const slots: array<CacheSlot>
    var counter: nat
    var validCount: nat
    /** The byte sequence the descriptor stands for. */
    ghost var bytes: seq<byte>
    /** The clusters used since the cache was last emptied. */
    ghost var touches: seq<nat>
    /** The inode as it was when opened, and whether the file owned only clusters it needed. */
    ghost var found: Inode
    ghost var tidy: bool

    ghost predicate Valid()
      reads this, slots, storage, storage.bitmap, storage.bitmap.buffer
    {
      && storage.Valid() && slots.Length == CACHE_CLUSTER_COUNT && validCount <= CACHE_CLUSTER_COUNT
      && slots as object != storage.bitmap.buffer as object
      && cachedSize == |bytes|
      && Holds(storage.disk, storage.bitmap.Used(), storage.table, storage.reserved, inodeId, bytes, slots[..validCount])
      && Recent(touches, counter, slots[..validCount])
      && Keeps(storage.disk, storage.bitmap.Used(), storage.table, storage.reserved, inodeId, bytes, found, tidy)
    }

    /** No cluster is free, and a page that waits to be written back has none of its own. */
    ghost predicate DiskFull()
      reads this, slots, storage, storage.bitmap, storage.bitmap.buffer
      requires storage.Valid()
    {
      AllUsed(storage.Vol(map[])) && validCount <= slots.Length && Waits(storage.disk, storage.table, inodeId, slots[..validCount])
    }

    /** Cluster l is cached, or a slot is free for it: nothing has to be written back to load it. */
    ghost predicate AtHand(l: nat)
      reads this, slots
    {
      validCount < 4 || (validCount <= slots.Length && Cached(slots[..validCount], l))
    }

    /** Nothing waits to be written back. */
    ghost predicate Clean()
      reads this, slots
    {
      validCount <= slots.Length && AllClean(slots[..validCount])
    }

    constructor (s: Storage)
      ensures !isOpen && storage == s && fresh(slots) && slots.Length == CACHE_CLUSTER_COUNT
    {
      storage, isOpen := s, false;
      slots := new CacheSlot[CACHE_CLUSTER_COUNT](_ => CacheSlot(0, [], false, 0));
      inodeId, position, cachedSize, allowRead, allowWrite, counter, validCount := 0, 0, 0, false, false, 0, 0;
    }

    method FlushSlot(i: nat) returns (status: Status)
      requires Valid()
      modifies slots, storage`disk, storage`table, storage`dirty, storage.bitmap.buffer
      ensures Valid()
      ensures OthersKept(old(storage.disk), storage.disk, old(storage.table), storage.table, inodeId)
      ensures status == Ok || status == NoSpace
      ensures status == Ok ==>
                slots[..] == if i < validCount then old(slots[..])[i := old(slots[i]).(dirty := false)] else old(slots[..])
      ensures status == NoSpace ==> DiskFull() && slots[..] == old(slots[..])
      ensures status == NoSpace ==>
                && i < validCount && inodeId < |storage.table| && InodeOk(storage.table[inodeId])
                && ViewOf(storage.disk, storage.table[inodeId], slots[i].logical) == Hole
      ensures i >= validCount || !old(slots[i]).dirty ==>
                status == Ok && storage.disk == old(storage.disk) && storage.table == old(storage.table)
    {
      hide Image, Sound, Coherent, Recent, Keeps, Holds, TableRoots, OthersKept, AllUsed, Flags, SameFile;
      if i >= validCount || !slots[i].dirty {
        KeptNothing(storage.disk, storage.table, inodeId);
        return Ok;
      }
      status := WriteBack(i);
    }

    /** Writes a dirty slot to disk. */
    method WriteBack(i: nat) returns (status: Status)
      requires Valid() && i < validCount && slots[i].dirty
      modifies slots, storage`disk, storage`table, storage`dirty, storage.bitmap.buffer
      ensures Valid()
      ensures OthersKept(old(storage.disk), storage.disk, old(storage.table), storage.table, inodeId)
      ensures status == Ok || status == NoSpace
      ensures status == Ok ==> slots[..] == old(slots[..])[i := old(slots[i]).(dirty := false)]
      ensures status == NoSpace ==> DiskFull() && slots[..] == old(slots[..])
      ensures status == NoSpace ==>
                && i < validCount && inodeId < |storage.table| && InodeOk(storage.table[inodeId])
                && ViewOf(storage.disk, storage.table[inodeId], slots[i].logical) == Hole
    {
      hide Image, Sound, Coherent, Recent, Keeps, Holds, TableRoots, Wrote, FileStep, OthersKept, AllUsed, GrownSize;
      hide ClustersFor, Flags;
      hide SameFile, ViewOf, Fills, SameLabels, Waits;
      ghost var cached := slots[..validCount];
      HoldsFacts(storage.disk, storage.bitmap.Used(), storage.table, storage.reserved, inodeId, bytes, cached);
      ghost var v, table := storage.With(storage.table[inodeId]), storage.table;
      SameEntry(table, inodeId);
      var ino := storage.table[inodeId];
      var written;
      status, ino, written := storage.WriteData(ino, slots[i].logical * CLUSTER_SIZE, slots[i].buffer);
      ghost var w := storage.With(ino);
      if status != Ok {
        AllOrNothing(cached[i].logical, written);
        assert cached[i].buffer[..written] == [];
        FlushAbandoned(v, w, table, inodeId, ino, bytes, cached, cached[i].logical * CLUSTER_SIZE);
        AbandonKeeps(v, w, table, inodeId, ino, bytes, found, tidy, cached[i].logical);
        FullIsFull(w, storage.Vol(map[]));
        PageWaits(storage.disk, storage.table, inodeId, slots[..validCount], i);
        return;
      }
      assert cached[i].buffer[..written] == cached[i].buffer;
      FlushSucceeded(v, w, table, inodeId, ino, bytes, cached, i);
      FlushKeeps(v, w, table, inodeId, ino, bytes, found, tidy, cached[i].logical);
      RecentFlags(touches, counter, cached, i, cached[i].(dirty := false));
      ino := ino.(size := cachedSize);
      slots[i] := slots[i].(dirty := false);
      assert slots[..validCount] == cached[i := cached[i].(dirty := false)];
      status := storage.WriteInode(ino);
    }

    method FlushAll() returns (status: Status)
      requires Valid()
      modifies slots, storage`disk, storage`table, storage`dirty, storage.bitmap.buffer
      ensures Valid()
      ensures OthersKept(old(storage.disk), storage.disk, old(storage.table), storage.table, inodeId)
      ensures status == Ok || status == NoSpace
      ensures status == Ok ==> AllClean(slots[..validCount])
      ensures status == NoSpace ==> DiskFull()
      ensures old(Clean()) ==> status == Ok
    {
      hide DiskFull;
      hide Image, Coherent, Recent, Keeps, Holds, OthersKept, AllUsed, SameFile;
      KeptNothing(storage.disk, storage.table, inodeId);
      for i := 0 to validCount
        invariant Valid()
        invariant OthersKept(old(storage.disk), storage.disk, old(storage.table), storage.table, inodeId)
        invariant forall j :: 0 <= j < i ==> !slots[j].dirty
        invariant old(Clean()) ==> forall j :: 0 <= j < validCount ==> !slots[j].dirty
      {
        ghost var d, t, before := storage.disk, storage.table, slots[..];
        status := FlushSlot(i);
        OthersKeptTransitive(old(storage.disk), d, storage.disk, old(storage.table), t, storage.table, inodeId);
        if status != Ok {
          return;
        }
        assert slots[..][i] == before[i].(dirty := false);
        forall j | 0 <= j < validCount && j != i ensures slots[j] == before[j] {
          assert slots[..][j] == before[j];
        }
      }
      return Ok;
    }

    method FindSlot(l: nat) returns (index: int)
      requires Valid()
      ensures -1 <= index < validCount
      ensures index == -1 <==> !Cached(slots[..validCount], l)
      ensures index >= 0 ==> slots[index].logical == l
    {
      hide Image, Coherent, Recent, Keeps, Holds;
      for i := 0 to validCount
        invariant forall j :: 0 <= j < i ==> slots[j].logical != l
      {
        if slots[i].logical == l {
          assert slots[..validCount][i].logical == l;
          return i;
        }
      }
      return -1;
    }

    /** The slot with the smallest time stamp. */
    method FindLeastRecentlyUsedSlot() returns (index: int)
      requires Valid()
      ensures validCount > 0 ==> 0 <= index < validCount
      ensures index >= 0 ==> forall j :: 0 <= j < validCount ==> slots[index].stamp <= slots[j].stamp
    {
      hide Image, Coherent, Recent, Keeps, Holds;
      index := -1;
      for i := 0 to validCount
        invariant -1 <= index < i
        invariant i > 0 ==> index >= 0
        invariant index >= 0 ==> forall j :: 0 <= j < i ==> slots[index].stamp <= slots[j].stamp
      {
        if index == -1 || slots[i].stamp < slots[index].stamp {
          index := i;
        }
      }
    }

    /** Reads a cluster that is not cached from disk, padding it with zeros. */
    method ReadPage(l: nat) returns (page: Cluster)
      requires Valid() && !Cached(slots[..validCount], l)
      modifies storage`disk, storage.bitmap.buffer
      ensures Valid() && storage.disk == old(storage.disk) && storage.bitmap.Used() == old(storage.bitmap.Used())
      ensures page == Page(bytes, l)
    {
      hide Image, Sound, Coherent, Recent, Keeps, Holds, TableRoots, RangeMapped, IsRange, Flags;
      ghost var cached := slots[..validCount];
      HoldsFacts(storage.disk, storage.bitmap.Used(), storage.table, storage.reserved, inodeId, bytes, cached);
      SameEntry(storage.table, inodeId);
      var ino := storage.table[inodeId];
      var status, data := storage.ReadData(ino, l * CLUSTER_SIZE, CLUSTER_SIZE);
      HoldsReadPage(storage.disk, storage.bitmap.Used(), storage.table, storage.reserved, inodeId, bytes, cached, l, data);
      page := data;
      if |data| < CLUSTER_SIZE {
        page := data + Zeros(CLUSTER_SIZE - |data|);
      }
    }

    /** Loads cluster l into slot target, a free one or a clean least recently used one. */
    method Fill(target: nat, l: nat)
      requires Valid() && !Cached(slots[..validCount], l) && target <= validCount
      requires target == validCount ==> validCount < CACHE_CLUSTER_COUNT
      requires target < validCount ==>
                 && validCount == CACHE_CLUSTER_COUNT && !slots[target].dirty
                 && forall j :: 0 <= j < validCount ==> slots[target].stamp <= slots[j].stamp
      modifies this`counter, this`validCount, this`touches, slots, storage`disk, storage.bitmap.buffer
      ensures Valid() && storage.disk == old(storage.disk) && storage.bitmap.Used() == old(storage.bitmap.Used())
      ensures target < validCount && slots[target].logical == l && !slots[target].dirty && touches == old(touches) + [l]
      ensures validCount == if target == old(validCount) then old(validCount) + 1 else old(validCount)
      ensures forall j :: 0 <= j < old(validCount) && j != target ==> slots[j] == old(slots[j])
    {
      hide Image, Coherent, Recent, Keeps, Holds, Flags, Page;
      ghost var cached := slots[..validCount];
      var page := ReadPage(l);
      HoldsPut(storage.disk, storage.bitmap.Used(), storage.table, storage.reserved, inodeId, bytes, cached, l,
               counter + 1, target);
      RecentLoad(touches, counter, cached, target, CacheSlot(l, page, false, counter + 1));
      counter := counter + 1;
      slots[target] := CacheSlot(l, page, false, counter);
      if target == validCount {
        validCount := validCount + 1;
      }
      touches := touches + [l];
      assert slots[..validCount] == Put(cached, target, CacheSlot(l, page, false, counter));
    }

    /** Loads the cluster after l while a slot is free. */
    method PrefetchNextCluster(l: nat)
      requires Valid()
      modifies this`counter, this`validCount, this`touches, slots, storage`disk, storage.bitmap.buffer
      ensures Valid() && storage.disk == old(storage.disk) && storage.bitmap.Used() == old(storage.bitmap.Used())
      ensures forall j :: 0 <= j < old(validCount) ==> slots[j] == old(slots[j])
      ensures touches == if old(validCount) < 4 && !Cached(old(slots[..validCount]), l + 1) then old(touches) + [l + 1]
                         else old(touches)
      ensures validCount == old(validCount) + |touches| - |old(touches)|
      ensures old(AllClean(slots[..validCount])) ==> AllClean(slots[..validCount])
    {
      hide Image, Coherent, Recent, Keeps, Holds, Flags, Page;
      if validCount >= CACHE_CLUSTER_COUNT {
        return;
      }
      var existing := FindSlot(l + 1);
      if existing != -1 {
        return;
      }
      Fill(validCount, l + 1);
    }

    /** Brings cluster l into a slot, writing back the least recently used one when no slot is free. */
    method LoadCluster(l: nat) returns (status: Status, index: nat)
      requires Valid()
      modifies this`counter, this`validCount, this`touches
      modifies slots, storage`disk, storage`table, storage`dirty, storage.bitmap.buffer
      ensures Valid()
      ensures OthersKept(old(storage.disk), storage.disk, old(storage.table), storage.table, inodeId)
      ensures status == Ok || status == NoSpace
      ensures status == Ok ==> index < validCount && slots[index].logical == l && touches == old(touches) + [l]
      ensures status == NoSpace ==> DiskFull() && touches == old(touches)
      ensures old(validCount) <= validCount
      ensures status == Ok ==> SameBut(old(slots[..validCount]), slots[..validCount], index)
      ensures old(AllClean(slots[..validCount])) ==> status == Ok && AllClean(slots[..validCount])
      ensures status == Ok ==>
                slots[index].dirty == (index < old(validCount) && old(slots[index]).logical == l && old(slots[index]).dirty)
      ensures old(AtHand(l)) ==> status == Ok
    {
      hide DiskFull;
      hide Image, Coherent, Recent, Keeps, Holds, OthersKept, AllUsed, SameFile, Flags, Page;
      KeptNothing(storage.disk, storage.table, inodeId);
      var existing := FindSlot(l);
      ghost var cached := slots[..validCount];
      if existing != -1 {
        HoldsTouch(storage.disk, storage.bitmap.Used(), storage.table, storage.reserved, inodeId, bytes, cached,
                   existing, counter + 1);
        RecentHit(touches, counter, cached, existing);
        counter := counter + 1;
        slots[existing] := slots[existing].(stamp := counter);
        touches := touches + [l];
        assert slots[..validCount] == cached[existing := cached[existing].(stamp := counter)];
        return Ok, existing;
      }
      var target := validCount;
      if validCount == CACHE_CLUSTER_COUNT {
        target := FindLeastRecentlyUsedSlot();
        status := FlushSlot(target);
        if status != Ok {
          return status, 0;
        }
        cached := slots[..validCount];
      }
      Fill(target, l);
      return Ok, target;
    }

    // ----- The operations of a descriptor -----

    /** Reads from the current position; only a full disk, when a page must be written back first, cuts it short. */
    method Read(count: nat) returns (status: Status, out: seq<byte>)
      requires isOpen ==> Valid()
      modifies this`position, this`counter, this`validCount, this`touches
      modifies slots, storage`disk, storage`table, storage`dirty, storage.bitmap.buffer
      ensures isOpen ==> Valid()
      ensures position == old(position) + |out|
      ensures !isOpen || !allowRead ==> status == InvalidArgument && out == []
      ensures isOpen && allowRead ==> status == Ok && out <= ReadBytes(bytes, old(position), count)
      ensures isOpen && allowRead ==> out == ReadBytes(bytes, old(position), count) || DiskFull()
      ensures isOpen && allowRead && old(Clean()) ==> out == ReadBytes(bytes, old(position), count)
      ensures isOpen && allowRead && old(AtHand(position / CLUSTER_SIZE)) ==>
                |out| >= Min(|ReadBytes(bytes, old(position), count)|, CLUSTER_SIZE - old(position) % CLUSTER_SIZE)
      ensures isOpen && old(Clean()) ==> Clean()
      ensures touches == ReadTouches(old(touches), old(position) / CLUSTER_SIZE, EndCluster(old(position), |out|))
      ensures isOpen ==>
                OthersKept(old(storage.disk), storage.disk, old(storage.table), storage.table, inodeId)
    {
      if !isOpen || !allowRead {
        if isOpen {
          KeptNothing(storage.disk, storage.table, inodeId);
        }
        return InvalidArgument, [];
      }
      var available := if cachedSize > position then cachedSize - position else 0;
      out := ReadLoop(if count > available then available else count, count);
      return Ok, out;
    }

    method ReadLoop(bytesToCopy: nat, ghost count: nat) returns (out: seq<byte>)
      requires Valid() && bytesToCopy == |ReadBytes(bytes, position, count)|
      modifies this`position, this`counter, this`validCount, this`touches
      modifies slots, storage`disk, storage`table, storage`dirty, storage.bitmap.buffer
      ensures Valid() && position == old(position) + |out|
      ensures out <= ReadBytes(bytes, old(position), count)
      ensures out == ReadBytes(bytes, old(position), count) || DiskFull()
      ensures old(AllClean(slots[..validCount])) ==> AllClean(slots[..validCount]) && out == ReadBytes(bytes, old(position), count)
      ensures touches == ReadTouches(old(touches), old(position) / CLUSTER_SIZE, EndCluster(old(position), |out|))
      ensures old(AtHand(position / CLUSTER_SIZE)) ==> |out| >= Min(bytesToCopy, CLUSTER_SIZE - old(position) % CLUSTER_SIZE)
      ensures OthersKept(old(storage.disk), storage.disk, old(storage.table), storage.table, inodeId)
    {
      hide DiskFull;
      hide Image, Coherent, Recent, Keeps, Holds, OthersKept, AllUsed, SameFile, Flags, Page, ReadBytes, TableOk;
      hide ReadTurn, EndCluster;
      ghost var expected := ReadBytes(bytes, position, count);
      KeptNothing(storage.disk, storage.table, inodeId);
      out := [];
      while |out| < bytesToCopy
        invariant Valid() && position == old(position) + |out|
        invariant |out| <= bytesToCopy && out <= expected
        invariant |out| == 0 || |out| == bytesToCopy || position % CLUSTER_SIZE == 0
        invariant old(AllClean(slots[..validCount])) ==> AllClean(slots[..validCount])
        invariant if out == [] then old(AtHand(position / CLUSTER_SIZE)) ==> AtHand(position / CLUSTER_SIZE)
                  else |out| >= Min(bytesToCopy, CLUSTER_SIZE - old(position) % CLUSTER_SIZE)
        invariant touches == ReadTouches(old(touches), old(position) / CLUSTER_SIZE, EndCluster(old(position), |out|))
        invariant OthersKept(old(storage.disk), storage.disk, old(storage.table), storage.table, inodeId)
        decreases bytesToCopy - |out|
      {
        var status, chunk := ReadChunkHere(bytesToCopy - |out|, old(storage.disk), old(storage.table));
        if status != Ok {
          break;
        }
        NextCluster(old(position), |out|, |chunk|);
        MoreRead(bytes, old(position), count, out, chunk);
        out := out + chunk;
      }
    }

    /** One turn of the read loop: at most wanted bytes, from one cached cluster. */
    method ReadChunkHere(wanted: nat, ghost disk0: seq<Cluster>, ghost table0: seq<Inode>)
      returns (status: Status, chunk: seq<byte>)
      requires Valid() && 0 < wanted && position + wanted <= cachedSize
      requires TableOk(table0) && OthersKept(disk0, storage.disk, table0, storage.table, inodeId)
      modifies this`position, this`counter, this`validCount, this`touches
      modifies slots, storage`disk, storage`table, storage`dirty, storage.bitmap.buffer
      ensures Valid() && OthersKept(disk0, storage.disk, table0, storage.table, inodeId)
      ensures status == Ok || status == NoSpace
      ensures status == Ok ==>
                && 0 < |chunk| <= wanted && chunk == bytes[old(position)..old(position) + |chunk|]
                && position == old(position) + |chunk|
                && |chunk| == Min(wanted, CLUSTER_SIZE - old(position) % CLUSTER_SIZE)
                && touches == ReadTurn(old(touches), old(position) / CLUSTER_SIZE)
      ensures status == NoSpace ==> position == old(position) && DiskFull() && touches == old(touches)
      ensures old(AtHand(position / CLUSTER_SIZE)) ==> status == Ok
      ensures old(AllClean(slots[..validCount])) ==> status == Ok && AllClean(slots[..validCount])
    {
      hide DiskFull;
      hide Image, Coherent, Recent, Keeps, Holds, OthersKept, AllUsed, SameFile, Flags, Page;
      hide Recency;
      ghost var d, t := storage.disk, storage.table;
      HoldsFacts(storage.disk, storage.bitmap.Used(), storage.table, storage.reserved, inodeId, bytes, slots[..validCount]);
      var target := position / CLUSTER_SIZE;
      var index;
      status, index := LoadCluster(target);
      HoldsFacts(storage.disk, storage.bitmap.Used(), storage.table, storage.reserved, inodeId, bytes, slots[..validCount]);
      OthersKeptTransitive(disk0, d, storage.disk, table0, t, storage.table, inodeId);
      if status != Ok {
        return status, [];
      }
      HoldsSlot(storage.disk, storage.bitmap.Used(), storage.table, storage.reserved, inodeId, bytes,
                slots[..validCount], index);
      var offsetInCache := position % CLUSTER_SIZE;
      var remaining := CLUSTER_SIZE - offsetInCache;
      var n := if remaining > wanted then wanted else remaining;
      PageSlice(bytes, position, n);
      chunk := slots[index].buffer[offsetInCache..offsetInCache + n];
      position := position + n;
      HoldsDistinct(storage.disk, storage.bitmap.Used(), storage.table, storage.reserved, inodeId, bytes,
                    slots[..validCount]);
      TouchedIsCached(touches, counter, slots[..validCount]);
      if n > 0 && validCount < CACHE_CLUSTER_COUNT {
        PrefetchNextCluster(target);
      }
      return Ok, chunk;
    }

    /** Writes at the current position, which lies within the file. */
    method Write(data: seq<byte>) returns (status: Status, written: nat)
      requires isOpen ==> Valid()
      requires isOpen && allowWrite ==> position <= cachedSize && position + |data| <= MAX_FILE_BYTES
      modifies this`position, this`counter, this`validCount, this`touches, this`bytes, this`cachedSize
      modifies slots, storage`disk, storage`table, storage`dirty, storage.bitmap.buffer
      ensures isOpen ==> Valid()
      ensures old(position) <= position <= old(position) + |data|
      ensures !isOpen || !allowWrite ==> status == InvalidArgument && position == old(position) && bytes == old(bytes)
      ensures isOpen && allowWrite ==> status == Ok || status == NoSpace
      ensures isOpen && allowWrite ==> bytes == Splice(old(bytes), old(position), data[..position - old(position)])
      ensures status == Ok ==> position == old(position) + |data|
      ensures written == if status == Ok then |data| else 0
      ensures isOpen && allowWrite && data != [] && old(AtHand(position / CLUSTER_SIZE)) ==> position > old(position)
      ensures status == NoSpace ==> DiskFull()
      ensures touches == old(touches) + ClusterRun(old(position) / CLUSTER_SIZE,
                                                   EndCluster(old(position), position - old(position)))
      ensures isOpen && allowWrite && status == Ok ==> WrittenOut(slots[..validCount], old(position), position)
      ensures isOpen && !allowWrite && old(Clean()) ==> Clean()
      ensures isOpen ==>
                OthersKept(old(storage.disk), storage.disk, old(storage.table), storage.table, inodeId)
    {
      hide Image, Coherent, Recent, Keeps, Holds, OthersKept, AllUsed, SameFile, Flags, Page, WrittenOut, DiskFull;
      if !isOpen || !allowWrite {
        if isOpen {
          KeptNothing(storage.disk, storage.table, inodeId);
        }
        return InvalidArgument, 0;
      }
      status := WriteLoop(data);
      return status, if status == Ok then |data| else 0;
    }

    method WriteLoop(data: seq<byte>) returns (status: Status)
      requires Valid() && position <= cachedSize && position + |data| <= MAX_FILE_BYTES
      modifies this`position, this`counter, this`validCount, this`touches, this`bytes, this`cachedSize
      modifies slots, storage`disk, storage`table, storage`dirty, storage.bitmap.buffer
      ensures Valid() && old(position) <= position <= old(position) + |data|
      ensures bytes == Splice(old(bytes), old(position), data[..position - old(position)])
      ensures status == Ok || status == NoSpace
      ensures status == Ok ==> position == old(position) + |data|
      ensures data != [] && old(AtHand(position / CLUSTER_SIZE)) ==> position > old(position)
      ensures status == NoSpace ==> DiskFull()
      ensures touches == old(touches) + ClusterRun(old(position) / CLUSTER_SIZE,
                                                   EndCluster(old(position), position - old(position)))
      ensures status == Ok ==> WrittenOut(slots[..validCount], old(position), position)
      ensures OthersKept(old(storage.disk), storage.disk, old(storage.table), storage.table, inodeId)
    {
      hide AtHand, DiskFull, Clean;
      hide Image, Coherent, Recent, Keeps, Holds, OthersKept, AllUsed, SameFile, Flags, Page, Splice, GrownSize, TableOk;
      hide Progress, OneWritten;
      KeptNothing(storage.disk, storage.table, inodeId);
      var total := 0;
      ghost var bytes0, touches0, start := bytes, touches, position;
      ProgressStarts(bytes, start, data, touches, slots[..validCount]);
      while total < |data|
        invariant Valid() && position == start + total <= cachedSize && total <= |data|
        invariant total == 0 && old(AtHand(position / CLUSTER_SIZE)) ==> AtHand(position / CLUSTER_SIZE)
        invariant Progress(bytes0, start, data, total, touches0, bytes, touches, slots[..validCount], true)
        invariant OthersKept(old(storage.disk), storage.disk, old(storage.table), storage.table, inodeId)
        decreases |data| - total
      {
        var n;
        ghost var bytes1, touches1, slots1 := bytes, touches, slots[..validCount];
        status, n := WriteChunkHere(data[total..], old(storage.disk), old(storage.table));
        Progresses(bytes0, start, data, total, n, touches0, bytes1, touches1, slots1, bytes, touches, slots[..validCount],
                   status == Ok);
        total := total + n;
        if status != Ok {
          ProgressIs(bytes0, start, data, total, touches0, bytes, touches, slots[..validCount], false);
          return;
        }
      }
      ProgressIs(bytes0, start, data, total, touches0, bytes, touches, slots[..validCount], true);
      return Ok;
    }

    /** One turn of the write loop: as many bytes of data as fit into one cached cluster. */
    method WriteChunkHere(data: seq<byte>, ghost disk0: seq<Cluster>, ghost table0: seq<Inode>)
      returns (status: Status, n: nat)
      requires Valid() && |data| > 0 && position <= cachedSize && position + |data| <= MAX_FILE_BYTES
      requires TableOk(table0) && OthersKept(disk0, storage.disk, table0, storage.table, inodeId)
      modifies this`position, this`counter, this`validCount, this`touches, this`bytes, this`cachedSize
      modifies slots, storage`disk, storage`table, storage`dirty, storage.bitmap.buffer
      ensures Valid() && OthersKept(disk0, storage.disk, table0, storage.table, inodeId)
      ensures n <= |data| && bytes == Splice(old(bytes), old(position), data[..n])
      ensures position == old(position) + n <= cachedSize
      ensures status == Ok || status == NoSpace
      ensures status == Ok ==> n > 0
      ensures n > 0 ==> n == Min(|data|, CLUSTER_SIZE - old(position) % CLUSTER_SIZE)
      ensures old(AtHand(position / CLUSTER_SIZE)) ==> n > 0
      ensures touches == if n > 0 then old(touches) + [old(position) / CLUSTER_SIZE] else old(touches)
      ensures status == Ok ==>
                OneWritten(old(slots[..validCount]), slots[..validCount], old(position) / CLUSTER_SIZE, position % CLUSTER_SIZE == 0)
      ensures status == NoSpace ==> DiskFull()
    {
      hide DiskFull, Clean;
      hide Image, Coherent, Recent, Keeps, Holds, OthersKept, AllUsed, SameFile, Flags, Page, Splice, OneWritten, SameBut;
      ghost var d, t, before := storage.disk, storage.table, slots[..validCount];
      HoldsFacts(storage.disk, storage.bitmap.Used(), storage.table, storage.reserved, inodeId, bytes, slots[..validCount]);
      var target := position / CLUSTER_SIZE;
      var index;
      status, index := LoadCluster(target);
      HoldsFacts(storage.disk, storage.bitmap.Used(), storage.table, storage.reserved, inodeId, bytes, slots[..validCount]);
      OthersKeptTransitive(disk0, d, storage.disk, table0, t, storage.table, inodeId);
      if status != Ok {
        SpliceNothing(bytes, position);
        assert data[..0] == [];
        return status, 0;
      }
      var space := CLUSTER_SIZE - position % CLUSTER_SIZE;
      n := if space > |data| then |data| else space;
      ghost var loaded := slots[..validCount];
      HoldsDistinct(storage.disk, storage.bitmap.Used(), storage.table, storage.reserved, inodeId, bytes, loaded);
      PatchSlot(index, data[..n], disk0, table0);
      status := FlushIfFull(index, disk0, table0);
      if status == Ok {
        LoadedAndWritten(before, loaded, slots[..validCount], index, target, position % CLUSTER_SIZE == 0);
      }
    }

    /** Writes a slot back once the position has reached the end of its cluster. */
    method FlushIfFull(index: nat, ghost disk0: seq<Cluster>, ghost table0: seq<Inode>) returns (status: Status)
      requires Valid() && index < validCount && slots[index].dirty
      requires TableOk(table0) && OthersKept(disk0, storage.disk, table0, storage.table, inodeId)
      modifies slots, storage`disk, storage`table, storage`dirty, storage.bitmap.buffer
      ensures Valid() && OthersKept(disk0, storage.disk, table0, storage.table, inodeId)
      ensures status == Ok || (status == NoSpace && DiskFull())
      ensures status == Ok ==>
                slots[..] == old(slots[..])[index := old(slots[index]).(dirty := position % CLUSTER_SIZE != 0)]
    {
      hide DiskFull;
      hide Image, Coherent, Recent, Keeps, Holds, OthersKept, AllUsed, SameFile;
      if position % CLUSTER_SIZE != 0 {
        assert slots[..] == slots[..][index := slots[index]];
        return Ok;
      }
      ghost var d, t := storage.disk, storage.table;
      HoldsFacts(storage.disk, storage.bitmap.Used(), storage.table, storage.reserved, inodeId, bytes,
                 slots[..validCount]);
      status := FlushSlot(index);
      HoldsFacts(storage.disk, storage.bitmap.Used(), storage.table, storage.reserved, inodeId, bytes,
                 slots[..validCount]);
      OthersKeptTransitive(disk0, d, storage.disk, table0, t, storage.table, inodeId);
    }

    /** Puts bytes into a cached cluster and, when the file grows, the new size into the inode. */
    method PatchSlot(index: nat, chunk: seq<byte>, ghost disk0: seq<Cluster>, ghost table0: seq<Inode>)
      requires Valid() && index < validCount && slots[index].logical == position / CLUSTER_SIZE
      requires 0 < |chunk| && position % CLUSTER_SIZE + |chunk| <= CLUSTER_SIZE
      requires position <= cachedSize && position + |chunk| <= MAX_FILE_BYTES
      requires TableOk(table0) && OthersKept(disk0, storage.disk, table0, storage.table, inodeId)
      modifies this`position, this`bytes, this`cachedSize, slots, storage`table, storage`dirty
      ensures Valid() && OthersKept(disk0, storage.disk, table0, storage.table, inodeId)
      ensures bytes == Splice(old(bytes), old(position), chunk) && position == old(position) + |chunk| <= cachedSize
      ensures forall j :: 0 <= j < validCount && j != index ==> slots[j] == old(slots[j])
      ensures slots[index].logical == old(slots[index]).logical && slots[index].dirty
    {
      hide Image, Coherent, Recent, Keeps, Holds, OthersKept, AllUsed, SameFile, Flags, Page, Splice, Patch;
      ghost var t, cached := storage.table, slots[..validCount];
      HoldsFacts(storage.disk, storage.bitmap.Used(), storage.table, storage.reserved, inodeId, bytes, cached);
      HoldsWrite(storage.disk, storage.bitmap.Used(), storage.table, storage.reserved, inodeId, bytes, cached, index,
                 position, chunk);
      RecentFlags(touches, counter, cached, index,
                  cached[index].(buffer := Patch(cached[index].buffer, position % CLUSTER_SIZE, chunk), dirty := true));
      SpliceGrows(bytes, position, chunk);
      ResizeKeeps(storage.disk, storage.bitmap.Used(), storage.table, storage.reserved, inodeId, bytes,
                  Splice(bytes, position, chunk), found, tidy);
      bytes := Splice(bytes, position, chunk);
      slots[index] := slots[index].(buffer := Patch(slots[index].buffer, position % CLUSTER_SIZE, chunk), dirty := true);
      assert slots[..validCount] == cached[index := slots[index]];
      position := position + |chunk|;
      if position > cachedSize {
        cachedSize := position;
        SyncInodeSize();
      }
      OthersKeptTransitive(disk0, storage.disk, storage.disk, table0, t, storage.table, inodeId);
    }

    /** Stores the cached size in the inode. */
    method SyncInodeSize()
      requires storage.Valid() && inodeId < |storage.table|
      modifies storage`table, storage`dirty
      ensures storage.Valid()
      ensures storage.table == old(storage.table)[inodeId := old(storage.table)[inodeId].(size := cachedSize)]
    {
      var ino := storage.table[inodeId];
      if ino.size != cachedSize {
        var status := storage.WriteInode(ino.(size := cachedSize));
      }
    }

    /** Writes back and forgets every cached cluster. */
    method FlushAndInvalidate() returns (status: Status)
      requires Valid()
      modifies this`validCount, this`touches
      modifies slots, storage`disk, storage`table, storage`dirty, storage.bitmap.buffer
      ensures Valid()
      ensures OthersKept(old(storage.disk), storage.disk, old(storage.table), storage.table, inodeId)
      ensures status == Ok || status == NoSpace
      ensures status == Ok ==>
                && validCount == 0 && touches == [] && Dense(storage.disk, storage.table[inodeId])
                && Content(storage.disk, storage.table[inodeId]) == bytes
                && storage.table[inodeId].clusterCount == ClustersFor(|bytes|)
      ensures status == NoSpace ==> DiskFull()
      ensures old(Clean()) ==> status == Ok && Clean()
    {
      hide DiskFull;
      hide Image, Coherent, Recent, Keeps, Holds, OthersKept, AllUsed, SameFile, Flags, Dense, Content;
      status := FlushAll();
      HoldsFacts(storage.disk, storage.bitmap.Used(), storage.table, storage.reserved, inodeId, bytes, slots[..validCount]);
      if status == Ok {
        HoldsEmptied(storage.disk, storage.bitmap.Used(), storage.table, storage.reserved, inodeId, bytes,
                     slots[..validCount]);
        RecentEmpty(counter);
        validCount := 0;
        touches := [];
        assert slots[..validCount] == [];
      }
    }

    method Seek(offset: int, origin: Origin) returns (status: Status)
      requires isOpen ==> Valid()
      modifies this`position, this`validCount, this`touches
      modifies slots, storage`disk, storage`table, storage`dirty, storage.bitmap.buffer
      ensures isOpen ==> Valid()
      ensures !isOpen ==> status == InvalidArgument && position == old(position)
      ensures isOpen ==> status == SeekStatus(|bytes|, old(position), offset, origin) || (status == NoSpace && DiskFull())
      ensures isOpen ==> position == if status == Ok then SeekTarget(|bytes|, old(position), offset, origin) else old(position)
      ensures isOpen && status == Ok && position / CLUSTER_SIZE != old(position) / CLUSTER_SIZE ==>
                && validCount == 0 && touches == []
                && Dense(storage.disk, storage.table[inodeId]) && Content(storage.disk, storage.table[inodeId]) == bytes
      ensures isOpen && old(Clean()) ==> Clean() && status != NoSpace
      ensures isOpen && status != NoSpace && position / CLUSTER_SIZE == old(position) / CLUSTER_SIZE ==>
                && slots[..] == old(slots[..]) && validCount == old(validCount) && touches == old(touches)
                && storage.disk == old(storage.disk) && storage.table == old(storage.table)
      ensures isOpen ==> OthersKept(old(storage.disk), storage.disk, old(storage.table), storage.table, inodeId)
    {
      if !isOpen {
        return InvalidArgument;
      }
      hide DiskFull, Clean;
      hide Image, Coherent, Recent, Keeps, Holds, OthersKept, AllUsed, SameFile, Flags, Dense, Content;
      HoldsFacts(storage.disk, storage.bitmap.Used(), storage.table, storage.reserved, inodeId, bytes, slots[..validCount]);
      KeptNothing(storage.disk, storage.table, inodeId);
      var target;
      match origin {
        case FromStart => target := offset;
        case FromCurrent => target := position + offset;
        case FromEnd => target := cachedSize + offset;
        case Other => return InvalidArgument;
      }
      if target < 0 {
        return OutOfBounds;
      }
      if position / CLUSTER_SIZE != target / CLUSTER_SIZE {
        status := FlushAndInvalidate();
        if status != Ok {
          return;
        }
      }
      position := target;
      return Ok;
    }

    /** Writes everything back; the descriptor stays open when that fails for lack of space. */
    method Close() returns (status: Status)
      requires isOpen ==> Valid()
      modifies this`isOpen
      modifies slots, storage`disk, storage`table, storage`dirty, storage.bitmap.buffer
      ensures old(isOpen) ==> Valid()
      ensures !old(isOpen) ==> status == InvalidArgument && !isOpen
      ensures old(isOpen) ==> status == Ok || (status == NoSpace && isOpen && DiskFull())
      ensures old(isOpen) && old(Clean()) ==> status == Ok
      ensures old(isOpen) && status == Ok ==>
                && !isOpen && Dense(storage.disk, storage.table[inodeId])
                && Content(storage.disk, storage.table[inodeId]) == bytes
                && storage.table[inodeId].clusterCount == ClustersFor(|bytes|)
                && (tidy ==> Occupies(storage.Vol(TableRoots(storage.table)), inodeId, ClustersFor(|bytes|)))
      ensures old(isOpen) ==> OthersKept(old(storage.disk), storage.disk, old(storage.table), storage.table, inodeId)
    {
      if !isOpen {
        return InvalidArgument;
      }
      hide DiskFull, Clean;
      hide Image, Coherent, Recent, Keeps, Holds, OthersKept, AllUsed, SameFile, Flags, AllClean, Dense, Content;
      status := FlushAll();
      if status != Ok {
        return;
      }
      HoldsFacts(storage.disk, storage.bitmap.Used(), storage.table, storage.reserved, inodeId, bytes, slots[..validCount]);
      HoldsEmptied(storage.disk, storage.bitmap.Used(), storage.table, storage.reserved, inodeId, bytes,
                   slots[..validCount]);
      SameEntry(storage.table, inodeId);
      status := storage.WriteInode(storage.table[inodeId].(size := cachedSize));
      isOpen := false;
      if tidy {
        ClosedOccupies(storage.Vol(TableRoots(storage.table)), storage.table, inodeId, bytes, found, tidy);
      }
    }

    /** Opens a file whose inode has been found; the file is emptied first when asked to. */
    method Open(target: nat, mayRead: bool, mayWrite: bool, append: bool, truncate: bool) returns (status: Status)
      requires !isOpen && storage.Valid() && slots.Length == CACHE_CLUSTER_COUNT
      requires slots as object != storage.bitmap.buffer as object && Sound(storage.Vol(TableRoots(storage.table)))
      requires target < |storage.table| && !(truncate && mayWrite) ==>
                 WellStored(storage.disk, storage.table[target])
      modifies this
      modifies storage`table, storage`dirty, storage.bitmap.buffer
      ensures storage.Valid() && Sound(storage.Vol(TableRoots(storage.table)))
      ensures status == if (mayRead || mayWrite) && target < |old(storage.table)| && old(storage.table)[target].kind == Regular
                        then Ok else InvalidArgument
      ensures status == Ok ==>
                && isOpen && Valid() && inodeId == target && allowRead == mayRead && allowWrite == mayWrite && Clean()
                && bytes == (if truncate && mayWrite then [] else Content(storage.disk, old(storage.table)[target]))
                && position == (if append then |bytes| else 0)
                && OthersKept(storage.disk, storage.disk, old(storage.table), storage.table, target)
                && SameLabels(old(storage.table)[target], found)
                && (truncate && mayWrite ==> tidy)
                && (Occupies(old(storage.Vol(TableRoots(storage.table))), target, ClustersFor(old(storage.table)[target].size)) ==> tidy)
      ensures status != Ok ==> storage.table == old(storage.table) && !isOpen
    {
      hide Image, Coherent, Recent, Keeps, Sound, OthersKept, AllUsed, SameFile, Flags, AllClean, Dense, Content;
      hide TableRoots;
      if !mayRead && !mayWrite {
        return InvalidArgument;
      }
      if target >= |storage.table| || storage.table[target].kind != Regular {
        return InvalidArgument;
      }
      KeptNothing(storage.disk, storage.table, target);
      if truncate && mayWrite {
        SameEntry(storage.table, target);
        var ino;
        status, ino := storage.TruncateFile(storage.table[target]);
        EmptiedOthers(storage.disk, old(storage.table), storage.table, target);
        EmptiedWellStored(storage.disk, ino);
      }
      Begin(target, mayRead, mayWrite, append);
      if truncate && mayWrite {
        EmptyWithin(storage.Vol(TableRoots(storage.table)), storage.table, target, ClustersFor(found.size));
      } else {
        NeededWithin(storage.Vol(TableRoots(storage.table)), target, ClustersFor(found.size));
      }
      return Ok;
    }

    /** Sets up the descriptor for a stored file. */
    method Begin(target: nat, mayRead: bool, mayWrite: bool, append: bool)
      requires storage.Valid() && slots.Length == CACHE_CLUSTER_COUNT
      requires slots as object != storage.bitmap.buffer as object && Sound(storage.Vol(TableRoots(storage.table)))
      requires target < |storage.table| && WellStored(storage.disk, storage.table[target])
      modifies this
      ensures isOpen && Valid() && inodeId == target && allowRead == mayRead && allowWrite == mayWrite && Clean()
      ensures bytes == Content(storage.disk, storage.table[target])
      ensures position == (if append then |bytes| else 0)
      ensures found == storage.table[target]
      ensures tidy == Within(storage.Vol(TableRoots(storage.table)), target, ClustersFor(found.size))
    {
      hide Image, Coherent, Recent, Keeps, Holds, Sound, Flags, Dense, WellStored, Content, TableRoots, Within, ClustersFor;
      var ino := storage.table[target];
      bytes := Content(storage.disk, ino);
      OpensHeld(storage.disk, storage.bitmap.Used(), storage.table, storage.reserved, target);
      BeginKeeps(storage.disk, storage.bitmap.Used(), storage.table, storage.reserved, target, bytes);
      RecentEmpty(0);
      found := ino;
      tidy := Within(storage.Vol(TableRoots(storage.table)), target, ClustersFor(ino.size));
      isOpen, inodeId, cachedSize, allowRead, allowWrite := true, target, ino.size, mayRead, mayWrite;
      validCount, counter, touches := 0, 0, [];
      position := if append then ino.size else 0;
      assert slots[..0] == [];
    }

    /** A whole run of operations: as long as the disk does not fill up, the replies are those of a plain byte sequence. */
    method Run(ops: seq<Op>) returns (replies: seq<Reply>)
      requires isOpen && Valid() && AllAllowed(Plain(bytes, position), allowRead, allowWrite, ops)
      modifies this`position, this`counter, this`validCount, this`touches, this`bytes, this`cachedSize
      modifies slots, storage`disk, storage`table, storage`dirty, storage.bitmap.buffer
      ensures Valid()
      ensures replies <= PlainRun(old(Plain(bytes, position)), allowRead, allowWrite, ops).1
      ensures |replies| == |ops| ==>
                Plain(bytes, position) == PlainRun(old(Plain(bytes, position)), allowRead, allowWrite, ops).0
      ensures |replies| < |ops| ==> DiskFull()
      ensures old(Clean()) && !allowWrite ==> |replies| == |ops| && Clean()
      ensures OthersKept(old(storage.disk), storage.disk, old(storage.table), storage.table, inodeId)
      decreases |ops|
    {
      hide DiskFull, Clean;
      hide Image, Coherent, Recent, Keeps, Holds, OthersKept, AllUsed, SameFile, Flags, Splice, GrownSize, ReadBytes;
      KeptNothing(storage.disk, storage.table, inodeId);
      if ops == [] {
        return [];
      }
      var ok, reply := RunOne(ops[0]);
      if !ok {
        return [];
      }
      ghost var d, t := storage.disk, storage.table;
      var rest := Run(ops[1..]);
      OthersKeptTransitive(old(storage.disk), d, storage.disk, old(storage.table), t, storage.table, inodeId);
      return [reply] + rest;
    }

    method RunOne(op: Op) returns (ok: bool, reply: Reply)
      requires isOpen && Valid() && (allowWrite ==> Allowed(Plain(bytes, position), op))
      modifies this`position, this`counter, this`validCount, this`touches, this`bytes, this`cachedSize
      modifies slots, storage`disk, storage`table, storage`dirty, storage.bitmap.buffer
      ensures Valid()
      ensures ok ==> (Plain(bytes, position), reply) == PlainStep(old(Plain(bytes, position)), allowRead, allowWrite, op)
      ensures !ok ==> DiskFull()
      ensures old(Clean()) && !allowWrite ==> ok && Clean()
      ensures OthersKept(old(storage.disk), storage.disk, old(storage.table), storage.table, inodeId)
    {
      hide DiskFull, Clean;
      hide Image, Coherent, Recent, Keeps, Holds, OthersKept, AllUsed, SameFile, Flags, Splice, GrownSize, ReadBytes, Page;
      KeptNothing(storage.disk, storage.table, inodeId);
      match op {
        case ReadOp(count) =>
          var expected := if allowRead then ReadLength(cachedSize, position, count) else 0;
          ghost var plain := ReadBytes(bytes, position, count);
          var status, out := Read(count);
          assert out <= plain && |out| == |plain| ==> out == plain;
          return |out| == expected, Reply(status, out, |out|);
        case WriteOp(data) =>
          var status, written := Write(data);
          assert data[..|data|] == data;
          return status != NoSpace, Reply(status, [], written);
        case SeekOp(offset, origin) =>
          var status := Seek(offset, origin);
          return status != NoSpace, Reply(status, [], 0);
      }
    }

    /**
     Open, a run of operations, close: unless the disk fills up, the replies are those of the plain byte sequence
     the file was, and the clusters on disk end up holding the plain byte sequence that results. A file that owned
     exactly the clusters it needed, or is emptied on opening, owns exactly those it needs afterwards.
     */
    method Session(target: nat, mayRead: bool, mayWrite: bool, append: bool, truncate: bool, ops: seq<Op>)
      returns (status: Status, replies: seq<Reply>)
      requires !isOpen && storage.Valid() && slots.Length == CACHE_CLUSTER_COUNT
      requires slots as object != storage.bitmap.buffer as object && Sound(storage.Vol(TableRoots(storage.table)))
      requires target < |storage.table| && storage.table[target].kind == Regular && (mayRead || mayWrite)
      requires WellStored(storage.disk, storage.table[target])
      requires AllAllowed(Started(storage.disk, storage.table[target], append, truncate && mayWrite), mayRead, mayWrite, ops)
      modifies this, slots, storage`disk, storage`table, storage`dirty, storage.bitmap.buffer
      ensures storage.Valid() && target < |storage.table|
      ensures var run := PlainRun(old(Started(storage.disk, storage.table[target], append, truncate && mayWrite)),
                                  mayRead, mayWrite, ops);
              && replies <= run.1
              && (status == Ok ==>
                    && replies == run.1 && !isOpen
                    && Content(storage.disk, storage.table[target]) == run.0.bytes
                    && WellStored(storage.disk, storage.table[target]))
      ensures SameLabels(old(storage.table)[target], storage.table[target])
      ensures status == Ok && ((truncate && mayWrite) || Occupies(old(storage.Vol(TableRoots(storage.table))), target,
                                                                  ClustersFor(old(storage.table)[target].size))) ==>
                Occupies(storage.Vol(TableRoots(storage.table)), target, ClustersFor(storage.table[target].size))
      ensures status != Ok ==> DiskFull()
      ensures !mayWrite ==> status == Ok
      ensures Sound(storage.Vol(TableRoots(storage.table)))
      ensures OthersKept(old(storage.disk), storage.disk, old(storage.table), storage.table, target)
    {
      hide DiskFull, Clean;
      hide Image, Coherent, Recent, Keeps, Holds, Sound, OthersKept, AllUsed, SameFile, Flags, Dense, Content;
      hide TableRoots, PlainRun, AllAllowed;
      ghost var d0, t0 := storage.disk, storage.table;
      status := Open(target, mayRead, mayWrite, append, truncate);
      ghost var t1 := storage.table;
      replies := Run(ops);
      ghost var d2, t2 := storage.disk, storage.table;
      OthersKeptTransitive(d0, d0, d2, t0, t1, t2, target);
      HoldsFacts(storage.disk, storage.bitmap.Used(), storage.table, storage.reserved, inodeId, bytes, slots[..validCount]);
      KeepsFacts(storage.disk, storage.bitmap.Used(), storage.table, storage.reserved, inodeId, bytes, found, tidy);
      if |replies| < |ops| {
        return NoSpace, replies;
      }
      status := Close();
      HoldsFacts(storage.disk, storage.bitmap.Used(), storage.table, storage.reserved, inodeId, bytes, slots[..validCount]);
      KeepsFacts(storage.disk, storage.bitmap.Used(), storage.table, storage.reserved, inodeId, bytes, found, tidy);
      OthersKeptTransitive(d0, d2, storage.disk, t0, t2, storage.table, target);
    }
  }
}
