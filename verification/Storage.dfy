/** The allocator: resolving, reading, writing and truncating files stored in clusters. */
module Storage {
  import opened Basics
  import opened Bitmap
  import opened Clusters
  import opened Ownership
  import opened Inodes
  import opened FileViews
  import opened AllocationSteps
  import opened Truncation
  import opened Occupancy
  import opened TableImage

  class Storage {
    /** The clusters of the disk; reads and writes of existing clusters succeed. */
    var disk: seq<Cluster>
    const bitmap: Bitmap
    /** The inode table held in memory. */
    var table: seq<Inode>
    /** The table has changed since it was last written to disk. */
    var dirty: bool
    /** Clusters of the superblock, the bitmap and the inode table on disk. */
    const reserved: nat
    const super: Superblock

    /** Memory and disk fit together; in particular the table on disk is current unless marked dirty. */
    ghost predicate Valid()
      reads this, bitmap.buffer
    {
      bitmap.Valid() && bitmap.total == |disk| && TableOk(table) && Image(disk, table, dirty, super, reserved)
    }

    ghost function Vol(roots: Roots): (v: Volume)
      reads this, bitmap.buffer
      requires Valid()
    {
      Volume(disk, bitmap.Used(), roots, reserved)
    }

    /** The volume in which the in-memory copy ino stands for its table entry. */
    ghost function With(ino: Inode): (v: Volume)
      reads this, bitmap.buffer
      requires Valid() && InodeOk(ino) && ino.id < |table|
    {
      Vol(TableRoots(table[ino.id := ino]))
    }

    constructor (clusters: seq<Cluster>, clusterMap: Bitmap, inodes: seq<Inode>, changed: bool, superblock: Superblock,
                 metadataClusters: nat)
      requires clusterMap.Valid() && clusterMap.total == |clusters| && TableOk(inodes)
      requires Image(clusters, inodes, changed, superblock, metadataClusters)
      ensures Valid() && disk == clusters && bitmap == clusterMap && table == inodes && dirty == changed
      ensures super == superblock && reserved == metadataClusters
    {
      disk, bitmap, table, dirty := clusters, clusterMap, inodes, changed;
      super, reserved := superblock, metadataClusters;
    }

    method AllocateAndZeroCluster() returns (status: Status, n: nat)
      requires Valid() && forall c :: 0 <= c < reserved && c < |disk| ==> bitmap.Used()[c]
      modifies this`disk, bitmap.buffer
      ensures Valid()
      ensures status == Ok || status == NoSpace
      ensures status == Ok ==>
                && n < |disk| && !old(bitmap.Used())[n] && (forall j :: 0 <= j < n ==> old(bitmap.Used())[j])
                && disk == old(disk)[n := ZeroCluster()]
                && bitmap.Used() == old(bitmap.Used())[n := true]
      ensures status == NoSpace ==>
                && disk == old(disk) && bitmap.Used() == old(bitmap.Used())
                && forall c :: 0 <= c < |disk| ==> bitmap.Used()[c]
    {
      status, n := bitmap.FindFree();
      if status != Ok {
        return status, 0;
      }
      hide Flags, Image;
      var marked := bitmap.MarkUsed(n);
      DataWriteKeepsImage(disk, table, dirty, super, reserved, n, ZeroCluster());
      disk := disk[n := ZeroCluster()];
      return Ok, n;
    }

    /** Reads pointer offset of a pointer cluster, giving it a cluster of its own when asked to. */
    method FollowPointer(parent: nat, offset: nat, allocate: bool, ghost roots: Roots, ghost key: Key, ghost path: Path)
      returns (status: Status, child: nat)
      requires Valid() && Sound(Vol(roots)) && Position(roots, key, path) && |path| < roots[key].depth
      requires parent == Owned(disk, roots, key, path) != 0 && offset < POINTERS_PER_CLUSTER
      modifies this`disk, bitmap.buffer
      ensures Valid() && Followed(old(Vol(roots)), Vol(roots), key, path + [offset], allocate, status, child)
    {
      hide Image;
      ghost var v := Vol(roots);
      SoundAt(v, key, path);
      AtChild(disk, roots[key].cluster, path, offset);
      GrewNothing(v, key, path + [offset]);
      var pointers := disk[parent];
      child := Ptr(pointers, offset);
      if child == 0 && allocate {
        status, child := AllocateAndZeroCluster();
        if status != Ok {
          return status, 0;
        }
        GrowChild(v, key, path, offset, child);
        DataWriteKeepsImage(disk, table, dirty, super, reserved, parent, SetPtr(pointers, offset, child));
        disk := disk[parent := SetPtr(pointers, offset, child)];
        assert Vol(roots) == LinkedChild(AllocateIn(v, child), key, path, offset, child);
      }
      return Ok, child;
    }

    /** Reads pointer k of the inode, giving it a cluster when asked to. */
    method FollowRoot(ino: Inode, k: nat, allocate: bool, ghost l: nat)
      returns (status: Status, ino': Inode, c: nat)
      requires Valid() && InodeOk(ino) && ino.id < |table| && k == SlotFor(l) && Sound(With(ino))
      modifies this`disk, bitmap.buffer
      ensures Valid() && InodeOk(ino') && ino'.id == ino.id
      ensures PartWay(old(With(ino)), With(ino'), ino, ino', l, allocate, [])
      ensures Arrived(With(ino'), Slot(ino.id, k), [], allocate, status, c)
      ensures status == NoSpace ==> ino' == ino && With(ino) == old(With(ino)) && Pointer(ino, k) == 0
      ensures status == Ok && Pointer(ino, k) == 0 && c != 0 ==> c < |disk| && disk[c] == ZeroCluster()
    {
      hide Image;
      ghost var v := With(ino);
      ghost var entries := table[ino.id := ino];
      GrewNothing(v, Slot(ino.id, k), []);
      SetPointerSame(ino, k);
      ino' := ino;
      c := Pointer(ino, k);
      if c == 0 && allocate {
        status, c := AllocateAndZeroCluster();
        if status != Ok {
          return status, ino, 0;
        }
        hide Sound, Grew, Image;
        GrowRoot(v, Slot(ino.id, k), c);
        ino' := SetPointer(ino, k, c);
        TableRootsUpdate(entries, ino.id, k, c);
        assert entries[ino.id := ino'] == table[ino.id := ino'];
        assert With(ino') == LinkedRoot(AllocateIn(v, c), Slot(ino.id, k), c);
      }
      return Ok, ino', c;
    }

    /** Follows the pointers at the given offsets down from parent, to the data cluster at the end. */
    method Descend(ino: Inode, ino': Inode, l: nat, allocate: bool, parent: nat, offsets: seq<nat>,
                   ghost a: Volume, ghost inodes: seq<Inode>, ghost q: Path)
      returns (status: Status, physical: nat)
      requires Valid() && InodeOk(ino) && InodeOk(ino') && ino.id == ino'.id < |table| && l < MAX_FILE_CLUSTERS
      requires Describes(a, inodes, ino) && PartWay(a, With(ino'), ino, ino', l, allocate, q)
      requires q + offsets == PathFor(l) && offsets != []
      requires Slot(ino.id, SlotFor(l)) in With(ino').roots
      requires parent == Owned(disk, With(ino').roots, Slot(ino.id, SlotFor(l)), q) != 0
      modifies this`disk, bitmap.buffer
      ensures Valid()
      ensures Resolved(a, With(ino'), ino, ino', l, allocate, status, physical)
      decreases |offsets|
    {
      hide Image, Sound, Grew, At, Owned, Followed, Resolved, PathFor, TableRoots, AllUsed, SetPointer, Pointer, SlotFor;
      ghost var key, inodes' := Slot(ino.id, SlotFor(l)), table[ino.id := ino'];
      ghost var b, q' := With(ino'), q + [offsets[0]];
      assert q' + offsets[1..] == q + offsets;
      PrefixPosition(inodes', ino.id, l, q);
      PrefixPosition(inodes', ino.id, l, q');
      assert q'[|q|] == offsets[0];
      status, physical := FollowPointer(parent, offsets[0], allocate, b.roots, key, q);
      if |offsets| == 1 {
        LastPointer(a, b, With(ino'), ino, ino', l, allocate, q, offsets[0], status, physical, inodes, inodes');
        if status == Ok && physical == 0 {
          status := OutOfBounds;
        }
        return;
      }
      OneFurther(a, b, With(ino'), ino, ino', l, allocate, q, offsets[0], status, physical);
      if status != Ok {
        StopForSpace(a, With(ino'), ino, ino', l, allocate, q, offsets[0], inodes, inodes');
        return status, 0;
      }
      if physical == 0 {
        StopAtHole(a, With(ino'), ino, ino', inodes', l, allocate, q');
        return OutOfBounds, 0;
      }
      status, physical := Descend(ino, ino', l, allocate, physical, offsets[1..], a, inodes, q');
    }

    method ResolveCluster(ino: Inode, l: nat, allocate: bool)
      returns (status: Status, ino': Inode, physical: nat)
      requires Valid() && InodeOk(ino) && ino.id < |table| && l < MAX_FILE_CLUSTERS && Sound(With(ino))
      modifies this`disk, bitmap.buffer
      ensures Valid() && InodeOk(ino') && ino'.id == ino.id
      ensures Resolved(old(With(ino)), With(ino'), ino, ino', l, allocate, status, physical)
    {
      if l < DIRECT_POINTERS {
        status, ino', physical := ResolveIndirect(ino, l, l, [], allocate);
      } else if l < DOUBLE_START {
        status, ino', physical := ResolveIndirect(ino, l, SINGLE_SLOT, [l - DIRECT_POINTERS], allocate);
      } else if l < TRIPLE_START {
        var remaining := l - DOUBLE_START;
        var outerOffset := remaining / POINTERS_PER_CLUSTER;
        var innerOffset := remaining % POINTERS_PER_CLUSTER;
        status, ino', physical := ResolveIndirect(ino, l, DOUBLE_SLOT, [outerOffset, innerOffset], allocate);
      } else {
        var remaining := l - TRIPLE_START;
        var outerOffset := remaining / SQUARE;
        var midRemaining := remaining % SQUARE;
        var midOffset := midRemaining / POINTERS_PER_CLUSTER;
        var innerOffset := midRemaining % POINTERS_PER_CLUSTER;
        status, ino', physical :=
          ResolveIndirect(ino, l, TRIPLE_SLOT, [outerOffset, midOffset, innerOffset], allocate);
      }
    }

    /** Resolves l through inode pointer k and the pointer clusters below it. */
    method ResolveIndirect(ino: Inode, l: nat, k: nat, offsets: seq<nat>, allocate: bool)
      returns (status: Status, ino': Inode, physical: nat)
      requires Valid() && InodeOk(ino) && ino.id < |table| && l < MAX_FILE_CLUSTERS && Sound(With(ino))
      requires k == SlotFor(l) && offsets == PathFor(l)
      modifies this`disk, bitmap.buffer
      ensures Valid() && InodeOk(ino') && ino'.id == ino.id
      ensures Resolved(old(With(ino)), With(ino'), ino, ino', l, allocate, status, physical)
    {
      hide Image, Sound, Grew, At, Owned, Resolved, TableRoots;
      ghost var a, inodes := With(ino), table[ino.id := ino];
      status, ino', physical := FollowRoot(ino, k, allocate, l);
      ghost var inodes' := table[ino.id := ino'];
      PrefixPosition(inodes', ino.id, l, []);
      if status != Ok {
        NoSpaceAtRoot(a, ino, l, allocate);
        return status, ino', 0;
      }
      if physical == 0 {
        StopAtHole(a, With(ino'), ino, ino', inodes', l, allocate, []);
        return OutOfBounds, ino', 0;
      }
      if offsets == [] {
        DirectResolved(a, With(ino'), ino, ino', l, allocate, physical, inodes, inodes');
        return;
      }
      assert [] + offsets == PathFor(l);
      status, physical := Descend(ino, ino', l, allocate, physical, offsets, a, inodes, []);
    }

    // ----- Reading and writing file data -----

    /** Resolves a cluster without allocating and loads its data. */
    method ReadMapped(ino: Inode, l: nat) returns (status: Status, data: Cluster)
      requires Valid() && InodeOk(ino) && ino.id < |table| && Sound(With(ino)) && l < MAX_FILE_CLUSTERS
      modifies this`disk, bitmap.buffer
      ensures Valid() && disk == old(disk) && bitmap.Used() == old(bitmap.Used())
      ensures status == if ViewOf(disk, ino, l) == Hole then OutOfBounds else Ok
      ensures status == Ok ==> IsCluster(data) && ViewOf(disk, ino, l) == Data(data)
    {
      hide Image, Sound, Grew, Lookup, TableRoots;
      LookupInRange(With(ino), table[ino.id := ino], ino.id, l);
      var ino', physical;
      status, ino', physical := ResolveCluster(ino, l, false);
      if status != Ok {
        return status, [];
      }
      return Ok, disk[physical];
    }

    /** Up to count bytes from offset on; fails when a cluster in the range is not mapped. */
    method ReadData(ino: Inode, offset: nat, count: nat) returns (status: Status, bytes: seq<byte>)
      requires Valid() && InodeOk(ino) && ino.id < |table| && Sound(With(ino))
      requires ino.size <= MAX_FILE_CLUSTERS * CLUSTER_SIZE
      modifies this`disk, bitmap.buffer
      ensures Valid() && disk == old(disk) && bitmap.Used() == old(bitmap.Used())
      ensures var n := ReadLength(ino.size, offset, count);
              && (status == Ok <==> RangeMapped(disk, ino, offset, n))
              && (status == Ok ==> IsRange(disk, ino, offset, n, bytes))
              && (status != Ok ==> status == OutOfBounds)
    {
      hide Image;
      bytes := [];
      if offset >= ino.size {
        return Ok, [];
      }
      var bytesAvailable := ino.size - offset;
      var bytesToCopy := if count > bytesAvailable then bytesAvailable else count;
      while |bytes| < bytesToCopy
        invariant Valid() && disk == old(disk) && bitmap.Used() == old(bitmap.Used())
        invariant |bytes| <= bytesToCopy && IsRange(disk, ino, offset, |bytes|, bytes)
        decreases bytesToCopy - |bytes|
      {
        var logical := (offset + |bytes|) / CLUSTER_SIZE;
        var offsetInCluster := (offset + |bytes|) % CLUSTER_SIZE;
        var bytesInCluster := CLUSTER_SIZE - offsetInCluster;
        var chunkSize := if bytesToCopy - |bytes| > bytesInCluster then bytesInCluster else bytesToCopy - |bytes|;
        hide IsRange, RangeMapped;
        var data;
        status, data := ReadMapped(ino, logical);
        if status != Ok {
          HoleInRange(disk, ino, offset, bytesToCopy, offset + |bytes|);
          return status, [];
        }
        ReadChunk(disk, ino, offset, bytes, data, chunkSize);
        bytes := bytes + data[offsetInCluster..offsetInCluster + chunkSize];
      }
      RangeIsMapped(disk, ino, offset, |bytes|, bytes);
      return Ok, bytes;
    }

    /** Writes bytes that lie within one cluster, allocating it when it is not mapped. */
    method WriteChunk(ino: Inode, l: nat, offsetInCluster: nat, chunk: seq<byte>) returns (status: Status, ino': Inode)
      requires Valid() && InodeOk(ino) && ino.id < |table| && Sound(With(ino)) && l < MAX_FILE_CLUSTERS
      requires 0 < |chunk| && offsetInCluster + |chunk| <= CLUSTER_SIZE
      modifies this`disk, bitmap.buffer
      ensures Valid() && InodeOk(ino') && ino'.id == ino.id && ino'.size == ino.size && SameLabels(ino, ino')
      ensures FileStep(old(With(ino)), With(ino'), table[ino.id := ino], table[ino.id := ino'], ino.id)
      ensures Fills(old(With(ino)), With(ino'), ino.id, l + 1)
      ensures status == Ok || status == NoSpace
      ensures status == Ok ==>
                var base := BaseOf(ViewOf(old(disk), ino, l));
                && IsCluster(base)
                && ClusterWritten(old(With(ino)), With(ino'), table[ino.id := ino], table[ino.id := ino'], ino.id, l,
                                  Patch(base, offsetInCluster, chunk))
      ensures status == NoSpace ==>
                AllUsed(With(ino')) && SameFile(old(disk), disk, ino, ino') && ViewOf(old(disk), ino, l) == Hole
    {
      hide Image, Sound, Grew, Lookup, ViewOf, TableRoots, FileStep, ClusterWritten, Fills, SameOwned, SameFile;
      hide AllUsed, OnlyBacked, Flags;
      ghost var v, inodes := With(ino), table[ino.id := ino];
      var physical;
      status, ino', physical := ResolveCluster(ino, l, true);
      ghost var w, inodes' := With(ino'), table[ino.id := ino'];
      ResolvedViews(v, w, inodes, inodes', ino, ino', l, status, physical);
      ResolvedFills(v, w, ino, ino', l, status, physical);
      if status != Ok {
        return;
      }
      ghost var buffer := PatchCluster(ino', l, physical, offsetInCluster, chunk);
      ChunkDone(v, w, With(ino'), inodes, inodes', ino.id, l, buffer);
    }

    /** Writes a chunk into a mapped cluster; a whole cluster is not read first. */
    method PatchCluster(ino: Inode, l: nat, physical: nat, offsetInCluster: nat,
                        chunk: seq<byte>) returns (ghost data: Cluster)
      requires Valid() && InodeOk(ino) && ino.id < |table| && Sound(With(ino)) && l < MAX_FILE_CLUSTERS
      requires physical == Lookup(disk, ino, l) != 0 && reserved <= physical < |disk| && IsCluster(disk[physical])
      requires offsetInCluster + |chunk| <= CLUSTER_SIZE
      modifies this`disk
      ensures Valid() && data == Patch(old(disk)[physical], offsetInCluster, chunk)
      ensures FileStep(old(With(ino)), With(ino), table[ino.id := ino], table[ino.id := ino], ino.id)
      ensures ClusterWritten(old(With(ino)), With(ino), table[ino.id := ino], table[ino.id := ino], ino.id, l, data)
      ensures SameOwned(old(With(ino)), With(ino))
    {
      hide Image, Sound, Lookup, ViewOf, TableRoots, FileStep, ClusterWritten, SameOwned, Flags;
      var buffer := ZeroCluster();
      if |chunk| < CLUSTER_SIZE {
        buffer := disk[physical];
      }
      PatchWhole(disk[physical], ZeroCluster(), chunk);
      buffer := Patch(buffer, offsetInCluster, chunk);
      data := buffer;
      ClusterWriteIsFileStep(With(ino), table[ino.id := ino], ino.id, l, buffer);
      DataWriteKeepsImage(disk, table, dirty, super, reserved, physical, buffer);
      disk := disk[physical := buffer];
    }

    /** Writes source at offset, cluster by cluster; on a full disk a prefix of it has been written. */
    method WriteData(ino: Inode, offset: nat, source: seq<byte>)
      returns (status: Status, ino': Inode, written: nat)
      requires Valid() && InodeOk(ino) && ino.id < |table| && Sound(With(ino))
      requires offset + |source| <= MAX_FILE_CLUSTERS * CLUSTER_SIZE
      modifies this`disk, bitmap.buffer
      ensures Valid() && InodeOk(ino') && ino'.id == ino.id && SameLabels(ino, ino')
      ensures FileStep(old(With(ino)), With(ino'), table[ino.id := ino], table[ino.id := ino'], ino.id)
      ensures Fills(old(With(ino)), With(ino'), ino.id, ClustersFor(offset + |source|))
      ensures status == Ok || status == NoSpace
      ensures written <= |source| && Wrote(old(disk), disk, ino, ino', offset, source[..written])
      ensures ino'.size == GrownSize(ino.size, offset, written)
      ensures status == Ok ==> written == |source| && ino'.clusterCount == ClustersFor(ino'.size)
      ensures status == NoSpace ==>
                && written < |source| && AllUsed(With(ino'))
                && ViewOf(old(disk), ino, (offset + written) / CLUSTER_SIZE) == Hole
      ensures written == |source| || written == 0 || (offset + written) % CLUSTER_SIZE == 0
    {
      hide Image, Sound, Wrote, ViewOf, TableRoots, WriteState, Fills;
      written := 0;
      ino' := ino;
      ghost var v, inodes := With(ino), table[ino.id := ino];
      WriteStateStart(v, inodes, ino, offset);
      FillsNothing(v, ino.id, ClustersFor(offset + |source|));
      assert source[..0] == [];
      while written < |source|
        invariant Valid() && InodeOk(ino') && ino'.id == ino.id && SameLabels(ino, ino') && written <= |source|
        invariant WriteState(v, With(ino'), inodes, table[ino.id := ino'], ino, ino', offset, source[..written])
        invariant Fills(v, With(ino'), ino.id, ClustersFor(offset + |source|))
        invariant written == |source| || written == 0 || (offset + written) % CLUSTER_SIZE == 0
      {
        status, ino', written := WriteNext(ino, ino', offset, source, written, v, inodes);
        if status != Ok {
          WriteStateFacts(v, With(ino'), inodes, table[ino.id := ino'], ino, ino', offset, source[..written]);
          return;
        }
      }
      assert source[..written] == source;
      ghost var counted := ino'.(clusterCount := ClustersFor(ino'.size));
      WriteStateResize(v, With(ino'), inodes, table[ino.id := ino'], ino, ino', counted, offset, source[..written]);
      assert table[ino.id := ino'][ino.id := counted] == table[ino.id := counted];
      ino' := ino'.(clusterCount := (ino'.size + CLUSTER_SIZE - 1) / CLUSTER_SIZE);
      WriteStateFacts(v, With(ino'), inodes, table[ino.id := ino'], ino, ino', offset, source[..written]);
      return Ok, ino', written;
    }

    /** One turn of the write loop. */
    method WriteNext(ino: Inode, current: Inode, offset: nat, source: seq<byte>, written: nat,
                     ghost v: Volume, ghost inodes: seq<Inode>)
      returns (status: Status, ino': Inode, written': nat)
      requires Valid() && InodeOk(current) && InodeOk(ino) && current.id == ino.id < |table| && written < |source|
      requires offset + |source| <= MAX_FILE_CLUSTERS * CLUSTER_SIZE && TableOk(inodes) && |inodes| == |table|
      requires Sound(v) && OfTable(v, inodes) && inodes[ino.id] == ino
      requires WriteState(v, With(current), inodes, table[ino.id := current], ino, current, offset, source[..written])
      requires Fills(v, With(current), ino.id, ClustersFor(offset + |source|))
      modifies this`disk, bitmap.buffer
      ensures Valid() && InodeOk(ino') && ino'.id == ino.id && SameLabels(current, ino')
      ensures status == Ok || status == NoSpace
      ensures written <= written' <= |source|
      ensures WriteState(v, With(ino'), inodes, table[ino.id := ino'], ino, ino', offset, source[..written'])
      ensures Fills(v, With(ino'), ino.id, ClustersFor(offset + |source|))
      ensures status == Ok ==> written < written' && (written' == |source| || (offset + written') % CLUSTER_SIZE == 0)
      ensures status == NoSpace ==>
                && written' == written && AllUsed(With(ino'))
                && ViewOf(v.disk, ino, (offset + written) / CLUSTER_SIZE) == Hole
    {
      hide Image, Sound, Wrote, ViewOf, TableRoots, WriteState, FileStep, ClusterWritten, Fills, ClustersFor;
      hide AllUsed, SameFile, GrownSize, Flags;
      ghost var w, entries := With(current), table[ino.id := current];
      WriteStateFacts(v, w, inodes, entries, ino, current, offset, source[..written]);
      var offsetInCluster := (offset + written) % CLUSTER_SIZE;
      var bytesInCluster := CLUSTER_SIZE - offsetInCluster;
      var chunkSize := if |source| - written > bytesInCluster then bytesInCluster else |source| - written;
      var chunk := source[written..written + chunkSize];
      status, ino' := WriteChunk(current, (offset + written) / CLUSTER_SIZE, offsetInCluster, chunk);
      ghost var x := With(ino');
      NextFills(v, w, x, ino.id, offset, |source|, written);
      if status != Ok {
        WriteStateStuck(v, w, x, inodes, entries, table[ino.id := ino'], ino, current, ino', offset, source[..written]);
        HoleFromStart(v, w.disk, inodes, ino, current, offset, source[..written]);
        return status, ino', written;
      }
      written' := written + chunkSize;
      assert source[..written] + chunk == source[..written'];
      ghost var resized := ino'.(size := GrownSize(ino.size, offset, written'));
      WriteStateChunk(v, w, x, inodes, entries, table[ino.id := ino'], ino, current, ino', offset,
                      source[..written], chunk, source[..written'], written');
      RewrittenEntry(table, ino.id, ino', resized);
      assert With(resized) == x;
      GrowsOnce(ino.size, offset, written, written');
      ino' := if offset + written' > ino'.size then ino'.(size := offset + written') else ino';
      assert ino' == resized;
    }

    // ----- The inode table -----

    method WriteInode(ino: Inode) returns (status: Status)
      requires Valid() && InodeOk(ino)
      modifies this`table, this`dirty
      ensures Valid()
      ensures ino.id < old(|table|) ==> status == Ok && table == old(table)[ino.id := ino] && dirty
      ensures ino.id >= old(|table|) ==> status == InvalidArgument && table == old(table) && dirty == old(dirty)
    {
      if ino.id >= |table| {
        return InvalidArgument;
      }
      DirtyImage(disk, table, dirty, super, reserved, table[ino.id := ino]);
      table := table[ino.id := ino];
      dirty := true;
      return Ok;
    }

    /** Marks the first unused inode used. */
    method AllocateInode(kind: FileType) returns (status: Status, id: nat)
      requires Valid()
      modifies this`table, this`dirty
      ensures Valid()
      ensures status == Ok || status == NoSpace
      ensures status == Ok ==>
                && id < |old(table)| && !old(table)[id].isUsed
                && (forall j :: 0 <= j < id ==> old(table)[j].isUsed)
                && table == old(table)[id := NewInode(id, kind)] && dirty
                && table[id] == Inode(id, kind, true, 1, 0, 0, [0, 0, 0, 0, 0, 0, 0, 0, 0, 0, 0, 0], 0, 0, 0)
      ensures status == NoSpace ==>
                table == old(table) && dirty == old(dirty) && forall j :: 0 <= j < |table| ==> table[j].isUsed
    {
      for i := 0 to |table|
        invariant Valid() && table == old(table) && dirty == old(dirty)
        invariant forall j :: 0 <= j < i ==> table[j].isUsed
      {
        if !table[i].isUsed {
          status := WriteInode(NewInode(i, kind));
          return status, i;
        }
      }
      return NoSpace, 0;
    }

    method FreeInode(id: nat) returns (status: Status)
      requires Valid()
      modifies this`table, this`dirty
      ensures Valid()
      ensures id < old(|table|) ==>
                && status == Ok && table == old(table)[id := EmptyInode(id)] && dirty
                && table[id] == Inode(id, Regular, false, 0, 0, 0, [0, 0, 0, 0, 0, 0, 0, 0, 0, 0, 0, 0], 0, 0, 0)
      ensures id >= old(|table|) ==> status == InvalidArgument && table == old(table) && dirty == old(dirty)
    {
      if id >= |table| {
        return InvalidArgument;
      }
      status := WriteInode(EmptyInode(id));
    }

    // ----- Truncation -----

    /** Marks a pointer cluster and everything below it free. */
    method FreeIndirectBlocks(cluster: nat, depth: nat, ghost v: Volume, ghost key: Key, ghost path: Path)
      requires Valid() && Sound(v) && v.disk == disk && Position(v.roots, key, path)
      requires cluster == Owned(disk, v.roots, key, path) && |path| + depth == v.roots[key].depth && depth > 0
      modifies bitmap.buffer
      ensures Released(v, key, path, old(bitmap.Used()), bitmap.Used())
      decreases depth
    {
      hide Image, Sound, At, Released, ReleasedFirst;
      if cluster == 0 {
        ReleasedNothing(v, key, path, bitmap.Used());
        return;
      }
      SoundAt(v, key, path);
      SoundCluster(v, cluster);
      var pointers := disk[cluster];
      ReleasedNone(v, key, path, bitmap.Used());
      for index := 0 to POINTERS_PER_CLUSTER
        invariant ReleasedFirst(v, key, path, index, old(bitmap.Used()), bitmap.Used())
      {
        ghost var used, child := bitmap.Used(), path + [index];
        AtChild(disk, v.roots[key].cluster, path, index);
        SoundAt(v, key, child);
        var pointer := Ptr(pointers, index);
        if pointer != 0 {
          if depth == 1 {
            ReleasedLeaf(v, key, child, used);
            var freed := bitmap.MarkFree(pointer);
          } else {
            FreeIndirectBlocks(pointer, depth - 1, v, key, child);
          }
        } else {
          ReleasedNothing(v, key, child, used);
        }
        ReleasedNext(v, key, path, index, old(bitmap.Used()), used, bitmap.Used());
      }
      ReleasedAll(v, key, path, old(bitmap.Used()), bitmap.Used());
      var freed := bitmap.MarkFree(cluster);
    }

    /** Releases everything below pointer k of the inode. */
    method FreeSlot(ino: Inode, k: nat, ghost v: Volume)
      requires Valid() && Sound(v) && v.disk == disk && k < SLOT_COUNT && InodeOk(ino)
      requires Slot(ino.id, k) in v.roots && v.roots[Slot(ino.id, k)] == Root(Pointer(ino, k), SlotDepth(k))
      modifies bitmap.buffer
      ensures Released(v, Slot(ino.id, k), [], old(bitmap.Used()), bitmap.Used())
    {
      hide Image, Sound, Released;
      ghost var key := Slot(ino.id, k);
      SoundAt(v, key, []);
      var pointer := Pointer(ino, k);
      if pointer != 0 {
        if k < DIRECT_POINTERS {
          ReleasedLeaf(v, key, [], bitmap.Used());
          var freed := bitmap.MarkFree(pointer);
        } else {
          FreeIndirectBlocks(pointer, SlotDepth(k), v, key, []);
        }
      } else {
        ReleasedNothing(v, key, [], bitmap.Used());
      }
    }

    /** Empties a file: all its clusters become free, all its pointers 0. */
    method TruncateFile(ino: Inode) returns (status: Status, ino': Inode)
      requires Valid() && InodeOk(ino) && ino.id < |table| && Sound(With(ino))
      modifies this`table, this`dirty, bitmap.buffer
      ensures Valid() && status == Ok && dirty
      ensures ino' == ino.(size := 0, clusterCount := 0, directClusters := ino'.directClusters,
                           singleIndirect := 0, doubleIndirect := 0, tripleIndirect := 0)
      ensures NoPointers(ino') && table == old(table)[ino.id := ino']
      ensures Truncated(old(With(ino)), ino.id, old(bitmap.Used()), bitmap.Used())
      ensures Sound(Vol(TableRoots(table)))
      ensures OthersSame(old(With(ino)), Vol(TableRoots(table)), old(table)[ino.id := ino], table, ino.id)
    {
      ghost var v := With(ino);
      hide Image, Sound, ReleasedSlots, Released, Truncated;
      ino' := ino.(size := 0, clusterCount := 0);
      NoSlotsReleased(v, ino.id, bitmap.Used());
      for k := 0 to SLOT_COUNT
        invariant Valid() && table == old(table) && InodeOk(ino') && ino'.id == ino.id
        invariant ino' == ino.(size := 0, clusterCount := 0, directClusters := ino'.directClusters,
                               singleIndirect := ino'.singleIndirect, doubleIndirect := ino'.doubleIndirect,
                               tripleIndirect := ino'.tripleIndirect)
        invariant forall j :: 0 <= j < SLOT_COUNT ==> Pointer(ino', j) == if j < k then 0 else Pointer(ino, j)
        invariant ReleasedSlots(v, ino.id, k, old(bitmap.Used()), bitmap.Used())
      {
        ghost var used := bitmap.Used();
        FreeSlot(ino', k, v);
        ReleasedNextSlot(v, ino.id, k, old(bitmap.Used()), used, bitmap.Used());
        ino' := SetPointer(ino', k, 0);
      }
      assert Pointer(ino', SINGLE_SLOT) == 0 && Pointer(ino', DOUBLE_SLOT) == 0 && Pointer(ino', TRIPLE_SLOT) == 0;
      AllSlotsReleased(v, ino.id, old(bitmap.Used()), bitmap.Used());
      status := WriteInode(ino');
      TruncatedIsSound(v, Vol(TableRoots(table)), old(table)[ino.id := ino], table, ino.id);
    }
  }
}
