/** Files seen through their pointers: the data cluster, and the byte, at each logical place. */
module FileViews {
  import opened Basics
  import opened Clusters
  import opened Ownership
  import opened Inodes

  datatype View = Hole | Data(cluster: Cluster)

  /** The data of logical cluster l of an inode. */
  ghost function ViewOf(disk: seq<Cluster>, ino: Inode, l: nat): View
    requires InodeOk(ino)
  {
    var c := Lookup(disk, ino, l);
    if c == 0 || c >= |disk| then Hole else Data(disk[c])
  }

  ghost function ByteIn(view: View, i: nat): int {
    if view.Data? && i < |view.cluster| then view.cluster[i] else -1
  }

  /** Byte k of the file's clusters, -1 where no cluster is mapped. */
  ghost function ByteAt(disk: seq<Cluster>, ino: Inode, k: nat): int
    requires InodeOk(ino)
  {
    ByteIn(ViewOf(disk, ino, k / CLUSTER_SIZE), k % CLUSTER_SIZE)
  }

  /** v is the volume of the given inode table. */
  ghost predicate OfTable(v: Volume, inodes: seq<Inode>) {
    TableOk(inodes) && v.roots == TableRoots(inodes)
  }

  /** All files except inode id read the same in both volumes. */
  ghost predicate OthersSame(v: Volume, v': Volume, inodes: seq<Inode>, inodes': seq<Inode>, id: nat)
    requires TableOk(inodes) && TableOk(inodes')
  {
    && |inodes| == |inodes'|
    && forall j, l :: 0 <= j < |inodes| && j != id && 0 <= l < MAX_FILE_CLUSTERS ==>
         ViewOf(v'.disk, inodes'[j], l) == ViewOf(v.disk, inodes[j], l)
  }

  /** In a sound volume a mapped cluster exists on disk. */
  lemma LookupInRange(v: Volume, inodes: seq<Inode>, id: nat, l: nat)
    requires Sound(v) && OfTable(v, inodes) && id < |inodes| && l < MAX_FILE_CLUSTERS
    ensures Lookup(v.disk, inodes[id], l) != 0 ==>
              v.reserved <= Lookup(v.disk, inodes[id], l) < |v.disk| && IsCluster(v.disk[Lookup(v.disk, inodes[id], l)])
  {
    LookupPosition(inodes, id, l);
    LookupIsOwned(v.disk, inodes, id, l);
    SoundAt(v, Slot(id, SlotFor(l)), PathFor(l));
  }

  /** Growth along the path of cluster l changes no other view. */
  lemma GrewViews(v: Volume, v': Volume, inodes: seq<Inode>, inodes': seq<Inode>, id: nat, l: nat, j: nat, m: nat)
    requires Sound(v) && OfTable(v, inodes) && OfTable(v', inodes') && |inodes| == |inodes'|
    requires id < |inodes| && j < |inodes| && l < MAX_FILE_CLUSTERS && m < MAX_FILE_CLUSTERS
    requires Grew(v, v', Slot(id, SlotFor(l)), PathFor(l))
    ensures (j, m) != (id, l) ==> ViewOf(v'.disk, inodes'[j], m) == ViewOf(v.disk, inodes[j], m)
    ensures ViewOf(v.disk, inodes[j], m) != Hole ==>
              && ViewOf(v'.disk, inodes'[j], m) == ViewOf(v.disk, inodes[j], m)
              && Lookup(v'.disk, inodes'[j], m) == Lookup(v.disk, inodes[j], m)
  {
    var key, path := Slot(j, SlotFor(m)), PathFor(m);
    LookupPosition(inodes, j, m);
    LookupPosition(inodes', j, m);
    LookupIsOwned(v.disk, inodes, j, m);
    LookupIsOwned(v'.disk, inodes', j, m);
    if (j, m) != (id, l) && key == Slot(id, SlotFor(l)) && path <= PathFor(l) {
      assert path == PathFor(l);
      PathInjective(l, m);
    }
    hide Sound, At, Lookup, PathFor, SlotFor, TableRoots;
    if Owned(v.disk, v.roots, key, path) != 0 {
      assert SameCluster(v, v', Owned(v.disk, v.roots, key, path));
    }
  }

  // ----- Writing one cluster of a file -----

  /** Exactly the data of cluster l of inode id has become data. */
  ghost predicate ClusterWritten(v: Volume, v': Volume, inodes: seq<Inode>, inodes': seq<Inode>,
                                 id: nat, l: nat, data: Cluster)
    requires TableOk(inodes) && TableOk(inodes') && id < |inodes| == |inodes'|
  {
    && ViewOf(v'.disk, inodes'[id], l) == Data(data)
    && forall j, m :: 0 <= j < |inodes| && 0 <= m < MAX_FILE_CLUSTERS && (j, m) != (id, l) ==>
         ViewOf(v'.disk, inodes'[j], m) == ViewOf(v.disk, inodes[j], m)
  }

  lemma LeafWriteViews(v: Volume, inodes: seq<Inode>, id: nat, l: nat, data: Cluster)
    requires Sound(v) && OfTable(v, inodes) && id < |inodes| && l < MAX_FILE_CLUSTERS && IsCluster(data)
    requires Lookup(v.disk, inodes[id], l) != 0
    ensures Lookup(v.disk, inodes[id], l) < |v.disk|
    ensures var v' := v.(disk := v.disk[Lookup(v.disk, inodes[id], l) := data]);
            Sound(v') && ClusterWritten(v, v', inodes, inodes, id, l, data)
  {
    var key, path := Slot(id, SlotFor(l)), PathFor(l);
    LookupPosition(inodes, id, l);
    LookupIsOwned(v.disk, inodes, id, l);
    LookupInRange(v, inodes, id, l);
    WriteLeaf(v, key, path, data);
    var v' := LeafWritten(v, key, path, data);
    forall j, m | 0 <= j < |inodes| && 0 <= m < MAX_FILE_CLUSTERS
      ensures ViewOf(v'.disk, inodes[j], m) ==
              if (j, m) == (id, l) then Data(data) else ViewOf(v.disk, inodes[j], m)
    {
      LeafWriteView(v, inodes, id, l, data, j, m);
    }
  }

  lemma LeafWriteView(v: Volume, inodes: seq<Inode>, id: nat, l: nat, data: Cluster, j: nat, m: nat)
    requires Sound(v) && OfTable(v, inodes) && id < |inodes| && j < |inodes|
    requires l < MAX_FILE_CLUSTERS && m < MAX_FILE_CLUSTERS
    requires Lookup(v.disk, inodes[id], l) != 0 && Lookup(v.disk, inodes[id], l) < |v.disk|
    requires SameOwned(v, v.(disk := v.disk[Lookup(v.disk, inodes[id], l) := data]))
    ensures var disk' := v.disk[Lookup(v.disk, inodes[id], l) := data];
            ViewOf(disk', inodes[j], m) == if (j, m) == (id, l) then Data(data) else ViewOf(v.disk, inodes[j], m)
  {
    var v' := v.(disk := v.disk[Lookup(v.disk, inodes[id], l) := data]);
    var key, path := Slot(id, SlotFor(l)), PathFor(l);
    var key', path' := Slot(j, SlotFor(m)), PathFor(m);
    LookupPosition(inodes, id, l);
    LookupPosition(inodes, j, m);
    LookupIsOwned(v.disk, inodes, id, l);
    LookupIsOwned(v.disk, inodes, j, m);
    LookupIsOwned(v'.disk, inodes, j, m);
    if (j, m) != (id, l) && Lookup(v.disk, inodes[j], m) == Lookup(v.disk, inodes[id], l) {
      SameOwner(v, key, path, key', path');
      PathInjective(l, m);
    }
  }

  /** The cluster a write starts from: the mapped data, or zeros where none is mapped. */
  ghost function BaseOf(view: View): Cluster {
    if view.Data? then view.cluster else ZeroCluster()
  }

  function Patch(c: seq<byte>, off: nat, data: seq<byte>): (c': seq<byte>)
    requires off + |data| <= |c|
    ensures |c'| == |c|
    ensures forall i :: 0 <= i < |c| ==> c'[i] == if off <= i < off + |data| then data[i - off] else c[i]
  {
    c[..off] + data + c[off + |data|..]
  }

  // ----- Writing a range of bytes -----

  /** Cluster l holds one of the n bytes from offset on. */
  ghost predicate Touched(offset: nat, n: nat, l: nat) {
    n > 0 && offset / CLUSTER_SIZE <= l <= (offset + n - 1) / CLUSTER_SIZE
  }

  /** The byte at k after data has been written at offset, given the byte before. */
  ghost function WrittenByte(before: int, k: nat, offset: nat, data: seq<byte>): int {
    if offset <= k < offset + |data| then data[k - offset]
    else if before >= 0 then before
    else if Touched(offset, |data|, k / CLUSTER_SIZE) then 0
    else -1
  }

  ghost predicate Wrote(disk: seq<Cluster>, disk': seq<Cluster>, ino: Inode, ino': Inode, offset: nat, data: seq<byte>)
    requires InodeOk(ino) && InodeOk(ino')
  {
    forall k: nat :: k < MAX_FILE_CLUSTERS * CLUSTER_SIZE ==>
      ByteAt(disk', ino', k) == WrittenByte(ByteAt(disk, ino, k), k, offset, data)
  }

  lemma WroteNothing(disk: seq<Cluster>, ino: Inode, offset: nat)
    requires InodeOk(ino)
    ensures Wrote(disk, disk, ino, ino, offset, [])
  {
    forall k: nat | k < MAX_FILE_CLUSTERS * CLUSTER_SIZE
      ensures ByteAt(disk, ino, k) == WrittenByte(ByteAt(disk, ino, k), k, offset, [])
    {
      ByteInRange(ViewOf(disk, ino, k / CLUSTER_SIZE), k % CLUSTER_SIZE);
    }
  }

  lemma ByteInRange(view: View, i: nat)
    ensures -1 <= ByteIn(view, i)
  {
  }

  /** Where a chunk lies: all its bytes are in the cluster of its first byte. */
  lemma ChunkPlaces(offset: nat, m: nat, n: nat, k: nat)
    requires n > 0 && (offset + m) % CLUSTER_SIZE + n <= CLUSTER_SIZE
    ensures var l, q := (offset + m) / CLUSTER_SIZE, (offset + m) % CLUSTER_SIZE;
            && (k / CLUSTER_SIZE != l ==>
                  && !(offset + m <= k < offset + m + n)
                  && (Touched(offset, m + n, k / CLUSTER_SIZE) <==> Touched(offset, m, k / CLUSTER_SIZE)))
            && (k / CLUSTER_SIZE == l ==>
                  && (offset + m <= k < offset + m + n <==> q <= k % CLUSTER_SIZE < q + n)
                  && k - offset - m == k % CLUSTER_SIZE - q
                  && Touched(offset, m + n, l))
  {
    var l, q := (offset + m) / CLUSTER_SIZE, (offset + m) % CLUSTER_SIZE;
    assert offset + m == l * CLUSTER_SIZE + q;
    assert k == k / CLUSTER_SIZE * CLUSTER_SIZE + k % CLUSTER_SIZE;
    assert (offset + m + n - 1) / CLUSTER_SIZE == l;
    if m > 0 && q > 0 {
      assert (offset + m - 1) / CLUSTER_SIZE == l;
    } else if m > 0 {
      assert (offset + m - 1) / CLUSTER_SIZE == l - 1;
    }
  }

  /** Extending a write by one chunk. */
  lemma ExtendByte(before: int, middle: View, k: nat, offset: nat, data: seq<byte>, chunk: seq<byte>)
    requires |chunk| > 0 && (offset + |data|) % CLUSTER_SIZE + |chunk| <= CLUSTER_SIZE
    requires middle.Data? ==> IsCluster(middle.cluster)
    requires -1 <= before && ByteIn(middle, k % CLUSTER_SIZE) == WrittenByte(before, k, offset, data)
    ensures var l, q := (offset + |data|) / CLUSTER_SIZE, (offset + |data|) % CLUSTER_SIZE;
            WrittenByte(before, k, offset, data + chunk) ==
            if k / CLUSTER_SIZE == l then Patch(BaseOf(middle), q, chunk)[k % CLUSTER_SIZE]
            else ByteIn(middle, k % CLUSTER_SIZE)
  {
    ChunkPlaces(offset, |data|, |chunk|, k);
    assert |data + chunk| == |data| + |chunk|;
  }

  lemma WroteStep(v0: Volume, v: Volume, v': Volume, ino0: Inode, inodes: seq<Inode>, inodes': seq<Inode>, id: nat,
                  offset: nat, data: seq<byte>, chunk: seq<byte>)
    requires InodeOk(ino0) && TableOk(inodes) && TableOk(inodes') && id < |inodes| == |inodes'|
    requires Sound(v) && OfTable(v, inodes)
    requires Wrote(v0.disk, v.disk, ino0, inodes[id], offset, data)
    requires |chunk| > 0 && (offset + |data|) % CLUSTER_SIZE + |chunk| <= CLUSTER_SIZE
    requires offset + |data| + |chunk| <= MAX_FILE_CLUSTERS * CLUSTER_SIZE
    requires var l := (offset + |data|) / CLUSTER_SIZE;
             var base := BaseOf(ViewOf(v.disk, inodes[id], l));
             IsCluster(base) &&
             ClusterWritten(v, v', inodes, inodes', id, l, Patch(base, (offset + |data|) % CLUSTER_SIZE, chunk))
    ensures Wrote(v0.disk, v'.disk, ino0, inodes'[id], offset, data + chunk)
  {
    forall k: nat | k < MAX_FILE_CLUSTERS * CLUSTER_SIZE
      ensures ByteAt(v'.disk, inodes'[id], k) ==
              WrittenByte(ByteAt(v0.disk, ino0, k), k, offset, data + chunk)
    {
      hide Sound, Lookup, Touched, WrittenByte, ByteIn, Patch;
      var m := k / CLUSTER_SIZE;
      assert m < MAX_FILE_CLUSTERS;
      assert ByteAt(v.disk, inodes[id], k) == WrittenByte(ByteAt(v0.disk, ino0, k), k, offset, data);
      LookupInRange(v, inodes, id, m);
      ByteInRange(ViewOf(v0.disk, ino0, m), k % CLUSTER_SIZE);
      ExtendByte(ByteAt(v0.disk, ino0, k), ViewOf(v.disk, inodes[id], m), k, offset, data, chunk);
      DataByte(ViewOf(v'.disk, inodes'[id], m), k % CLUSTER_SIZE);
    }
  }

  lemma DataByte(view: View, i: nat)
    requires i < CLUSTER_SIZE
    ensures view.Data? && IsCluster(view.cluster) ==> ByteIn(view, i) == view.cluster[i]
  {
  }
}
