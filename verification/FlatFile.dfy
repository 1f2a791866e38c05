/** A file as one flat byte sequence, whatever pointer levels its clusters hang from. */
module FlatFile {
  import opened Basics
  import opened Clusters
  import opened Ownership
  import opened Inodes
  import opened FileViews
  import opened AllocationSteps
  import opened Occupancy

  /** Every byte below the size is stored. */
  ghost predicate Dense(disk: seq<Cluster>, ino: Inode)
    requires InodeOk(ino)
  {
    RangeMapped(disk, ino, 0, ino.size)
  }

  /** No cluster is mapped beyond the last one the size needs. */
  ghost predicate Trimmed(disk: seq<Cluster>, ino: Inode)
    requires InodeOk(ino)
  {
    forall k: nat :: ClustersFor(ino.size) * CLUSTER_SIZE <= k < MAX_FILE_CLUSTERS * CLUSTER_SIZE ==>
      ByteAt(disk, ino, k) == -1
  }

  const MAX_FILE_BYTES := MAX_FILE_CLUSTERS * CLUSTER_SIZE

  /** A stored file as every operation leaves it once its descriptor is closed. */
  ghost predicate WellStored(disk: seq<Cluster>, ino: Inode) {
    InodeOk(ino) && Dense(disk, ino) && ino.size <= MAX_FILE_BYTES && ino.clusterCount == ClustersFor(ino.size)
  }

  /** Byte k, with 0 read from a hole. */
  ghost function ContentByte(disk: seq<Cluster>, ino: Inode, k: nat): byte
    requires InodeOk(ino)
  {
    var b := ByteAt(disk, ino, k);
    if 0 <= b < 256 then b else 0
  }

  ghost function Content(disk: seq<Cluster>, ino: Inode): (bytes: seq<byte>)
    requires InodeOk(ino)
    ensures |bytes| == ino.size
  {
    seq(ino.size, k requires 0 <= k => ContentByte(disk, ino, k))
  }

  /** bytes with data written over it at offset; the sequence grows when data runs past its end. */
  function Splice(bytes: seq<byte>, offset: nat, data: seq<byte>): (r: seq<byte>)
    requires offset <= |bytes|
    ensures |r| == GrownSize(|bytes|, offset, |data|)
    ensures forall k :: 0 <= k < |r| ==>
              r[k] == if offset <= k < offset + |data| then data[k - offset] else bytes[k]
  {
    if offset + |data| >= |bytes| then bytes[..offset] + data else Patch(bytes, offset, data)
  }

  lemma ByteIsByte(disk: seq<Cluster>, ino: Inode, k: nat)
    requires InodeOk(ino)
    ensures -1 <= ByteAt(disk, ino, k) < 256
    ensures ByteAt(disk, ino, k) >= 0 ==> ContentByte(disk, ino, k) == ByteAt(disk, ino, k)
  {
  }

  /** Writing at an offset within a dense file splices the data into its contents. */
  lemma WriteIsSplice(disk: seq<Cluster>, disk': seq<Cluster>, ino: Inode, ino': Inode, offset: nat, data: seq<byte>)
    requires InodeOk(ino) && InodeOk(ino') && Dense(disk, ino) && offset <= ino.size
    requires ino.size <= MAX_FILE_CLUSTERS * CLUSTER_SIZE && offset + |data| <= MAX_FILE_CLUSTERS * CLUSTER_SIZE
    requires Wrote(disk, disk', ino, ino', offset, data) && ino'.size == GrownSize(ino.size, offset, |data|)
    ensures Dense(disk', ino')
    ensures Content(disk', ino') == Splice(Content(disk, ino), offset, data)
  {
    hide ByteAt, Touched;
    forall k: nat | k < ino'.size
      ensures ByteAt(disk', ino', k) >= 0
      ensures Content(disk', ino')[k] == Splice(Content(disk, ino), offset, data)[k]
    {
      ByteIsByte(disk, ino, k);
      ByteIsByte(disk', ino', k);
      assert ByteAt(disk', ino', k) == WrittenByte(ByteAt(disk, ino, k), k, offset, data);
    }
  }

  /**
   Writing anywhere, also beyond the end: the file is dense again exactly when the first cluster written
   is at most the one after the last the file had.
   */
  lemma DenseAfterWrite(disk: seq<Cluster>, disk': seq<Cluster>, ino: Inode, ino': Inode, offset: nat, data: seq<byte>)
    requires InodeOk(ino) && InodeOk(ino') && Dense(disk, ino) && Trimmed(disk, ino) && |data| > 0
    requires WholeClusters(disk)
    requires ino.size <= MAX_FILE_CLUSTERS * CLUSTER_SIZE && offset + |data| <= MAX_FILE_CLUSTERS * CLUSTER_SIZE
    requires Wrote(disk, disk', ino, ino', offset, data) && ino'.size == GrownSize(ino.size, offset, |data|)
    ensures Dense(disk', ino') <==> offset / CLUSTER_SIZE <= ClustersFor(ino.size)
    ensures Trimmed(disk', ino')
  {
    hide ByteAt;
    var n := ClustersFor(ino.size);
    ClusterBounds(ino.size);
    if offset / CLUSTER_SIZE <= n {
      forall k: nat | k < ino'.size ensures ByteAt(disk', ino', k) >= 0 {
        assert ByteAt(disk', ino', k) == WrittenByte(ByteAt(disk, ino, k), k, offset, data);
        if k >= ino.size {
          GapIsFilled(disk, ino, offset, |data|, k);
        }
      }
    } else {
      var k := n * CLUSTER_SIZE;
      assert k / CLUSTER_SIZE == n && k < offset;
      assert ByteAt(disk, ino, k) == -1;
      assert ByteAt(disk', ino', k) == WrittenByte(ByteAt(disk, ino, k), k, offset, data);
      assert !Touched(offset, |data|, n);
    }
    ClusterBounds(ino'.size);
    forall k: nat | ClustersFor(ino'.size) * CLUSTER_SIZE <= k < MAX_FILE_CLUSTERS * CLUSTER_SIZE
      ensures ByteAt(disk', ino', k) == -1
    {
      BeyondIsUntouched(offset, |data|, ino'.size, k);
      assert ClustersFor(ino.size) <= ClustersFor(ino'.size);
      assert ByteAt(disk', ino', k) == WrittenByte(ByteAt(disk, ino, k), k, offset, data);
    }
  }

  lemma ClusterBounds(size: nat)
    ensures size <= ClustersFor(size) * CLUSTER_SIZE < size + CLUSTER_SIZE
  {
  }

  /** Between the old end and the new data every byte lies in a mapped or written cluster. */
  lemma GapIsFilled(disk: seq<Cluster>, ino: Inode, offset: nat, n: nat, k: nat)
    requires InodeOk(ino) && WholeClusters(disk) && Dense(disk, ino) && n > 0 && ino.size <= k < offset + n
    requires offset / CLUSTER_SIZE <= ClustersFor(ino.size)
    ensures Touched(offset, n, k / CLUSTER_SIZE) || ByteAt(disk, ino, k) >= 0
  {
    if k / CLUSTER_SIZE < offset / CLUSTER_SIZE {
      var last := k / CLUSTER_SIZE * CLUSTER_SIZE;
      assert last < ino.size && last / CLUSTER_SIZE == k / CLUSTER_SIZE;
      assert ByteAt(disk, ino, last) >= 0;
      SameClusterByte(disk, ino, last, k);
    }
  }

  ghost predicate WholeClusters(disk: seq<Cluster>) {
    forall c :: 0 <= c < |disk| ==> IsCluster(disk[c])
  }

  /** One stored byte stores its whole cluster. */
  lemma SameClusterByte(disk: seq<Cluster>, ino: Inode, j: nat, k: nat)
    requires InodeOk(ino) && WholeClusters(disk) && j / CLUSTER_SIZE == k / CLUSTER_SIZE && ByteAt(disk, ino, j) >= 0
    ensures ByteAt(disk, ino, k) >= 0
  {
  }

  lemma BeyondIsUntouched(offset: nat, n: nat, size: nat, k: nat)
    requires offset + n <= size && ClustersFor(size) * CLUSTER_SIZE <= k
    ensures !Touched(offset, n, k / CLUSTER_SIZE) && k >= size
  {
  }

  /** What a read returns is the matching piece of the contents. */
  lemma ReadIsSlice(disk: seq<Cluster>, ino: Inode, offset: nat, n: nat, bytes: seq<byte>)
    requires InodeOk(ino) && offset + n <= ino.size && IsRange(disk, ino, offset, n, bytes)
    ensures bytes == Content(disk, ino)[offset..offset + n]
  {
    hide ByteAt;
    forall k | 0 <= k < n ensures bytes[k] == Content(disk, ino)[offset..offset + n][k] {
      ByteIsByte(disk, ino, offset + k);
      assert bytes[offset + k - offset] == ByteAt(disk, ino, offset + k);
    }
  }

  /** Files whose views are the same have the same contents. */
  lemma SameContent(disk: seq<Cluster>, disk': seq<Cluster>, ino: Inode, ino': Inode)
    requires InodeOk(ino) && InodeOk(ino') && SameFile(disk, disk', ino, ino') && ino'.size == ino.size
    requires ino.size <= MAX_FILE_CLUSTERS * CLUSTER_SIZE
    ensures Content(disk', ino') == Content(disk, ino)
    ensures Dense(disk, ino) ==> Dense(disk', ino')
    ensures Trimmed(disk, ino) ==> Trimmed(disk', ino')
  {
    hide ViewOf;
    forall k: nat | k < MAX_FILE_CLUSTERS * CLUSTER_SIZE ensures ByteAt(disk', ino', k) == ByteAt(disk, ino, k) {
      assert k / CLUSTER_SIZE < MAX_FILE_CLUSTERS;
    }
  }

  // ----- Dropping the changed copy of an inode -----

  /** Where the old copy has a pointer, the new one has the same. */
  ghost predicate KeepsPointers(ino: Inode, ino': Inode) {
    && InodeOk(ino) && InodeOk(ino') && ino'.id == ino.id
    && forall k :: 0 <= k < SLOT_COUNT ==> Pointer(ino, k) == 0 || Pointer(ino', k) == Pointer(ino, k)
  }

  lemma FileStepKeepsPointers(v: Volume, w: Volume, inodes: seq<Inode>, inodes': seq<Inode>, id: nat)
    requires OfTable(v, inodes) && OfTable(w, inodes') && id < |inodes| == |inodes'| && KeepsOwned(v, w, id)
    ensures KeepsPointers(inodes[id], inodes'[id])
  {
    forall k | 0 <= k < SLOT_COUNT
      ensures Pointer(inodes[id], k) == 0 || Pointer(inodes'[id], k) == Pointer(inodes[id], k)
    {
      RootPosition(inodes, id, k, v.disk);
      RootPosition(inodes', id, k, w.disk);
    }
  }

  lemma AbandonedOwned(disk: seq<Cluster>, inodes: seq<Inode>, inodes': seq<Inode>, id: nat, key: Key, path: Path)
    requires TableOk(inodes) && TableOk(inodes') && id < |inodes| == |inodes'| && inodes' == inodes[id := inodes'[id]]
    requires KeepsPointers(inodes[id], inodes'[id]) && Position(TableRoots(inodes), key, path)
    ensures Position(TableRoots(inodes'), key, path)
    ensures Owned(disk, TableRoots(inodes), key, path) == 0
            || Owned(disk, TableRoots(inodes), key, path) == Owned(disk, TableRoots(inodes'), key, path)
  {
    assert key == Slot(key.id, key.k);
    AtNothing(disk, path);
  }

  /** When an allocation was cut short, going on with the old copy of the inode is sound and shows the old file. */
  lemma AbandonSound(w: Volume, x: Volume, inodes: seq<Inode>, inodes': seq<Inode>, id: nat)
    requires Sound(w) && OfTable(w, inodes') && OfTable(x, inodes) && x == w.(roots := x.roots)
    requires id < |inodes| == |inodes'| && inodes' == inodes[id := inodes'[id]] && KeepsPointers(inodes[id], inodes'[id])
    ensures Sound(x)
  {
    hide TableRoots, Owned, At;
    forall key, path | Position(x.roots, key, path)
      ensures Position(w.roots, key, path)
      ensures Owned(x.disk, x.roots, key, path) == 0 || Owned(x.disk, x.roots, key, path) == Owned(w.disk, w.roots, key, path)
    {
      AbandonedOwned(x.disk, inodes, inodes', id, key, path);
    }
  }

  lemma AbandonByte(disk: seq<Cluster>, disk': seq<Cluster>, ino: Inode, ino': Inode, k: nat)
    requires KeepsPointers(ino, ino') && ByteAt(disk', ino', k) == ByteAt(disk, ino, k)
    ensures ByteAt(disk', ino, k) == ByteAt(disk, ino, k)
  {
    var l := k / CLUSTER_SIZE;
    AtNothing(disk, PathFor(l));
    AtNothing(disk', PathFor(l));
  }

  lemma WroteNoByte(disk: seq<Cluster>, disk': seq<Cluster>, ino: Inode, ino': Inode, offset: nat, k: nat)
    requires InodeOk(ino) && InodeOk(ino') && Wrote(disk, disk', ino, ino', offset, [])
    requires k < MAX_FILE_CLUSTERS * CLUSTER_SIZE
    ensures ByteAt(disk', ino', k) == ByteAt(disk, ino, k)
  {
    ByteIsByte(disk, ino, k);
    hide ByteAt;
  }

  // ----- What a dense file occupies -----

  lemma DenseIsMapped(v: Volume, inodes: seq<Inode>, id: nat, n: nat)
    requires OfTable(v, inodes) && id < |inodes| && Dense(v.disk, inodes[id])
    requires n <= inodes[id].size <= MAX_FILE_BYTES
    ensures ClustersFor(n) <= MAX_FILE_CLUSTERS
    ensures forall l :: 0 <= l < ClustersFor(n) ==> Lookup(v.disk, inodes[id], l) != 0
  {
    ClusterBounds(n);
    forall l | 0 <= l < ClustersFor(n) ensures Lookup(v.disk, inodes[id], l) != 0 {
      assert l * CLUSTER_SIZE / CLUSTER_SIZE == l;
      assert ByteAt(v.disk, inodes[id], l * CLUSTER_SIZE) >= 0;
    }
  }

  lemma GrownClusters(size: nat, offset: nat, n: nat)
    requires offset <= size
    ensures ClustersFor(size) <= ClustersFor(GrownSize(size, offset, n))
    ensures ClustersFor(offset + n) <= ClustersFor(GrownSize(size, offset, n))
  {
  }

  /** Writing into a dense file that owns just the clusters it needs leaves a file that owns just those it needs. */
  lemma WriteKeepsOccupies(v: Volume, w: Volume, inodes: seq<Inode>, inodes': seq<Inode>, id: nat, offset: nat,
                           data: seq<byte>)
    requires OfTable(v, inodes) && OfTable(w, inodes') && id < |inodes| == |inodes'|
    requires Dense(v.disk, inodes[id]) && offset <= inodes[id].size <= MAX_FILE_BYTES && offset + |data| <= MAX_FILE_BYTES
    requires Wrote(v.disk, w.disk, inodes[id], inodes'[id], offset, data)
    requires inodes'[id].size == GrownSize(inodes[id].size, offset, |data|)
    requires Fills(v, w, id, ClustersFor(offset + |data|)) && Occupies(v, id, ClustersFor(inodes[id].size))
    ensures Occupies(w, id, ClustersFor(inodes'[id].size))
  {
    hide TableRoots, Dense, Wrote, Fills, Occupies, Within, Lookup, Content, Splice;
    var m, n := ClustersFor(inodes[id].size), ClustersFor(inodes'[id].size);
    GrownClusters(inodes[id].size, offset, |data|);
    WriteIsSplice(v.disk, w.disk, inodes[id], inodes'[id], offset, data);
    DenseIsMapped(w, inodes', id, inodes'[id].size);
    OccupiesIsWithin(v, id, m, n);
    FillsMore(v, w, id, ClustersFor(offset + |data|), n);
    FilledWithin(v, w, id, n);
    MappedOccupies(w, inodes', id, n);
  }

  // ----- Other files -----

  /** Every file but id has the same inode and reads the same. */
  ghost predicate OthersKept(disk: seq<Cluster>, disk': seq<Cluster>, table: seq<Inode>, table': seq<Inode>, id: nat)
    requires TableOk(table) && TableOk(table')
  {
    && |table| == |table'|
    && forall j :: 0 <= j < |table| && j != id ==> table'[j] == table[j] && SameFile(disk, disk', table[j], table[j])
  }

  lemma KeptNothing(disk: seq<Cluster>, table: seq<Inode>, id: nat)
    requires TableOk(table)
    ensures OthersKept(disk, disk, table, table, id)
  {
  }

  lemma EmptiedOthers(disk: seq<Cluster>, table: seq<Inode>, table': seq<Inode>, id: nat)
    requires TableOk(table) && TableOk(table') && id < |table| == |table'| && table' == table[id := table'[id]]
    ensures OthersKept(disk, disk, table, table', id)
  {
  }

  lemma OthersKeptTransitive(d0: seq<Cluster>, d1: seq<Cluster>, d2: seq<Cluster>,
                             t0: seq<Inode>, t1: seq<Inode>, t2: seq<Inode>, id: nat)
    requires TableOk(t0) && TableOk(t1) && TableOk(t2)
    requires OthersKept(d0, d1, t0, t1, id) && OthersKept(d1, d2, t1, t2, id)
    ensures OthersKept(d0, d2, t0, t2, id)
  {
    hide ViewOf;
  }

  lemma FileStepKeepsOthers(v: Volume, w: Volume, inodes: seq<Inode>, inodes': seq<Inode>, table: seq<Inode>, id: nat)
    requires TableOk(inodes) && TableOk(inodes') && TableOk(table) && |table| == |inodes|
    requires OthersSame(v, w, inodes, inodes', id)
    requires forall j :: 0 <= j < |inodes| && j != id ==> inodes[j] == inodes'[j] == table[j]
    ensures |inodes'| == |inodes| && OthersKept(v.disk, w.disk, inodes, table, id)
  {
    hide ViewOf;
  }

  lemma KeptContent(disk: seq<Cluster>, disk': seq<Cluster>, table: seq<Inode>, table': seq<Inode>, id: nat, j: nat)
    requires TableOk(table) && TableOk(table') && OthersKept(disk, disk', table, table', id)
    requires j < |table| && j != id && table[j].size <= MAX_FILE_CLUSTERS * CLUSTER_SIZE
    ensures Content(disk', table'[j]) == Content(disk, table[j])
  {
    SameContent(disk, disk', table[j], table[j]);
  }

  /** Every inode but those in r is as it was, and its file reads the same. */
  ghost predicate KeptOutside(disk: seq<Cluster>, disk': seq<Cluster>, table: seq<Inode>, table': seq<Inode>, r: set<nat>) {
    && TableOk(table) && TableOk(table') && |table| == |table'|
    && forall j: nat :: j < |table| && j !in r ==> table'[j] == table[j] && SameFile(disk, disk', table[j], table[j])
  }

  lemma KeptOutsideNothing(disk: seq<Cluster>, table: seq<Inode>, r: set<nat>)
    requires TableOk(table)
    ensures KeptOutside(disk, disk, table, table, r)
  {
  }

  lemma KeptOutsideTwice(d0: seq<Cluster>, d1: seq<Cluster>, d2: seq<Cluster>,
                         t0: seq<Inode>, t1: seq<Inode>, t2: seq<Inode>, a: set<nat>, b: set<nat>, r: set<nat>)
    requires KeptOutside(d0, d1, t0, t1, a) && KeptOutside(d1, d2, t1, t2, b) && a <= r && b <= r
    ensures KeptOutside(d0, d2, t0, t2, r)
  {
    hide ViewOf;
  }

  lemma OthersOutside(disk: seq<Cluster>, disk': seq<Cluster>, table: seq<Inode>, table': seq<Inode>, id: nat)
    requires TableOk(table) && TableOk(table') && OthersKept(disk, disk', table, table', id)
    ensures KeptOutside(disk, disk', table, table', {id})
  {
    hide SameFile;
  }

  lemma RecordOutside(disk: seq<Cluster>, table: seq<Inode>, table': seq<Inode>, id: nat)
    requires TableOk(table) && TableOk(table') && id < |table| == |table'| && table' == table[id := table'[id]]
    ensures KeptOutside(disk, disk, table, table', {id})
  {
  }

  /** A new record, and then a change to another file. */
  lemma KeptByEntering(disk: seq<Cluster>, disk': seq<Cluster>, t0: seq<Inode>, t1: seq<Inode>, t2: seq<Inode>,
                       parent: nat, id: nat)
    requires TableOk(t0) && TableOk(t1) && TableOk(t2) && id < |t0| == |t1| && t1 == t0[id := t1[id]]
    requires OthersKept(disk, disk', t1, t2, parent)
    ensures KeptOutside(disk, disk', t0, t2, {parent, id})
  {
    RecordOutside(disk, t0, t1, id);
    OthersOutside(disk, disk', t1, t2, parent);
    hide KeptOutside, OthersKept;
    KeptOutsideTwice(disk, disk, disk', t0, t1, t2, {id}, {parent}, {parent, id});
  }

  /** A record of one of the files that may have changed, changed once more. */
  lemma KeptByRecord(disk: seq<Cluster>, disk': seq<Cluster>, t0: seq<Inode>, t1: seq<Inode>, t2: seq<Inode>, id: nat,
                     r: set<nat>)
    requires KeptOutside(disk, disk', t0, t1, r) && TableOk(t2) && id < |t1| == |t2| && t2 == t1[id := t2[id]] && id in r
    ensures KeptOutside(disk, disk', t0, t2, r)
  {
    RecordOutside(disk', t1, t2, id);
    hide KeptOutside;
    KeptOutsideTwice(disk, disk', disk', t0, t1, t2, r, {id}, r);
  }

  /** The contents are the clusters one after the other, the last one up to the size. */
  lemma ContentByCluster(disk: seq<Cluster>, ino: Inode, l: nat)
    requires InodeOk(ino) && Dense(disk, ino) && l * 4096 < ino.size
    ensures var c, n := Lookup(disk, ino, l), Min(4096, ino.size - l * 4096);
            && 0 < c < |disk| && n <= |disk[c]|
            && Content(disk, ino)[l * 4096..l * 4096 + n] == disk[c][..n]
  {
    var c, n := Lookup(disk, ino, l), Min(4096, ino.size - l * 4096);
    hide Lookup;
    ByteOfCluster(disk, ino, l, 0);
    ByteOfCluster(disk, ino, l, n - 1);
    forall i: nat | i < n ensures Content(disk, ino)[l * 4096 + i] == disk[c][i] {
      ByteOfCluster(disk, ino, l, i);
    }
    assert Content(disk, ino)[l * 4096..l * 4096 + n] == disk[c][..n];
  }

  lemma ByteOfCluster(disk: seq<Cluster>, ino: Inode, l: nat, i: nat)
    requires InodeOk(ino) && Dense(disk, ino) && i < CLUSTER_SIZE && l * CLUSTER_SIZE + i < ino.size
    ensures var c := Lookup(disk, ino, l);
            0 < c < |disk| && i < |disk[c]| && Content(disk, ino)[l * CLUSTER_SIZE + i] == disk[c][i]
  {
    var k := l * CLUSTER_SIZE + i;
    assert k / CLUSTER_SIZE == l && k % CLUSTER_SIZE == i;
    hide Lookup;
    ByteIsByte(disk, ino, k);
    assert ByteAt(disk, ino, k) >= 0;
  }
}
