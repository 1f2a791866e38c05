/** Directories: files whose bytes are serialised entries, sorted by name. */
module Directories {
  import opened Basics
  import opened Bitmap
  import opened Clusters
  import opened Ownership
  import opened Inodes
  import opened FileViews
  import opened AllocationSteps
  import opened Truncation
  import opened Occupancy
  import opened FlatFile
  import opened Entries
  import opened Storage
  import opened TableImage

  // ----- Writing a whole file -----

  /** Positions on the way to mapped clusters cannot be filled again. */
  lemma NothingGrown(v: Volume, w: Volume, inodes: seq<Inode>, inodes': seq<Inode>, id: nat, n: nat)
    requires Sound(v) && OfTable(v, inodes) && OfTable(w, inodes') && id < |inodes| == |inodes'| && n <= MAX_FILE_CLUSTERS
    requires KeepsOwned(v, w, id) && Fills(v, w, id, n) && TakenBy(v, w, id)
    requires forall l :: 0 <= l < n ==> Lookup(v.disk, inodes[id], l) != 0
    ensures SamePointers(inodes[id], inodes'[id]) && w.used == v.used && SameOwned(v, w)
  {
    hide TableRoots, At, Lookup, Sound, TakenBy;
    forall key: Key, p: Path | Position(v.roots, key, p)
      ensures Owned(w.disk, w.roots, key, p) == Owned(v.disk, v.roots, key, p)
    {
      if key.id == id && OnTheWay(key.k, p, n) {
        var m: nat :| m < n && SlotFor(m) == key.k && p <= PathFor(m);
        LookupIsOwned(v.disk, inodes, id, m);
        AboveMapped(v.disk, v.roots[key].cluster, p, PathFor(m));
      }
      assert key == Slot(key.id, key.k);
    }
    SameOwnedFrom(v, w);
    hide Fills, KeepsOwned, Owned, Position;
    forall k | 0 <= k < SLOT_COUNT ensures Pointer(inodes'[id], k) == Pointer(inodes[id], k) {
      RootPosition(inodes, id, k, v.disk);
      RootPosition(inodes', id, k, w.disk);
    }
    NothingTaken(v, w, id);
  }

  lemma SameOwnedFrom(v: Volume, w: Volume)
    requires SamePositions(v, w)
    requires forall key: Key, p: Path :: Position(v.roots, key, p) ==>
               Owned(w.disk, w.roots, key, p) == Owned(v.disk, v.roots, key, p)
    ensures SameOwned(v, w)
  {
    forall key, p | Position(w.roots, key, p) ensures Owned(w.disk, w.roots, key, p) == Owned(v.disk, v.roots, key, p) {
      SamePosition(v, w, key, p);
    }
  }

  lemma NothingTaken(v: Volume, w: Volume, id: nat)
    requires Sound(v) && TakenBy(v, w, id) && SamePositions(v, w)
    requires forall k: nat, p: Path :: Position(v.roots, Slot(id, k), p) ==>
               Owned(w.disk, w.roots, Slot(id, k), p) == Owned(v.disk, v.roots, Slot(id, k), p)
    ensures w.used == v.used
  {
    forall c: nat | c < |v.used| ensures w.used[c] == v.used[c] {
      if w.used[c] && !v.used[c] {
        assert OwnedByInode(w, id, c);
        var k :| 0 <= k < SLOT_COUNT && OwnedUnder(w, Slot(id, k), c);
        var p :| Position(w.roots, Slot(id, k), p) && Owned(w.disk, w.roots, Slot(id, k), p) == c;
        SamePosition(v, w, Slot(id, k), p);
        SoundAt(v, Slot(id, k), p);
      }
    }
  }

  /** Bytes written from offset 0 are the contents of a file of that size. */
  lemma WholeContent(disk: seq<Cluster>, disk': seq<Cluster>, ino: Inode, ino': Inode, data: seq<byte>, stored: Inode)
    requires InodeOk(ino) && InodeOk(ino') && |data| <= MAX_FILE_BYTES && Wrote(disk, disk', ino, ino', 0, data)
    requires stored == ino'.(size := |data|, clusterCount := ClustersFor(|data|))
    ensures WellStored(disk', stored) && Content(disk', stored) == data
  {
    hide ByteAt;
    forall k: nat | k < |data| ensures ByteAt(disk', stored, k) == data[k] as int {
      assert ByteAt(disk', ino', k) == WrittenByte(ByteAt(disk, ino, k), k, 0, data);
      SameByte(disk', ino', stored, k);
    }
  }

  lemma SameByte(disk: seq<Cluster>, ino: Inode, stored: Inode, k: nat)
    requires SamePointers(ino, stored)
    ensures ByteAt(disk, ino, k) == ByteAt(disk, stored, k)
  {
    var l := k / CLUSTER_SIZE;
    assert Pointer(ino, SlotFor(l)) == Pointer(stored, SlotFor(l));
  }

  /** After an abandoned write the old inode shows what was written, over what it had. */
  lemma AbandonedContent(disk: seq<Cluster>, disk': seq<Cluster>, ino: Inode, ino': Inode, data: seq<byte>, written: nat)
    requires InodeOk(ino) && Dense(disk, ino) && ino.size <= MAX_FILE_BYTES && |data| <= MAX_FILE_BYTES
    requires KeepsPointers(ino, ino') && written < |data| && Wrote(disk, disk', ino, ino', 0, data[..written])
    requires ViewOf(disk, ino, written / CLUSTER_SIZE) == Hole
    ensures ino.size < |data| && Dense(disk', ino) && Content(disk', ino) == data[..ino.size]
  {
    hide ByteAt;
    if written < ino.size {
      HoleByte(disk, ino, written);
    }
    forall k: nat | k < ino.size ensures ByteAt(disk', ino, k) == data[k] as int {
      assert ByteAt(disk', ino', k) == WrittenByte(ByteAt(disk, ino, k), k, 0, data[..written]);
      MappedPointer(disk, ino, k);
      AbandonedByte(disk', ino, ino', k);
    }
  }

  lemma HoleByte(disk: seq<Cluster>, ino: Inode, k: nat)
    requires InodeOk(ino) && ViewOf(disk, ino, k / CLUSTER_SIZE) == Hole
    ensures ByteAt(disk, ino, k) == -1
  {
  }

  lemma MappedPointer(disk: seq<Cluster>, ino: Inode, k: nat)
    requires InodeOk(ino) && ByteAt(disk, ino, k) >= 0
    ensures Pointer(ino, SlotFor(k / CLUSTER_SIZE)) != 0
  {
    AtNothing(disk, PathFor(k / CLUSTER_SIZE));
  }

  lemma AbandonedByte(disk: seq<Cluster>, ino: Inode, ino': Inode, k: nat)
    requires KeepsPointers(ino, ino') && Pointer(ino, SlotFor(k / CLUSTER_SIZE)) != 0
    ensures ByteAt(disk, ino, k) == ByteAt(disk, ino', k)
  {
  }

  /** The clusters a file of that size takes: its data clusters and its pointer clusters. */
  function ClustersNeeded(size: nat): nat {
    ClustersFor(size) + PointerClusters(ClustersFor(size))
  }

  /** Enough clusters are free for file id to hold that many bytes, and so many clusters besides. */
  ghost predicate FitsBesides(v: Volume, id: nat, size: nat, besides: nat) {
    besides + MissingClusters(v, id, ClustersFor(size)) <= FreeClusters(v.used)
  }

  ghost predicate Fits(v: Volume, id: nat, size: nat) {
    FitsBesides(v, id, size, 0)
  }

  /** Every inode but id owns what it did. */
  ghost predicate OthersOwn(v: Volume, w: Volume, id: nat) {
    forall key, p :: Position(v.roots, key, p) && key.id != id ==>
      Position(w.roots, key, p) && Owned(w.disk, w.roots, key, p) == Owned(v.disk, v.roots, key, p)
  }

  /** What file id did is nothing to file j but that fewer clusters are free. */
  lemma FitsElsewhere(v: Volume, w: Volume, table: seq<Inode>, table': seq<Inode>, id: nat, j: nat, size: nat, taken: nat)
    requires OfTable(v, table) && OfTable(w, table') && OthersOwn(v, w, id) && j != id && j < |table| == |table'|
    requires size <= MAX_FILE_BYTES && |w.used| == |v.used|
    requires CountUsed(w.used, |w.used|) == CountUsed(v.used, |v.used|) + taken
    ensures Fits(w, j, size) <==> FitsBesides(v, j, size, taken)
  {
    var n := ClustersFor(size);
    assert n <= MAX_FILE_CLUSTERS;
    hide TableRoots, OnTheWay, ClustersFor;
    forall kp | kp in Positions(n) ensures ClusterAt(w, j, kp) == ClusterAt(v, j, kp) {
      assert kp == (kp.0, kp.1);
      WayIsPosition(table, j, kp.0, kp.1, n);
    }
    assert Unfilled(w, j, n) == Unfilled(v, j, n);
  }

  /** So many clusters more are used, the lowest free ones. */
  ghost predicate TookLowest(used: seq<bool>, used': seq<bool>, n: nat) {
    && LowestFirst(used, used')
    && (forall c :: 0 <= c < |used| && used[c] ==> used'[c])
    && CountUsed(used', |used'|) == CountUsed(used, |used|) + n
  }

  /** A new file fits exactly when enough clusters are free. */
  lemma TookFree(used: seq<bool>, used': seq<bool>, n: nat)
    requires |used'| == |used| && TookLowest(used, used', n)
    ensures n <= FreeClusters(used)
  {
  }

  lemma SizeOnlyMapped(disk: seq<Cluster>, ino: Inode, stored: Inode, n: nat)
    requires SamePointers(ino, stored) && forall l :: 0 <= l < n ==> Lookup(disk, stored, l) != 0
    ensures forall l :: 0 <= l < n ==> Lookup(disk, ino, l) != 0
  {
    forall l | 0 <= l < n ensures Lookup(disk, ino, l) == Lookup(disk, stored, l) {
      assert Pointer(ino, SlotFor(l)) == Pointer(stored, SlotFor(l));
    }
  }

  lemma WholeStored(v: Volume, w: Volume, table: seq<Inode>, id: nat, ino': Inode, data: seq<byte>)
    requires Sound(v) && OfTable(v, table) && id < |table| && InodeOk(ino') && ino'.id == id && |data| <= MAX_FILE_BYTES
    requires OfTable(w, table[id := ino']) && FileStep(v, w, table, table[id := ino'], id)
    requires Wrote(v.disk, w.disk, table[id], ino', 0, data) && Fills(v, w, id, ClustersFor(|data|))
    ensures var stored := ino'.(size := |data|, clusterCount := ClustersFor(|data|));
            && TableOk(table[id := stored]) && TableRoots(table[id := stored]) == w.roots && Sound(w)
            && WellStored(w.disk, stored) && Content(w.disk, stored) == data
            && OthersKept(v.disk, w.disk, table, table[id := stored], id)
            && (Dense(v.disk, table[id]) && |data| <= table[id].size <= MAX_FILE_BYTES ==>
                  SamePointers(table[id], stored) && w.used == v.used && SameOwned(v, w))
            && ClustersFor(|data|) <= MAX_FILE_CLUSTERS && OthersOwn(v, w, id)
            && TookLowest(v.used, w.used, MissingClusters(v, id, ClustersFor(|data|)))
  {
    var stored := ino'.(size := |data|, clusterCount := ClustersFor(|data|));
    FileStepSound(v, w, table, table[id := ino'], id);
    WholeContent(v.disk, w.disk, table[id], ino', data, stored);
    SizeOnly(v, w, table, table[id := ino'], ino', stored);
    RewrittenEntry(table, id, ino', stored);
    DenseIsMapped(w, table[id := stored], id, |data|);
    SizeOnlyMapped(w.disk, ino', stored, ClustersFor(|data|));
    WholeCount(v, w, table, table[id := ino'], id, ClustersFor(|data|));
    if Dense(v.disk, table[id]) && |data| <= table[id].size <= MAX_FILE_BYTES {
      DenseIsMapped(v, table, id, |data|);
      NothingGrown(v, w, table, table[id := ino'], id, ClustersFor(|data|));
    }
    hide Sound, Wrote, TableRoots, SameFile, Dense, Content, ClustersFor, MissingClusters;
    FileStepKeepsOthers(v, w, table, table[id := stored], table[id := stored], id);
  }

  lemma WholeAbandoned(v: Volume, w: Volume, table: seq<Inode>, id: nat, ino': Inode, data: seq<byte>, written: nat)
    requires Sound(v) && OfTable(v, table) && id < |table| && InodeOk(ino') && ino'.id == id && |data| <= MAX_FILE_BYTES
    requires OfTable(w, table[id := ino']) && FileStep(v, w, table, table[id := ino'], id)
    requires written < |data| && Wrote(v.disk, w.disk, table[id], ino', 0, data[..written])
    requires ViewOf(v.disk, table[id], written / CLUSTER_SIZE) == Hole
    ensures Sound(w.(roots := TableRoots(table))) && OthersKept(v.disk, w.disk, table, table, id)
    ensures Dense(v.disk, table[id]) && table[id].size <= MAX_FILE_BYTES ==>
              && table[id].size < |data| && Dense(w.disk, table[id])
              && Content(w.disk, table[id]) == data[..table[id].size]
  {
    var table' := table[id := ino'];
    FileStepSound(v, w, table, table', id);
    FileStepKeepsPointers(v, w, table, table', id);
    AbandonSound(w, w.(roots := TableRoots(table)), table, table', id);
    if Dense(v.disk, table[id]) && table[id].size <= MAX_FILE_BYTES {
      AbandonedContent(v.disk, w.disk, table[id], ino', data, written);
    }
    hide Sound, Wrote, TableRoots, SameFile, Dense, Content;
    FileStepKeepsOthers(v, w, table, table', table, id);
  }

  /** A write from the start that found no space misses more clusters than were free. */
  lemma TooLarge(v: Volume, w: Volume, table: seq<Inode>, id: nat, ino': Inode, data: seq<byte>, written: nat)
    requires Sound(v) && OfTable(v, table) && id < |table| && InodeOk(ino') && ino'.id == id && |data| <= MAX_FILE_BYTES
    requires OfTable(w, table[id := ino']) && FileStep(v, w, table, table[id := ino'], id) && AllUsed(w)
    requires Fills(v, w, id, ClustersFor(|data|)) && ViewOf(v.disk, table[id], written / CLUSTER_SIZE) == Hole
    requires written < |data| && Wrote(v.disk, w.disk, table[id], ino', 0, data[..written])
    requires written == 0 || written % CLUSTER_SIZE == 0
    ensures FreeClusters(v.used) < MissingClusters(v, id, ClustersFor(|data|))
  {
    var l := written / CLUSTER_SIZE;
    FileStepSound(v, w, table, table[id := ino'], id);
    LookupInRange(w, table[id := ino'], id, l);
    HoleByte(v.disk, table[id], written);
    assert l < ClustersFor(|data|) <= MAX_FILE_CLUSTERS;
    assert ByteAt(w.disk, ino', written) == WrittenByte(ByteAt(v.disk, table[id], written), written, 0, data[..written]);
    assert Lookup(w.disk, ino', l) == 0;
    PartCount(v, w, table, table[id := ino'], id, ClustersFor(|data|), l);
    FullCount(w.used, |w.used|);
  }

  /** Replaces the contents of a file; on a full disk its inode stays, and shows a prefix of the new contents. */
  method StoreWhole(s: Storage, id: nat, bytes: seq<byte>) returns (status: Status)
    requires s.Valid() && id < |s.table| && Sound(s.Vol(TableRoots(s.table))) && |bytes| <= MAX_FILE_BYTES
    modifies s`disk, s`table, s`dirty, s.bitmap.buffer
    ensures s.Valid() && |s.table| == |old(s.table)| && Sound(s.Vol(TableRoots(s.table)))
    ensures status == Ok || status == NoSpace
    ensures OthersKept(old(s.disk), s.disk, old(s.table), s.table, id)
    ensures status == Ok ==>
              && SameLabels(old(s.table)[id], s.table[id])
              && WellStored(s.disk, s.table[id]) && Content(s.disk, s.table[id]) == bytes
    ensures Dense(old(s.disk), old(s.table)[id]) && |bytes| <= old(s.table)[id].size <= MAX_FILE_BYTES ==>
              && status == Ok && SamePointers(old(s.table)[id], s.table[id]) && s.bitmap.Used() == old(s.bitmap.Used())
              && SameOwned(old(s.Vol(TableRoots(s.table))), s.Vol(TableRoots(s.table)))
    ensures status == Ok <==> Fits(old(s.Vol(TableRoots(s.table))), id, |bytes|)
    ensures status == Ok ==>
              var missing := MissingClusters(old(s.Vol(TableRoots(s.table))), id, ClustersFor(|bytes|));
              && TookLowest(old(s.bitmap.Used()), s.bitmap.Used(), missing)
              && OthersOwn(old(s.Vol(TableRoots(s.table))), s.Vol(TableRoots(s.table)), id)
    ensures status == NoSpace ==>
              && s.table == old(s.table) && AllUsed(s.Vol(map[]))
              && (Dense(old(s.disk), s.table[id]) && s.table[id].size <= MAX_FILE_BYTES ==>
                    && s.table[id].size < |bytes| && Dense(s.disk, s.table[id])
                    && Content(s.disk, s.table[id]) == bytes[..s.table[id].size])
  {
    hide Image, Sound, Wrote, TableRoots, FileStep, Fills, OthersKept, Flags, SamePointers, GrownSize, ViewOf, SameOwned;
    hide Dense, Content, WellStored, TookLowest, FreeClusters, MissingClusters, ClustersFor, OthersOwn;
    var ino := s.table[id];
    SameEntry(s.table, id);
    ghost var v, table := s.With(ino), s.table;
    var written;
    status, ino, written := s.WriteData(ino, 0, bytes);
    ghost var w := s.With(ino);
    if status != Ok {
      WholeAbandoned(v, w, table, id, ino, bytes, written);
      TooLarge(v, w, table, id, ino, bytes, written);
      return;
    }
    assert bytes[..written] == bytes;
    WholeStored(v, w, table, id, ino, bytes);
    TookFree(v.used, w.used, MissingClusters(v, id, ClustersFor(|bytes|)));
    ino := ino.(size := written, clusterCount := (written + CLUSTER_SIZE - 1) / CLUSTER_SIZE);
    CountOf(written);
    status := s.WriteInode(ino);
  }

  /** A file that owns nothing needs all of its clusters. */
  lemma NewNeeds(v: Volume, table: seq<Inode>, id: nat, size: nat)
    requires OfTable(v, table) && id < |table| && NoPointers(table[id]) && size <= MAX_FILE_BYTES
    ensures MissingClusters(v, id, ClustersFor(size)) == ClustersNeeded(size)
    ensures Fits(v, id, size) <==> ClustersNeeded(size) <= FreeClusters(v.used)
  {
    hide NoPointers, TableRoots, MissingClusters;
    MissingOfNew(v, table, id, ClustersFor(size));
  }

  lemma CountOf(size: nat)
    ensures (size + CLUSTER_SIZE - 1) / CLUSTER_SIZE == ClustersFor(size)
  {
  }

  // ----- Listings -----

  /** The entries a file's bytes stand for. */
  ghost function Listing(disk: seq<Cluster>, ino: Inode): seq<Entry>
    requires InodeOk(ino)
  {
    Parse(Content(disk, ino))
  }

  /** A directory as every operation leaves it: its bytes are its entries, sorted by name. */
  ghost predicate GoodDirectory(disk: seq<Cluster>, ino: Inode) {
    && WellStored(disk, ino)
    && EntriesOk(Listing(disk, ino)) && StrictlySorted(Listing(disk, ino))
    && Content(disk, ino) == Serialize(Listing(disk, ino))
  }

  /** The directory as a finite map from names to inodes. */
  ghost function Dir(disk: seq<Cluster>, ino: Inode): map<Name, nat>
    requires InodeOk(ino)
  {
    Names(Listing(disk, ino))
  }

  ghost predicate HasDots(names: map<Name, nat>) {
    DOT in names && DOT_DOT in names
  }

  /** One more record fits below the largest file size. */
  ghost predicate HasRoom(ino: Inode) {
    ino.size + RecordLength(MAX_FILENAME_LENGTH) <= MAX_FILE_BYTES
  }

  lemma SavedDirectory(disk: seq<Cluster>, ino: Inode, es: seq<Entry>)
    requires WellStored(disk, ino) && Content(disk, ino) == Serialize(es) && EntriesOk(es) && StrictlySorted(es)
    ensures GoodDirectory(disk, ino) && Listing(disk, ino) == es && Dir(disk, ino) == Names(es)
  {
    ParseSerialized(es);
  }

  lemma GoodEntries(disk: seq<Cluster>, ino: Inode)
    requires GoodDirectory(disk, ino)
    ensures var es := Listing(disk, ino);
            && Sort(es) == es && Unique(es) && StrictlySorted(es) && EntriesOk(es)
            && Content(disk, ino) == Serialize(es) && |Serialize(es)| == ino.size
            && Dense(disk, ino) && ino.size <= MAX_FILE_BYTES
            && forall name :: name in Dir(disk, ino) <==> Has(es, name)
  {
    var es := Listing(disk, ino);
    SortSorted(es);
    SortedIsUnique(es);
    forall name ensures name in Names(es) <==> Has(es, name) {
      NamesKeys(es, name);
    }
  }

  lemma SameDirectory(disk: seq<Cluster>, disk': seq<Cluster>, ino: Inode)
    requires InodeOk(ino) && SameFile(disk, disk', ino, ino) && ino.size <= MAX_FILE_BYTES
    ensures GoodDirectory(disk, ino) ==> GoodDirectory(disk', ino)
    ensures Listing(disk', ino) == Listing(disk, ino)
  {
    SameContent(disk, disk', ino, ino);
  }

  lemma DotsAt(es: seq<Entry>) returns (i: nat, j: nat)
    requires Unique(es) && HasDots(Names(es))
    ensures i < |es| && j < |es| && es[i].name == DOT && es[j].name == DOT_DOT && i != j
  {
    NamesKeys(es, DOT);
    NamesKeys(es, DOT_DOT);
    i :| 0 <= i < |es| && es[i].name == DOT;
    j :| 0 <= j < |es| && es[j].name == DOT_DOT;
  }

  /** A directory with "." and ".." and at most two entries has no others. */
  lemma TwoEntriesAreDots(es: seq<Entry>)
    requires Unique(es) && HasDots(Names(es))
    ensures |es| <= 2 <==> Names(es).Keys == {DOT, DOT_DOT}
  {
    var i, j := DotsAt(es);
    hide Names, Unique;
    if |es| <= 2 {
      forall name ensures name in Names(es) <==> name in {DOT, DOT_DOT} {
        NamesKeys(es, name);
        assert name in Names(es) ==> es[i].name == name || es[j].name == name;
      }
    } else {
      var k := if i != 0 && j != 0 then 0 else if i != 1 && j != 1 then 1 else 2;
      NamesKeys(es, es[k].name);
      OnlyAt(es, i, k);
      OnlyAt(es, j, k);
    }
  }

  // ----- Parsing with two passes -----

  lemma ParseStep(bytes: seq<byte>, offset: nat)
    requires offset <= |bytes|
    ensures var rest := bytes[offset..];
            && (|rest| < DENTRY_SIZE || LittleEndian(rest[4..6]) == 0 ==> Parse(rest) == [])
            && (|rest| >= DENTRY_SIZE && LittleEndian(rest[4..6]) != 0 ==>
                  var n := LittleEndian(rest[4..6]);
                  Parse(rest) == [Entry(LittleEndian(rest[0..4]), CString(rest[DENTRY_SIZE..]))]
                                 + (if offset + n <= |bytes| then Parse(bytes[offset + n..]) else []))
  {
    var rest := bytes[offset..];
    if |rest| >= DENTRY_SIZE && LittleEndian(rest[4..6]) != 0 {
      var n := LittleEndian(rest[4..6]);
      if offset + n <= |bytes| {
        assert rest[n..] == bytes[offset + n..];
      }
    }
  }

  /** Counts the records and then reads them. */
  method ParseEntries(bytes: seq<byte>) returns (es: seq<Entry>)
    ensures es == Parse(bytes)
  {
    hide Image, Parse;
    var count := 0;
    var offset := 0;
    assert bytes[0..] == bytes;
    while offset < |bytes|
      invariant count + (if offset <= |bytes| then |Parse(bytes[offset..])| else 0) == |Parse(bytes)|
      decreases |bytes| - offset
    {
      ParseStep(bytes, offset);
      if offset + DENTRY_SIZE > |bytes| {
        break;
      }
      var recordLength := LittleEndian(bytes[offset..][4..6]);
      if recordLength == 0 {
        break;
      }
      offset := offset + recordLength;
      count := count + 1;
    }
    if offset == |bytes| {
      ParseStep(bytes, offset);
    }
    es := [];
    offset := 0;
    assert bytes[0..] == bytes;
    for i := 0 to count
      invariant 0 <= offset && |es| == i && es <= Parse(bytes)
      invariant i < count ==> offset <= |bytes| && Parse(bytes[offset..]) == Parse(bytes)[i..]
    {
      ParseStep(bytes, offset);
      var rest := bytes[offset..];
      es := es + [Entry(LittleEndian(rest[0..4]), CString(rest[DENTRY_SIZE..]))];
      assert Parse(bytes)[i..][0] == Parse(bytes)[i];
      assert Parse(bytes)[i..][1..] == Parse(bytes)[i + 1..];
      offset := offset + LittleEndian(rest[4..6]);
    }
  }

  // ----- The directory operations -----

  /** Reads and sorts the entries of a file; fails only when a byte of it is not stored. */
  method LoadEntries(s: Storage, id: nat) returns (status: Status, es: seq<Entry>)
    requires s.Valid() && id < |s.table| && Sound(s.Vol(TableRoots(s.table))) && s.table[id].size <= MAX_FILE_BYTES
    modifies s`disk, s.bitmap.buffer
    ensures s.Valid() && s.disk == old(s.disk) && s.bitmap.Used() == old(s.bitmap.Used())
    ensures status == if Dense(s.disk, s.table[id]) then Ok else OutOfBounds
    ensures status == Ok ==> es == Sort(Listing(s.disk, s.table[id]))
  {
    hide Image, Sound, TableRoots, Flags, IsRange, RangeMapped, Parse, Content;
    var ino := s.table[id];
    if ino.size == 0 {
      EmptyListing(s.disk, ino);
      return Ok, [];
    }
    SameEntry(s.table, id);
    var bytes;
    status, bytes := s.ReadData(ino, 0, ino.size);
    if status != Ok {
      return status, [];
    }
    ReadIsSlice(s.disk, ino, 0, ino.size, bytes);
    assert Content(s.disk, ino)[0..ino.size] == Content(s.disk, ino);
    es := ParseEntries(bytes);
    es := Sort(es);
  }

  lemma EmptyListing(disk: seq<Cluster>, ino: Inode)
    requires InodeOk(ino) && ino.size == 0
    ensures Dense(disk, ino) && Sort(Listing(disk, ino)) == []
  {
  }

  /** A directory's entries, which load always and are sorted already. */
  method LoadDirectory(s: Storage, id: nat) returns (es: seq<Entry>)
    requires s.Valid() && id < |s.table| && Sound(s.Vol(TableRoots(s.table))) && GoodDirectory(s.disk, s.table[id])
    modifies s`disk, s.bitmap.buffer
    ensures s.Valid() && s.disk == old(s.disk) && s.bitmap.Used() == old(s.bitmap.Used())
    ensures es == Listing(s.disk, s.table[id]) && StrictlySorted(es) && Unique(es) && EntriesOk(es)
    ensures Dir(s.disk, s.table[id]) == Names(es) && forall name :: name in Names(es) <==> Has(es, name)
    ensures |Serialize(es)| == s.table[id].size <= MAX_FILE_BYTES
  {
    hide Image, Sound, TableRoots, Flags, Dense, WellStored;
    GoodEntries(s.disk, s.table[id]);
    hide GoodDirectory, Names, StrictlySorted, Unique;
    var status;
    status, es := LoadEntries(s, id);
  }

  /** Writes the entries back. */
  method SaveEntries(s: Storage, id: nat, es: seq<Entry>) returns (status: Status)
    requires s.Valid() && id < |s.table| && Sound(s.Vol(TableRoots(s.table))) && GoodDirectory(s.disk, s.table[id])
    requires StrictlySorted(es) && EntriesOk(es) && |Serialize(es)| <= MAX_FILE_BYTES
    modifies s`disk, s`table, s`dirty, s.bitmap.buffer
    ensures s.Valid() && |s.table| == |old(s.table)| && Sound(s.Vol(TableRoots(s.table)))
    ensures OthersKept(old(s.disk), s.disk, old(s.table), s.table, id)
    ensures status == if Fits(old(s.Vol(TableRoots(s.table))), id, |Serialize(es)|) then Ok else NoSpace
    ensures status == Ok ==>
              && SameLabels(old(s.table)[id], s.table[id])
              && GoodDirectory(s.disk, s.table[id]) && Dir(s.disk, s.table[id]) == Names(es)
              && s.table[id].size == |Serialize(es)|
    ensures |Serialize(es)| <= old(s.table)[id].size ==>
              && status == Ok && SamePointers(old(s.table)[id], s.table[id]) && s.bitmap.Used() == old(s.bitmap.Used())
              && SameOwned(old(s.Vol(TableRoots(s.table))), s.Vol(TableRoots(s.table)))
    ensures status == NoSpace ==>
              && s.table == old(s.table) && AllUsed(s.Vol(map[])) && Dense(s.disk, s.table[id])
              && s.table[id].size < |Serialize(es)|
              && Content(s.disk, s.table[id]) == Serialize(es)[..s.table[id].size]
  {
    hide Image, Sound, TableRoots, Flags, OthersKept, Names, StrictlySorted, Serialize, SamePointers, SameOwned;
    GoodEntries(s.disk, s.table[id]);
    hide GoodDirectory, Dense, WellStored, Content, Fits, AllUsed;
    status := StoreWhole(s, id, Serialize(es));
    if status == Ok {
      SavedDirectory(s.disk, s.table[id], es);
    }
  }

  method InsertEntry(s: Storage, id: nat, name: Name, target: nat) returns (status: Status)
    requires s.Valid() && Sound(s.Vol(TableRoots(s.table))) && IsCString(name) && target < MAX_CLUSTERS
    requires id < |s.table| && s.table[id].kind == Directory ==> GoodDirectory(s.disk, s.table[id]) && HasRoom(s.table[id])
    modifies s`disk, s`table, s`dirty, s.bitmap.buffer
    ensures s.Valid() && |s.table| == |old(s.table)| && Sound(s.Vol(TableRoots(s.table)))
    ensures status == InvalidArgument <==>
            (!ValidName(name) || id >= |s.table| || old(s.table)[id].kind != Directory
             || name in Dir(old(s.disk), old(s.table)[id]))
    ensures status != InvalidArgument ==>
              var size := old(s.table)[id].size + RecordLength(|name|);
              status == if Fits(old(s.Vol(TableRoots(s.table))), id, size) then Ok else NoSpace
    ensures status == InvalidArgument ==>
              s.disk == old(s.disk) && s.table == old(s.table) && s.bitmap.Used() == old(s.bitmap.Used())
    ensures status == Ok ==>
              && SameLabels(old(s.table)[id], s.table[id]) && GoodDirectory(s.disk, s.table[id])
              && Dir(s.disk, s.table[id]) == Dir(old(s.disk), old(s.table)[id])[name := target]
    ensures OthersKept(old(s.disk), s.disk, old(s.table), s.table, id)
    ensures status == NoSpace ==>
              var es := Listing(old(s.disk), old(s.table)[id]);
              && s.table == old(s.table) && AllUsed(s.Vol(map[])) && Dense(s.disk, s.table[id])
              && |Serialize(es)| == s.table[id].size < |Serialize(Placed(es, Entry(target, name)))|
              && Content(s.disk, s.table[id]) == Serialize(Placed(es, Entry(target, name)))[..s.table[id].size]
  {
    hide Image, Sound, TableRoots, Flags, OthersKept, Names, StrictlySorted, Serialize, GoodDirectory, Dense;
    hide Content, Listing;
    hide SameFile, Sort, Placed, Unique, Fits, RecordLength, AllUsed;
    KeptNothing(s.disk, s.table, id);
    var ok := ValidateName(name);
    if !ok || id >= |s.table| || s.table[id].kind != Directory {
      return InvalidArgument;
    }
    var es := LoadDirectory(s, id);
    var index := FindName(es, name);
    if index != -1 {
      return InvalidArgument;
    }
    InsertedEntries(es, Entry(target, name));
    status := SaveEntries(s, id, Sort(es + [Entry(target, name)]));
  }

  lemma InsertedEntries(es: seq<Entry>, e: Entry)
    requires StrictlySorted(es) && EntriesOk(es) && EntryOk(e) && !Has(es, e.name)
    ensures var fs := Sort(es + [e]);
            && fs == Placed(es, e) && StrictlySorted(fs) && EntriesOk(fs)
            && Names(fs) == Names(es)[e.name := e.inodeId]
            && |Serialize(fs)| == |Serialize(es)| + RecordLength(|e.name|)
            && RecordLength(|e.name|) <= RecordLength(MAX_FILENAME_LENGTH)
  {
    hide Names, Serialize;
    SortedIsUnique(es);
    AddedNames(es, e);
    SortKeepsNames(es + [e]);
    SortSorted(es);
    assert (es + [e])[..|es|] == es;
    SerializedLength(es, e);
  }

  lemma {:induction false} SerializedLength(es: seq<Entry>, e: Entry)
    requires |e.name| <= MAX_FILENAME_LENGTH
    ensures |Serialize(Placed(es, e))| == |Serialize(es)| + RecordLength(|e.name|)
    ensures RecordLength(|e.name|) <= RecordLength(MAX_FILENAME_LENGTH)
  {
    if !(es == [] || Compare(e.name, es[0].name) <= 0) {
      SerializedLength(es[1..], e);
    }
  }

  method RemoveEntry(s: Storage, id: nat, name: Name) returns (status: Status)
    requires s.Valid() && Sound(s.Vol(TableRoots(s.table)))
    requires id < |s.table| ==> GoodDirectory(s.disk, s.table[id])
    modifies s`disk, s`table, s`dirty, s.bitmap.buffer
    ensures s.Valid() && |s.table| == |old(s.table)| && Sound(s.Vol(TableRoots(s.table)))
    ensures status == if name == DOT || name == DOT_DOT || id >= |s.table| then InvalidArgument
                      else if name in Dir(old(s.disk), old(s.table)[id]) then Ok else OutOfBounds
    ensures status != Ok ==> s.disk == old(s.disk) && s.table == old(s.table)
    ensures status == Ok ==>
              && SameLabels(old(s.table)[id], s.table[id]) && GoodDirectory(s.disk, s.table[id])
              && Dir(s.disk, s.table[id]) == Dir(old(s.disk), old(s.table)[id]) - {name}
              && SamePointers(old(s.table)[id], s.table[id]) && s.table[id].size <= old(s.table)[id].size
              && SameOwned(old(s.Vol(TableRoots(s.table))), s.Vol(TableRoots(s.table)))
    ensures s.bitmap.Used() == old(s.bitmap.Used())
    ensures OthersKept(old(s.disk), s.disk, old(s.table), s.table, id)
  {
    hide Image, Sound, TableRoots, Flags, OthersKept, Names, StrictlySorted, Serialize, GoodDirectory, Dense;
    hide Content, Listing;
    hide SameFile, Unique, SamePointers, SameOwned;
    KeptNothing(s.disk, s.table, id);
    if name == DOT || name == DOT_DOT || id >= |s.table| {
      return InvalidArgument;
    }
    var es := LoadDirectory(s, id);
    var index := FindName(es, name);
    if index == -1 {
      return OutOfBounds;
    }
    RemovedEntries(es, index);
    status := SaveEntries(s, id, es[..index] + es[index + 1..]);
  }

  lemma RemovedEntries(es: seq<Entry>, k: nat)
    requires StrictlySorted(es) && EntriesOk(es) && k < |es|
    ensures var fs := es[..k] + es[k + 1..];
            && StrictlySorted(fs) && EntriesOk(fs) && Names(fs) == Names(es) - {es[k].name}
            && |Serialize(fs)| <= |Serialize(es)|
  {
    hide Names, Serialize, StrictlySorted, Unique, EntriesOk;
    SortedIsUnique(es);
    WithoutSorted(es, k);
    SortedIsUnique(Without(es, k));
    RemovedNames(es, k);
    RemovedOk(es, k);
    RemovedLength(es, k);
  }

  lemma RemovedOk(es: seq<Entry>, k: nat)
    requires EntriesOk(es) && k < |es|
    ensures EntriesOk(Without(es, k))
  {
    hide Without, EntryOk;
  }

  lemma RemovedLength(es: seq<Entry>, k: nat)
    requires k < |es|
    ensures |Serialize(Without(es, k))| <= |Serialize(es)|
  {
    hide Serialize;
    assert es == es[..k] + ([es[k]] + es[k + 1..]);
    SerializedJoin(es[..k], [es[k]] + es[k + 1..]);
    SerializedJoin(es[..k], es[k + 1..]);
    SerializedSingle(es[k], es[k + 1..]);
  }

  lemma {:induction false} SerializedJoin(es: seq<Entry>, fs: seq<Entry>)
    ensures Serialize(es + fs) == Serialize(es) + Serialize(fs)
  {
    if es == [] {
      assert es + fs == fs;
    } else {
      assert (es + fs)[1..] == es[1..] + fs;
      SerializedJoin(es[1..], fs);
    }
  }

  method FindEntry(s: Storage, id: nat, name: Name) returns (status: Status, target: nat)
    requires s.Valid() && Sound(s.Vol(TableRoots(s.table)))
    requires id < |s.table| ==> GoodDirectory(s.disk, s.table[id])
    modifies s`disk, s.bitmap.buffer
    ensures s.Valid() && s.disk == old(s.disk) && s.bitmap.Used() == old(s.bitmap.Used())
    ensures status == if id >= |s.table| then InvalidArgument
                      else if name in Dir(s.disk, s.table[id]) then Ok else OutOfBounds
    ensures status == Ok ==> target == Dir(s.disk, s.table[id])[name]
  {
    hide Image, Sound, TableRoots, Flags, Names, StrictlySorted, GoodDirectory, Listing, Unique;
    if id >= |s.table| {
      return InvalidArgument, 0;
    }
    var es := LoadDirectory(s, id);
    var index := BinarySearch(es, name);
    if index == -1 {
      return OutOfBounds, 0;
    }
    NamesKeys(es, name);
    return Ok, es[index].inodeId;
  }

  lemma GoodIsDense(disk: seq<Cluster>, ino: Inode)
    requires InodeOk(ino)
    ensures GoodDirectory(disk, ino) ==> Dense(disk, ino)
  {
  }

  /** Whether a file's bytes hold at most two entries; directories are not told from other files here. */
  method IsEmpty(s: Storage, id: nat) returns (status: Status, empty: bool)
    requires s.Valid() && Sound(s.Vol(TableRoots(s.table)))
    requires id < |s.table| ==> s.table[id].size <= MAX_FILE_BYTES
    modifies s`disk, s.bitmap.buffer
    ensures s.Valid() && s.disk == old(s.disk) && s.bitmap.Used() == old(s.bitmap.Used())
    ensures status == if id >= |s.table| then InvalidArgument
                      else if Dense(s.disk, s.table[id]) then Ok else OutOfBounds
    ensures id < |s.table| && GoodDirectory(s.disk, s.table[id]) ==> status == Ok
    ensures status == Ok ==> (empty <==> |Listing(s.disk, s.table[id])| <= 2)
    ensures status == Ok && GoodDirectory(s.disk, s.table[id]) && HasDots(Dir(s.disk, s.table[id])) ==>
              (empty <==> Dir(s.disk, s.table[id]).Keys == {DOT, DOT_DOT})
  {
    hide Image, Sound, TableRoots, Flags, Names, StrictlySorted, GoodDirectory, Listing, Unique, Dense, HasDots;
    if id >= |s.table| {
      return InvalidArgument, false;
    }
    GoodIsDense(s.disk, s.table[id]);
    var es;
    empty := false;
    status, es := LoadEntries(s, id);
    if status == Ok {
      SortMembers(Listing(s.disk, s.table[id]));
      empty := |es| <= 2;
      if GoodDirectory(s.disk, s.table[id]) && HasDots(Dir(s.disk, s.table[id])) {
        GoodEntries(s.disk, s.table[id]);
        TwoEntriesAreDots(Listing(s.disk, s.table[id]));
      }
    }
  }

  method UpdateEntryInode(s: Storage, id: nat, name: Name, target: nat) returns (status: Status)
    requires s.Valid() && Sound(s.Vol(TableRoots(s.table))) && target < MAX_CLUSTERS
    requires id < |s.table| ==> GoodDirectory(s.disk, s.table[id])
    modifies s`disk, s`table, s`dirty, s.bitmap.buffer
    ensures s.Valid() && |s.table| == |old(s.table)| && Sound(s.Vol(TableRoots(s.table)))
    ensures status == if id >= |s.table| then InvalidArgument
                      else if name in Dir(old(s.disk), old(s.table)[id]) then Ok else OutOfBounds
    ensures status != Ok ==> s.disk == old(s.disk) && s.table == old(s.table)
    ensures status == Ok ==>
              && SameLabels(old(s.table)[id], s.table[id]) && GoodDirectory(s.disk, s.table[id])
              && Dir(s.disk, s.table[id]) == Dir(old(s.disk), old(s.table)[id])[name := target]
    ensures s.bitmap.Used() == old(s.bitmap.Used())
    ensures OthersKept(old(s.disk), s.disk, old(s.table), s.table, id)
  {
    hide Image, Sound, TableRoots, Flags, OthersKept, Names, StrictlySorted, Serialize, GoodDirectory, Dense;
    hide Content, Listing;
    hide SameFile, Unique, SamePointers, SameOwned;
    KeptNothing(s.disk, s.table, id);
    if id >= |s.table| {
      return InvalidArgument;
    }
    var es := LoadDirectory(s, id);
    var index := FindName(es, name);
    if index == -1 {
      return OutOfBounds;
    }
    RetargetedEntries(es, index, target);
    status := SaveEntries(s, id, es[index := es[index].(inodeId := target)]);
  }

  lemma ReplacedLength(es: seq<Entry>, k: nat, e: Entry)
    requires k < |es|
    ensures |Serialize(es[k := e])| == |Serialize(es)| - RecordLength(|es[k].name|) + RecordLength(|e.name|)
  {
    hide Serialize, RecordLength;
    assert es == es[..k] + ([es[k]] + es[k + 1..]);
    assert es[k := e] == es[..k] + ([e] + es[k + 1..]);
    SerializedJoin(es[..k], [es[k]] + es[k + 1..]);
    SerializedJoin(es[..k], [e] + es[k + 1..]);
    SerializedSingle(es[k], es[k + 1..]);
    SerializedSingle(e, es[k + 1..]);
  }

  lemma RetargetedSorted(es: seq<Entry>, k: nat, target: nat)
    requires StrictlySorted(es) && EntriesOk(es) && k < |es| && target < MAX_CLUSTERS
    ensures var fs := es[k := es[k].(inodeId := target)];
            StrictlySorted(fs) && EntriesOk(fs)
  {
    hide Compare, IsCString;
    var fs := es[k := es[k].(inodeId := target)];
    assert forall i :: 0 <= i < |es| ==> fs[i].name == es[i].name;
  }

  lemma RetargetedEntries(es: seq<Entry>, k: nat, target: nat)
    requires StrictlySorted(es) && EntriesOk(es) && k < |es| && target < MAX_CLUSTERS
    ensures var fs := es[k := es[k].(inodeId := target)];
            && StrictlySorted(fs) && EntriesOk(fs) && Names(fs) == Names(es)[es[k].name := target]
            && |Serialize(fs)| == |Serialize(es)|
  {
    hide Names, Serialize, StrictlySorted, Unique, EntriesOk, RecordLength;
    RetargetedSorted(es, k, target);
    SortedIsUnique(es);
    ReplacedNames(es, k, es[k].(inodeId := target));
    ReplacedLength(es, k, es[k].(inodeId := target));
  }

  lemma SerializedSingle(e: Entry, es: seq<Entry>)
    ensures |Serialize([e] + es)| == RecordLength(|e.name|) + |Serialize(es)|
  {
    assert ([e] + es)[1..] == es;
  }

  /** The entries with the one called oldName under its new name, sorted again. */
  function Renamed(es: seq<Entry>, oldName: Name, newName: Name): seq<Entry> {
    Sort(seq(|es|, i requires 0 <= i < |es| => if es[i].name == oldName then Entry(es[i].inodeId, newName) else es[i]))
  }

  lemma RenamedAt(es: seq<Entry>, k: nat, newName: Name)
    requires Unique(es) && k < |es|
    ensures Renamed(es, es[k].name, newName) == Sort(es[k := Entry(es[k].inodeId, newName)])
  {
    hide Sort;
    var fs := es[k := Entry(es[k].inodeId, newName)];
    forall i | 0 <= i < |es| && i != k ensures es[i].name != es[k].name {
      OnlyAt(es, k, i);
    }
    assert seq(|es|, i requires 0 <= i < |es| => if es[i].name == es[k].name then Entry(es[i].inodeId, newName) else es[i]) == fs;
  }

  /** Renames an entry within its directory. */
  method RenameEntry(s: Storage, id: nat, oldName: Name, newName: Name) returns (status: Status)
    requires s.Valid() && Sound(s.Vol(TableRoots(s.table))) && IsCString(newName)
    requires id < |s.table| ==> GoodDirectory(s.disk, s.table[id]) && HasRoom(s.table[id])
    modifies s`disk, s`table, s`dirty, s.bitmap.buffer
    ensures s.Valid() && |s.table| == |old(s.table)| && Sound(s.Vol(TableRoots(s.table)))
    ensures status ==
              if oldName == DOT || oldName == DOT_DOT || !ValidName(newName) || id >= |s.table| then InvalidArgument
              else if oldName !in Dir(old(s.disk), old(s.table)[id]) then OutOfBounds
              else if newName in Dir(old(s.disk), old(s.table)[id]) then InvalidArgument
              else
                var bytes := Serialize(Renamed(Listing(old(s.disk), old(s.table)[id]), oldName, newName));
                if Fits(old(s.Vol(TableRoots(s.table))), id, |bytes|) then Ok else NoSpace
    ensures status != Ok && status != NoSpace ==>
              s.disk == old(s.disk) && s.table == old(s.table) && s.bitmap.Used() == old(s.bitmap.Used())
    ensures status == Ok ==>
              var names := Dir(old(s.disk), old(s.table)[id]);
              && SameLabels(old(s.table)[id], s.table[id]) && GoodDirectory(s.disk, s.table[id])
              && Dir(s.disk, s.table[id]) == (names - {oldName})[newName := names[oldName]]
    ensures status == NoSpace ==>
              var bytes := Serialize(Renamed(Listing(old(s.disk), old(s.table)[id]), oldName, newName));
              && s.table == old(s.table) && AllUsed(s.Vol(map[])) && Dense(s.disk, s.table[id]) && s.table[id].size < |bytes|
              && Content(s.disk, s.table[id]) == bytes[..s.table[id].size]
    ensures OthersKept(old(s.disk), s.disk, old(s.table), s.table, id)
  {
    hide Image, Sound, TableRoots, Flags, OthersKept, Names, StrictlySorted, Serialize, GoodDirectory, Dense;
    hide Content, Listing;
    hide SameFile, Unique, SamePointers, Sort, SameOwned, Fits, Renamed, RecordLength, AllUsed;
    KeptNothing(s.disk, s.table, id);
    if oldName == DOT || oldName == DOT_DOT {
      return InvalidArgument;
    }
    var ok := ValidateName(newName);
    if !ok || id >= |s.table| {
      return InvalidArgument;
    }
    var es := LoadDirectory(s, id);
    var index := FindName(es, oldName);
    if index == -1 {
      return OutOfBounds;
    }
    var existing := FindName(es, newName);
    if existing != -1 {
      return InvalidArgument;
    }
    RenamedAt(es, index, newName);
    RenamedEntries(es, index, newName);
    status := SaveEntries(s, id, Sort(es[index := Entry(es[index].inodeId, newName)]));
  }

  lemma RenamedEntries(es: seq<Entry>, k: nat, name: Name)
    requires StrictlySorted(es) && EntriesOk(es) && k < |es| && !Has(es, name)
    requires IsCString(name) && |name| <= MAX_FILENAME_LENGTH
    ensures var e := Entry(es[k].inodeId, name);
            var fs := Sort(es[k := e]);
            && StrictlySorted(fs) && EntriesOk(fs)
            && es[k].name in Names(es)
            && Names(fs) == (Names(es) - {es[k].name})[name := Names(es)[es[k].name]]
            && |Serialize(fs)| == |Serialize(es)| - RecordLength(|es[k].name|) + RecordLength(|name|)
            && |Serialize(fs)| <= |Serialize(es)| + RecordLength(MAX_FILENAME_LENGTH)
  {
    hide Names, Serialize, Sort, StrictlySorted, Unique, EntriesOk, RecordLength;
    var e := Entry(es[k].inodeId, name);
    SortedIsUnique(es);
    NamesKeys(es, es[k].name);
    ReplacedNames(es, k, e);
    RenamedOk(es, k, name);
    SortKeepsNames(es[k := e]);
    RenamedLengths(es, k, e);
  }

  lemma RenamedOk(es: seq<Entry>, k: nat, name: Name)
    requires EntriesOk(es) && k < |es| && IsCString(name) && |name| <= MAX_FILENAME_LENGTH
    ensures EntryOk(Entry(es[k].inodeId, name)) && EntriesOk(es[k := Entry(es[k].inodeId, name)])
  {
  }

  lemma RenamedLengths(es: seq<Entry>, k: nat, e: Entry)
    requires EntriesOk(es) && k < |es| && EntryOk(e)
    ensures |Serialize(Sort(es[k := e]))| == |Serialize(es)| - RecordLength(|es[k].name|) + RecordLength(|e.name|)
    ensures RecordLength(|e.name|) <= RecordLength(MAX_FILENAME_LENGTH)
  {
    hide Serialize, Sort;
    SortedLength(es[k := e]);
    ReplacedLength(es, k, e);
    SerializedLength([], e);
  }

  lemma {:induction false} SortedLength(es: seq<Entry>)
    requires forall i :: 0 <= i < |es| ==> |es[i].name| <= MAX_FILENAME_LENGTH
    ensures |Serialize(Sort(es))| == |Serialize(es)|
  {
    if es != [] {
      var init, e := es[..|es| - 1], es[|es| - 1];
      SortedLength(init);
      SerializedLength(Sort(init), e);
      assert es == init + [e];
      SerializedJoin(init, [e]);
      SerializedSingle(e, []);
      assert [e] + [] == [e];
    }
  }

  /** Gives a new directory its two entries. */
  method CreateNew(s: Storage, id: nat, parent: nat) returns (status: Status)
    requires s.Valid() && Sound(s.Vol(TableRoots(s.table))) && id < MAX_CLUSTERS && parent < MAX_CLUSTERS
    requires id < |s.table| && s.table[id].kind == Directory ==> s.table[id].size == 0
    modifies s`disk, s`table, s`dirty, s.bitmap.buffer
    ensures s.Valid() && |s.table| == |old(s.table)| && Sound(s.Vol(TableRoots(s.table)))
    ensures status == InvalidArgument <==> id >= |s.table| || old(s.table)[id].kind != Directory
    ensures status == InvalidArgument || status == Ok || status == NoSpace
    ensures status != Ok ==> s.table == old(s.table)
    ensures status == Ok ==>
              && SameLabels(old(s.table)[id], s.table[id]) && GoodDirectory(s.disk, s.table[id])
              && Dir(s.disk, s.table[id]) == FirstNames(id, parent)
              && HasRoom(s.table[id]) && s.table[id].size == 24
              && OthersOwn(old(s.Vol(TableRoots(s.table))), s.Vol(TableRoots(s.table)), id)
    ensures status != InvalidArgument ==> (status == Ok <==> Fits(old(s.Vol(TableRoots(s.table))), id, 24))
    ensures id < |s.table| && NoPointers(old(s.table)[id]) ==>
              && (status == Ok ==> TookLowest(old(s.bitmap.Used()), s.bitmap.Used(), 1))
              && (status != InvalidArgument ==> (status == Ok <==> FreeClusters(old(s.bitmap.Used())) > 0))
    ensures OthersKept(old(s.disk), s.disk, old(s.table), s.table, id)
  {
    hide Image, Sound, TableRoots, Flags, OthersKept, Names, StrictlySorted, Serialize, GoodDirectory, Dense;
    hide WellStored, Content, Listing;
    hide SameFile, Unique, SamePointers, Sort, SameOwned, NoPointers, TookLowest, ClustersNeeded, AllUsed, FreeClusters;
    KeptNothing(s.disk, s.table, id);
    if id >= |s.table| || s.table[id].kind != Directory {
      return InvalidArgument;
    }
    var es := [Entry(id, DOT), Entry(parent, DOT_DOT)];
    FirstEntries(id, parent);
    if NoPointers(s.table[id]) {
      FirstNeeds(s.Vol(TableRoots(s.table)), s.table, id);
    }
    hide Fits, MissingClusters, OthersOwn;
    status := StoreWhole(s, id, Serialize(es));
    if status == Ok {
      SavedDirectory(s.disk, s.table[id], es);
      StoredSize(s.disk, s.table[id]);
    }
  }

  lemma FirstNeeds(v: Volume, table: seq<Inode>, id: nat)
    requires OfTable(v, table) && id < |table| && NoPointers(table[id])
    ensures MissingClusters(v, id, ClustersFor(24)) == 1
    ensures Fits(v, id, 24) <==> FreeClusters(v.used) > 0
  {
    NewNeeds(v, table, id, 24);
  }

  lemma StoredSize(disk: seq<Cluster>, ino: Inode)
    requires InodeOk(ino)
    ensures |Content(disk, ino)| == ino.size
  {
  }

  lemma FirstSorted(id: nat, parent: nat)
    requires id < MAX_CLUSTERS && parent < MAX_CLUSTERS
    ensures var es := [Entry(id, DOT), Entry(parent, DOT_DOT)]; StrictlySorted(es) && EntriesOk(es)
  {
    assert DOT[1..] == [] && DOT_DOT[1..] == [46];
  }

  lemma FirstLength(id: nat, parent: nat)
    ensures |Serialize([Entry(id, DOT), Entry(parent, DOT_DOT)])| == 24
  {
    var es := [Entry(id, DOT), Entry(parent, DOT_DOT)];
    hide Record;
    SerializedSingle(es[0], [es[1]]);
    SerializedSingle(es[1], []);
    assert [es[1]] + [] == [es[1]] && [es[0]] + [es[1]] == es;
  }

  lemma FirstEntries(id: nat, parent: nat)
    requires id < MAX_CLUSTERS && parent < MAX_CLUSTERS
    ensures var es := [Entry(id, DOT), Entry(parent, DOT_DOT)];
            && StrictlySorted(es) && EntriesOk(es) && |Serialize(es)| == 24
            && Names(es) == FirstNames(id, parent)
  {
    var es := [Entry(id, DOT), Entry(parent, DOT_DOT)];
    FirstSorted(id, parent);
    FirstLength(id, parent);
    SortedIsUnique(es);
    hide Serialize, StrictlySorted, EntriesOk, Names;
    assert es[0].name == DOT && es[1].name == DOT_DOT;
    NamesAre(es, FirstNames(id, parent));
  }

  // ----- How large a directory can get -----

  lemma {:induction false} NamesSize(es: seq<Entry>)
    requires Unique(es)
    ensures |Names(es).Keys| == |es|
  {
    if es != [] {
      var init, e := es[..|es| - 1], es[|es| - 1];
      assert Unique(init);
      NamesSize(init);
      NamesKeys(init, e.name);
      assert Names(es).Keys == Names(init).Keys + {e.name};
      LastIsNew(es);
    }
  }

  lemma LastIsNew(es: seq<Entry>)
    requires Unique(es) && es != []
    ensures !Has(es[..|es| - 1], es[|es| - 1].name)
  {
    var init := es[..|es| - 1];
    forall i | 0 <= i < |init| ensures init[i].name != es[|es| - 1].name {
      OnlyAt(es, |es| - 1, i);
    }
  }

  lemma {:induction false} SerializedBound(es: seq<Entry>)
    requires EntriesOk(es)
    ensures |Serialize(es)| <= |es| * RecordLength(MAX_FILENAME_LENGTH)
  {
    hide Record, RecordLength;
    if es != [] {
      SerializedBound(es[1..]);
      NameFits(es[0]);
      OneMore(|es|, RecordLength(MAX_FILENAME_LENGTH));
    }
  }

  lemma NameFits(e: Entry)
    requires EntryOk(e)
    ensures RecordLength(|e.name|) <= RecordLength(MAX_FILENAME_LENGTH)
  {
  }

  lemma OneMore(n: nat, w: nat)
    requires n > 0
    ensures (n - 1) * w + w == n * w
  {
  }

  /** Keys with distinct values below n are at most n. */
  lemma {:induction false} KeysBound(keys: set<Name>, m: map<Name, nat>, n: nat)
    requires keys <= m.Keys
    requires forall k :: k in keys ==> m[k] < n
    requires forall j, k :: j in keys && k in keys && m[j] == m[k] ==> j == k
    ensures |keys| <= n
  {
    if n == 0 {
      forall k ensures k !in keys {
      }
      assert keys == {};
    } else if exists k :: k in keys && m[k] == n - 1 {
      var k :| k in keys && m[k] == n - 1;
      KeysBound(keys - {k}, m, n - 1);
    } else {
      KeysBound(keys, m, n - 1);
    }
  }

  /** A directory that names at most n inodes besides itself and its parent has room for one more name. */
  lemma DirectoryHasRoom(disk: seq<Cluster>, ino: Inode, n: nat)
    requires GoodDirectory(disk, ino) && n <= MAX_CLUSTERS && |Dir(disk, ino).Keys - {DOT, DOT_DOT}| <= n
    ensures HasRoom(ino)
  {
    var es := Listing(disk, ino);
    GoodEntries(disk, ino);
    hide GoodDirectory, Names, Serialize, Dense, WellStored;
    NamesSize(es);
    SerializedBound(es);
    var keys := Names(es).Keys;
    assert keys <= (keys - {DOT, DOT_DOT}) + {DOT, DOT_DOT};
    UnionSize(keys, keys - {DOT, DOT_DOT}, {DOT, DOT_DOT});
    LengthBound(|es|, n);
  }

  lemma UnionSize(a: set<Name>, b: set<Name>, c: set<Name>)
    requires a <= b + c
    ensures |a| <= |b| + |c|
  {
    assert a == (a * b) + (a - b);
    assert |a * b| <= |b| by {
      assert b == (a * b) + (b - a);
    }
    assert |a - b| <= |c| by {
      assert c == (a - b) + (c - (a - b));
    }
  }

  lemma LengthBound(m: nat, n: nat)
    requires m <= n + 2 && n <= MAX_CLUSTERS
    ensures m * RecordLength(MAX_FILENAME_LENGTH) + RecordLength(MAX_FILENAME_LENGTH) <= MAX_FILE_BYTES
  {
    assert RecordLength(MAX_FILENAME_LENGTH) == 264;
  }
}
