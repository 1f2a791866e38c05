/** Counting and removing a directory with everything below it. */
module RecursiveRemove {
  import opened Basics
  import opened Bitmap
  import opened Clusters
  import opened Ownership
  import opened Inodes
  import opened FileViews
  import opened AllocationSteps
  import opened Truncation
  import opened FlatFile
  import opened Entries
  import opened TableImage
  import opened Storage
  import opened Directories
  import opened Namespace
  import opened Subtrees
  import opened Vfs

  // ----- What removing a set of inodes does -----

  ghost predicate OwnedByAny(v: Volume, r: set<nat>, c: nat) {
    exists j :: j in r && OwnedByInode(v, j, c)
  }

  /** Exactly the clusters of the inodes in r are free now; every other inode owns what it did. */
  ghost predicate Reclaimed(v: Volume, w: Volume, r: set<nat>) {
    && |w.used| == |v.used|
    && (forall c: nat :: c < |v.used| ==> (w.used[c] <==> v.used[c] && !OwnedByAny(v, r, c)))
    && (forall j: nat, c: nat :: j !in r ==> (OwnedByInode(w, j, c) <==> OwnedByInode(v, j, c)))
  }

  lemma ReclaimedNothing(v: Volume, w: Volume)
    requires SameOwned(v, w) && w.used == v.used
    ensures Reclaimed(v, w, {})
  {
    hide OwnedByInode;
    forall j: nat, c: nat ensures OwnedByInode(w, j, c) <==> OwnedByInode(v, j, c) {
      SameOwnedSameOwner(v, w, j, c);
    }
  }

  lemma ReclaimedTwice(u: Volume, v: Volume, w: Volume, a: set<nat>, b: set<nat>)
    requires Reclaimed(u, v, a) && Reclaimed(v, w, b) && a !! b
    ensures Reclaimed(u, w, a + b)
  {
    hide OwnedByInode;
    forall c: nat | c < |u.used| ensures w.used[c] <==> u.used[c] && !OwnedByAny(u, a + b, c) {
      assert OwnedByAny(u, a + b, c) <==> OwnedByAny(u, a, c) || OwnedByAny(u, b, c);
      assert OwnedByAny(u, b, c) <==> OwnedByAny(v, b, c);
    }
  }

  lemma TruncatedReclaims(v: Volume, w: Volume, table: seq<Inode>, table': seq<Inode>, id: nat)
    requires OfTable(v, table) && OfTable(w, table') && v.disk == w.disk && id < |table|
    requires table' == table[id := EmptyInode(id)] && Truncated(v, id, v.used, w.used)
    ensures Reclaimed(v, w, {id})
  {
    hide OwnedByInode, TableRoots;
    forall j: nat, c: nat | j != id ensures OwnedByInode(w, j, c) <==> OwnedByInode(v, j, c) {
      if j < |table| {
        SameInodeOwns(v, w, table, table', j, c);
      } else {
        NoInodeOwnsNothing(v, table, j, c);
        NoInodeOwnsNothing(w, table', j, c);
      }
    }
    forall c: nat ensures OwnedByAny(v, {id}, c) <==> OwnedByInode(v, id, c) {
    }
  }

  /** The clusters of the inodes in r are free, data and pointers; those of all others are in use as before. */
  lemma ReclaimedFrees(v: Volume, w: Volume, table: seq<Inode>, r: set<nat>, j: nat, l: nat)
    requires Sound(v) && OfTable(v, table) && j < |table| && l < MAX_FILE_CLUSTERS && Reclaimed(v, w, r)
    ensures var owned := [Lookup(v.disk, table[j], l), table[j].singleIndirect, table[j].doubleIndirect, table[j].tripleIndirect];
            forall c :: c in owned && c != 0 ==> c < |w.used| && (w.used[c] <==> j !in r)
  {
    OwnsItsClusters(v, table, j, l);
    hide OwnedByInode, Sound, TableRoots, Lookup;
    var owned := [Lookup(v.disk, table[j], l), table[j].singleIndirect, table[j].doubleIndirect, table[j].tripleIndirect];
    forall c | c in owned && c != 0
      ensures c < |w.used| && (w.used[c] <==> j !in r)
    {
      OwnedIsUsed(v, j, c);
      if OwnedByAny(v, r, c) {
        var i :| i in r && OwnedByInode(v, i, c);
        OwnedByOneOnly(v, i, j, c);
      }
    }
  }

  ghost predicate Emptied(table: seq<Inode>, r: set<nat>) {
    forall j :: j in r ==> j < |table| && table[j] == EmptyInode(j)
  }

  lemma StillEmptied(disk: seq<Cluster>, disk': seq<Cluster>, table: seq<Inode>, table': seq<Inode>, r: set<nat>,
                     b: set<nat>)
    requires Emptied(table, r) && KeptOutside(disk, disk', table, table', b) && r !! b
    ensures Emptied(table', r)
  {
    hide SameFile;
  }

  /** Truncates a file and frees its inode; ino may be an older copy of the record with the same pointers. */
  method Reclaim(s: Storage, ino: Inode)
    requires s.Valid() && Sound(s.Vol(TableRoots(s.table)))
    requires InodeOk(ino) && ino.id < |s.table| && SamePointers(ino, s.table[ino.id])
    modifies s`table, s`dirty, s.bitmap.buffer
    ensures s.Valid() && Sound(s.Vol(TableRoots(s.table)))
    ensures s.table == old(s.table)[ino.id := EmptyInode(ino.id)]
    ensures Reclaimed(old(s.Vol(TableRoots(s.table))), s.Vol(TableRoots(s.table)), {ino.id})
    ensures KeptOutside(s.disk, s.disk, old(s.table), s.table, {ino.id})
  {
    hide Image, Sound, TableRoots, Truncated, Flags, OthersSame, NoPointers, Reclaimed, SamePointers, EmptyInode;
    ghost var table, v := s.table, s.Vol(TableRoots(s.table));
    SameRoots(table, ino);
    var status, ino' := s.TruncateFile(ino);
    RewrittenEntry(table, ino.id, ino', EmptyInode(ino.id));
    NewHasNoPointers(ino.id, Regular);
    DropSound(s.disk, s.bitmap.Used(), s.reserved, s.table, EmptyInode(ino.id));
    status := s.FreeInode(ino.id);
    TruncatedReclaims(v, s.Vol(TableRoots(s.table)), table, s.table, ino.id);
    RecordOutside(s.disk, table, s.table, ino.id);
  }

  lemma SameRoots(table: seq<Inode>, ino: Inode)
    requires TableOk(table) && InodeOk(ino) && ino.id < |table| && SamePointers(ino, table[ino.id])
    ensures TableOk(table[ino.id := ino]) && TableRoots(table[ino.id := ino]) == TableRoots(table)
  {
    assert SamePointers(table[ino.id], ino);
    SizeKeepsRoots(table, ino.id, ino);
  }

  // ----- Going through the entries of a directory -----

  /** Of the entries, those from i on are left in names, besides "." and "..". */
  ghost predicate Remaining(es: seq<Entry>, i: nat, names: map<Name, nat>) {
    && i <= |es| && HasDots(names)
    && (forall j :: i <= j < |es| ==> es[j].name in names && names[es[j].name] == es[j].inodeId)
    && forall k :: k in names ==> k == DOT || k == DOT_DOT || exists j :: i <= j < |es| && es[j].name == k
  }

  predicate IsDots(name: Name) {
    name == DOT || name == DOT_DOT
  }

  lemma RemainingAll(es: seq<Entry>)
    requires Unique(es) && HasDots(Names(es))
    ensures Remaining(es, 0, Names(es))
  {
    hide Names;
    NamesAll(es);
  }

  lemma RemainingNext(es: seq<Entry>, i: nat, names: map<Name, nat>)
    requires Unique(es) && Remaining(es, i, names) && i < |es|
    ensures Remaining(es, i + 1, if IsDots(es[i].name) then names else names - {es[i].name})
  {
    var names' := if IsDots(es[i].name) then names else names - {es[i].name};
    forall j | i + 1 <= j < |es| ensures es[j].name in names' && names'[es[j].name] == es[j].inodeId {
      assert es[j].name != es[i].name;
    }
    forall k | k in names' && !IsDots(k) ensures exists j :: i + 1 <= j < |es| && es[j].name == k {
      var j :| i <= j < |es| && es[j].name == k;
      assert j != i;
    }
  }

  lemma RemainingNone(es: seq<Entry>, names: map<Name, nat>)
    requires Remaining(es, |es|, names)
    ensures names.Keys == {DOT, DOT_DOT}
  {
  }

  /** The i-th entry names a child. */
  lemma RemainingChild(es: seq<Entry>, i: nat, ns: Namespace, d: nat)
    requires d in ns.dirs && Remaining(es, i, ns.dirs[d]) && i < |es| && !IsDots(es[i].name)
    ensures Child(ns, d, es[i].name, es[i].inodeId)
  {
  }

  /** What the steps up to now and one more child add up to; s is the whole subtree, r what was left of it. */
  lemma OneMoreChild(v0: Volume, v1: Volume, v2: Volume, t0: seq<Inode>, t1: seq<Inode>, t2: seq<Inode>,
                     s: set<nat>, r: set<nat>, t: set<nat>, id: nat)
    requires t <= r <= s && id in r && id !in t
    requires Reclaimed(v0, v1, s - r) && KeptOutside(v0.disk, v1.disk, t0, t1, s) && Emptied(t1, s - r)
    requires Reclaimed(v1, v2, t) && KeptOutside(v1.disk, v2.disk, t1, t2, t + {id}) && Emptied(t2, t)
    ensures Reclaimed(v0, v2, s - (r - t)) && KeptOutside(v0.disk, v2.disk, t0, t2, s) && Emptied(t2, s - (r - t))
  {
    hide Reclaimed, KeptOutside;
    ReclaimedTwice(v0, v1, v2, s - r, t);
    assert (s - r) + t == s - (r - t);
    KeptOutsideTwice(v0.disk, v1.disk, v2.disk, t0, t1, t2, s, t + {id}, s);
    StillEmptied(v1.disk, v2.disk, t1, t2, s - r, t + {id});
  }

  ghost predicate Ready(s: Storage)
    reads s, s.bitmap, s.bitmap.buffer
  {
    s.Valid() && Sound(s.Vol(TableRoots(s.table)))
  }

  /** The records of a directory's file, in the order they are stored. */
  method ReadListing(s: Storage, ino: Inode) returns (es: seq<Entry>)
    requires Ready(s) && InodeOk(ino) && ino.id < |s.table| && ino == s.table[ino.id] && GoodDirectory(s.disk, ino)
    modifies s`disk, s.bitmap.buffer
    ensures Ready(s) && s.disk == old(s.disk) && s.bitmap.Used() == old(s.bitmap.Used())
    ensures es == Listing(s.disk, ino) && Unique(es) && Dir(s.disk, ino) == Names(es)
  {
    hide Image, Sound, TableRoots, Flags, IsRange, RangeMapped, Parse, Content, Dense, WellStored, Unique, Names;
    GoodEntries(s.disk, ino);
    hide GoodDirectory;
    if ino.size == 0 {
      EmptyListing(s.disk, ino);
      SortMembers(Listing(s.disk, ino));
      return [];
    }
    SameEntry(s.table, ino.id);
    var status, bytes := s.ReadData(ino, 0, ino.size);
    ListedBytes(s.disk, ino, bytes);
    es := ParseEntries(bytes);
  }

  lemma ListedBytes(disk: seq<Cluster>, ino: Inode, bytes: seq<byte>)
    requires InodeOk(ino) && Dense(disk, ino)
    ensures RangeMapped(disk, ino, 0, ino.size) && ReadLength(ino.size, 0, ino.size) == ino.size
    ensures IsRange(disk, ino, 0, ino.size, bytes) ==> Parse(bytes) == Listing(disk, ino)
  {
    hide RangeMapped, IsRange, Parse, Content;
    if IsRange(disk, ino, 0, ino.size, bytes) {
      ReadIsSlice(disk, ino, 0, ino.size, bytes);
      assert Content(disk, ino)[0..ino.size] == Content(disk, ino);
    }
  }

  // ----- Removing -----

  lemma PrunedDepths(ns: Namespace, d: nat, name: Name, bound: nat)
    requires d in ns.dirs && name in ns.dirs[d] && DepthsBelow(ns, bound)
    ensures DepthsBelow(Prune(ns, d, name), bound)
  {
    hide Subtree;
  }

  lemma PrunedSelf(ns: Namespace, root: nat, d: nat, name: Name)
    requires d in ns.dirs && name in ns.dirs[d] && d in ns.depth && d !in Subtree(ns, ns.dirs[d][name])
    ensures var ns' := Prune(ns, d, name);
            d in ns'.dirs && ns'.dirs[d] == ns.dirs[d] - {name} && d in ns'.depth && ns'.depth[d] == ns.depth[d]
  {
    hide Subtree;
  }

  lemma PointersStay(a: Inode, b: Inode, c: Inode)
    requires SamePointers(a, b) && SamePointers(b, c)
    ensures SamePointers(a, c)
  {
  }

  /** Removes one inode with everything under it, and counts it; its name stays. */
  method RemoveInode(s: Storage, id: nat, name: Name, t: nat, files: nat, dirs: nat,
                     ghost ns: Namespace, ghost root: nat, ghost bound: nat)
    returns (files': nat, dirs': nat)
    requires Ready(s) && Shows(s.disk, s.table, ns.dirs, ns.kinds, map[]) && TreeOk(ns, root) && DepthsBelow(ns, bound)
    requires Child(ns, id, name, t) && id in ns.depth
    modifies s`disk, s`table, s`dirty, s.bitmap.buffer
    ensures Ready(s) && |s.table| == |old(s.table)|
    ensures Shows(s.disk, s.table, ns.dirs - Subtree(ns, t), ns.kinds - Subtree(ns, t), map[])
    ensures Reclaimed(old(s.Vol(TableRoots(s.table))), s.Vol(TableRoots(s.table)), Subtree(ns, t))
    ensures KeptOutside(old(s.disk), s.disk, old(s.table), s.table, Subtree(ns, t)) && Emptied(s.table, Subtree(ns, t))
    ensures files' == files + |FilesIn(ns, t)| && dirs' == dirs + |DirectoriesIn(ns, t)|
    decreases bound - ns.depth[id], 0
  {
    hide Image, Sound, TableRoots, Flags, Shows, TreeOk, Child, Subtree, Reclaimed, KeptOutside, Below, Stored;
    hide SamePointers;
    hide FilesIn, DirectoriesIn;
    ChildDepth(ns, root, id, name, t);
    ShowsFacts(s.disk, s.table, ns.dirs, ns.kinds, t, map[]);
    var ino := s.table[t];
    if ino.kind == Directory {
      files', dirs' := RemoveBelow(s, t, files, dirs, ns, root, bound);
      dirs' := dirs' + 1;
    } else {
      FileSubtree(ns, root, id, name, t);
      SelfPointers(ino);
      ghost var table := s.table;
      Reclaim(s, ino);
      ShowsFreed(s.disk, table, ns.dirs, ns.kinds, t, map[]);
      files', dirs' := files + 1, dirs;
    }
  }

  lemma SelfPointers(ino: Inode)
    requires InodeOk(ino)
    ensures SamePointers(ino, ino)
  {
  }

  /** Removes a child of a directory: everything under it, and then its name. */
  method RemoveChild(s: Storage, id: nat, name: Name, t: nat, files: nat, dirs: nat,
                     ghost ns: Namespace, ghost root: nat, ghost bound: nat)
    returns (files': nat, dirs': nat)
    requires Ready(s) && Shows(s.disk, s.table, ns.dirs, ns.kinds, map[]) && TreeOk(ns, root) && DepthsBelow(ns, bound)
    requires Child(ns, id, name, t) && id in ns.depth && id in ns.dirs && name in ns.dirs[id]
    modifies s`disk, s`table, s`dirty, s.bitmap.buffer
    ensures Ready(s) && |s.table| == |old(s.table)|
    ensures Shows(s.disk, s.table, Prune(ns, id, name).dirs, Prune(ns, id, name).kinds, map[])
    ensures Reclaimed(old(s.Vol(TableRoots(s.table))), s.Vol(TableRoots(s.table)), Subtree(ns, t))
    ensures KeptOutside(old(s.disk), s.disk, old(s.table), s.table, Subtree(ns, t) + {id})
    ensures Emptied(s.table, Subtree(ns, t))
    ensures id < |s.table| && SamePointers(old(s.table)[id], s.table[id])
    ensures files' == files + |FilesIn(ns, t)| && dirs' == dirs + |DirectoriesIn(ns, t)|
    decreases bound - ns.depth[id], 1
  {
    hide Image, Sound, TableRoots, Flags, Shows, TreeOk, Child, Subtree, Reclaimed, KeptOutside, Below, Stored;
    hide SamePointers;
    hide FilesIn, DirectoriesIn, Emptied, OthersKept, SameOwned;
    ghost var d0, t0, v0, r := s.disk, s.table, s.Vol(TableRoots(s.table)), Subtree(ns, t);
    ChildSubtree(ns, root, id, name, t);
    ShowsFacts(s.disk, s.table, ns.dirs, ns.kinds, id, map[]);
    DirFacts(ns, root, id);
    files', dirs' := RemoveInode(s, id, name, t, files, dirs, ns, root, bound);
    ghost var d1, t1, v1 := s.disk, s.table, s.Vol(TableRoots(s.table));
    KeptRecord(d0, d1, t0, t1, r, id);
    NoDots(ns, id, name, t);
    var status := TakeName(s, id, name, ns.dirs - r, ns.kinds - r, map[]);
    NameTaken(v0, v1, s.Vol(TableRoots(s.table)), t0, t1, s.table, r, id);
  }

  lemma KeptRecord(disk: seq<Cluster>, disk': seq<Cluster>, table: seq<Inode>, table': seq<Inode>, r: set<nat>, id: nat)
    requires KeptOutside(disk, disk', table, table', r) && id < |table| && id !in r
    ensures id < |table'| && table'[id] == table[id]
  {
  }

  lemma NoDots(ns: Namespace, d: nat, name: Name, t: nat)
    requires Child(ns, d, name, t)
    ensures name != DOT && name != DOT_DOT && d in ns.dirs && name in ns.dirs[d] && ns.dirs[d][name] == t
  {
  }

  /**
   Removes everything below a directory and the directory itself; the directory's own name is left to the caller.
   */
  method RemoveBelow(s: Storage, id: nat, files: nat, dirs: nat, ghost ns: Namespace, ghost root: nat, ghost bound: nat)
    returns (files': nat, dirs': nat)
    requires Ready(s) && Shows(s.disk, s.table, ns.dirs, ns.kinds, map[]) && TreeOk(ns, root) && DepthsBelow(ns, bound)
    requires id in ns.dirs && id in ns.depth
    modifies s`disk, s`table, s`dirty, s.bitmap.buffer
    ensures Ready(s) && |s.table| == |old(s.table)|
    ensures Shows(s.disk, s.table, ns.dirs - Subtree(ns, id), ns.kinds - Subtree(ns, id), map[])
    ensures Reclaimed(old(s.Vol(TableRoots(s.table))), s.Vol(TableRoots(s.table)), Subtree(ns, id))
    ensures KeptOutside(old(s.disk), s.disk, old(s.table), s.table, Subtree(ns, id)) && Emptied(s.table, Subtree(ns, id))
    ensures files' == files + |FilesIn(ns, id)| && dirs' + 1 == dirs + |DirectoriesIn(ns, id)|
    decreases bound - ns.depth[id], 2
  {
    hide Image, Sound, TableRoots, Flags, Shows, TreeOk, Child, Subtree, Reclaimed, KeptOutside, Below, Stored;
    hide SamePointers;
    hide FilesIn, DirectoriesIn, Emptied, Remaining, Unique, GoodDirectory, Dir, Listing, Names, Partly, DepthsBelow, Prune;
    ghost var v0, t0 := s.Vol(TableRoots(s.table)), s.table;
    ShowsFacts(s.disk, s.table, ns.dirs, ns.kinds, id, map[]);
    DirFacts(ns, root, id);
    var directory := s.table[id];
    var es := ReadListing(s, directory);
    RemainingAll(es);
    ghost var cur := ns;
    PartlyNone(ns, id);
    Starting(v0, t0, Subtree(ns, id));
    SelfPointers(directory);
    files', dirs' := files, dirs;
    for i := 0 to |es|
      invariant Ready(s) && Shows(s.disk, s.table, cur.dirs, cur.kinds, map[]) && TreeOk(cur, root)
      invariant DepthsBelow(cur, bound)
      invariant Partly(ns, cur, id) && id in cur.dirs && id in cur.depth && cur.depth[id] == ns.depth[id]
      invariant Remaining(es, i, cur.dirs[id]) && Subtree(cur, id) <= Subtree(ns, id)
      invariant Reclaimed(v0, s.Vol(TableRoots(s.table)), Subtree(ns, id) - Subtree(cur, id))
      invariant KeptOutside(v0.disk, s.disk, t0, s.table, Subtree(ns, id))
      invariant Emptied(s.table, Subtree(ns, id) - Subtree(cur, id)) && |s.table| == |t0|
      invariant id < |s.table| && SamePointers(directory, s.table[id])
      invariant files' + |FilesIn(cur, id)| == files + |FilesIn(ns, id)|
      invariant dirs' + |DirectoriesIn(cur, id)| == dirs + |DirectoriesIn(ns, id)|
    {
      RemainingNext(es, i, cur.dirs[id]);
      if IsDots(es[i].name) {
        continue;
      }
      var name, t := es[i].name, es[i].inodeId;
      RemainingChild(es, i, cur, id);
      NoDots(cur, id, name, t);
      ghost var v1, t1, before := s.Vol(TableRoots(s.table)), s.table, cur;
      files', dirs' := RemoveChild(s, id, name, t, files', dirs', cur, root, bound);
      ChildSubtree(cur, root, id, name, t);
      PartlyStep(ns, cur, root, id, name, t);
      PrunedCounts(cur, root, id, name, t);
      PruneKeepsTree(cur, root, id, name, t);
      PrunedSelf(cur, root, id, name);
      PointersStay(directory, t1[id], s.table[id]);
      PrunedDepths(cur, id, name, bound);
      OneMoreChild(v0, v1, s.Vol(TableRoots(s.table)), t0, t1, s.table, Subtree(ns, id), Subtree(cur, id),
                   Subtree(cur, t), id);
      cur := Prune(cur, id, name);
    }
    RemainingNone(es, cur.dirs[id]);
    PartlyDone(ns, cur, root, id);
    EmptySubtree(cur, root, id);
    ghost var v1, t1 := s.Vol(TableRoots(s.table)), s.table;
    Reclaim(s, directory);
    ShowsFreed(s.disk, t1, cur.dirs, cur.kinds, id, map[]);
    LastOne(v0, v1, s.Vol(TableRoots(s.table)), t0, t1, s.table, Subtree(ns, id), id);
  }

  lemma Starting(v: Volume, table: seq<Inode>, s: set<nat>)
    requires TableOk(table)
    ensures Reclaimed(v, v, s - s) && KeptOutside(v.disk, v.disk, table, table, s) && Emptied(table, s - s)
  {
    KeptOutsideNothing(v.disk, table, s);
    hide KeptOutside, OwnedByInode;
    assert s - s == {};
  }

  /** The directory itself comes last. */
  lemma LastOne(v0: Volume, v1: Volume, v2: Volume, t0: seq<Inode>, t1: seq<Inode>, t2: seq<Inode>, s: set<nat>, id: nat)
    requires id in s && v1.disk == v2.disk && id < |t1| && t2 == t1[id := EmptyInode(id)]
    requires Reclaimed(v0, v1, s - {id}) && KeptOutside(v0.disk, v1.disk, t0, t1, s) && Emptied(t1, s - {id})
    requires Reclaimed(v1, v2, {id}) && KeptOutside(v1.disk, v2.disk, t1, t2, {id})
    ensures Reclaimed(v0, v2, s) && KeptOutside(v0.disk, v2.disk, t0, t2, s) && Emptied(t2, s)
  {
    hide Reclaimed, KeptOutside;
    ReclaimedTwice(v0, v1, v2, s - {id}, {id});
    assert (s - {id}) + {id} == s;
    KeptOutsideTwice(v0.disk, v1.disk, v2.disk, t0, t1, t2, s, {id}, s);
    StillEmptied(v1.disk, v2.disk, t1, t2, s - {id}, {id});
  }

  // ----- Counting -----

  /** Under the children named by the entries from i on there is still what there was. */
  ghost predicate SameBelow(ns: Namespace, cur: Namespace, es: seq<Entry>, i: nat) {
    forall j :: i <= j < |es| && !IsDots(es[j].name) ==>
      FilesIn(cur, es[j].inodeId) == FilesIn(ns, es[j].inodeId)
      && DirectoriesIn(cur, es[j].inodeId) == DirectoriesIn(ns, es[j].inodeId)
  }

  lemma SiblingStays(ns: Namespace, root: nat, d: nat, n: Name, x: nat, m: Name, y: nat)
    requires TreeOk(ns, root) && Child(ns, d, n, x) && Child(ns, d, m, y) && n != m
    requires d in ns.dirs && n in ns.dirs[d]
    ensures FilesIn(Prune(ns, d, n), y) == FilesIn(ns, y) && DirectoriesIn(Prune(ns, d, n), y) == DirectoriesIn(ns, y)
  {
    hide TreeOk, Child, Under;
    var ns' := Prune(ns, d, n);
    NoDots(ns, d, n, x);
    ChildDepth(ns, root, d, m, y);
    SiblingSubtrees(ns, root, d, n, x, m, y);
    PrunedSubtree(ns, root, d, n, x, y);
    SubtreeInUse(ns', y);
    assert Subtree(ns', y) == Subtree(ns, y);
    hide Subtree;
  }

  lemma SameBelowNext(ns: Namespace, cur: Namespace, root: nat, d: nat, es: seq<Entry>, i: nat)
    requires TreeOk(cur, root) && d in cur.dirs && Remaining(es, i, cur.dirs[d]) && SameBelow(ns, cur, es, i)
    requires Unique(es) && i < |es| && !IsDots(es[i].name) && es[i].name in cur.dirs[d]
    ensures SameBelow(ns, Prune(cur, d, es[i].name), es, i + 1)
  {
    hide TreeOk, Prune, FilesIn, DirectoriesIn;
    var n, x := es[i].name, es[i].inodeId;
    assert Child(cur, d, n, x);
    forall j | i + 1 <= j < |es| && !IsDots(es[j].name)
      ensures FilesIn(Prune(cur, d, n), es[j].inodeId) == FilesIn(ns, es[j].inodeId)
      ensures DirectoriesIn(Prune(cur, d, n), es[j].inodeId) == DirectoriesIn(ns, es[j].inodeId)
    {
      assert es[j].name != n;
      assert Child(cur, d, es[j].name, es[j].inodeId);
      SiblingStays(cur, root, d, n, x, es[j].name, es[j].inodeId);
    }
  }

  lemma EntryIsChild(es: seq<Entry>, j: nat, ns: Namespace, d: nat)
    requires d in ns.dirs && ns.dirs[d] == Names(es) && Unique(es) && j < |es| && !IsDots(es[j].name)
    ensures Child(ns, d, es[j].name, es[j].inodeId)
  {
    hide Names;
    NamesAll(es);
  }

  /** The record at an offset of a directory's bytes is its next entry. */
  lemma NextRecord(bytes: seq<byte>, es: seq<Entry>, i: nat, offset: nat)
    requires es == Parse(bytes) && offset < |bytes| && i <= |es| && Parse(bytes[offset..]) == es[i..]
    ensures offset + DENTRY_SIZE > |bytes| || LittleEndian(bytes[offset..][4..6]) == 0 ==> i == |es|
    ensures offset + DENTRY_SIZE <= |bytes| && LittleEndian(bytes[offset..][4..6]) != 0 ==>
              var rest, n := bytes[offset..], LittleEndian(bytes[offset..][4..6]);
              && i < |es| && es[i] == Entry(LittleEndian(rest[0..4]), CString(rest[DENTRY_SIZE..]))
              && if offset + n <= |bytes| then Parse(bytes[offset + n..]) == es[i + 1..] else i + 1 == |es|
  {
    hide Parse;
    ParseStep(bytes, offset);
    if i < |es| {
      assert es[i..][0] == es[i] && es[i..][1..] == es[i + 1..];
    }
  }

  lemma NothingToParse(bytes: seq<byte>)
    requires bytes == []
    ensures Parse(bytes) == []
  {
  }

  /** The bytes of a directory; there are none when its size is 0. */
  method ReadDirectory(s: Storage, ino: Inode) returns (bytes: seq<byte>, ghost es: seq<Entry>)
    requires Ready(s) && InodeOk(ino) && ino.id < |s.table| && ino == s.table[ino.id] && GoodDirectory(s.disk, ino)
    modifies s`disk, s.bitmap.buffer
    ensures Ready(s) && s.disk == old(s.disk) && s.bitmap.Used() == old(s.bitmap.Used())
    ensures es == Parse(bytes) && Unique(es) && Dir(s.disk, ino) == Names(es)
  {
    hide Image, Sound, TableRoots, Flags, IsRange, RangeMapped, Parse, Content, Dense, WellStored, Unique, Names;
    GoodEntries(s.disk, ino);
    hide GoodDirectory;
    es := Listing(s.disk, ino);
    if ino.size == 0 {
      NoContent(s.disk, ino);
      return [], es;
    }
    SameEntry(s.table, ino.id);
    var status;
    status, bytes := s.ReadData(ino, 0, ino.size);
    ListedBytes(s.disk, ino, bytes);
  }

  lemma NoContent(disk: seq<Cluster>, ino: Inode)
    requires InodeOk(ino) && ino.size == 0
    ensures Content(disk, ino) == []
  {
  }

  /** Counts the files and the directories below a directory. */
  method CountContents(s: Storage, id: nat, files: nat, dirs: nat, ghost ns: Namespace, ghost root: nat, ghost bound: nat)
    returns (files': nat, dirs': nat)
    requires Ready(s) && Shows(s.disk, s.table, ns.dirs, ns.kinds, map[]) && TreeOk(ns, root) && DepthsBelow(ns, bound)
    requires id in ns.dirs && id in ns.depth
    modifies s`disk, s.bitmap.buffer
    ensures Ready(s) && s.disk == old(s.disk) && s.bitmap.Used() == old(s.bitmap.Used())
    ensures files' == files + |FilesIn(ns, id)| && dirs' + 1 == dirs + |DirectoriesIn(ns, id)|
    decreases bound - ns.depth[id], 1
  {
    hide Image, Sound, TableRoots, Flags, Shows, TreeOk, Child, Subtree, Below, Stored, DepthsBelow, Prune, Partly;
    hide FilesIn, DirectoriesIn, Remaining, Unique, GoodDirectory, Dir, Listing, Names, Parse, SameBelow;
    ShowsFacts(s.disk, s.table, ns.dirs, ns.kinds, id, map[]);
    DirFacts(ns, root, id);
    ghost var disk := s.disk;
    var bytes;
    ghost var es;
    bytes, es := ReadDirectory(s, s.table[id]);
    RemainingAll(es);
    ghost var cur := ns;
    ghost var i := 0;
    SameAtFirst(ns, es);
    files', dirs' := files, dirs;
    var offset := 0;
    assert bytes[0..] == bytes && es[0..] == es;
    while offset < |bytes|
      invariant Ready(s) && s.disk == disk && s.bitmap.Used() == old(s.bitmap.Used())
      invariant TreeOk(cur, root) && id in cur.dirs && i <= |es| && Remaining(es, i, cur.dirs[id])
      invariant SameBelow(ns, cur, es, i)
      invariant if offset <= |bytes| then Parse(bytes[offset..]) == es[i..] else i == |es|
      invariant files' + |FilesIn(cur, id)| == files + |FilesIn(ns, id)|
      invariant dirs' + |DirectoriesIn(cur, id)| == dirs + |DirectoriesIn(ns, id)|
      decreases |bytes| - offset
    {
      NextRecord(bytes, es, i, offset);
      if offset + DENTRY_SIZE > |bytes| {
        break;
      }
      var rest := bytes[offset..];
      var recordLength := LittleEndian(rest[4..6]);
      if recordLength == 0 {
        break;
      }
      var name, t := CString(rest[DENTRY_SIZE..]), LittleEndian(rest[0..4]);
      RemainingNext(es, i, cur.dirs[id]);
      if name != DOT && name != DOT_DOT {
        EntryIsChild(es, i, ns, id);
        files', dirs' := CountEntry(s, id, name, t, files', dirs', ns, root, bound);
        CountedChild(ns, cur, root, id, es, i);
        cur := Prune(cur, id, name);
      } else {
        SameBelowLater(ns, cur, es, i);
      }
      offset := offset + recordLength;
      i := i + 1;
    }
    if offset == |bytes| {
      NothingToParse(bytes[offset..]);
    }
    RemainingNone(es, cur.dirs[id]);
    EmptySubtree(cur, root, id);
  }

  lemma SameAtFirst(ns: Namespace, es: seq<Entry>)
    ensures SameBelow(ns, ns, es, 0)
  {
  }

  lemma SameBelowLater(ns: Namespace, cur: Namespace, es: seq<Entry>, i: nat)
    requires SameBelow(ns, cur, es, i)
    ensures SameBelow(ns, cur, es, i + 1)
  {
  }

  lemma CountedChild(ns: Namespace, cur: Namespace, root: nat, d: nat, es: seq<Entry>, i: nat)
    requires TreeOk(cur, root) && d in cur.dirs && Remaining(es, i, cur.dirs[d]) && SameBelow(ns, cur, es, i)
    requires Unique(es) && i < |es| && !IsDots(es[i].name)
    ensures es[i].name in cur.dirs[d]
    ensures var cur', t := Prune(cur, d, es[i].name), es[i].inodeId;
            && TreeOk(cur', root) && SameBelow(ns, cur', es, i + 1) && d in cur'.dirs && cur'.dirs[d] == cur.dirs[d] - {es[i].name}
            && |FilesIn(cur, d)| == |FilesIn(cur', d)| + |FilesIn(ns, t)|
            && |DirectoriesIn(cur, d)| == |DirectoriesIn(cur', d)| + |DirectoriesIn(ns, t)|
  {
    hide TreeOk, Child, Subtree, FilesIn, DirectoriesIn, Prune, Remaining, Unique, Dots;
    RemainingChild(es, i, cur, d);
    NoDots(cur, d, es[i].name, es[i].inodeId);
    DirFacts(cur, root, d);
    ChildSubtree(cur, root, d, es[i].name, es[i].inodeId);
    PrunedSelf(cur, root, d, es[i].name);
    SameBelowNext(ns, cur, root, d, es, i);
    PrunedDots(cur, root, d, es[i].name, es[i].inodeId, d);
    PrunedCounts(cur, root, d, es[i].name, es[i].inodeId);
    PruneKeepsTree(cur, root, d, es[i].name, es[i].inodeId);
  }

  /** Counts one inode with everything under it. */
  method CountEntry(s: Storage, id: nat, name: Name, t: nat, files: nat, dirs: nat,
                    ghost ns: Namespace, ghost root: nat, ghost bound: nat)
    returns (files': nat, dirs': nat)
    requires Ready(s) && Shows(s.disk, s.table, ns.dirs, ns.kinds, map[]) && TreeOk(ns, root) && DepthsBelow(ns, bound)
    requires Child(ns, id, name, t) && id in ns.depth
    modifies s`disk, s.bitmap.buffer
    ensures Ready(s) && s.disk == old(s.disk) && s.bitmap.Used() == old(s.bitmap.Used())
    ensures files' == files + |FilesIn(ns, t)| && dirs' == dirs + |DirectoriesIn(ns, t)|
    decreases bound - ns.depth[id], 0
  {
    hide Image, Sound, TableRoots, Flags, Shows, TreeOk, Child, Below, Stored, FilesIn, DirectoriesIn, Subtree;
    ChildDepth(ns, root, id, name, t);
    ShowsFacts(s.disk, s.table, ns.dirs, ns.kinds, t, map[]);
    if s.table[t].kind == Directory {
      files', dirs' := CountContents(s, t, files, dirs + 1, ns, root, bound);
    } else {
      FileSubtree(ns, root, id, name, t);
      files', dirs' := files + 1, dirs;
    }
  }

  // ----- Removing a tree by its name -----

  /** No descriptor is open on anything under t. */
  ghost predicate NoneOpen(open: seq<Descriptor>, r: set<nat>) {
    forall i :: 0 <= i < |open| && open[i].isOpen ==> open[i].inodeId !in r
  }

  lemma PrunedOpen(ns: Namespace, d: nat, name: Name, open: seq<Descriptor>)
    requires d in ns.dirs && name in ns.dirs[d] && OpenOk(ns, open)
    ensures OpenOk(Prune(ns, d, name), open) <==> NoneOpen(open, Subtree(ns, ns.dirs[d][name]))
  {
    hide Subtree;
  }

  /**
   Counts what is below a directory, asks, and removes the directory with everything below it and its name: exactly
   the inodes of the subtree and the clusters they own become free, every other file reads as before, and as many
   files and directories are removed as were counted. Descriptors are not looked at: the system stays valid exactly
   when none was open below the directory.
   */
  method RemoveTree(fs: Vfs, parent: nat, name: Name, t: nat, confirmed: bool)
    returns (counted: (nat, nat), removed: (nat, nat))
    requires fs.Valid() && fs.held == map[] && Child(fs.ns, parent, name, t) && t in fs.ns.dirs
    requires parent in fs.ns.dirs && name in fs.ns.dirs[parent]
    modifies fs`ns, fs.storage`disk, fs.storage`table, fs.storage`dirty, fs.storage.bitmap.buffer
    ensures fs.SystemOk() && |fs.storage.table| == |old(fs.storage.table)|
    ensures counted == (|FilesIn(old(fs.ns), t)|, |DirectoriesIn(old(fs.ns), t)| - 1)
    ensures removed == if confirmed then counted else (0, 0)
    ensures fs.ns == if confirmed then Prune(old(fs.ns), parent, name) else old(fs.ns)
    ensures TreeOk(fs.ns, fs.root) && Shows(fs.storage.disk, fs.storage.table, fs.ns.dirs, fs.ns.kinds, map[])
    ensures var r := if confirmed then Subtree(old(fs.ns), t) else {};
            && Reclaimed(old(fs.storage.Vol(TableRoots(fs.storage.table))), fs.storage.Vol(TableRoots(fs.storage.table)), r)
            && KeptOutside(old(fs.storage.disk), fs.storage.disk, old(fs.storage.table), fs.storage.table, r + {parent})
            && Emptied(fs.storage.table, r)
            && (fs.Valid() <==> NoneOpen(fs.openFiles, r))
  {
    hide Image, Sound, TableRoots, Flags, Shows, TreeOk, Child, Subtree, Reclaimed, KeptOutside, Below, Stored;
    hide SamePointers;
    hide FilesIn, DirectoriesIn, Emptied, DepthsBelow, Prune, OpenOk, NoneOpen, SuperFits, OthersKept, SameOwned;
    var s := fs.storage;
    ghost var ns, root := fs.ns, fs.root;
    ghost var d0, t0, v0 := s.disk, s.table, s.Vol(TableRoots(s.table));
    ghost var bound := DepthBound(ns);
    ChildDepth(ns, root, parent, name, t);
    NoDots(ns, parent, name, t);
    var files, dirs := CountContents(s, t, 0, 0, ns, root, bound);
    counted := (files, dirs);
    if !confirmed {
      Unremoved(v0, t0, parent, ns, fs.openFiles);
      return counted, (0, 0);
    }
    ghost var r := Subtree(ns, t);
    ChildSubtree(ns, root, parent, name, t);
    files, dirs := RemoveBelow(s, t, 0, 0, ns, root, bound);
    ghost var d1, t1, v1 := s.disk, s.table, s.Vol(TableRoots(s.table));
    var status := TakeName(s, parent, name, ns.dirs - r, ns.kinds - r, map[]);
    NameTaken(v0, v1, s.Vol(TableRoots(s.table)), t0, t1, s.table, r, parent);
    PrunedOpen(ns, parent, name, fs.openFiles);
    PruneKeepsTree(ns, root, parent, name, t);
    PrunedMaps(ns, parent, name);
    fs.ns := Prune(ns, parent, name);
    return counted, (files, dirs);
  }

  lemma DepthBound(ns: Namespace) returns (bound: nat)
    ensures DepthsBelow(ns, bound)
  {
    bound := DepthsAreBounded(ns.depth, ns.depth.Keys);
  }

  lemma PrunedMaps(ns: Namespace, d: nat, name: Name)
    requires d in ns.dirs && name in ns.dirs[d]
    ensures var r, ns' := Subtree(ns, ns.dirs[d][name]), Prune(ns, d, name);
            ns'.dirs == (ns.dirs - r)[d := ns.dirs[d] - {name}] && ns'.kinds == ns.kinds - r
  {
  }

  lemma Unremoved(v: Volume, table: seq<Inode>, parent: nat, ns: Namespace, open: seq<Descriptor>)
    requires TableOk(table) && OpenOk(ns, open)
    ensures Reclaimed(v, v, {}) && KeptOutside(v.disk, v.disk, table, table, {} + {parent}) && Emptied(table, {})
    ensures NoneOpen(open, {})
  {
    KeptOutsideNothing(v.disk, table, {} + {parent});
    hide KeptOutside, OwnedByInode;
  }

  /** Taking the name out of the parent afterwards. */
  lemma NameTaken(v0: Volume, v1: Volume, v2: Volume, t0: seq<Inode>, t1: seq<Inode>, t2: seq<Inode>, r: set<nat>,
                  parent: nat)
    requires parent !in r && TableOk(t1) && TableOk(t2)
    requires Reclaimed(v0, v1, r) && KeptOutside(v0.disk, v1.disk, t0, t1, r) && Emptied(t1, r)
    requires SameOwned(v1, v2) && v1.used == v2.used && OthersKept(v1.disk, v2.disk, t1, t2, parent)
    ensures Reclaimed(v0, v2, r) && KeptOutside(v0.disk, v2.disk, t0, t2, r + {parent}) && Emptied(t2, r)
  {
    OthersOutside(v1.disk, v2.disk, t1, t2, parent);
    ReclaimedNothing(v1, v2);
    hide Reclaimed, KeptOutside, OthersKept, SameOwned, SameFile;
    ReclaimedTwice(v0, v1, v2, r, {});
    assert r + {} == r;
    KeptOutsideTwice(v0.disk, v1.disk, v2.disk, t0, t1, t2, r, {parent}, r + {parent});
    StillEmptied(v1.disk, v2.disk, t1, t2, r, {parent});
  }
}
