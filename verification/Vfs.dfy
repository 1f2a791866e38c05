/** Creating and removing files and directories, and what that does to the tree of names. */
module Vfs {
  import opened Basics
  import opened Bitmap
  import opened Clusters
  import opened Ownership
  import opened Inodes
  import opened FileViews
  import opened AllocationSteps
  import opened Truncation
  import opened Occupancy
  import opened FlatFile
  import opened Entries
  import opened Storage
  import opened TableImage
  import opened Directories
  import opened FailedInsertions
  import opened Namespace
  import opened Calls

  // ----- What disk and inode table show -----

  /** A closed file: every byte of it is stored. */
  ghost predicate Stored(disk: seq<Cluster>, ino: Inode) {
    WellStored(disk, ino) && ino.linkCount <= 1
  }

  /**
   The inodes in use have the given kinds, and the given directories the given entries. Files are closed, but for
   those that an open descriptor still holds pages of.
   */
  ghost predicate Shows(disk: seq<Cluster>, table: seq<Inode>, dirs: map<nat, map<Name, nat>>, kinds: map<nat,
                        FileType>, held: map<nat, seq<byte>>) {
    && TableOk(table) && |table| <= MAX_CLUSTERS
    && (forall id: nat :: id in kinds <==> id < |table| && table[id].isUsed)
    && (forall id: nat :: id in kinds ==> kinds[id] == table[id].kind)
    && (forall id: nat :: id < |table| && id !in held ==> Stored(disk, table[id]))
    && (forall d: nat :: d in dirs ==> d in kinds && d !in held && GoodDirectory(disk, table[d]) && Dir(disk, table[d]) == dirs[d])
  }

  lemma ShowsFacts(disk: seq<Cluster>, table: seq<Inode>, dirs: map<nat, map<Name, nat>>, kinds: map<nat, FileType>,
                   id: nat, held: map<nat, seq<byte>>)
    requires Shows(disk, table, dirs, kinds, held)
    ensures TableOk(table) && |table| <= MAX_CLUSTERS
    ensures id in kinds <==> id < |table| && table[id].isUsed
    ensures id in kinds ==> kinds[id] == table[id].kind
    ensures id < |table| && id !in held ==> Stored(disk, table[id]) && table[id].size <= MAX_FILE_BYTES
    ensures id in dirs ==> id in kinds && id !in held && GoodDirectory(disk, table[id]) && Dir(disk, table[id]) == dirs[id]
  {
    hide GoodDirectory, Dir, TableOk;
  }

  lemma GoodIsStored(disk: seq<Cluster>, ino: Inode)
    requires GoodDirectory(disk, ino)
    ensures WellStored(disk, ino)
  {
  }

  lemma StoredKept(disk: seq<Cluster>, disk': seq<Cluster>, ino: Inode)
    requires InodeOk(ino) && SameFile(disk, disk', ino, ino)
    ensures Stored(disk, ino) ==> Stored(disk', ino)
  {
    if Stored(disk, ino) {
      SameContent(disk, disk', ino, ino);
    }
  }

  lemma StoredAgain(disk: seq<Cluster>, disk': seq<Cluster>, ino: Inode, ino': Inode)
    requires Stored(disk, ino) && SameLabels(ino, ino') && WellStored(disk', ino')
    ensures Stored(disk', ino')
  {
  }

  lemma StillStored(disk: seq<Cluster>, disk': seq<Cluster>, ino: Inode)
    requires Stored(disk, ino) && InodeOk(ino) && Dense(disk', ino)
    ensures Stored(disk', ino)
  {
  }

  lemma StoredIsDense(disk: seq<Cluster>, ino: Inode)
    requires Stored(disk, ino)
    ensures InodeOk(ino) && Dense(disk, ino)
  {
  }

  lemma EmptiedIsStored(disk: seq<Cluster>, ino: Inode, ino': Inode)
    requires Stored(disk, ino) && InodeOk(ino') && SameLabels(ino, ino') && ino'.size == 0 && ino'.clusterCount == 0
    ensures Stored(disk, ino')
  {
  }

  lemma NewIsStored(disk: seq<Cluster>, id: nat, kind: FileType)
    ensures Stored(disk, NewInode(id, kind)) && Stored(disk, EmptyInode(id))
  {
  }

  lemma ShowsOthers(disk: seq<Cluster>, disk': seq<Cluster>, table: seq<Inode>, table': seq<Inode>,
                    dirs: map<nat, map<Name, nat>>, kinds: map<nat, FileType>, id: nat, held: map<nat, seq<byte>>)
    requires Shows(disk, table, dirs, kinds, held) && TableOk(table') && OthersKept(disk, disk', table, table', id)
    requires id < |table| ==> SameLabels(table[id], table'[id]) && (id !in held ==> Stored(disk', table'[id]))
    ensures Shows(disk', table', dirs - {id}, kinds, held)
  {
    hide Dir, Listing, SameFile, Stored;
    forall j: nat | j < |table'| && j !in held ensures Stored(disk', table'[j]) {
      if j != id {
        StoredKept(disk, disk', table[j]);
      }
    }
    forall d: nat | d in dirs - {id} ensures GoodDirectory(disk', table'[d]) && Dir(disk', table'[d]) == dirs[d] {
      DirectoryKept(disk, disk', table[d]);
    }
  }

  lemma DirectoryKept(disk: seq<Cluster>, disk': seq<Cluster>, ino: Inode)
    requires GoodDirectory(disk, ino) && SameFile(disk, disk', ino, ino)
    ensures GoodDirectory(disk', ino) && Dir(disk', ino) == Dir(disk, ino)
  {
    SameDirectory(disk, disk', ino);
  }

  lemma ShowsDirectory(disk: seq<Cluster>, table: seq<Inode>, dirs: map<nat, map<Name, nat>>, kinds: map<nat, FileType>,
                       id: nat, names: map<Name, nat>, held: map<nat, seq<byte>>)
    requires Shows(disk, table, dirs, kinds, held) && id in kinds && id !in held
    requires GoodDirectory(disk, table[id]) && names == Dir(disk, table[id])
    ensures Shows(disk, table, dirs[id := names], kinds, held)
  {
    hide Dir, GoodDirectory;
  }

  lemma ShowsAllocated(disk: seq<Cluster>, table: seq<Inode>, dirs: map<nat, map<Name, nat>>, kinds: map<nat, FileType>,
                       id: nat, kind: FileType, held: map<nat, seq<byte>>)
    requires Shows(disk, table, dirs, kinds, held) && id < |table| && !table[id].isUsed
    ensures Shows(disk, table[id := NewInode(id, kind)], dirs, kinds[id := kind], held) && id !in kinds && id !in dirs
  {
    hide Dir, GoodDirectory, Stored;
    NewIsStored(disk, id, kind);
  }

  lemma ShowsFreed(disk: seq<Cluster>, table: seq<Inode>, dirs: map<nat, map<Name, nat>>, kinds: map<nat, FileType>,
                   id: nat, held: map<nat, seq<byte>>)
    requires Shows(disk, table, dirs, kinds, held) && id < |table|
    ensures Shows(disk, table[id := EmptyInode(id)], dirs - {id}, kinds - {id}, held)
  {
    hide Dir, GoodDirectory, Stored;
    NewIsStored(disk, id, Regular);
  }

  /** The bytes of every file that is not a directory: what a descriptor holds, or what is stored. */
  ghost function FilesOf(disk: seq<Cluster>, table: seq<Inode>, kinds: map<nat, FileType>, held: map<nat,
                         seq<byte>>): (files: map<nat, seq<byte>>)
    requires TableOk(table)
    ensures forall id :: id in files <==> id in kinds && kinds[id] != Directory && id < |table|
    ensures forall id :: id in files ==> files[id] == if id in held then held[id] else Content(disk, table[id])
  {
    map id | id in kinds && kinds[id] != Directory && id < |table| :: if id in held then held[id] else Content(disk, table[id])
  }

  lemma FilesInUse(disk: seq<Cluster>, table: seq<Inode>, dirs: map<nat, map<Name, nat>>, kinds: map<nat, FileType>,
                   held: map<nat, seq<byte>>)
    requires Shows(disk, table, dirs, kinds, held)
    ensures TableOk(table)
    ensures forall id :: id in FilesOf(disk, table, kinds, held) <==> id in kinds && kinds[id] != Directory
  {
    hide Stored, GoodDirectory, Dir;
  }

  /** The files outside r are as before; those in r are what they are now. */
  lemma FilesAre(disk: seq<Cluster>, disk': seq<Cluster>, table: seq<Inode>, table': seq<Inode>,
                 dirs: map<nat, map<Name, nat>>, dirs': map<nat, map<Name, nat>>,
                 kinds: map<nat, FileType>, kinds': map<nat, FileType>, r: set<nat>, want: map<nat, seq<byte>>, held: map<nat, seq<byte>>)
    requires Shows(disk, table, dirs, kinds, held) && Shows(disk', table', dirs', kinds', held) && TableOk(table)
    requires TableOk(table')
    requires KeptOutside(disk, disk', table, table', r)
    requires forall id :: id in want <==> id in kinds' && kinds'[id] != Directory
    requires forall id :: id in want && id in r && id !in held ==> id < |table'| && want[id] == Content(disk', table'[id])
    requires forall id :: id in want && (id !in r || id in held) ==>
               id in FilesOf(disk, table, kinds, held) && want[id] == FilesOf(disk, table, kinds, held)[id]
    ensures FilesOf(disk', table', kinds', held) == want
  {
    hide Content, KeptOutside, Shows;
    FilesInUse(disk, table, dirs, kinds, held);
    FilesInUse(disk', table', dirs', kinds', held);
    forall id | id in want && id !in r && id !in held ensures Content(disk', table'[id]) == want[id] {
      ShowsFacts(disk, table, dirs, kinds, id, held);
      KeptOutsideContent(disk, disk', table, table', r, id);
    }
  }

  lemma KeptOutsideContent(disk: seq<Cluster>, disk': seq<Cluster>, table: seq<Inode>, table': seq<Inode>, r: set<nat>,
                           id: nat)
    requires TableOk(table) && TableOk(table') && KeptOutside(disk, disk', table, table', r) && id !in r && id < |table|
    requires Stored(disk, table[id])
    ensures id < |table'| && Content(disk', table'[id]) == Content(disk, table[id])
  {
    hide SameFile;
    SameContent(disk, disk', table[id], table[id]);
  }

  /** A new file holds the given bytes; all other files stay. */
  lemma FileMade(disk: seq<Cluster>, disk': seq<Cluster>, table: seq<Inode>, table': seq<Inode>, ns: Namespace,
                 dirs': map<nat, map<Name, nat>>, kinds': map<nat, FileType>, parent: nat, id: nat, kind: FileType,
                 bytes: seq<byte>, held: map<nat, seq<byte>>)
    requires Shows(disk, table, ns.dirs, ns.kinds, held) && Shows(disk', table', dirs', kinds', held)
    requires kinds' == ns.kinds[id := kind]
    requires TableOk(table) && TableOk(table') && KeptOutside(disk, disk', table, table', {parent, id})
    requires parent in ns.kinds && ns.kinds[parent] == Directory && id !in ns.kinds && kind != Directory && id !in held
    requires id < |table'| && Content(disk', table'[id]) == bytes
    ensures FilesOf(disk', table', kinds', held) == FilesOf(disk, table, ns.kinds, held)[id := bytes]
  {
    hide Content, KeptOutside, Shows;
    FilesInUse(disk, table, ns.dirs, ns.kinds, held);
    FilesAre(disk, disk', table, table', ns.dirs, dirs', ns.kinds, kinds', {parent, id},
             FilesOf(disk, table, ns.kinds, held)[id := bytes], held);
  }

  /** Directories come and go without a change to other files. */
  lemma FilesStay(disk: seq<Cluster>, disk': seq<Cluster>, table: seq<Inode>, table': seq<Inode>, ns: Namespace,
                  dirs': map<nat, map<Name, nat>>, kinds': map<nat, FileType>, parent: nat, id: nat, held: map<nat, seq<byte>>)
    requires Shows(disk, table, ns.dirs, ns.kinds, held) && Shows(disk', table', dirs', kinds', held)
    requires TableOk(table) && TableOk(table') && KeptOutside(disk, disk', table, table', {parent, id})
    requires parent in ns.kinds && ns.kinds[parent] == Directory && id !in ns.kinds
    requires kinds' == ns.kinds || kinds' == ns.kinds[id := Directory]
    ensures FilesOf(disk', table', kinds', held) == FilesOf(disk, table, ns.kinds, held)
  {
    hide Content, KeptOutside, Shows;
    FilesInUse(disk, table, ns.dirs, ns.kinds, held);
    FilesAre(disk, disk', table, table', ns.dirs, dirs', ns.kinds, kinds', {parent, id},
             FilesOf(disk, table, ns.kinds, held), held);
  }

  lemma FileGone(disk: seq<Cluster>, disk': seq<Cluster>, table: seq<Inode>, table': seq<Inode>, ns: Namespace,
                 dirs': map<nat, map<Name, nat>>, kinds': map<nat, FileType>, parent: nat, t: nat, held: map<nat, seq<byte>>)
    requires Shows(disk, table, ns.dirs, ns.kinds, held) && Shows(disk', table', dirs', kinds', held)
    requires kinds' == ns.kinds - {t}
    requires TableOk(table) && TableOk(table') && KeptOutside(disk, disk', table, table', {parent, t})
    requires parent in ns.kinds && ns.kinds[parent] == Directory
    ensures FilesOf(disk', table', kinds', held) == FilesOf(disk, table, ns.kinds, held) - {t}
  {
    hide Content, KeptOutside, Shows;
    FilesInUse(disk, table, ns.dirs, ns.kinds, held);
    FilesAre(disk, disk', table, table', ns.dirs, dirs', ns.kinds, kinds', {parent, t},
             FilesOf(disk, table, ns.kinds, held) - {t}, held);
  }

  lemma FileEmptied(disk: seq<Cluster>, table: seq<Inode>, table': seq<Inode>, dirs: map<nat, map<Name, nat>>,
                    kinds: map<nat, FileType>, id: nat, held: map<nat, seq<byte>>)
    requires Shows(disk, table, dirs, kinds, held) && Shows(disk, table', dirs, kinds, held) && TableOk(table)
    requires TableOk(table')
    requires id in kinds && kinds[id] != Directory && id < |table'| && table'[id].size == 0
    requires table' == table[id := table'[id]]
    requires id !in held
    requires |table'| == |table|
    ensures FilesOf(disk, table', kinds, held) == FilesOf(disk, table, kinds, held)[id := []]
  {
    assert Content(disk, table'[id]) == [];
    RecordOutside(disk, table, table', id);
    hide Content, KeptOutside, Shows;
    FilesInUse(disk, table, dirs, kinds, held);
    FilesAre(disk, disk, table, table', dirs, dirs, kinds, kinds, {id}, FilesOf(disk, table, kinds, held)[id := []], held);
  }

  lemma UnlinkedKinds(ns: Namespace, root: nat, parent: nat, name: Name)
    requires TreeOk(ns, root) && parent in ns.dirs && name in ns.dirs[parent]
    ensures Unlink(ns, parent, name).kinds == ns.kinds - {ns.dirs[parent][name]}
    ensures parent in ns.kinds && ns.kinds[parent] == Directory
  {
    DirFacts(ns, root, parent);
  }

  lemma LinkedKinds(ns: Namespace, parent: nat, name: Name, id: nat, kind: FileType)
    requires parent in ns.dirs
    ensures LinkFile(ns, parent, name, id, kind).kinds == ns.kinds[id := kind]
    ensures Leak(ns, id).kinds == ns.kinds[id := Directory]
    ensures parent in ns.depth ==> LinkDirectory(ns, parent, name, id).kinds == ns.kinds[id := Directory]
  {
  }

  lemma NewIsEmpty(disk: seq<Cluster>, id: nat, kind: FileType)
    ensures Content(disk, NewInode(id, kind)) == []
  {
  }

  /** Directory d has just these entries. */
  ghost predicate DirectoryIs(disk: seq<Cluster>, table: seq<Inode>, d: nat, names: map<Name, nat>) {
    TableOk(table) && d < |table| && GoodDirectory(disk, table[d]) && Dir(disk, table[d]) == names
  }

  /** Whatever is held is open. */
  ghost predicate HeldOpen(held: map<nat, seq<byte>>, open: seq<Descriptor>) {
    forall id :: id in held ==> IsOpen(open, id)
  }

  lemma HeldInUse(held: map<nat, seq<byte>>, open: seq<Descriptor>, ns: Namespace, id: nat)
    requires HeldOpen(held, open) && OpenOk(ns, open) && id in held
    ensures id in ns.kinds && ns.kinds[id] == Regular
  {
    assert IsOpen(open, id);
  }

  /** Files of which something is held are as they were. */
  ghost predicate KeptHeld(disk: seq<Cluster>, disk': seq<Cluster>, table: seq<Inode>, table': seq<Inode>,
                           held: map<nat, seq<byte>>) {
    && TableOk(table) && TableOk(table') && |table'| == |table|
    && forall id: nat :: id in held && id < |table| ==> table'[id] == table[id] && SameFile(disk, disk', table[id], table[id])
  }

  lemma HeldApart(disk: seq<Cluster>, disk': seq<Cluster>, table: seq<Inode>, table': seq<Inode>, r: set<nat>,
                  held: map<nat, seq<byte>>)
    requires KeptOutside(disk, disk', table, table', r) && forall id :: id in r ==> id !in held
    ensures KeptHeld(disk, disk', table, table', held)
  {
    hide SameFile;
  }

  lemma StillKeptHeld(disk: seq<Cluster>, disk': seq<Cluster>, t0: seq<Inode>, t1: seq<Inode>, t2: seq<Inode>, id: nat,
                      held: map<nat, seq<byte>>)
    requires KeptHeld(disk, disk', t0, t1, held) && TableOk(t2) && |t2| == |t1| && id !in held && id < |t1|
    requires t2 == t1[id := t2[id]]
    ensures KeptHeld(disk, disk', t0, t2, held)
  {
    hide SameFile;
  }

  lemma HeldUntouched(disk: seq<Cluster>, table: seq<Inode>, held: map<nat, seq<byte>>)
    requires TableOk(table)
    ensures KeptHeld(disk, disk, table, table, held)
  {
  }

  lemma ClosedSlot(open: seq<Descriptor>)
    ensures FirstClosed(open) < |open| ==> !open[FirstClosed(open)].isOpen
  {
  }

  lemma HeldStaysOpen(held: map<nat, seq<byte>>, open: seq<Descriptor>, fd: nat, d: Descriptor)
    requires HeldOpen(held, open) && fd < |open| && (open[fd].isOpen ==> open[fd].inodeId !in held)
    ensures HeldOpen(held, open[fd := d])
  {
    forall id | id in held ensures IsOpen(open[fd := d], id) {
      assert IsOpen(open, id);
      var i :| 0 <= i < |open| && open[i].isOpen && open[i].inodeId == id;
      assert open[fd := d][i] == open[i];
    }
  }

  lemma InDirsNotHeld(disk: seq<Cluster>, table: seq<Inode>, dirs: map<nat, map<Name, nat>>, kinds: map<nat, FileType>,
                      d: nat, held: map<nat, seq<byte>>)
    requires Shows(disk, table, dirs, kinds, held) && d in dirs
    ensures d !in held
  {
    hide GoodDirectory, Dir, Stored;
  }

  lemma NewIsNotHeld(held: map<nat, seq<byte>>, open: seq<Descriptor>, ns: Namespace, id: nat)
    requires HeldOpen(held, open) && OpenOk(ns, open) && id !in ns.kinds
    ensures id !in held
  {
    if id in held {
      HeldInUse(held, open, ns, id);
    }
  }

  /** Every inode is in use. */
  predicate TableFull(table: seq<Inode>) {
    forall j :: 0 <= j < |table| ==> table[j].isUsed
  }

  lemma ShowsBut(disk: seq<Cluster>, table: seq<Inode>, dirs: map<nat, map<Name, nat>>, kinds: map<nat, FileType>,
                 d: nat, held: map<nat, seq<byte>>)
    requires d in dirs && d in kinds && d !in held
    ensures Shows(disk, table, dirs, kinds, held) <==>
            Shows(disk, table, dirs - {d}, kinds, held) && DirectoryIs(disk, table, d, dirs[d])
  {
    hide Dir, GoodDirectory, Stored;
  }

  /** A directory whose insertion found no space has kept its names exactly when the new one sorts last. */
  lemma FailedNames(disk: seq<Cluster>, disk': seq<Cluster>, table: seq<Inode>, d: nat, name: Name, id: nat)
    requires TableOk(table) && d < |table| && GoodDirectory(disk, table[d]) && Dense(disk', table[d])
    requires IsCString(name) && ValidName(name) && name !in Dir(disk, table[d]) && id < MAX_CLUSTERS
    requires var bytes := Serialize(Placed(Listing(disk, table[d]), Entry(id, name)));
             table[d].size <= |bytes| && Content(disk', table[d]) == bytes[..table[d].size]
    ensures DirectoryIs(disk', table, d, Dir(disk, table[d])) <==> SortsLast(Dir(disk, table[d]), name)
  {
    hide GoodDirectory, Dir, Serialize, Placed, Dense, Listing, SortsLast;
    FailedDirectory(disk, disk', table[d], Entry(id, name));
  }

  lemma StillDirectory(disk: seq<Cluster>, table: seq<Inode>, id: nat, d: nat, names: map<Name, nat>)
    requires TableOk(table) && id < |table| && d != id
    ensures DirectoryIs(disk, table[id := EmptyInode(id)], d, names) <==> DirectoryIs(disk, table, d, names)
  {
    hide GoodDirectory, Dir;
  }

  /** An inode record without pointers may take the place of any other. */
  lemma DropSound(disk: seq<Cluster>, used: seq<bool>, reserved: nat, table: seq<Inode>, ino: Inode)
    requires TableOk(table) && Sound(Volume(disk, used, TableRoots(table), reserved))
    requires NoPointers(ino) && ino.id < |table|
    ensures TableOk(table[ino.id := ino])
    ensures Sound(Volume(disk, used, TableRoots(table[ino.id := ino]), reserved))
  {
    var table' := table[ino.id := ino];
    RewrittenEntry(table, ino.id, ino, table[ino.id]);
    SameEntry(table, ino.id);
    AbandonSound(Volume(disk, used, TableRoots(table), reserved), Volume(disk, used, TableRoots(table'), reserved),
                 table', table, ino.id);
  }

  lemma LowestIsNext(disk: seq<Cluster>, table: seq<Inode>, ns: Namespace, id: nat, held: map<nat, seq<byte>>)
    requires Shows(disk, table, ns.dirs, ns.kinds, held) && id < |table| && !table[id].isUsed
    requires forall j :: 0 <= j < id ==> table[j].isUsed
    ensures id == NextId(ns)
  {
    IsNextId(ns, id);
  }

  lemma NewHasNoPointers(id: nat, kind: FileType)
    ensures NoPointers(NewInode(id, kind)) && NoPointers(EmptyInode(id))
  {
  }

  // ----- Entering a new inode under a name -----

  lemma WithoutAbsent<V>(m: map<nat, V>, id: nat)
    requires id !in m
    ensures m - {id} == m
  {
  }

  lemma RemovedThenSet<V>(m: map<nat, V>, id: nat, v: V)
    ensures (m - {id})[id := v] == m[id := v]
  {
  }

  lemma SetThenRemoved<V>(m: map<nat, V>, id: nat, v: V)
    requires id !in m
    ensures m[id := v] - {id} == m
  {
  }

  /** Freeing a just allocated inode shows what was there before. */
  lemma ShowsUndone(disk: seq<Cluster>, table: seq<Inode>, dirs: map<nat, map<Name, nat>>, kinds: map<nat, FileType>,
                    id: nat, kind: FileType, held: map<nat, seq<byte>>)
    requires id !in dirs && id !in kinds && id < |table| && Shows(disk, table, dirs, kinds[id := kind], held)
    ensures Shows(disk, table[id := EmptyInode(id)], dirs, kinds, held)
  {
    ShowsFreed(disk, table, dirs, kinds[id := kind], id, held);
    WithoutAbsent(dirs, id);
    SetThenRemoved(kinds, id, kind);
  }

  /** With its name entered, the new file is part of the tree. */
  lemma FileEntered(disk: seq<Cluster>, table: seq<Inode>, ns: Namespace, root: nat, open: seq<Descriptor>,
                    parent: nat, name: Name, id: nat, kind: FileType, names: map<Name, nat>, held: map<nat, seq<byte>>)
    requires TreeOk(ns, root) && OpenOk(ns, open) && parent in ns.dirs && id !in ns.kinds && kind != Directory
    requires ValidName(name) && name !in ns.dirs[parent] && names == ns.dirs[parent][name := id]
    requires Shows(disk, table, ns.dirs[parent := names], ns.kinds[id := kind], held)
    ensures var ns' := LinkFile(ns, parent, name, id, kind);
            TreeOk(ns', root) && OpenOk(ns', open) && Shows(disk, table, ns'.dirs, ns'.kinds, held)
  {
    hide Shows, TreeOk, ValidName, OpenOk;
    LinkFileKeepsTree(ns, root, parent, name, id, kind);
    OpenKept(ns, LinkFile(ns, parent, name, id, kind), open, id, kind);
  }

  lemma KeepsRoom(table: seq<Inode>, parent: nat, id: nat, kind: FileType)
    requires parent < |table| && id < |table| && HasRoom(table[parent])
    ensures HasRoom(table[id := NewInode(id, kind)][parent])
  {
  }

  /** The directory has space for one more entry, and so many clusters are free besides. */
  ghost predicate EntryFits(v: Volume, table: seq<Inode>, d: nat, name: Name, besides: nat) {
    d < |table| && FitsBesides(v, d, table[d].size + RecordLength(|name|), besides)
  }

  lemma RoomForName(ino: Inode, name: Name)
    requires HasRoom(ino) && ValidName(name)
    ensures ino.size + RecordLength(|name|) <= MAX_FILE_BYTES
  {
  }

  /** What file id did is nothing to a directory but that fewer clusters are free. */
  lemma EntryFitsElsewhere(v: Volume, w: Volume, table: seq<Inode>, table': seq<Inode>, id: nat, d: nat, name: Name,
                           taken: nat)
    requires OfTable(v, table) && OfTable(w, table') && OthersOwn(v, w, id) && d != id && d < |table| == |table'|
    requires |w.used| == |v.used| && CountUsed(w.used, |w.used|) == CountUsed(v.used, |v.used|) + taken
    requires table'[d] == table[d] && HasRoom(table[d]) && ValidName(name)
    ensures EntryFits(w, table', d, name, 0) <==> EntryFits(v, table, d, name, taken)
  {
    hide FitsBesides, CountUsed, RecordLength, TableRoots, OthersOwn, ValidName, HasRoom;
    RoomForName(table[d], name);
    FitsElsewhere(v, w, table, table', id, d, table[d].size + RecordLength(|name|), taken);
  }

  lemma RecordOwnsElsewhere(v: Volume, w: Volume, table: seq<Inode>, table': seq<Inode>, id: nat)
    requires OfTable(v, table) && OfTable(w, table') && id < |table| == |table'| && table' == table[id := table'[id]]
    requires w.disk == v.disk
    ensures OthersOwn(v, w, id)
  {
    forall key, p | Position(v.roots, key, p) && key.id != id
      ensures Position(w.roots, key, p) && Owned(w.disk, w.roots, key, p) == Owned(v.disk, v.roots, key, p)
    {
      assert key == Slot(key.id, key.k);
    }
  }

  /** A new inode takes no clusters: the name fits if it did. */
  lemma NameStillFits(v: Volume, w: Volume, table: seq<Inode>, table': seq<Inode>, id: nat, d: nat, name: Name)
    requires OfTable(v, table) && OfTable(w, table') && id < |table| == |table'| && table' == table[id := table'[id]]
    requires w.disk == v.disk && w.used == v.used && d != id && d < |table| && HasRoom(table[d])
    ensures ValidName(name) ==> (EntryFits(w, table', d, name, 0) <==> EntryFits(v, table, d, name, 0))
  {
    hide FitsBesides, CountUsed, RecordLength, TableRoots, OthersOwn, ValidName, HasRoom;
    RecordOwnsElsewhere(v, w, table, table', id);
    if ValidName(name) {
      EntryFitsElsewhere(v, w, table, table', id, d, name, 0);
    }
  }

  lemma OwnsElsewhereTwice(u: Volume, v: Volume, w: Volume, id: nat)
    requires OthersOwn(u, v, id) && OthersOwn(v, w, id)
    ensures OthersOwn(u, w, id)
  {
  }

  /** A new inode that has taken clusters leaves that many fewer for the name. */
  lemma NameFitsBesides(u: Volume, v: Volume, w: Volume, t0: seq<Inode>, t1: seq<Inode>, t2: seq<Inode>,
                        id: nat, d: nat, name: Name, taken: nat)
    requires OfTable(u, t0) && OfTable(v, t1) && OfTable(w, t2) && id < |t0| == |t1| == |t2| && t1 == t0[id := t1[id]]
    requires v.disk == u.disk && v.used == u.used && d != id && d < |t0| && HasRoom(t0[d]) && t2[d] == t1[d]
    requires OthersOwn(v, w, id) && |w.used| == |v.used| && TookLowest(v.used, w.used, taken)
    ensures ValidName(name) ==> (EntryFits(w, t2, d, name, 0) <==> EntryFits(u, t0, d, name, taken))
  {
    hide EntryFits, CountUsed, TableRoots, OthersOwn, ValidName, HasRoom, LowestFirst;
    RecordOwnsElsewhere(u, v, t0, t1, id);
    OwnsElsewhereTwice(u, v, w, id);
    if ValidName(name) {
      EntryFitsElsewhere(u, w, t0, t2, id, d, name, taken);
    }
  }

  lemma ShowsFewer(disk: seq<Cluster>, table: seq<Inode>, dirs: map<nat, map<Name, nat>>, kinds: map<nat, FileType>,
                   id: nat, names: map<Name, nat>, held: map<nat, seq<byte>>)
    requires Shows(disk, table, dirs[id := names], kinds, held) && id !in dirs
    ensures Shows(disk, table, dirs, kinds, held)
  {
    hide Dir, GoodDirectory;
  }

  /** With its name entered, the new directory is part of the tree. */
  lemma DirectoryEntered(disk: seq<Cluster>, table: seq<Inode>, ns: Namespace, root: nat, open: seq<Descriptor>,
                         parent: nat, name: Name, id: nat, names: map<Name, nat>, held: map<nat, seq<byte>>)
    requires TreeOk(ns, root) && OpenOk(ns, open) && parent in ns.dirs && parent in ns.depth && id !in ns.kinds
    requires id !in ns.dirs
    requires ValidName(name) && name !in ns.dirs[parent] && names == ns.dirs[parent][name := id]
    requires parent != id
    requires Shows(disk, table, ns.dirs[id := FirstNames(id, parent)][parent := names], ns.kinds[id := Directory], held)
    ensures var ns' := LinkDirectory(ns, parent, name, id);
            TreeOk(ns', root) && OpenOk(ns', open) && Shows(disk, table, ns'.dirs, ns'.kinds, held)
  {
    hide Shows, FirstNames, TreeOk, ValidName, OpenOk;
    LinkDirectoryKeepsTree(ns, root, parent, name, id);
    SwapSets(ns.dirs, id, FirstNames(id, parent), parent, names);
    OpenKept(ns, LinkDirectory(ns, parent, name, id), open, id, Directory);
  }

  lemma SwapSets<V>(m: map<nat, V>, a: nat, x: V, b: nat, y: V)
    requires a != b
    ensures m[a := x][b := y] == m[b := y][a := x]
  {
  }

  lemma OpenKept(ns: Namespace, ns': Namespace, open: seq<Descriptor>, id: nat, kind: FileType)
    requires OpenOk(ns, open) && id !in ns.kinds && ns'.kinds == ns.kinds[id := kind]
    ensures OpenOk(ns', open)
  {
  }

  lemma DirectoryLeaked(disk: seq<Cluster>, table: seq<Inode>, ns: Namespace, root: nat, open: seq<Descriptor>,
                        id: nat, dots: map<Name, nat>, held: map<nat, seq<byte>>)
    requires TreeOk(ns, root) && OpenOk(ns, open) && id !in ns.kinds && id !in ns.dirs
    requires Shows(disk, table, ns.dirs[id := dots], ns.kinds[id := Directory], held)
    ensures var ns' := Leak(ns, id);
            TreeOk(ns', root) && OpenOk(ns', open) && Shows(disk, table, ns'.dirs, ns'.kinds, held)
  {
    hide Shows;
    LeakKeepsTree(ns, root, id);
    ShowsFewer(disk, table, ns.dirs, ns.kinds[id := Directory], id, dots, held);
  }

  lemma LeakedBut(disk: seq<Cluster>, table: seq<Inode>, ns: Namespace, root: nat, open: seq<Descriptor>,
                  parent: nat, id: nat, dots: map<Name, nat>, held: map<nat, seq<byte>>)
    requires TreeOk(ns, root) && OpenOk(ns, open) && id !in ns.kinds && id !in ns.dirs && parent in ns.dirs
    requires Shows(disk, table, ns.dirs[id := dots] - {parent}, ns.kinds[id := Directory], held)
    requires parent !in held
    ensures var ns' := Leak(ns, id);
            && TreeOk(ns', root) && OpenOk(ns', open) && ns'.dirs == ns.dirs
            && Shows(disk, table, ns'.dirs - {parent}, ns'.kinds, held)
            && (Shows(disk, table, ns'.dirs, ns'.kinds, held) <==> DirectoryIs(disk, table, parent, ns.dirs[parent]))
  {
    hide Shows, DirectoryIs, TreeOk, OpenOk;
    LeakKeepsTree(ns, root, id);
    OpenKept(ns, Leak(ns, id), open, id, Directory);
    DirFacts(ns, root, parent);
    assert (ns.dirs - {parent})[id := dots] == ns.dirs[id := dots] - {parent};
    ShowsFewer(disk, table, ns.dirs - {parent}, ns.kinds[id := Directory], id, dots, held);
    ShowsBut(disk, table, ns.dirs, ns.kinds[id := Directory], parent, held);
  }

  lemma EntryKept(disk: seq<Cluster>, disk': seq<Cluster>, table: seq<Inode>, table': seq<Inode>, id: nat, j: nat)
    requires TableOk(table) && TableOk(table') && OthersKept(disk, disk', table, table', id) && j < |table| && j != id
    ensures j < |table'| && table'[j] == table[j]
  {
    hide SameFile;
  }

  lemma LinkKept(disk: seq<Cluster>, disk': seq<Cluster>, table: seq<Inode>, table': seq<Inode>, parent: nat, id: nat)
    requires TableOk(table) && TableOk(table') && OthersKept(disk, disk', table, table', parent)
    requires id < |table| && id != parent && WellStored(disk, table[id])
    ensures id < |table'| && Content(disk', table'[id]) == Content(disk, table[id])
  {
    KeptContent(disk, disk', table, table', parent, id);
  }

  lemma NamedInTable(disk: seq<Cluster>, table: seq<Inode>, ns: Namespace, root: nat, d: nat, name: Name,
                     held: map<nat, seq<byte>>)
    requires Shows(disk, table, ns.dirs, ns.kinds, held) && TreeOk(ns, root) && d in ns.dirs
    requires name in ns.dirs[d] && name != DOT && name != DOT_DOT
    ensures Child(ns, d, name, ns.dirs[d][name]) && ns.dirs[d][name] < |table|
  {
    hide TreeOk, Shows;
    assert Child(ns, d, name, ns.dirs[d][name]);
    ChildFacts(ns, root, d, name, ns.dirs[d][name]);
    ShowsFacts(disk, table, ns.dirs, ns.kinds, ns.dirs[d][name], held);
  }

  /** Every directory of the tree has room for another name: it cannot name more inodes than there are. */
  lemma TreeHasRoom(disk: seq<Cluster>, table: seq<Inode>, ns: Namespace, root: nat, d: nat, held: map<nat, seq<byte>>)
    requires Shows(disk, table, ns.dirs, ns.kinds, held) && TreeOk(ns, root) && d in ns.dirs
    ensures d < |table| && HasRoom(table[d])
  {
    hide TreeOk, Shows, GoodDirectory, Dir, Child, HasRoom;
    ShowsFacts(disk, table, ns.dirs, ns.kinds, d, held);
    RootFacts(ns, root);
    var names := ns.dirs[d];
    var keys := names.Keys - {DOT, DOT_DOT};
    forall k | k in keys ensures names[k] < |table| {
      NamedInTable(disk, table, ns, root, d, k, held);
    }
    forall j, k | j in keys && k in keys && names[j] == names[k] ensures j == k {
      NamedInTable(disk, table, ns, root, d, j, held);
      NamedInTable(disk, table, ns, root, d, k, held);
    }
    KeysBound(keys, names, |table|);
    DirectoryHasRoom(disk, table[d], |table|);
  }

  /** A name in a directory leads to an inode in use; "." and ".." lead to directories. */
  lemma NameFacts(ns: Namespace, root: nat, d: nat, name: Name)
    requires TreeOk(ns, root) && d in ns.dirs && name in ns.dirs[d]
    ensures var t := ns.dirs[d][name];
            && t in ns.kinds && (ns.kinds[t] == Directory <==> t in ns.dirs)
            && (t in ns.dirs ==> HasDots(ns.dirs[t]))
            && if name == DOT || name == DOT_DOT then t in ns.dirs else Child(ns, d, name, t)
  {
    hide TreeOk;
    var t := ns.dirs[d][name];
    DirFacts(ns, root, d);
    ParentFacts(ns, root, d);
    if name != DOT && name != DOT_DOT {
      assert Child(ns, d, name, t);
      ChildFacts(ns, root, d, name, t);
    }
    if t in ns.dirs {
      DirFacts(ns, root, t);
    }
  }

  /** A new record and its file filled. */
  lemma KeptByFilling(d0: seq<Cluster>, d2: seq<Cluster>, t0: seq<Inode>, t1: seq<Inode>, t2: seq<Inode>, id: nat,
                      r: set<nat>)
    requires TableOk(t0) && TableOk(t1) && TableOk(t2) && id < |t0| == |t1| && t1 == t0[id := t1[id]] && id in r
    requires OthersKept(d0, d2, t1, t2, id)
    ensures KeptOutside(d0, d2, t0, t2, r)
  {
    RecordOutside(d0, t0, t1, id);
    OthersOutside(d0, d2, t1, t2, id);
    hide KeptOutside, OthersKept;
    KeptOutsideTwice(d0, d0, d2, t0, t1, t2, {id}, {id}, r);
  }

  lemma KeptByOther(d0: seq<Cluster>, d1: seq<Cluster>, d2: seq<Cluster>, t0: seq<Inode>, t1: seq<Inode>, t2: seq<Inode>,
                    parent: nat, r: set<nat>)
    requires KeptOutside(d0, d1, t0, t1, r) && TableOk(t1) && TableOk(t2) && OthersKept(d1, d2, t1, t2, parent)
    requires parent in r
    ensures KeptOutside(d0, d2, t0, t2, r)
  {
    OthersOutside(d1, d2, t1, t2, parent);
    hide KeptOutside, OthersKept;
    KeptOutsideTwice(d0, d1, d2, t0, t1, t2, r, {parent}, r);
  }

  /** A name taken out of its directory, and then the inode behind it freed. */
  lemma KeptByTaking(d0: seq<Cluster>, d1: seq<Cluster>, t0: seq<Inode>, t1: seq<Inode>, t2: seq<Inode>, parent: nat,
                     id: nat)
    requires TableOk(t0) && TableOk(t1) && TableOk(t2) && OthersKept(d0, d1, t0, t1, parent)
    requires id < |t1| == |t2| && t2 == t1[id := t2[id]]
    ensures KeptOutside(d0, d1, t0, t2, {parent, id})
  {
    OthersOutside(d0, d1, t0, t1, parent);
    RecordOutside(d1, t1, t2, id);
    hide KeptOutside, OthersKept;
    KeptOutsideTwice(d0, d1, d1, t0, t1, t2, {parent}, {id}, {parent, id});
  }

  lemma OpenedOk(ns: Namespace, open: seq<Descriptor>, fd: nat, id: nat)
    requires OpenOk(ns, open) && fd < |open| && id in ns.kinds && ns.kinds[id] == Regular
    ensures OpenOk(ns, open[fd := Descriptor(true, id)])
  {
  }

  lemma ClosedOk(ns: Namespace, open: seq<Descriptor>, fd: nat)
    requires OpenOk(ns, open) && fd < |open|
    ensures OpenOk(ns, open[fd := open[fd].(isOpen := false)])
  {
  }

  /** The new file is where its name leads. */
  lemma NewlyNamed(ns: Namespace, parent: nat, name: Name, id: nat, kind: FileType)
    requires parent in ns.dirs && ValidName(name)
    ensures var ns' := LinkFile(ns, parent, name, id, kind);
            Child(ns', parent, name, id) && id in ns'.kinds && ns'.kinds[id] == kind
  {
  }

  lemma FileIsNoDirectory(ns: Namespace, root: nat, id: nat)
    requires TreeOk(ns, root) && id in ns.kinds && ns.kinds[id] != Directory
    ensures id !in ns.dirs
  {
    hide TreeOk;
    if id in ns.dirs {
      DirFacts(ns, root, id);
    }
  }

  lemma UnlinkedShows(disk: seq<Cluster>, table: seq<Inode>, ns: Namespace, parent: nat, name: Name, t: nat,
                      names: map<Name, nat>, held: map<nat, seq<byte>>)
    requires parent in ns.dirs && name in ns.dirs[parent] && ns.dirs[parent][name] == t && names == ns.dirs[parent] - {name}
    requires Shows(disk, table, ns.dirs[parent := names] - {t}, ns.kinds - {t}, held)
    ensures var ns' := Unlink(ns, parent, name); Shows(disk, table, ns'.dirs, ns'.kinds, held)
  {
    hide Shows;
  }

  lemma StillOpenOk(ns: Namespace, open: seq<Descriptor>, parent: nat, name: Name)
    requires OpenOk(ns, open) && parent in ns.dirs && name in ns.dirs[parent] && !IsOpen(open, ns.dirs[parent][name])
    ensures OpenOk(Unlink(ns, parent, name), open)
  {
  }

  /** Takes a name out of its directory. */
  method TakeName(s: Storage, parent: nat, name: Name, ghost dirs: map<nat, map<Name, nat>>, ghost kinds: map<nat,
                  FileType>, ghost held: map<nat, seq<byte>>)
    returns (status: Status)
    requires s.Valid() && Sound(s.Vol(TableRoots(s.table))) && Shows(s.disk, s.table, dirs, kinds, held)
    requires parent in dirs && name in dirs[parent]
    modifies s`disk, s`table, s`dirty, s.bitmap.buffer
    ensures s.Valid() && Sound(s.Vol(TableRoots(s.table))) && |s.table| == |old(s.table)|
    ensures s.bitmap.Used() == old(s.bitmap.Used())
    ensures status == if name == DOT || name == DOT_DOT then InvalidArgument else Ok
    ensures status != Ok ==> s.disk == old(s.disk) && s.table == old(s.table)
    ensures status == Ok ==>
              && Shows(s.disk, s.table, dirs[parent := dirs[parent] - {name}], kinds, held)
              && SameOwned(old(s.Vol(TableRoots(s.table))), s.Vol(TableRoots(s.table)))
              && parent < |s.table| && SamePointers(old(s.table)[parent], s.table[parent])
    ensures OthersKept(old(s.disk), s.disk, old(s.table), s.table, parent)
  {
    hide Image, Sound, TableRoots, Shows, OthersKept, GoodDirectory, Dir, SameOwned, Flags, Stored, WellStored;
    hide SamePointers;
    ShowsFacts(s.disk, s.table, dirs, kinds, parent, held);
    status := RemoveEntry(s, parent, name);
    if status == Ok {
      GoodIsStored(s.disk, s.table[parent]);
      StoredAgain(old(s.disk), s.disk, old(s.table)[parent], s.table[parent]);
      ShowsOthers(old(s.disk), s.disk, old(s.table), s.table, dirs, kinds, parent, held);
      ghost var names := dirs[parent] - {name};
      ShowsDirectory(s.disk, s.table, dirs - {parent}, kinds, parent, names, held);
      RemovedThenSet(dirs, parent, names);
    }
  }

  class Vfs {
    const storage: Storage
    const root: nat
    /** The open-file table, as far as removing files looks at it. */
    var openFiles: seq<Descriptor>
    ghost var ns: Namespace
    /** The bytes of open files as far as they are not all stored; calls leave such files alone. */
    ghost var held: map<nat, seq<byte>>

    ghost predicate SystemOk()
      reads this, storage, storage.bitmap, storage.bitmap.buffer
    {
      && storage.Valid() && Sound(storage.Vol(TableRoots(storage.table)))
      && storage.reserved == DATA_START && |storage.table| == INODE_COUNT
      && DATA_START < |storage.disk| <= 32768 && SuperFits(storage.super, |storage.disk|)
      && storage.super.rootInodeId == root
      && HeldOpen(held, openFiles)
    }

    ghost predicate Valid()
      reads this, storage, storage.bitmap, storage.bitmap.buffer
    {
      && SystemOk()
      && Shows(storage.disk, storage.table, ns.dirs, ns.kinds, held)
      && TreeOk(ns, root)
      && OpenOk(ns, openFiles)
    }

    ghost function Files(): map<nat, seq<byte>>
      reads this, storage, storage.bitmap.buffer
      requires storage.Valid()
    {
      FilesOf(storage.disk, storage.table, ns.kinds, held)
    }

    /** The file parses to at most two entries. */
    ghost predicate FewEntries(t: nat)
      requires storage.Valid()
      reads storage, storage.bitmap.buffer
    {
      t < |storage.table| && |Listing(storage.disk, storage.table[t])| <= 2
    }

    constructor (s: Storage, rootInode: nat, descriptors: nat, ghost names: Namespace)
      ensures storage == s && root == rootInode && ns == names && held == map[]
      ensures openFiles == seq(descriptors, _ => Descriptor(false, 0))
    {
      storage, root, ns, held := s, rootInode, names, map[];
      openFiles := seq(descriptors, _ => Descriptor(false, 0));
    }

    /** Takes a new inode of the given kind. */
    method NewFile(kind: FileType) returns (status: Status, id: nat)
      requires SystemOk() && Shows(storage.disk, storage.table, ns.dirs, ns.kinds, held)
      modifies storage`table, storage`dirty
      ensures SystemOk() && (status == Ok || status == NoSpace)
      ensures status == Ok ==>
                && id !in ns.kinds && id !in ns.dirs && id < |storage.table| == |old(storage.table)| <= MAX_CLUSTERS
                && storage.table == old(storage.table)[id := NewInode(id, kind)] && id == NextId(ns)
                && Shows(storage.disk, storage.table, ns.dirs, ns.kinds[id := kind], held)
      ensures status == NoSpace ==> storage.table == old(storage.table)
      ensures status == NoSpace <==> TableFull(old(storage.table))
    {
      hide Image, Sound, TableRoots, Shows, NoPointers, SuperFits;
      ShowsFacts(storage.disk, storage.table, ns.dirs, ns.kinds, 0, held);
      status, id := storage.AllocateInode(kind);
      if status == Ok {
        NewHasNoPointers(id, kind);
        DropSound(storage.disk, storage.bitmap.Used(), storage.reserved, old(storage.table), NewInode(id, kind));
        ShowsAllocated(storage.disk, old(storage.table), ns.dirs, ns.kinds, id, kind, held);
        LowestIsNext(storage.disk, old(storage.table), ns, id, held);
      }
    }

    /** Gives an inode back without touching its clusters. */
    method DropFile(id: nat)
      requires SystemOk() && id < |storage.table|
      modifies storage`table, storage`dirty
      ensures SystemOk() && storage.table == old(storage.table)[id := EmptyInode(id)]
    {
      hide Image, Sound, TableRoots, NoPointers;
      NewHasNoPointers(id, Regular);
      DropSound(storage.disk, storage.bitmap.Used(), storage.reserved, storage.table, EmptyInode(id));
      var status := storage.FreeInode(id);
    }

    /** Gives an inode back together with exactly the clusters it owns. */
    method Discard(id: nat)
      requires SystemOk() && id < |storage.table|
      modifies storage`table, storage`dirty, storage.bitmap.buffer
      ensures SystemOk() && storage.table == old(storage.table)[id := EmptyInode(id)]
      ensures Truncated(old(storage.Vol(TableRoots(storage.table))), id, old(storage.bitmap.Used()), storage.bitmap.Used())
    {
      hide Image, Sound, TableRoots, Truncated, Flags, OthersSame, NoPointers;
      SameEntry(storage.table, id);
      var status, ino := storage.TruncateFile(storage.table[id]);
      RewrittenEntry(old(storage.table), id, ino, EmptyInode(id));
      DropFile(id);
    }

    /** Enters an inode under a name. */
    method EnterName(parent: nat, name: Name, id: nat, ghost dirs: map<nat, map<Name, nat>>, ghost kinds: map<nat,
                     FileType>)
      returns (status: Status)
      requires SystemOk() && Shows(storage.disk, storage.table, dirs, kinds, held) && parent in dirs && IsCString(name)
      requires kinds[parent] == Directory && HasRoom(storage.table[parent]) && id < |storage.table|
      modifies storage`disk, storage`table, storage`dirty, storage.bitmap.buffer
      ensures SystemOk() && |storage.table| == |old(storage.table)|
      ensures status == if !ValidName(name) || name in dirs[parent] then InvalidArgument
                        else if old(EntryFits(storage.Vol(TableRoots(storage.table)), storage.table, parent, name, 0)) then Ok
                        else NoSpace
      ensures status == InvalidArgument ==>
                && Shows(storage.disk, storage.table, dirs, kinds, held)
                && storage.disk == old(storage.disk) && storage.table == old(storage.table)
                && storage.bitmap.Used() == old(storage.bitmap.Used())
      ensures status == Ok ==>
                var names: map<Name, nat> := dirs[parent][name := id];
                Shows(storage.disk, storage.table, dirs[parent := names], kinds, held)
      ensures status == NoSpace ==>
                && Shows(storage.disk, storage.table, dirs - {parent}, kinds, held)
                && (DirectoryIs(storage.disk, storage.table, parent, dirs[parent]) <==> SortsLast(dirs[parent], name))
      ensures OthersKept(old(storage.disk), storage.disk, old(storage.table), storage.table, parent)
    {
      hide Image, Sound, TableRoots, Shows, OthersKept, GoodDirectory, Dir, SuperFits, Stored, WellStored, Dense;
      hide Content, DirectoryIs, SortsLast;
      hide Serialize, Placed, Listing, Flags, FitsBesides, RecordLength;
      ShowsFacts(storage.disk, storage.table, dirs, kinds, parent, held);
      status := InsertEntry(storage, parent, name, id);
      if status == NoSpace {
        StillStored(old(storage.disk), storage.disk, storage.table[parent]);
        ShowsOthers(old(storage.disk), storage.disk, old(storage.table), storage.table, dirs, kinds, parent, held);
        FailedNames(old(storage.disk), storage.disk, storage.table, parent, name, id);
      }
      if status == Ok {
        GoodIsStored(storage.disk, storage.table[parent]);
        StoredAgain(old(storage.disk), storage.disk, old(storage.table)[parent], storage.table[parent]);
        ShowsOthers(old(storage.disk), storage.disk, old(storage.table), storage.table, dirs, kinds, parent, held);
        ghost var names: map<Name, nat> := dirs[parent][name := id];
        ShowsDirectory(storage.disk, storage.table, dirs - {parent}, kinds, parent, names, held);
        RemovedThenSet(dirs, parent, names);
      }
    }

    /** Makes a new file part of the tree. */
    method EnterNew(parent: nat, name: Name, id: nat, ghost kind: FileType) returns (status: Status)
      requires SystemOk() && TreeOk(ns, root) && OpenOk(ns, openFiles) && parent in ns.dirs && IsCString(name)
      requires Shows(storage.disk, storage.table, ns.dirs, ns.kinds[id := kind], held) && id !in ns.kinds && id !in ns.dirs
      requires kind != Directory && id < |storage.table| && HasRoom(storage.table[parent])
      modifies this`ns, storage`disk, storage`table, storage`dirty, storage.bitmap.buffer
      ensures SystemOk() && |storage.table| == |old(storage.table)|
      ensures status == if !ValidName(name) || name in old(ns).dirs[parent] then InvalidArgument
                        else if old(EntryFits(storage.Vol(TableRoots(storage.table)), storage.table, parent, name, 0)) then Ok
                        else NoSpace
      ensures status == Ok ==> Valid() && ns == LinkFile(old(ns), parent, name, id, kind)
      ensures status != Ok ==> ns == old(ns)
      ensures OthersKept(old(storage.disk), storage.disk, old(storage.table), storage.table, parent)
      ensures status == NoSpace ==>
                && Shows(storage.disk, storage.table, ns.dirs - {parent}, ns.kinds[id := kind], held)
                && (DirectoryIs(storage.disk, storage.table, parent, ns.dirs[parent]) <==> SortsLast(ns.dirs[parent], name))
      ensures status == InvalidArgument ==>
                && storage.disk == old(storage.disk) && storage.table == old(storage.table)
                && storage.bitmap.Used() == old(storage.bitmap.Used())
    {
      hide Image, Sound, TableRoots, Shows, TreeOk, OthersKept, HasRoom, OpenOk, LinkFile, ValidName, Flags, Dots;
      hide SuperFits, DirectoryIs, SortsLast, EntryFits;
      DirFacts(ns, root, parent);
      UnnamedId(ns, root, id);
      status := EnterName(parent, name, id, ns.dirs, ns.kinds[id := kind]);
      if status == Ok {
        FileEntered(storage.disk, storage.table, ns, root, openFiles, parent, name, id, kind,
                    ns.dirs[parent][name := id], held);
        ns := LinkFile(ns, parent, name, id, kind);
      }
    }

    /** Makes a new empty file part of the tree, or gives its inode back. */
    method EnterOrDrop(parent: nat, name: Name, id: nat, ghost kind: FileType, ghost disk0: seq<Cluster>,
                       ghost table0: seq<Inode>)
      returns (status: Status)
      requires SystemOk() && TreeOk(ns, root) && OpenOk(ns, openFiles) && parent in ns.dirs && IsCString(name)
      requires Shows(storage.disk, storage.table, ns.dirs, ns.kinds[id := kind], held) && id !in ns.kinds && id !in ns.dirs
      requires kind != Directory && id < |storage.table| && HasRoom(storage.table[parent])
      requires TableOk(table0) && |table0| == |storage.table| && disk0 == storage.disk
      requires storage.table == table0[id := storage.table[id]]
      modifies this`ns, storage`disk, storage`table, storage`dirty, storage.bitmap.buffer
      ensures SystemOk() && |storage.table| == |old(storage.table)|
      ensures status == if !ValidName(name) || name in old(ns).dirs[parent] then InvalidArgument
                        else if old(EntryFits(storage.Vol(TableRoots(storage.table)), storage.table, parent, name, 0)) then Ok
                        else NoSpace
      ensures status == Ok ==>
                Valid() && ns == LinkFile(old(ns), parent, name, id, kind) && storage.table[id] == old(storage.table)[id]
      ensures status != Ok ==> ns == old(ns)
      ensures status == InvalidArgument ==> Valid()
      ensures status == NoSpace ==>
                && Shows(storage.disk, storage.table, ns.dirs - {parent}, ns.kinds, held)
                && (Valid() <==> SortsLast(ns.dirs[parent], name))
      ensures KeptOutside(disk0, storage.disk, table0, storage.table, {parent, id})
    {
      hide Image, Sound, TableRoots, Shows, TreeOk, OthersKept, HasRoom, OpenOk, LinkFile, ValidName, Flags;
      hide SuperFits, DirectoryIs, SortsLast;
      hide KeptOutside, EmptyInode, EntryFits;
      InDirsNotHeld(storage.disk, storage.table, ns.dirs, ns.kinds[id := kind], parent, held);
      DirFacts(ns, root, parent);
      ghost var table1 := storage.table;
      status := EnterNew(parent, name, id, kind);
      KeptByEntering(disk0, storage.disk, table0, table1, storage.table, parent, id);
      EntryKept(disk0, storage.disk, table1, storage.table, parent, id);
      if status != Ok {
        ghost var table := storage.table;
        DropFile(id);
        KeptByRecord(disk0, storage.disk, table0, table, storage.table, id, {parent, id});
        ShowsUndone(storage.disk, table, if status == NoSpace then ns.dirs - {parent} else ns.dirs, ns.kinds, id, kind,
                    held);
        StillDirectory(storage.disk, table, id, parent, ns.dirs[parent]);
        ShowsBut(storage.disk, storage.table, ns.dirs, ns.kinds, parent, held);
      }
    }

    /**
     Creates an empty regular file under a name that is not taken. For want of space everything but the parent
     directory is as it was; the parent is too exactly when no inode was free or the name sorts behind all of its names.
     */
    method CreateFile(parent: nat, name: Name) returns (status: Status, id: nat)
      requires Valid() && parent in ns.dirs && IsCString(name)
      modifies this`ns, storage`disk, storage`table, storage`dirty, storage.bitmap.buffer
      ensures SystemOk() && (status != NoSpace ==> Valid())
      ensures status == if TableFull(old(storage.table)) then NoSpace
                        else if !ValidName(name) || name in old(ns).dirs[parent] then InvalidArgument
                        else if old(EntryFits(storage.Vol(TableRoots(storage.table)), storage.table, parent, name, 0)) then Ok
                        else NoSpace
      ensures status == Ok ==>
                && id == NextId(old(ns)) && ns == LinkFile(old(ns), parent, name, id, Regular)
                && id < |storage.table| && storage.table[id] == NewInode(id, Regular)
      ensures status != Ok ==> ns == old(ns)
      ensures Files() == if status == Ok then old(Files())[id := []] else old(Files())
      ensures KeptHeld(old(storage.disk), storage.disk, old(storage.table), storage.table, held)
      ensures status == NoSpace ==>
                && Shows(storage.disk, storage.table, ns.dirs - {parent}, ns.kinds, held)
                && (Valid() <==> TableFull(old(storage.table)) || SortsLast(ns.dirs[parent], name))
      ensures KeptOutside(old(storage.disk), storage.disk, old(storage.table), storage.table, {parent, id})
    {
      hide Image, Sound, TableRoots, Shows, TreeOk, OthersKept, HasRoom, OpenOk, LinkFile, ValidName, Flags;
      hide SuperFits, DirectoryIs, SortsLast;
      hide TableFull, KeptOutside, NewInode, EmptyInode, EntryFits, FilesOf, Content, KeptHeld;
      ghost var table, v := storage.table, storage.Vol(TableRoots(storage.table));
      ShowsFacts(storage.disk, table, ns.dirs, ns.kinds, parent, held);
      TreeHasRoom(storage.disk, table, ns, root, parent, held);
      status, id := NewFile(Regular);
      if status != Ok {
        DirFacts(ns, root, parent);
        ShowsBut(storage.disk, table, ns.dirs, ns.kinds, parent, held);
        KeptOutsideNothing(storage.disk, table, {parent, id});
        HeldUntouched(storage.disk, table, held);
        return;
      }
      NewIsNotHeld(held, openFiles, ns, id);
      KeepsRoom(table, parent, id, Regular);
      NameStillFits(v, storage.Vol(TableRoots(storage.table)), table, storage.table, id, parent, name);
      DirFacts(ns, root, parent);
      ghost var ns0, d0 := ns, storage.disk;
      LinkedKinds(ns, parent, name, id, Regular);
      status := EnterOrDrop(parent, name, id, Regular, storage.disk, table);
      HeldApart(d0, storage.disk, table, storage.table, {parent, id}, held);
      if status == Ok {
        NewIsEmpty(storage.disk, id, Regular);
        FileMade(d0, storage.disk, table, storage.table, ns0, ns.dirs, ns.kinds, parent, id, Regular, [], held);
      } else {
        FilesStay(d0, storage.disk, table, storage.table, ns0, if status == NoSpace then ns.dirs - {parent} else ns.dirs,
                  ns.kinds, parent, id, held);
      }
    }

    /**
     Creates a directory. When its name is taken or not valid, and when it finds no space for the name, the new
     inode stays in use, named nowhere: the call does not give it back.
     */
    method CreateDirectory(parent: nat, name: Name) returns (status: Status, id: nat)
      requires Valid() && parent in ns.dirs && IsCString(name)
      modifies this`ns, storage`disk, storage`table, storage`dirty, storage.bitmap.buffer
      ensures SystemOk() && (status != NoSpace ==> Valid())
      ensures status == if TableFull(old(storage.table)) || FreeClusters(old(storage.bitmap.Used())) == 0 then NoSpace
                        else if !ValidName(name) || name in old(ns).dirs[parent] then InvalidArgument
                        else if old(EntryFits(storage.Vol(TableRoots(storage.table)), storage.table, parent, name, 1)) then Ok
                        else NoSpace
      ensures if status == Ok then parent in old(ns).depth && ns == LinkDirectory(old(ns), parent, name, id)
              else if TableFull(old(storage.table)) || FreeClusters(old(storage.bitmap.Used())) == 0
              then ns == old(ns) && Valid()
              else ns == Leak(old(ns), id)
      ensures !TableFull(old(storage.table)) && FreeClusters(old(storage.bitmap.Used())) > 0 ==> id == NextId(old(ns))
      ensures Files() == old(Files())
      ensures KeptHeld(old(storage.disk), storage.disk, old(storage.table), storage.table, held)
      ensures status == NoSpace ==>
                && Shows(storage.disk, storage.table, ns.dirs - {parent}, ns.kinds, held)
                && (Valid() <==> TableFull(old(storage.table)) || FreeClusters(old(storage.bitmap.Used())) == 0
                                 || SortsLast(old(ns).dirs[parent], name))
      ensures KeptOutside(old(storage.disk), storage.disk, old(storage.table), storage.table, {parent, id})
    {
      hide Image, Sound, TableRoots, Shows, TreeOk, OthersKept, HasRoom, OpenOk, LinkDirectory, Leak, ValidName;
      hide Flags, SuperFits;
      hide SortsLast, TableFull, FreeClusters, KeptOutside, NewInode, EmptyInode, EntryFits, OthersOwn, TookLowest;
      hide DirectoryIs, FilesOf, Content, KeptHeld;
      ghost var ns0 := ns;
      ghost var table, v0 := storage.table, storage.Vol(TableRoots(storage.table));
      ShowsFacts(storage.disk, table, ns.dirs, ns.kinds, parent, held);
      TreeHasRoom(storage.disk, table, ns, root, parent, held);
      DirFacts(ns, root, parent);
      ShowsBut(storage.disk, table, ns.dirs, ns.kinds, parent, held);
      status, id := NewFile(Directory);
      if status != Ok {
        KeptOutsideNothing(storage.disk, table, {parent, id});
        HeldUntouched(storage.disk, table, held);
        return;
      }
      NewIsNotHeld(held, openFiles, ns, id);
      KeepsRoom(table, parent, id, Directory);
      ghost var d0, t0, t1, v1 := storage.disk, table, storage.table, storage.Vol(TableRoots(storage.table));
      status := FillDirectory(parent, id);
      ghost var d2, t2, v2 := storage.disk, storage.table, storage.Vol(TableRoots(storage.table));
      KeptByFilling(d0, d2, t0, t1, t2, id, {parent, id});
      if status != Ok {
        table := storage.table;
        DropFile(id);
        KeptByRecord(d0, storage.disk, t0, t2, storage.table, id, {parent, id});
        ShowsUndone(storage.disk, table, ns.dirs, ns.kinds, id, Directory, held);
        FilesStay(d0, storage.disk, t0, storage.table, ns0, ns.dirs, ns.kinds, parent, id, held);
        HeldApart(d0, storage.disk, t0, storage.table, {parent, id}, held);
        ShowsBut(storage.disk, storage.table, ns.dirs, ns.kinds, parent, held);
        return;
      }
      NameFitsBesides(v0, v1, v2, t0, t1, t2, id, parent, name, 1);
      LinkedKinds(ns, parent, name, id, Directory);
      status := EnterDirectory(parent, name, id);
      KeptByOther(d0, d2, storage.disk, t0, t2, storage.table, parent, {parent, id});
      HeldApart(d0, storage.disk, t0, storage.table, {parent, id}, held);
      FilesStay(d0, storage.disk, t0, storage.table, ns0, if status == NoSpace then ns.dirs - {parent} else ns.dirs,
                ns.kinds, parent, id, held);
    }

    /** Writes the two entries of a new directory. */
    method FillDirectory(parent: nat, id: nat) returns (status: Status)
      requires SystemOk() && TreeOk(ns, root) && parent in ns.dirs && id !in ns.kinds && id !in ns.dirs && id !in held
      requires Shows(storage.disk, storage.table, ns.dirs, ns.kinds[id := Directory], held)
      requires id < |storage.table| && storage.table[id] == NewInode(id, Directory)
      modifies storage`disk, storage`table, storage`dirty, storage.bitmap.buffer
      ensures SystemOk() && (status == Ok || status == NoSpace) && |storage.table| == |old(storage.table)|
      ensures parent < |storage.table| && storage.table[parent] == old(storage.table)[parent]
      ensures status == Ok ==>
                && Shows(storage.disk, storage.table, ns.dirs[id := FirstNames(id, parent)], ns.kinds[id := Directory], held)
                && TookLowest(old(storage.bitmap.Used()), storage.bitmap.Used(), 1)
                && OthersOwn(old(storage.Vol(TableRoots(storage.table))), storage.Vol(TableRoots(storage.table)), id)
      ensures status == NoSpace ==> Shows(storage.disk, storage.table, ns.dirs, ns.kinds[id := Directory], held)
      ensures status == Ok <==> FreeClusters(old(storage.bitmap.Used())) > 0
      ensures OthersKept(old(storage.disk), storage.disk, old(storage.table), storage.table, id)
    {
      hide Image, Sound, TableRoots, Shows, TreeOk, GoodDirectory, Dir, SameFile, Flags, FirstNames, SuperFits;
      hide Stored, FreeClusters, OthersKept, TookLowest, OthersOwn;
      ghost var kinds := ns.kinds[id := Directory];
      ShowsFacts(storage.disk, storage.table, ns.dirs, kinds, parent, held);
      NewHasNoPointers(id, Directory);
      status := CreateNew(storage, id, parent);
      EntryKept(old(storage.disk), storage.disk, old(storage.table), storage.table, id, parent);
      if status == NoSpace {
        NewIsStored(storage.disk, id, Directory);
        ShowsOthers(old(storage.disk), storage.disk, old(storage.table), storage.table, ns.dirs, kinds, id, held);
        WithoutAbsent(ns.dirs, id);
      }
      if status == Ok {
        GoodIsStored(storage.disk, storage.table[id]);
        NewIsStored(old(storage.disk), id, Directory);
        StoredAgain(old(storage.disk), storage.disk, old(storage.table)[id], storage.table[id]);
        ShowsOthers(old(storage.disk), storage.disk, old(storage.table), storage.table, ns.dirs, kinds, id, held);
        WithoutAbsent(ns.dirs, id);
        ShowsDirectory(storage.disk, storage.table, ns.dirs, kinds, id, FirstNames(id, parent), held);
      }
    }

    /** Enters a new directory's name, or leaves the directory without one. */
    method EnterDirectory(parent: nat, name: Name, id: nat) returns (status: Status)
      requires SystemOk() && TreeOk(ns, root) && OpenOk(ns, openFiles) && parent in ns.dirs && IsCString(name)
      requires id !in ns.kinds && id !in ns.dirs && id < |storage.table| && parent < |storage.table|
      requires HasRoom(storage.table[parent])
      requires Shows(storage.disk, storage.table, ns.dirs[id := FirstNames(id, parent)], ns.kinds[id := Directory], held)
      modifies this`ns, storage`disk, storage`table, storage`dirty, storage.bitmap.buffer
      ensures SystemOk()
      ensures status == if !ValidName(name) || name in old(ns).dirs[parent] then InvalidArgument
                        else if old(EntryFits(storage.Vol(TableRoots(storage.table)), storage.table, parent, name, 0)) then Ok
                        else NoSpace
      ensures status != NoSpace ==> Valid()
      ensures status == Ok ==> parent in old(ns).depth && ns == LinkDirectory(old(ns), parent, name, id)
      ensures status != Ok ==> ns == Leak(old(ns), id)
      ensures status == NoSpace ==>
                && Shows(storage.disk, storage.table, ns.dirs - {parent}, ns.kinds, held)
                && (Valid() <==> SortsLast(old(ns).dirs[parent], name))
      ensures |storage.table| == |old(storage.table)|
      ensures OthersKept(old(storage.disk), storage.disk, old(storage.table), storage.table, parent)
    {
      hide Image, Sound, TableRoots, Shows, TreeOk, OthersKept, HasRoom, OpenOk, LinkDirectory, Leak, ValidName;
      hide Flags, Dots, FirstNames;
      hide SuperFits, DirectoryIs, SortsLast, EntryFits;
      InDirsNotHeld(storage.disk, storage.table, ns.dirs[id := FirstNames(id, parent)], ns.kinds[id := Directory],
                    parent, held);
      DirFacts(ns, root, parent);
      status := EnterName(parent, name, id, ns.dirs[id := FirstNames(id, parent)], ns.kinds[id := Directory]);
      if status == Ok {
        DirectoryEntered(storage.disk, storage.table, ns, root, openFiles, parent, name, id,
                         ns.dirs[parent][name := id], held);
        ns := LinkDirectory(ns, parent, name, id);
      } else if status == InvalidArgument {
        DirectoryLeaked(storage.disk, storage.table, ns, root, openFiles, id, FirstNames(id, parent), held);
        ns := Leak(ns, id);
      } else {
        LeakedBut(storage.disk, storage.table, ns, root, openFiles, parent, id, FirstNames(id, parent), held);
        ns := Leak(ns, id);
      }
    }

    lemma SystemFacts()
      requires SystemOk()
      ensures storage.Valid() && Sound(storage.Vol(TableRoots(storage.table))) && TableOk(storage.table)
      ensures |storage.table| == INODE_COUNT && storage.reserved == DATA_START && HeldOpen(held, openFiles)
      ensures DATA_START < storage.bitmap.total <= 32768 && SuperFits(storage.super, storage.bitmap.total)
      ensures storage.super.rootInodeId == root
    {
      hide Image, Sound, TableRoots, SuperFits, HeldOpen, Flags;
    }

    /** A new file needs all of its clusters. */
    lemma NeedsAll(id: nat, kind: FileType, size: nat)
      requires SystemOk() && id < |storage.table| && storage.table[id] == NewInode(id, kind) && size <= MAX_FILE_BYTES
      ensures var v := storage.Vol(TableRoots(storage.table));
              && (Fits(v, id, size) <==> ClustersNeeded(size) <= FreeClusters(storage.bitmap.Used()))
              && MissingClusters(v, id, ClustersFor(size)) == ClustersNeeded(size)
    {
      hide Image, Sound, TableRoots, SuperFits, HeldOpen, Flags, NoPointers, Fits, MissingClusters, ClustersNeeded;
      hide ClustersFor, FreeClusters;
      NewHasNoPointers(id, kind);
      NewNeeds(storage.Vol(TableRoots(storage.table)), storage.table, id, size);
    }

    lemma SameRecord(ino: Inode)
      ensures SameLabels(ino, ino)
    {
    }

    /** The system is in order while storage is sound and as large as it was. */
    lemma SystemStays()
      requires storage.Valid() && Sound(storage.Vol(TableRoots(storage.table)))
      requires |storage.table| == INODE_COUNT && storage.reserved == DATA_START && HeldOpen(held, openFiles)
      requires DATA_START < storage.bitmap.total <= 32768 && SuperFits(storage.super, storage.bitmap.total)
      requires storage.super.rootInodeId == root
      ensures SystemOk()
    {
      hide Image, Sound, TableRoots, SuperFits, HeldOpen, Flags;
    }

    /** Writes the path of a new symbolic link. */
    method FillLink(parent: nat, id: nat, target: seq<byte>) returns (status: Status)
      requires SystemOk() && id !in ns.kinds && id !in ns.dirs && parent != id && parent < |storage.table|
      requires Shows(storage.disk, storage.table, ns.dirs, ns.kinds[id := Symlink], held)
      requires id < |storage.table| && storage.table[id] == NewInode(id, Symlink) && |target| + 1 <= MAX_FILE_BYTES
      modifies storage`disk, storage`table, storage`dirty, storage.bitmap.buffer
      ensures SystemOk() && |storage.table| == |old(storage.table)| && storage.table[parent] == old(storage.table)[parent]
      ensures status == if FreeClusters(old(storage.bitmap.Used())) < ClustersNeeded(|target| + 1) then NoSpace else Ok
      ensures Shows(storage.disk, storage.table, ns.dirs, ns.kinds[id := Symlink], held)
      ensures status == Ok ==>
                && WellStored(storage.disk, storage.table[id]) && Content(storage.disk, storage.table[id]) == target + [0]
                && TookLowest(old(storage.bitmap.Used()), storage.bitmap.Used(), ClustersNeeded(|target| + 1))
                && OthersOwn(old(storage.Vol(TableRoots(storage.table))), storage.Vol(TableRoots(storage.table)), id)
      ensures OthersKept(old(storage.disk), storage.disk, old(storage.table), storage.table, id)
    {
      hide *;
      SystemFacts();
      ghost var disk, table := storage.disk, storage.table;
      NewIsStored(disk, id, Symlink);
      NeedsAll(id, Symlink, |target| + 1);
      status := StoreWhole(storage, id, target + [0]);
      SystemStays();
      SystemFacts();
      SameRecord(table[id]);
      if status == Ok {
        StoredAgain(disk, storage.disk, table[id], storage.table[id]);
      } else {
        NewIsStored(storage.disk, id, Symlink);
      }
      ShowsOthers(disk, storage.disk, table, storage.table, ns.dirs, ns.kinds[id := Symlink], id, held);
      WithoutAbsent(ns.dirs, id);
      EntryKept(disk, storage.disk, table, storage.table, id, parent);
    }

    /** Enters a new link under its name, or gives it back with its clusters. */
    method EnterLink(parent: nat, name: Name, id: nat, ghost disk0: seq<Cluster>,
                     ghost table0: seq<Inode>) returns (status: Status)
      requires SystemOk() && TreeOk(ns, root) && OpenOk(ns, openFiles) && parent in ns.dirs && IsCString(name)
      requires Shows(storage.disk, storage.table, ns.dirs, ns.kinds[id := Symlink], held) && id !in ns.kinds
      requires id !in ns.dirs
      requires id < |storage.table| && parent < |storage.table| && HasRoom(storage.table[parent])
      requires WellStored(storage.disk, storage.table[id])
      requires KeptOutside(disk0, storage.disk, table0, storage.table, {parent, id})
      modifies this`ns, storage`disk, storage`table, storage`dirty, storage.bitmap.buffer
      ensures SystemOk() && (status != NoSpace ==> Valid())
      ensures status == if !ValidName(name) || name in old(ns).dirs[parent] then InvalidArgument
                        else if old(EntryFits(storage.Vol(TableRoots(storage.table)), storage.table, parent, name, 0)) then Ok
                        else NoSpace
      ensures status == Ok ==>
                && ns == LinkFile(old(ns), parent, name, id, Symlink) && id < |storage.table|
                && InodeOk(old(storage.table)[id]) && InodeOk(storage.table[id])
                && Content(storage.disk, storage.table[id]) == Content(old(storage.disk), old(storage.table)[id])
      ensures status != Ok ==> ns == old(ns)
      ensures status == NoSpace ==>
                && Shows(storage.disk, storage.table, ns.dirs - {parent}, ns.kinds, held)
                && (Valid() <==> SortsLast(ns.dirs[parent], name))
      ensures KeptOutside(disk0, storage.disk, table0, storage.table, {parent, id})
    {
      hide Image, Sound, TableRoots, Shows, TreeOk, HasRoom, OpenOk, LinkFile, ValidName, Flags, GoodDirectory, Dir;
      hide OthersKept, SameFile;
      hide WellStored, Content, SuperFits, DirectoryIs, SortsLast, Dense, Stored, Truncated, NoPointers, KeptOutside;
      hide EmptyInode, EntryFits;
      InDirsNotHeld(storage.disk, storage.table, ns.dirs, ns.kinds[id := Symlink], parent, held);
      DirFacts(ns, root, parent);
      ghost var disk, table := storage.disk, storage.table;
      status := EnterNew(parent, name, id, Symlink);
      ghost var d3, t3 := storage.disk, storage.table;
      KeptByOther(disk0, disk, d3, table0, table, t3, parent, {parent, id});
      if status != Ok {
        Discard(id);
        KeptByRecord(disk0, storage.disk, table0, t3, storage.table, id, {parent, id});
        ShowsUndone(storage.disk, t3, if status == NoSpace then ns.dirs - {parent} else ns.dirs, ns.kinds, id, Symlink,
                    held);
        StillDirectory(storage.disk, t3, id, parent, ns.dirs[parent]);
        ShowsBut(storage.disk, storage.table, ns.dirs, ns.kinds, parent, held);
        return;
      }
      LinkKept(disk, d3, table, t3, parent, id);
    }

    /** Creates a symbolic link holding the given path. */
    method CreateSymlink(parent: nat, name: Name, target: seq<byte>) returns (status: Status, id: nat)
      requires Valid() && parent in ns.dirs && IsCString(name)
      requires |target| + 1 <= MAX_FILE_BYTES
      modifies this`ns, storage`disk, storage`table, storage`dirty, storage.bitmap.buffer
      ensures SystemOk() && (status != NoSpace ==> Valid())
      ensures var needed := ClustersNeeded(|target| + 1);
              status == if name in old(ns).dirs[parent] then InvalidArgument
                        else if TableFull(old(storage.table)) || FreeClusters(old(storage.bitmap.Used())) < needed then NoSpace
                        else if !ValidName(name) then InvalidArgument
                        else if old(EntryFits(storage.Vol(TableRoots(storage.table)), storage.table, parent, name, needed)) then Ok
                        else NoSpace
      ensures status == Ok ==>
                && id == NextId(old(ns)) && ns == LinkFile(old(ns), parent, name, id, Symlink)
                && id < |storage.table| && Content(storage.disk, storage.table[id]) == target + [0]
      ensures status != Ok ==> ns == old(ns)
      ensures Files() == if status == Ok then old(Files())[id := target + [0]] else old(Files())
      ensures KeptHeld(old(storage.disk), storage.disk, old(storage.table), storage.table, held)
      ensures status == NoSpace ==>
                && Shows(storage.disk, storage.table, ns.dirs - {parent}, ns.kinds, held)
                && (Valid() <==> TableFull(old(storage.table))
                                 || FreeClusters(old(storage.bitmap.Used())) < ClustersNeeded(|target| + 1)
                                 || SortsLast(ns.dirs[parent], name))
      ensures KeptOutside(old(storage.disk), storage.disk, old(storage.table), storage.table, {parent, id})
    {
      hide Image, Sound, TableRoots, Shows, TreeOk, HasRoom, OpenOk, LinkFile, ValidName, Flags, GoodDirectory, Dir;
      hide OthersKept, SameFile;
      hide WellStored, Content, SuperFits, DirectoryIs, SortsLast, TableFull, FreeClusters, ClustersNeeded, Dense;
      hide Stored, Truncated;
      hide NoPointers, KeptOutside, NewInode, EmptyInode, EntryFits, OthersOwn, TookLowest, FilesOf, KeptHeld;
      ghost var ns0 := ns;
      ghost var d0, t0, v0 := storage.disk, storage.table, storage.Vol(TableRoots(storage.table));
      ShowsFacts(d0, t0, ns.dirs, ns.kinds, parent, held);
      TreeHasRoom(d0, t0, ns, root, parent, held);
      DirFacts(ns, root, parent);
      ShowsBut(d0, t0, ns.dirs, ns.kinds, parent, held);
      var existing;
      status, existing := FindEntry(storage, parent, name);
      if status == Ok {
        KeptOutsideNothing(d0, t0, {parent, 0});
        HeldUntouched(d0, t0, held);
        return InvalidArgument, 0;
      }
      status, id := NewFile(Symlink);
      if status != Ok {
        KeptOutsideNothing(d0, t0, {parent, id});
        HeldUntouched(d0, t0, held);
        return;
      }
      ghost var t1, v1 := storage.table, storage.Vol(TableRoots(storage.table));
      NewIsNotHeld(held, openFiles, ns, id);
      KeepsRoom(t0, parent, id, Symlink);
      status := FillLink(parent, id, target);
      ghost var d2, t2, v2 := storage.disk, storage.table, storage.Vol(TableRoots(storage.table));
      KeptByFilling(d0, d2, t0, t1, t2, id, {parent, id});
      if status != Ok {
        DropFile(id);
        KeptByRecord(d0, d2, t0, t2, storage.table, id, {parent, id});
        ShowsUndone(d2, t2, ns.dirs, ns.kinds, id, Symlink, held);
        FilesStay(d0, d2, t0, storage.table, ns0, ns.dirs, ns.kinds, parent, id, held);
        HeldApart(d0, d2, t0, storage.table, {parent, id}, held);
        ShowsBut(d2, storage.table, ns.dirs, ns.kinds, parent, held);
        return;
      }
      NameFitsBesides(v0, v1, v2, t0, t1, t2, id, parent, name, ClustersNeeded(|target| + 1));
      LinkedKinds(ns, parent, name, id, Symlink);
      status := EnterLink(parent, name, id, d0, t0);
      HeldApart(d0, storage.disk, t0, storage.table, {parent, id}, held);
      if status == Ok {
        FileMade(d0, storage.disk, t0, storage.table, ns0, ns.dirs, ns.kinds, parent, id, Symlink, target + [0], held);
      } else {
        FilesStay(d0, storage.disk, t0, storage.table, ns0, if status == NoSpace then ns.dirs - {parent} else ns.dirs,
                  ns.kinds, parent, id, held);
      }
    }

    // ----- Removing -----

    method IsInodeOpen(id: nat) returns (open: bool)
      ensures open <==> IsOpen(openFiles, id)
    {
      for i := 0 to |openFiles|
        invariant forall j :: 0 <= j < i ==> !(openFiles[j].isOpen && openFiles[j].inodeId == id)
      {
        if openFiles[i].isOpen && openFiles[i].inodeId == id {
          return true;
        }
      }
      return false;
    }

    /** Removes a file that is not open, and gives back exactly the clusters it owned. */
    method Remove(parent: nat, name: Name) returns (status: Status)
      requires Valid() && parent in ns.dirs
      modifies this`ns, storage`disk, storage`table, storage`dirty, storage.bitmap.buffer
      ensures Valid()
      ensures status == if name !in old(ns).dirs[parent] then OutOfBounds
                        else if IsOpen(openFiles, old(ns).dirs[parent][name]) || !IsFile(old(ns), old(ns).dirs[parent][name])
                        then InvalidArgument
                        else Ok
      ensures status == Ok ==>
                && Child(old(ns), parent, name, old(ns).dirs[parent][name])
                && ns == Unlink(old(ns), parent, name)
                && Truncated(old(storage.Vol(TableRoots(storage.table))), old(ns).dirs[parent][name],
                             old(storage.bitmap.Used()), storage.bitmap.Used())
      ensures status != Ok ==> ns == old(ns) && storage.bitmap.Used() == old(storage.bitmap.Used())
      ensures Files() == if status == Ok then old(Files()) - {old(ns).dirs[parent][name]} else old(Files())
      ensures KeptHeld(old(storage.disk), storage.disk, old(storage.table), storage.table, held)
      ensures status != Ok ==> storage.table == old(storage.table) && storage.disk == old(storage.disk)
      ensures status == Ok ==>
                KeptOutside(old(storage.disk), storage.disk, old(storage.table), storage.table,
                            {parent, old(ns).dirs[parent][name]})
    {
      hide Image, Sound, TableRoots, Shows, TreeOk, OthersKept, GoodDirectory, Dir, SameOwned, Flags, Truncated;
      hide OpenOk, Unlink, IsOpen, KeptOutside, EmptyInode, SuperFits, FilesOf, Content, KeptHeld;
      ghost var ns0 := ns;
      ghost var v := storage.Vol(TableRoots(storage.table));
      ShowsFacts(storage.disk, storage.table, ns.dirs, ns.kinds, parent, held);
      HeldUntouched(storage.disk, storage.table, held);
      var target;
      status, target := FindEntry(storage, parent, name);
      if status != Ok {
        return;
      }
      var open := IsInodeOpen(target);
      if open {
        return InvalidArgument;
      }
      NameFacts(ns, root, parent, name);
      ShowsFacts(storage.disk, storage.table, ns.dirs, ns.kinds, target, held);
      if storage.table[target].kind == Directory {
        return InvalidArgument;
      }
      status := TakeName(storage, parent, name, ns.dirs, ns.kinds, held);
      ghost var w := storage.Vol(TableRoots(storage.table));
      ghost var names := ns.dirs[parent] - {name};
      ghost var table := storage.table;
      ghost var d1 := storage.disk;
      Discard(target);
      KeptByTaking(old(storage.disk), d1, old(storage.table), table, storage.table, parent, target);
      TruncatedSame(v, w, target, v.used, storage.bitmap.Used());
      ShowsFreed(storage.disk, table, ns.dirs[parent := names], ns.kinds, target, held);
      UnlinkedShows(storage.disk, storage.table, ns, parent, name, target, names, held);
      UnlinkKeepsTree(ns, root, parent, name, target);
      StillOpenOk(ns, openFiles, parent, name);
      ns := Unlink(ns, parent, name);
      UnlinkedKinds(ns0, root, parent, name);
      FileGone(old(storage.disk), d1, old(storage.table), storage.table, ns0, ns.dirs, ns.kinds, parent, target, held);
      HeldApart(old(storage.disk), d1, old(storage.table), storage.table, {parent, target}, held);
      return Ok;
    }

    /**
     Removes an empty directory, or any closed file whose bytes parse to at most two entries. The inode is freed,
     its clusters stay marked used and belong to nobody from then on.
     */
    method RemoveDirectory(parent: nat, name: Name) returns (status: Status)
      requires Valid() && parent in ns.dirs
      modifies this`ns, storage`disk, storage`table, storage`dirty, storage.bitmap.buffer
      ensures Valid() && storage.bitmap.Used() == old(storage.bitmap.Used())
      ensures status ==
              if name !in old(ns).dirs[parent] then OutOfBounds
              else
                var t := old(ns).dirs[parent][name];
                if IsOpen(openFiles, t) || name == DOT || name == DOT_DOT then InvalidArgument
                else if (if t in old(ns).dirs then old(ns).dirs[t].Keys == {DOT, DOT_DOT} else old(FewEntries(t))) then Ok
                else InvalidArgument
      ensures status == Ok ==> Child(old(ns), parent, name, old(ns).dirs[parent][name]) && ns == Unlink(old(ns), parent, name)
      ensures status == Ok ==>
                Lost(old(storage.Vol(TableRoots(storage.table))), storage.Vol(TableRoots(storage.table)), old(ns).dirs[parent][name])
      ensures status != Ok ==> ns == old(ns)
      ensures Files() == if status == Ok then old(Files()) - {old(ns).dirs[parent][name]} else old(Files())
      ensures KeptHeld(old(storage.disk), storage.disk, old(storage.table), storage.table, held)
      ensures status != Ok ==> storage.table == old(storage.table) && storage.disk == old(storage.disk)
      ensures status == Ok ==>
                KeptOutside(old(storage.disk), storage.disk, old(storage.table), storage.table,
                            {parent, old(ns).dirs[parent][name]})
    {
      hide Image, Sound, TableRoots, Shows, TreeOk, OthersKept, GoodDirectory, Dir, SameOwned, Flags, OpenOk, Unlink;
      hide IsOpen, Dense, Listing;
      hide SuperFits, Lost, NoPointers, DirectoryIs, HasDots, EmptyInode, KeptOutside, FilesOf, Content, KeptHeld;
      ghost var ns0 := ns;
      ghost var v := storage.Vol(TableRoots(storage.table));
      ShowsFacts(storage.disk, storage.table, ns.dirs, ns.kinds, parent, held);
      HeldUntouched(storage.disk, storage.table, held);
      var target;
      status, target := FindEntry(storage, parent, name);
      if status != Ok {
        return;
      }
      NameFacts(ns, root, parent, name);
      ShowsFacts(storage.disk, storage.table, ns.dirs, ns.kinds, target, held);
      var open := IsInodeOpen(target);
      if open {
        return InvalidArgument;
      }
      StoredIsDense(storage.disk, storage.table[target]);
      var empty;
      status, empty := IsEmpty(storage, target);
      if !empty {
        return InvalidArgument;
      }
      status := TakeName(storage, parent, name, ns.dirs, ns.kinds, held);
      if status != Ok {
        return;
      }
      ghost var names := ns.dirs[parent] - {name};
      ghost var table, u := storage.table, storage.Vol(TableRoots(storage.table));
      ghost var d1 := storage.disk;
      DropFile(target);
      KeptByTaking(old(storage.disk), d1, old(storage.table), table, storage.table, parent, target);
      NewHasNoPointers(target, Regular);
      SameEntry(storage.table, target);
      DroppedIsLost(v, u, storage.Vol(TableRoots(storage.table)), table, storage.table, target);
      ShowsFreed(storage.disk, table, ns.dirs[parent := names], ns.kinds, target, held);
      UnlinkedShows(storage.disk, storage.table, ns, parent, name, target, names, held);
      UnlinkKeepsTree(ns, root, parent, name, target);
      StillOpenOk(ns, openFiles, parent, name);
      ns := Unlink(ns, parent, name);
      UnlinkedKinds(ns0, root, parent, name);
      FileGone(old(storage.disk), d1, old(storage.table), storage.table, ns0, ns.dirs, ns.kinds, parent, target, held);
      HeldApart(old(storage.disk), d1, old(storage.table), storage.table, {parent, target}, held);
      return Ok;
    }

    // ----- Opening and closing -----

    /** The directory the names lead to, from the root. */
    method Resolve(path: seq<Name>) returns (status: Status, id: nat)
      requires Valid()
      modifies storage`disk, storage.bitmap.buffer
      ensures Valid() && storage.disk == old(storage.disk) && storage.bitmap.Used() == old(storage.bitmap.Used())
      ensures match Way(ns, root, path) case Nowhere(why) => status == why != Ok case To(dir) => status == Ok && id == dir
      ensures status == Ok ==> id in ns.dirs
      ensures status != NoSpace
    {
      hide Image, Sound, TableRoots, Shows, TreeOk, GoodDirectory, Dir, Flags, OpenOk;
      RootFacts(ns, root);
      id := root;
      assert path[..0] == [];
      for i := 0 to |path|
        invariant Valid() && storage.disk == old(storage.disk) && storage.bitmap.Used() == old(storage.bitmap.Used())
        invariant id in ns.dirs && Way(ns, root, path[..i]) == To(id)
      {
        assert path[..i + 1][..i] == path[..i];
        ShowsFacts(storage.disk, storage.table, ns.dirs, ns.kinds, id, held);
        var next;
        status, next := FindEntry(storage, id, path[i]);
        if status != Ok {
          NoWay(ns, root, path, i + 1);
          return;
        }
        NameFacts(ns, root, id, path[i]);
        ShowsFacts(storage.disk, storage.table, ns.dirs, ns.kinds, next, held);
        if storage.table[next].kind != Directory {
          NoWay(ns, root, path, i + 1);
          return InvalidArgument, 0;
        }
        id := next;
      }
      assert path[..|path|] == path;
      return Ok, id;
    }

    method FindFreeDescriptor() returns (fd: int)
      ensures fd == -1 <==> AllOpen(openFiles)
      ensures fd != -1 ==> 0 <= fd < |openFiles| && fd == FirstClosed(openFiles)
    {
      for i := 0 to |openFiles|
        invariant forall j :: 0 <= j < i ==> openFiles[j].isOpen
      {
        if !openFiles[i].isOpen {
          IsFirstClosed(openFiles, i);
          return i;
        }
      }
      return -1;
    }

    /** Empties a file that is not a directory. */
    method Empty(id: nat)
      requires SystemOk() && Shows(storage.disk, storage.table, ns.dirs, ns.kinds, held) && id < |storage.table|
      requires id !in ns.dirs && id !in held
      modifies storage`table, storage`dirty, storage.bitmap.buffer
      ensures SystemOk() && Shows(storage.disk, storage.table, ns.dirs, ns.kinds, held)
      ensures Truncated(old(storage.Vol(TableRoots(storage.table))), id, old(storage.bitmap.Used()), storage.bitmap.Used())
      ensures |storage.table| == |old(storage.table)| && storage.table[id].size == 0
      ensures storage.table == old(storage.table)[id := storage.table[id]]
    {
      hide Image, Sound, TableRoots, Truncated, Flags, OthersSame, NoPointers, Shows, OthersKept;
      SameEntry(storage.table, id);
      var status, ino := storage.TruncateFile(storage.table[id]);
      EmptiedOthers(storage.disk, old(storage.table), storage.table, id);
      ShowsFacts(storage.disk, old(storage.table), ns.dirs, ns.kinds, id, held);
      EmptiedIsStored(storage.disk, old(storage.table)[id], ino);
      ShowsOthers(storage.disk, storage.disk, old(storage.table), storage.table, ns.dirs, ns.kinds, id, held);
      WithoutAbsent(ns.dirs, id);
    }

    /**
     Opens the regular file under a name for reading or writing, creating it when asked to and not there, and emptying
     it when asked to and it may be written. Without a free descriptor the call fails after all that.
     */
    method Open(parent: nat, name: Name, mayRead: bool, mayWrite: bool, create: bool, truncate: bool)
      returns (status: Status, fd: nat, id: nat)
      requires Valid() && parent in ns.dirs && IsCString(name)
      requires name in ns.dirs[parent] ==> ns.dirs[parent][name] !in held
      modifies this`ns, this`openFiles, storage`disk, storage`table, storage`dirty, storage.bitmap.buffer
      ensures SystemOk() && (status != NoSpace ==> Valid())
      ensures status ==
              if !mayRead && !mayWrite then InvalidArgument
              else if name in old(ns).dirs[parent] then
                (if !IsRegular(old(ns), old(ns).dirs[parent][name]) then InvalidArgument
                 else if AllOpen(old(openFiles)) then OutOfBounds else Ok)
              else if !create then OutOfBounds
              else if TableFull(old(storage.table)) then NoSpace
              else if !ValidName(name) then InvalidArgument
              else if !old(EntryFits(storage.Vol(TableRoots(storage.table)), storage.table, parent, name, 0)) then NoSpace
              else if AllOpen(old(openFiles)) then OutOfBounds else Ok
      ensures if (mayRead || mayWrite) && name in old(ns).dirs[parent] then
                && ns == old(ns) && id == ns.dirs[parent][name]
                && Files() == if mayWrite && truncate && IsRegular(ns, id) then old(Files())[id := []] else old(Files())
              else if (mayRead || mayWrite) && create && ValidName(name) && status != NoSpace then
                && id == NextId(old(ns)) && ns == LinkFile(old(ns), parent, name, id, Regular)
                && Files() == old(Files())[id := []]
              else ns == old(ns) && Files() == old(Files())
      ensures status == Ok ==> fd == FirstClosed(old(openFiles)) < |old(openFiles)| && IsRegular(ns, id) && id !in held
      ensures openFiles == if status == Ok then old(openFiles)[fd := Descriptor(true, id)] else old(openFiles)
      ensures KeptHeld(old(storage.disk), storage.disk, old(storage.table), storage.table, held)
      ensures status == NoSpace ==>
                && Shows(storage.disk, storage.table, ns.dirs - {parent}, ns.kinds, held)
                && (Valid() <==> TableFull(old(storage.table)) || SortsLast(ns.dirs[parent], name))
      ensures KeptOutside(old(storage.disk), storage.disk, old(storage.table), storage.table, {parent, id})
    {
      hide *;
      TableIsOk();
      fd, id := 0, 0;
      ghost var table := storage.table;
      KeptOutsideNothing(storage.disk, table, {parent, id});
      HeldUntouched(storage.disk, table, held);
      if !mayRead && !mayWrite {
        return InvalidArgument, 0, 0;
      }
      status, id := FindOrCreate(parent, name, create);
      if status != Ok {
        return;
      }
      ghost var d1, t1 := storage.disk, storage.table;
      status, fd := OpenInode(id, mayWrite && truncate);
      TableIsOk();
      SameEntry(t1, id);
      KeptByRecord(old(storage.disk), d1, table, t1, storage.table, id, {parent, id});
      StillKeptHeld(old(storage.disk), d1, table, t1, storage.table, id, held);
    }

    lemma TableIsOk()
      requires Valid()
      ensures SystemOk() && storage.Valid() && TableOk(storage.table)
    {
      hide Image, Sound, TableRoots, Shows, TreeOk, Flags, OpenOk, SuperFits, HeldOpen;
    }

    /** The inode under a name, that of a new file if none is there and it may be created. */
    method FindOrCreate(parent: nat, name: Name, create: bool) returns (status: Status, id: nat)
      requires Valid() && parent in ns.dirs && IsCString(name)
      modifies this`ns, storage`disk, storage`table, storage`dirty, storage.bitmap.buffer
      ensures SystemOk() && (status != NoSpace ==> Valid())
      ensures status ==
              if name in old(ns).dirs[parent] then Ok
              else if !create then OutOfBounds
              else if TableFull(old(storage.table)) then NoSpace
              else if !ValidName(name) then InvalidArgument
              else if old(EntryFits(storage.Vol(TableRoots(storage.table)), storage.table, parent, name, 0)) then Ok
              else NoSpace
      ensures if name in old(ns).dirs[parent] then ns == old(ns) && Files() == old(Files()) && id == ns.dirs[parent][name]
              else if status == Ok then
                && id == NextId(old(ns)) && ns == LinkFile(old(ns), parent, name, id, Regular) && IsRegular(ns, id)
                && Files() == old(Files())[id := []]
              else ns == old(ns) && Files() == old(Files())
      ensures status == Ok ==> id in ns.kinds && (IsRegular(ns, id) ==> id !in ns.dirs)
      ensures name !in old(ns).dirs[parent] && status == Ok ==> id !in held
      ensures KeptHeld(old(storage.disk), storage.disk, old(storage.table), storage.table, held)
      ensures status == NoSpace ==>
                && Shows(storage.disk, storage.table, ns.dirs - {parent}, ns.kinds, held)
                && (Valid() <==> TableFull(old(storage.table)) || SortsLast(ns.dirs[parent], name))
      ensures KeptOutside(old(storage.disk), storage.disk, old(storage.table), storage.table, {parent, id})
    {
      hide Image, Sound, TableRoots, Shows, TreeOk, GoodDirectory, Dir, Flags, OpenOk, LinkFile, ValidName, SuperFits;
      hide SortsLast, TableFull, KeptOutside, FilesOf, EntryFits, NewInode, KeptHeld;
      ShowsFacts(storage.disk, storage.table, ns.dirs, ns.kinds, parent, held);
      status, id := FindEntry(storage, parent, name);
      KeptOutsideNothing(storage.disk, storage.table, {parent, id});
      HeldUntouched(storage.disk, storage.table, held);
      if status == Ok {
        NameFacts(ns, root, parent, name);
      } else if create {
        status, id := CreateFile(parent, name);
        if status != Ok {
          return;
        }
        NewlyNamed(old(ns), parent, name, id, Regular);
        NewIsNotHeld(held, openFiles, old(ns), id);
      } else {
        return;
      }
      if ns.kinds[id] != Directory {
        FileIsNoDirectory(ns, root, id);
      }
    }

    /** Gives a file a descriptor. */
    method OpenInode(id: nat, truncate: bool) returns (status: Status, fd: nat)
      requires id in ns.kinds && (IsRegular(ns, id) ==> id !in ns.dirs) && id !in held
      requires Valid()
      modifies this`openFiles, storage`table, storage`dirty, storage.bitmap.buffer
      ensures status == if !IsRegular(ns, id) then InvalidArgument else if AllOpen(old(openFiles)) then OutOfBounds else Ok
      ensures status == Ok ==> fd == FirstClosed(old(openFiles)) < |old(openFiles)|
      ensures openFiles == if status == Ok then old(openFiles)[fd := Descriptor(true, id)] else old(openFiles)
      ensures |storage.table| == |old(storage.table)| && id < |storage.table|
      ensures !(truncate && IsRegular(ns, id)) ==>
                storage.table == old(storage.table) && storage.bitmap.Used() == old(storage.bitmap.Used())
      ensures truncate && IsRegular(ns, id) ==>
                && storage.table == old(storage.table)[id := storage.table[id]] && storage.table[id].size == 0
                && Truncated(old(storage.Vol(TableRoots(storage.table))), id, old(storage.bitmap.Used()), storage.bitmap.Used())
      ensures Valid() && Files() == if truncate && IsRegular(ns, id) then old(Files())[id := []] else old(Files())
    {
      hide Image, Sound, TableRoots, Shows, TreeOk, Flags, OpenOk, Truncated, FilesOf, AllOpen, FirstClosed;
      hide HeldOpen, SuperFits;
      fd := 0;
      ghost var table := storage.table;
      ShowsFacts(storage.disk, storage.table, ns.dirs, ns.kinds, id, held);
      if storage.table[id].kind != Regular {
        return InvalidArgument, 0;
      }
      if truncate {
        Empty(id);
        FileEmptied(storage.disk, table, storage.table, ns.dirs, ns.kinds, id, held);
      }
      status, fd := TakeDescriptor(id);
    }

    /** The first closed descriptor is the file's. */
    method TakeDescriptor(id: nat) returns (status: Status, fd: nat)
      requires Valid() && IsRegular(ns, id)
      modifies this`openFiles
      ensures Valid() && status == if AllOpen(old(openFiles)) then OutOfBounds else Ok
      ensures status == Ok ==> fd == FirstClosed(old(openFiles)) < |old(openFiles)|
      ensures openFiles == if status == Ok then old(openFiles)[fd := Descriptor(true, id)] else old(openFiles)
    {
      hide Image, Sound, TableRoots, Shows, TreeOk, Flags, OpenOk, AllOpen, FirstClosed, HeldOpen, SuperFits;
      var free := FindFreeDescriptor();
      if free == -1 {
        return OutOfBounds, 0;
      }
      OpenedOk(ns, openFiles, free, id);
      ClosedSlot(openFiles);
      HeldStaysOpen(held, openFiles, free, Descriptor(true, id));
      openFiles := openFiles[free := Descriptor(true, id)];
      return Ok, free;
    }

    method Close(fd: nat) returns (status: Status)
      requires Valid() && (fd < |openFiles| && openFiles[fd].isOpen ==> openFiles[fd].inodeId !in held)
      modifies this`openFiles
      ensures Valid()
      ensures fd < |old(openFiles)| && old(openFiles)[fd].isOpen ==>
                status == Ok && openFiles == old(openFiles)[fd := old(openFiles)[fd].(isOpen := false)]
      ensures !(fd < |old(openFiles)| && old(openFiles)[fd].isOpen) ==>
                status == InvalidArgument && openFiles == old(openFiles)
    {
      hide Image, Sound, TableRoots, Shows, TreeOk, OpenOk;
      if fd >= |openFiles| || !openFiles[fd].isOpen {
        return InvalidArgument;
      }
      ClosedOk(ns, openFiles, fd);
      HeldStaysOpen(held, openFiles, fd, openFiles[fd].(isOpen := false));
      openFiles := openFiles[fd := openFiles[fd].(isOpen := false)];
      return Ok;
    }

    // ----- Runs -----

    /** What the file system is to its callers. */
    ghost function State(): System
      reads this, storage, storage.bitmap.buffer
      requires storage.Valid()
    {
      System(ns, openFiles, Files())
    }

    /** What a call in directory d meets. */
    ghost function AskedIn(call: Call, d: nat): Answer
      requires Valid() && d in ns.dirs
      reads this, storage, storage.bitmap, storage.bitmap.buffer
    {
      var full, free, v := TableFull(storage.table), FreeClusters(storage.bitmap.Used()), storage.Vol(TableRoots(storage.table));
      match call
      case OpenFile(_, name, _, _, _, _) => Answer(full, EntryFits(v, storage.table, d, name, 0), false)
      case MakeDirectory(_, name) => Answer(full || free == 0, EntryFits(v, storage.table, d, name, 1), false)
      case MakeLink(_, name, target) =>
        var needed := ClustersNeeded(|target| + 1);
        Answer(full || free < needed, EntryFits(v, storage.table, d, name, needed), false)
      case RemoveFile(_, _) => Answer(false, false, false)
      case RemoveEmpty(_, name) => Answer(false, false, name in ns.dirs[d] && FewEntries(ns.dirs[d][name]))
      case CloseFile(_) => Answer(false, false, false)
    }

    ghost function Asked(call: Call): Answer
      requires Valid()
      reads this, storage, storage.bitmap, storage.bitmap.buffer
    {
      if call.CloseFile? then Answer(false, false, false)
      else
        var way := Way(ns, root, call.path);
        if way.To? && way.dir in ns.dirs then AskedIn(call, way.dir) else Answer(false, false, false)
    }

    /**
     What a caller can look up before a call: should the call find no space, it will have failed before the parent
     directory is written, or the name sorts behind all that are there.
     */
    ghost predicate Spared(call: Call)
      requires Valid()
      reads this, storage, storage.bitmap, storage.bitmap.buffer
    {
      match call
      case OpenFile(path, name, _, _, _, _) => Early(path, name, TableFull(storage.table))
      case MakeDirectory(path, name) =>
        Early(path, name, TableFull(storage.table) || FreeClusters(storage.bitmap.Used()) == 0)
      case MakeLink(path, name, target) =>
        Early(path, name, TableFull(storage.table) || FreeClusters(storage.bitmap.Used()) < ClustersNeeded(|target| + 1))
      case RemoveFile(_, _) => true
      case RemoveEmpty(_, _) => true
      case CloseFile(_) => true
    }

    ghost predicate Early(path: seq<Name>, name: Name, full: bool)
      reads this
    {
      var way := Way(ns, root, path);
      full || way.Nowhere? || (way.dir in ns.dirs && SortsLast(ns.dirs[way.dir], name))
    }

    method IsTableFull() returns (full: bool)
      ensures full == TableFull(storage.table)
    {
      for i := 0 to |storage.table|
        invariant forall j :: 0 <= j < i ==> storage.table[j].isUsed
      {
        if !storage.table[i].isUsed {
          return false;
        }
      }
      return true;
    }

    /** Whether a name sorts behind all names of the directory a path leads to. */
    method IsEarly(path: seq<Name>, name: Name, full: bool) returns (early: bool)
      requires Valid()
      modifies storage`disk, storage.bitmap.buffer
      ensures Valid() && storage.disk == old(storage.disk) && storage.bitmap.Used() == old(storage.bitmap.Used())
      ensures early == Early(path, name, full)
    {
      hide Image, Sound, TableRoots, Shows, TreeOk, Flags, OpenOk, Way, GoodDirectory, Dir, SuperFits, SortsLast;
      hide StrictlySorted, Names;
      hide Listing, Unique, EntriesOk;
      if full {
        return true;
      }
      var status, parent := Resolve(path);
      if status != Ok {
        return true;
      }
      ShowsFacts(storage.disk, storage.table, ns.dirs, ns.kinds, parent, held);
      var es := LoadDirectory(storage, parent);
      LastSortsLast(es, name);
      return es == [] || Compare(es[|es| - 1].name, name) < 0;
    }

    method IsSpared(call: Call) returns (spared: bool)
      requires Valid()
      modifies storage`disk, storage.bitmap.buffer
      ensures Valid() && storage.disk == old(storage.disk) && storage.bitmap.Used() == old(storage.bitmap.Used())
      ensures spared == Spared(call) && Asked(call) == old(Asked(call))
    {
      hide Image, Sound, TableRoots, Shows, TreeOk, Flags, OpenOk, Way, SuperFits, SortsLast, TableFull;
      hide ClustersNeeded, CountUsed, Early;
      var full := IsTableFull();
      var used := storage.bitmap.CountUsedClusters();
      var free := storage.bitmap.total - used;
      match call {
        case OpenFile(path, name, _, _, _, _) => spared := IsEarly(path, name, full);
        case MakeDirectory(path, name) => spared := IsEarly(path, name, full || free == 0);
        case MakeLink(path, name, target) => spared := IsEarly(path, name, full || free < ClustersNeeded(|target| + 1));
        case RemoveFile(_, _) => spared := true;
        case RemoveEmpty(_, _) => spared := true;
        case CloseFile(_) => spared := true;
      }
    }

    /** The directory a path leads to, once the last name is one that may be looked for. */
    method ResolveParent(path: seq<Name>, name: Name) returns (status: Status, parent: nat)
      requires Valid()
      modifies storage`disk, storage.bitmap.buffer
      ensures Valid() && storage.disk == old(storage.disk) && storage.bitmap.Used() == old(storage.bitmap.Used())
      ensures !IsComponent(name) ==> status == InvalidArgument
      ensures IsComponent(name) ==>
                match Way(ns, root, path) case Nowhere(why) => status == why != Ok case To(dir) => status == Ok && parent == dir
      ensures status == Ok ==> parent in ns.dirs
      ensures status != NoSpace
    {
      if name == [] || |name| > MAX_FILENAME_LENGTH {
        return InvalidArgument, 0;
      }
      status, parent := Resolve(path);
    }

    /** The call leaves alone what descriptors hold: it neither closes them nor opens their files again. */
    ghost predicate Aside(call: Call)
      reads this
    {
      match call
      case OpenFile(path, name, _, _, _, _) =>
        var way := Way(ns, root, path);
        way.To? && way.dir in ns.dirs && name in ns.dirs[way.dir] ==> ns.dirs[way.dir][name] !in held
      case CloseFile(fd) => fd < |openFiles| && openFiles[fd].isOpen ==> openFiles[fd].inodeId !in held
      case _ => true
    }

    /** The descriptor is open on a regular file that nothing is held of. */
    ghost predicate OpensAt(fd: nat)
      reads this
    {
      fd < |openFiles| && openFiles[fd].isOpen && IsRegular(ns, openFiles[fd].inodeId) && openFiles[fd].inodeId !in held
    }

    /** One call in the directory its path leads to. */
    method PerformIn(call: Call, parent: nat) returns (status: Status)
      requires Valid() && CallOk(call) && parent in ns.dirs && !call.CloseFile? && !Refused(call) && parent in ns.depth
      requires call.OpenFile? && call.name in ns.dirs[parent] ==> ns.dirs[parent][call.name] !in held
      modifies this`ns, this`openFiles, storage`disk, storage`table, storage`dirty, storage.bitmap.buffer
      ensures SystemOk() && (status != NoSpace ==> Valid())
      ensures status == old(OutcomeIn(State(), parent, call, AskedIn(call, parent)))
      ensures State() == old(AfterIn(State(), parent, call, AskedIn(call, parent)))
      ensures call.OpenFile? && status == Ok ==> OpensAt(FirstClosed(old(openFiles)))
      ensures KeptHeld(old(storage.disk), storage.disk, old(storage.table), storage.table, held)
      ensures status == NoSpace ==>
                (Valid() <==> old(AskedIn(call, parent)).early || SortsLast(old(ns).dirs[parent], call.name))
    {
      hide Image, Sound, TableRoots, Shows, TreeOk, Flags, OpenOk, Truncated, LinkFile, LinkDirectory, Leak, Unlink;
      hide Child, ValidName;
      hide SuperFits, SortsLast, TableFull, FreeClusters, ClustersNeeded, EntryFits, FilesOf, KeptOutside, Listing;
      hide GoodDirectory, Dir, KeptHeld;
      match call {
        case OpenFile(_, name, mayRead, mayWrite, create, truncate) =>
          var fd, id;
          status, fd, id := Open(parent, name, mayRead, mayWrite, create, truncate);
        case MakeDirectory(_, name) => var id; status, id := CreateDirectory(parent, name);
        case MakeLink(_, name, target) => var id; status, id := CreateSymlink(parent, name, target);
        case RemoveFile(_, name) => status := Remove(parent, name);
        case RemoveEmpty(_, name) => status := RemoveDirectory(parent, name);
        case CloseFile(_) => assert false;
      }
    }

    /** One call: what it reports and what it does are the step of the value the file system is to its callers. */
    method Perform(call: Call) returns (status: Status)
      requires Valid() && CallOk(call) && Aside(call)
      modifies this`ns, this`openFiles, storage`disk, storage`table, storage`dirty, storage.bitmap.buffer
      ensures SystemOk() && (status != NoSpace ==> Valid())
      ensures status == old(Outcome(State(), root, call, Asked(call)))
      ensures State() == old(After(State(), root, call, Asked(call)))
      ensures call.OpenFile? && status == Ok ==> OpensAt(FirstClosed(old(openFiles)))
      ensures KeptHeld(old(storage.disk), storage.disk, old(storage.table), storage.table, held)
      ensures status == NoSpace ==> (Valid() <==> old(Spared(call)))
    {
      hide Image, Sound, TableRoots, Shows, TreeOk, Flags, OpenOk, Way, SuperFits, SortsLast, TableFull;
      hide FreeClusters, ClustersNeeded;
      hide FilesOf, AfterIn, KeptHeld;
      HeldUntouched(storage.disk, storage.table, held);
      if call.CloseFile? {
        status := Close(call.fd);
        return;
      }
      if call.OpenFile? && !call.mayRead && !call.mayWrite {
        return InvalidArgument;
      }
      var parent;
      if call.OpenFile? && !call.create {
        status, parent := Resolve(call.path);
      } else {
        status, parent := ResolveParent(call.path, call.name);
      }
      if status != Ok {
        return;
      }
      DirFacts(ns, root, parent);
      status := PerformIn(call, parent);
    }

    /**
     Calls in a row, up to one that finds no space and damages the directory it was to enter a name into. Names,
     descriptors, contents and reports are those of the calls on a plain value, given what the calls met on the way;
     and unless there was damage the names form a tree and the disk shows them.
     */
    method Run(calls: seq<Call>) returns (done: nat, reports: seq<Status>, ghost met: seq<Answer>)
      requires Valid() && held == map[] && forall i :: 0 <= i < |calls| ==> CallOk(calls[i])
      modifies this`ns, this`openFiles, storage`disk, storage`table, storage`dirty, storage.bitmap.buffer
      ensures SystemOk() && done <= |calls|
      ensures done == |calls| <==> Valid()
      ensures |met| == if done == |calls| then done else done + 1
      ensures State() == AfterAll(old(State()), root, calls[..|met|], met)
      ensures reports == Outcomes(old(State()), root, calls[..|met|], met)
    {
      hide Image, Sound, TableRoots, Shows, TreeOk, OpenOk, Flags, SuperFits, Spared, Asked, After, Outcome, FilesOf;
      done, reports, met := 0, [], [];
      while done < |calls|
        invariant Valid() && SystemOk() && done <= |calls| && |met| == done
        invariant State() == AfterAll(old(State()), root, calls[..done], met)
        invariant reports == Outcomes(old(State()), root, calls[..done], met)
      {
        var spared := IsSpared(calls[done]);
        ghost var answer := Asked(calls[done]);
        OneCallMore(old(State()), root, calls[..done], met, calls[done], answer);
        assert calls[..done] + [calls[done]] == calls[..done + 1];
        var status := Perform(calls[done]);
        met := met + [answer];
        reports := reports + [status];
        if status == NoSpace && !spared {
          return;
        }
        done := done + 1;
      }
    }
  }
}
