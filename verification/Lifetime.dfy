/** The layers together: a disk is formatted, mounted, used in any way, unmounted and mounted again. */
module Lifetime {
  import opened Bitmap
  import opened Clusters
  import opened Ownership
  import opened Inodes
  import opened FileViews
  import opened AllocationSteps
  import opened Occupancy
  import opened FlatFile
  import opened CachePages
  import opened Entries
  import opened TableImage
  import opened Storage
  import opened OpenFiles
  import opened Directories
  import opened Namespace
  import opened Vfs
  import opened Format
  import opened Subtrees
  import opened RecursiveRemove
  import opened Defragment
  import opened Calls
  import opened Steps
  import opened Actions
  import opened Descriptors

  // ----- Sessions on files of the tree -----

  /** AllAllowed as the caller can check it, from the size and the position alone. */
  function SizesAllowed(size: nat, position: nat, mayRead: bool, mayWrite: bool, ops: seq<Op>): bool
    decreases |ops|
  {
    ops == [] ||
    match ops[0]
    case ReadOp(count) =>
      var n := if mayRead then ReadLength(size, position, count) else 0;
      SizesAllowed(size, position + n, mayRead, mayWrite, ops[1..])
    case WriteOp(data) =>
      if !mayWrite then SizesAllowed(size, position, mayRead, mayWrite, ops[1..])
      else
        && position <= size && position + |data| <= MAX_FILE_BYTES
        && SizesAllowed(GrownSize(size, position, |data|), position + |data|, mayRead, mayWrite, ops[1..])
    case SeekOp(offset, origin) =>
      var target := SeekTarget(size, position, offset, origin);
      SizesAllowed(size, if SeekStatus(size, position, offset, origin) == Ok then target else position, mayRead, mayWrite, ops[1..])
  }

  lemma {:induction false} SizesSuffice(p: Plain, mayRead: bool, mayWrite: bool, ops: seq<Op>)
    ensures SizesAllowed(|p.bytes|, p.position, mayRead, mayWrite, ops) <==> AllAllowed(p, mayRead, mayWrite, ops)
    decreases |ops|
  {
    hide Splice, ReadBytes;
    if ops != [] && (mayWrite ==> Allowed(p, ops[0])) {
      SizesSuffice(PlainStep(p, mayRead, mayWrite, ops[0]).0, mayRead, mayWrite, ops[1..]);
    }
  }

  lemma SessionShows(disk: seq<Cluster>, disk': seq<Cluster>, table: seq<Inode>, table': seq<Inode>, ns: Namespace,
                     root: nat, t: nat)
    requires Shows(disk, table, ns.dirs, ns.kinds, map[]) && TreeOk(ns, root) && t in ns.kinds && ns.kinds[t] != Directory
    requires TableOk(table') && OthersKept(disk, disk', table, table', t) && t < |table| && t < |table'|
    requires SameLabels(table[t], table'[t]) && WellStored(disk', table'[t])
    ensures Shows(disk', table', ns.dirs, ns.kinds, map[])
  {
    hide Shows, TreeOk, OthersKept, WellStored, SameLabels;
    FileIsNoDirectory(ns, root, t);
    ShowsFacts(disk, table, ns.dirs, ns.kinds, t, map[]);
    StoredAgain(disk, disk', table[t], table'[t]);
    ShowsOthers(disk, disk', table, table', ns.dirs, ns.kinds, t, map[]);
    WithoutAbsent(ns.dirs, t);
  }

  lemma StartedIs(disk: seq<Cluster>, table: seq<Inode>, kinds: map<nat, FileType>, t: nat, mode: Mode)
    requires TableOk(table) && t in kinds && kinds[t] != Directory && t < |table|
    ensures t in FilesOf(disk, table, kinds, map[])
    ensures Started(disk, table[t], mode.append, mode.truncate && mode.mayWrite) ==
            StartedOn(FilesOf(disk, table, kinds, map[])[t], mode)
  {
    hide Content;
  }

  lemma SessionFiles(disk: seq<Cluster>, disk': seq<Cluster>, table: seq<Inode>, table': seq<Inode>, ns: Namespace, t: nat)
    requires Shows(disk, table, ns.dirs, ns.kinds, map[]) && Shows(disk', table', ns.dirs, ns.kinds, map[]) && t in ns.kinds
    requires TableOk(table) && TableOk(table') && OthersKept(disk, disk', table, table', t) && t < |table'|
    requires ns.kinds[t] != Directory
    ensures FilesOf(disk', table', ns.kinds, map[]) == FilesOf(disk, table, ns.kinds, map[])[t := Content(disk', table'[t])]
  {
    hide Shows, OthersKept, Content;
    OthersOutside(disk, disk', table, table', t);
    FilesInUse(disk, table, ns.dirs, ns.kinds, map[]);
    FilesAre(disk, disk', table, table', ns.dirs, ns.dirs, ns.kinds, ns.kinds, {t},
             FilesOf(disk, table, ns.kinds, map[])[t := Content(disk', table'[t])], map[]);
  }

  /** A session on an inode in use. */
  method UseInode(fs: Vfs, t: nat, mode: Mode, ops: seq<Op>) returns (status: Status, replies: seq<Reply>)
    requires fs.Valid() && fs.held == map[] && IsRegular(fs.ns, t) && t in fs.Files() && (mode.mayRead || mode.mayWrite)
    requires AllAllowed(StartedOn(fs.Files()[t], mode), mode.mayRead, mode.mayWrite, ops)
    modifies fs.storage, fs.storage.bitmap.buffer
    ensures fs.SystemOk() && (status == Ok || status == NoSpace) && (status == Ok ==> fs.Valid())
    ensures status == Ok ==>
              var done := PlainRun(StartedOn(old(fs.Files())[t], mode), mode.mayRead, mode.mayWrite, ops);
              && fs.Files() == old(fs.Files())[t := done.0.bytes] && replies == done.1
              && OthersKept(old(fs.storage.disk), fs.storage.disk, old(fs.storage.table), fs.storage.table, t)
    ensures |fs.storage.table| == |old(fs.storage.table)|
    ensures status == NoSpace ==> AllUsed(fs.storage.Vol(map[])) && mode.mayWrite
  {
    hide Image, Sound, TableRoots, Shows, TreeOk, OthersKept, Flags, OpenOk, SuperFits, Stored, WellStored;
    hide Content, PlainRun, AllAllowed, AllUsed, Dense, SameLabels, FilesOf, Started, StartedOn;
    ghost var disk, table := fs.storage.disk, fs.storage.table;
    ShowsFacts(disk, table, fs.ns.dirs, fs.ns.kinds, t, map[]);
    StoredIsWell(disk, table[t]);
    StartedIs(disk, table, fs.ns.kinds, t, mode);
    var file := new OpenFile(fs.storage);
    status, replies := file.Session(t, mode.mayRead, mode.mayWrite, mode.append, mode.truncate, ops);
    KeptLength(disk, fs.storage.disk, table, fs.storage.table, t);
    if status == Ok {
      SessionShows(disk, fs.storage.disk, table, fs.storage.table, fs.ns, fs.root, t);
      SessionFiles(disk, fs.storage.disk, table, fs.storage.table, fs.ns, t);
    } else {
      status := NoSpace;
    }
  }

  /**
   Opens a regular file through a descriptor of its own, works on it and closes it. The replies and the contents are
   those of a plain byte sequence; names and all other files stay. Operations that would leave a hole are not begun.
   */
  method UseFile(fs: Vfs, parent: nat, name: Name, mode: Mode, ops: seq<Op>) returns (status: Status, replies: seq<Reply>)
    requires fs.Valid() && fs.held == map[] && parent in fs.ns.dirs
    modifies fs.storage, fs.storage.bitmap.buffer
    ensures fs.SystemOk() && (status != NoSpace ==> fs.Valid())
    ensures if name !in fs.ns.dirs[parent] then status == OutOfBounds
            else if !CanRun(old(fs.State()), parent, name, mode, ops) then status == InvalidArgument
            else status == Ok || (status == NoSpace && AllUsed(fs.storage.Vol(map[])) && mode.mayWrite)
    ensures status != NoSpace ==> fs.State() == SessionAfter(old(fs.State()), parent, name, mode, ops)
    ensures status != NoSpace ==>
              SessionReport(old(fs.State()), parent, name, mode, ops) == if status == Ok then Answered(replies) else Reported(status)
    ensures |fs.storage.table| == |old(fs.storage.table)|
    ensures status == Ok ==>
              OthersKept(old(fs.storage.disk), fs.storage.disk, old(fs.storage.table), fs.storage.table, fs.ns.dirs[parent][name])
  {
    hide Image, Sound, TableRoots, Shows, TreeOk, OthersKept, GoodDirectory, Dir, Flags, OpenOk, SuperFits, Stored;
    hide WellStored;
    hide Content, PlainRun, AllAllowed, AllUsed, Dense, SameLabels, SizesAllowed, FilesOf, Started, StartedOn;
    hide HasDots, Child;
    replies := [];
    ghost var disk, table := fs.storage.disk, fs.storage.table;
    ShowsFacts(disk, table, fs.ns.dirs, fs.ns.kinds, parent, map[]);
    var t;
    status, t := FindEntry(fs.storage, parent, name);
    if status != Ok {
      return status, [];
    }
    NameFacts(fs.ns, fs.root, parent, name);
    ShowsFacts(disk, table, fs.ns.dirs, fs.ns.kinds, t, map[]);
    var ino := fs.storage.table[t];
    var emptied := mode.truncate && mode.mayWrite;
    var size := if emptied then 0 else ino.size;
    StoredIsWell(disk, ino);
    StartedSizes(disk, ino, mode, ops);
    if ino.kind != Regular {
      return InvalidArgument, [];
    }
    StartedIs(disk, table, fs.ns.kinds, t, mode);
    if !(mode.mayRead || mode.mayWrite)
       || !SizesAllowed(size, if mode.append then size else 0, mode.mayRead, mode.mayWrite, ops) {
      return InvalidArgument, [];
    }
    status, replies := UseInode(fs, t, mode, ops);
  }

  lemma KeptLength(disk: seq<Cluster>, disk': seq<Cluster>, table: seq<Inode>, table': seq<Inode>, t: nat)
    requires TableOk(table) && TableOk(table') && OthersKept(disk, disk', table, table', t)
    ensures |table'| == |table|
  {
    hide SameFile;
  }

  lemma StoredIsWell(disk: seq<Cluster>, ino: Inode)
    requires Stored(disk, ino)
    ensures WellStored(disk, ino) && InodeOk(ino)
  {
  }

  lemma StartedSizes(disk: seq<Cluster>, ino: Inode, mode: Mode, ops: seq<Op>)
    requires InodeOk(ino)
    ensures var emptied := mode.truncate && mode.mayWrite;
            var size := if emptied then 0 else ino.size;
            SizesAllowed(size, if mode.append then size else 0, mode.mayRead, mode.mayWrite, ops) <==>
            AllAllowed(Started(disk, ino, mode.append, emptied), mode.mayRead, mode.mayWrite, ops)
  {
    hide SizesAllowed, AllAllowed, Content;
    SizesSuffice(Started(disk, ino, mode.append, mode.truncate && mode.mayWrite), mode.mayRead, mode.mayWrite, ops);
  }

  // ----- Lives of a file system -----

  /**
   Moves a file's clusters together, exactly when they are scattered and there is room for a second copy; names and
   contents stay, whether it is moved or not.
   */
  method DefragmentFile(fs: Vfs, id: nat) returns (ghost moved: bool)
    requires fs.Valid() && fs.held == map[]
    modifies fs.storage, fs.storage.bitmap.buffer
    ensures fs.Valid() && |fs.storage.table| == |old(fs.storage.table)| && fs.State() == old(fs.State())
    ensures moved <==> Scattered(old(fs.storage.Vol(TableRoots(fs.storage.table))), old(fs.storage.table), id)
                       && var n := old(fs.storage.table)[id].clusterCount;
                          n + PointerClusters(n) <= FreeClusters(old(fs.storage.bitmap.Used()))
    ensures moved ==>
              && id < |fs.storage.table| && InodeOk(fs.storage.table[id])
              && (forall l :: 0 < l < fs.storage.table[id].clusterCount ==>
                    Lookup(fs.storage.disk, fs.storage.table[id], l) == Lookup(fs.storage.disk, fs.storage.table[id], l - 1) + 1)
              && Occupies(fs.storage.Vol(TableRoots(fs.storage.table)), id, fs.storage.table[id].clusterCount)
    ensures !moved ==> fs.storage.table == old(fs.storage.table)
    ensures forall j :: 0 <= j < |fs.storage.table| ==>
              && InodeOk(old(fs.storage.table)[j]) && InodeOk(fs.storage.table[j])
              && Content(fs.storage.disk, fs.storage.table[j]) == Content(old(fs.storage.disk), old(fs.storage.table)[j])
  {
    hide Image, Sound, TableRoots, Shows, TreeOk, OpenOk, Flags, SuperFits, OthersKept, WellStored, Stored, Content;
    hide SameFile;
    hide Consecutive, Occupies, CountUsed, ClustersOf, PointerClusters, Lookup;
    ghost var disk, table := fs.storage.disk, fs.storage.table;
    ShowsFacts(disk, table, fs.ns.dirs, fs.ns.kinds, id, map[]);
    if id < |fs.storage.table| {
      StoredIsWell(disk, table[id]);
      WellStoredCount(disk, table[id]);
    }
    var defragmenter := new Defragmenter(fs.storage);
    moved := defragmenter.ProcessInode(id);
    if moved {
      RunInARow(fs.storage.disk, fs.storage.table[id]);
      SessionShows(disk, fs.storage.disk, table, fs.storage.table, fs.ns, fs.root, id);
    } else {
      KeptFiles(disk, fs.storage.disk, table, id);
      ShowsSameFiles(disk, fs.storage.disk, table, fs.ns.dirs, fs.ns.kinds);
    }
    KeptContents(disk, fs.storage.disk, table, fs.storage.table, fs.ns, id);
    SameContentsSameFiles(disk, fs.storage.disk, table, fs.storage.table, fs.ns.kinds);
  }

  lemma RunInARow(disk: seq<Cluster>, ino: Inode)
    requires InodeOk(ino) && forall l :: 0 <= l < ino.clusterCount ==> Lookup(disk, ino, l) == Lookup(disk, ino, 0) + l
    ensures forall l :: 0 < l < ino.clusterCount ==> Lookup(disk, ino, l) == Lookup(disk, ino, l - 1) + 1
  {
    hide Lookup;
    forall l | 0 < l < ino.clusterCount ensures Lookup(disk, ino, l) == Lookup(disk, ino, l - 1) + 1 {
      assert Lookup(disk, ino, l) == Lookup(disk, ino, 0) + l && Lookup(disk, ino, l - 1) == Lookup(disk, ino, 0) + (l - 1);
    }
  }

  lemma SameContentsSameFiles(disk: seq<Cluster>, disk': seq<Cluster>, table: seq<Inode>, table': seq<Inode>,
                              kinds: map<nat, FileType>)
    requires TableOk(table) && TableOk(table') && |table'| == |table|
    requires forall j :: 0 <= j < |table| ==> Content(disk', table'[j]) == Content(disk, table[j])
    ensures FilesOf(disk', table', kinds, map[]) == FilesOf(disk, table, kinds, map[])
  {
    hide Content;
  }

  lemma WellStoredCount(disk: seq<Cluster>, ino: Inode)
    requires WellStored(disk, ino)
    ensures ino.clusterCount <= MAX_FILE_CLUSTERS
  {
  }

  lemma KeptFiles(disk: seq<Cluster>, disk': seq<Cluster>, table: seq<Inode>, id: nat)
    requires TableOk(table) && OthersKept(disk, disk', table, table, id)
    requires id < |table| ==> SameFile(disk, disk', table[id], table[id])
    ensures forall j :: 0 <= j < |table| ==> SameFile(disk, disk', table[j], table[j])
  {
    hide SameFile;
  }

  lemma KeptContents(disk: seq<Cluster>, disk': seq<Cluster>, table: seq<Inode>, table': seq<Inode>, ns: Namespace, id: nat)
    requires Shows(disk, table, ns.dirs, ns.kinds, map[]) && TableOk(table) && TableOk(table')
    requires OthersKept(disk, disk', table, table', id)
    requires |table'| == |table|
    requires id < |table| ==> Content(disk', table'[id]) == Content(disk, table[id])
    ensures forall j :: 0 <= j < |table| ==> Content(disk', table'[j]) == Content(disk, table[j])
  {
    hide Shows, OthersKept, Content, Stored;
    forall j | 0 <= j < |table| ensures Content(disk', table'[j]) == Content(disk, table[j]) {
      ShowsFacts(disk, table, ns.dirs, ns.kinds, j, map[]);
      if j != id {
        KeptContent(disk, disk', table, table', id, j);
      }
    }
  }

  // ----- Removing a tree -----

  /** Whether every open descriptor still has an inode in use. */
  method DescriptorsInUse(fs: Vfs) returns (ok: bool)
    ensures ok <==> forall i :: 0 <= i < |fs.openFiles| && fs.openFiles[i].isOpen ==>
                      fs.openFiles[i].inodeId < |fs.storage.table| && fs.storage.table[fs.openFiles[i].inodeId].isUsed
  {
    for i := 0 to |fs.openFiles|
      invariant forall j :: 0 <= j < i && fs.openFiles[j].isOpen ==>
                  fs.openFiles[j].inodeId < |fs.storage.table| && fs.storage.table[fs.openFiles[j].inodeId].isUsed
    {
      if fs.openFiles[i].isOpen
         && !(fs.openFiles[i].inodeId < |fs.storage.table| && fs.storage.table[fs.openFiles[i].inodeId].isUsed) {
        return false;
      }
    }
    return true;
  }

  /** A descriptor that was open on a file in use still is on one in use exactly when its file was not removed. */
  lemma OpenIsInUse(disk: seq<Cluster>, table: seq<Inode>, ns: Namespace, open: seq<Descriptor>, r: set<nat>)
    requires Emptied(table, r) && Shows(disk, table, ns.dirs, ns.kinds, map[])
    requires forall i :: 0 <= i < |open| && open[i].isOpen && open[i].inodeId !in r ==> open[i].inodeId in ns.kinds
    ensures (forall i :: 0 <= i < |open| && open[i].isOpen ==> open[i].inodeId < |table| && table[open[i].inodeId].isUsed) <==>
            NoneOpen(open, r)
  {
    hide GoodDirectory, Dir, Stored;
  }

  lemma UnremovedFiles(disk: seq<Cluster>, disk': seq<Cluster>, table: seq<Inode>, table': seq<Inode>, ns: Namespace,
                       d: nat)
    requires d in ns.dirs && d in ns.kinds && ns.kinds[d] == Directory
    requires Shows(disk, table, ns.dirs, ns.kinds, map[]) && Shows(disk', table', ns.dirs, ns.kinds, map[])
    requires TableOk(table) && TableOk(table') && KeptOutside(disk, disk', table, table', {} + {d})
    ensures FilesOf(disk', table', ns.kinds, map[]) == FilesOf(disk, table, ns.kinds, map[])
  {
    hide Content, KeptOutside, Shows;
    FilesInUse(disk, table, ns.dirs, ns.kinds, map[]);
    FilesAre(disk, disk', table, table', ns.dirs, ns.dirs, ns.kinds, ns.kinds, {} + {d},
             FilesOf(disk, table, ns.kinds, map[]), map[]);
  }

  /** What is left of the files when a tree is removed. */
  lemma PrunedFiles(disk: seq<Cluster>, disk': seq<Cluster>, table: seq<Inode>, table': seq<Inode>, ns: Namespace,
                    d: nat, name: Name)
    requires d in ns.dirs && name in ns.dirs[d] && d in ns.kinds && ns.kinds[d] == Directory
    requires var ns' := Prune(ns, d, name);
             Shows(disk, table, ns.dirs, ns.kinds, map[]) && Shows(disk', table', ns'.dirs, ns'.kinds, map[])
    requires TableOk(table) && TableOk(table')
    requires KeptOutside(disk, disk', table, table', Subtree(ns, ns.dirs[d][name]) + {d})
    ensures FilesOf(disk', table', Prune(ns, d, name).kinds, map[]) ==
            FilesOf(disk, table, ns.kinds, map[]) - Subtree(ns, ns.dirs[d][name])
  {
    hide Content, KeptOutside, Shows, Subtree;
    var r, ns' := Subtree(ns, ns.dirs[d][name]), Prune(ns, d, name);
    FilesInUse(disk, table, ns.dirs, ns.kinds, map[]);
    FilesAre(disk, disk', table, table', ns.dirs, ns'.dirs, ns.kinds, ns'.kinds, r + {d},
             FilesOf(disk, table, ns.kinds, map[]) - r, map[]);
  }

  lemma OpenInKinds(ns: Namespace, open: seq<Descriptor>)
    requires OpenOk(ns, open)
    ensures forall i :: 0 <= i < |open| && open[i].isOpen ==> open[i].inodeId in ns.kinds
  {
  }

  lemma PrunedKinds(ns: Namespace, d: nat, name: Name)
    requires d in ns.dirs && name in ns.dirs[d]
    ensures Prune(ns, d, name).kinds == ns.kinds - Subtree(ns, ns.dirs[d][name])
  {
  }

  lemma UnderItself(ns: Namespace, t: nat)
    requires t in ns.kinds && t in ns.dirs
    ensures t in Subtree(ns, t)
  {
  }

  lemma OneLess(s: set<nat>, x: nat)
    requires x in s
    ensures |s| > 0 && |s - {x}| == |s| - 1
  {
  }

  lemma CountedContents(ns: Namespace, root: nat, t: nat)
    requires TreeOk(ns, root) && t in ns.dirs
    ensures |DirectoriesIn(ns, t)| > 0 && Contents(ns, t) == (|FilesIn(ns, t)|, |DirectoriesIn(ns, t)| - 1)
  {
    hide TreeOk, Subtree, FilesIn, Dots;
    DirFacts(ns, root, t);
    UnderItself(ns, t);
    OneLess(DirectoriesIn(ns, t), t);
  }

  /** Removes a directory with everything below it; intact when no descriptor was open below it. */
  method RemoveNamedTree(fs: Vfs, parent: nat, name: Name, confirmed: bool) returns (intact: bool, report: Report)
    requires fs.Valid() && fs.held == map[] && parent in fs.ns.dirs
    modifies fs`ns, fs.storage, fs.storage.bitmap.buffer
    ensures fs.SystemOk() && (intact <==> fs.Valid())
    ensures fs.State() == RemovalAfter(old(fs.State()), parent, name, confirmed)
    ensures report == RemovalReport(old(fs.ns), parent, name, confirmed)
    ensures intact <==> NamesTree(old(fs.ns), parent, name) && confirmed ==>
                          NoneOpen(fs.openFiles, Subtree(old(fs.ns), old(fs.ns).dirs[parent][name]))
  {
    hide Image, Sound, TableRoots, Shows, TreeOk, OpenOk, Flags, SuperFits, GoodDirectory, Dir, Child, Subtree;
    hide Prune, Reclaimed;
    hide KeptOutside, FilesIn, DirectoriesIn, NoneOpen, Emptied, FilesOf, Contents;
    ghost var ns, disk, table := fs.ns, fs.storage.disk, fs.storage.table;
    OpenInKinds(ns, fs.openFiles);
    ShowsFacts(fs.storage.disk, fs.storage.table, fs.ns.dirs, fs.ns.kinds, parent, map[]);
    var status, t := FindEntry(fs.storage, parent, name);
    if status != Ok {
      return true, Reported(status);
    }
    NameFacts(fs.ns, fs.root, parent, name);
    ShowsFacts(fs.storage.disk, fs.storage.table, fs.ns.dirs, fs.ns.kinds, t, map[]);
    if fs.storage.table[t].kind != Directory || name == DOT || name == DOT_DOT {
      return true, Reported(InvalidArgument);
    }
    ghost var r := if confirmed then Subtree(fs.ns, t) else {};
    CountedContents(ns, fs.root, t);
    DirFacts(ns, fs.root, parent);
    var counted, removed := RemoveTree(fs, parent, name, t, confirmed);
    if confirmed {
      PrunedFiles(disk, fs.storage.disk, table, fs.storage.table, ns, parent, name);
    } else {
      UnremovedFiles(disk, fs.storage.disk, table, fs.storage.table, ns, parent);
    }
    intact := DescriptorsInUse(fs);
    PrunedKinds(ns, parent, name);
    OpenIsInUse(fs.storage.disk, fs.storage.table, fs.ns, fs.openFiles, r);
    return intact, Counted(counted, removed);
  }

  /**
   One step: unless it did damage, the system is the value that the step makes of the one it was. For want of space it
   may leave a damaged directory or a file cut short; removing a tree may leave a descriptor without its file.
   */
  method Take(fs: Vfs, step: Step) returns (intact: bool, report: Report, ghost a: Answer)
    requires fs.Valid() && fs.held == map[] && StepOk(step)
    modifies fs`ns, fs`openFiles, fs.storage, fs.storage.bitmap.buffer
    ensures fs.SystemOk() && (intact ==> fs.Valid())
    ensures step.DoCall? ==> a == old(fs.Asked(step.call))
    ensures !intact ==> if step.DoSession? then AllUsed(fs.storage.Vol(map[])) && step.mode.mayWrite else !fs.Valid()
    ensures intact ==>
              && fs.State() == StepAfter(old(fs.State()), fs.root, step, a)
              && report == StepReport(old(fs.State()), fs.root, step, a)
  {
    hide Image, Sound, TableRoots, Shows, TreeOk, OpenOk, Flags, SuperFits, Way, After, Outcome, FilesOf, Vfs.Asked;
    hide Vfs.Spared;
    hide SessionAfter, SessionReport, RemovalAfter, RemovalReport;
    a := Answer(false, false, false);
    match step {
      case DoCall(call) =>
        var spared := fs.IsSpared(call);
        a := fs.Asked(call);
        var status := fs.Perform(call);
        return status != NoSpace || spared, Reported(status), a;
      case DoSession(path, name, mode, ops) =>
        var status, parent := fs.Resolve(path);
        if status != Ok {
          return true, Reported(status), a;
        }
        var replies;
        status, replies := UseFile(fs, parent, name, mode, ops);
        return status != NoSpace, if status == Ok then Answered(replies) else Reported(status), a;
      case DoRemoveTree(path, name, confirmed) =>
        var status, parent := fs.Resolve(path);
        if status != Ok {
          return true, Reported(status), a;
        }
        intact, report := RemoveNamedTree(fs, parent, name, confirmed);
      case DoDefragment(id) =>
        ghost var moved := DefragmentFile(fs, id);
        return true, Defragmented, a;
    }
  }

  /**
   Steps in a row, up to the first that does damage: names, descriptors, contents and reports are those of the steps
   on a plain value, given what the calls met on the way.
   */
  method Live(fs: Vfs, steps: seq<Step>) returns (done: nat, reports: seq<Report>, ghost met: seq<Answer>)
    requires fs.Valid() && fs.held == map[] && forall i :: 0 <= i < |steps| ==> StepOk(steps[i])
    modifies fs`ns, fs`openFiles, fs.storage, fs.storage.bitmap.buffer
    ensures fs.SystemOk() && done <= |steps| && |met| == done
    ensures reports == LifeReports(old(fs.State()), fs.root, steps[..done], met)
    ensures done == |steps| ==> fs.Valid() && fs.State() == LifeAfter(old(fs.State()), fs.root, steps, met)
    ensures done < |steps| ==>
              if steps[done].DoSession? then AllUsed(fs.storage.Vol(map[])) && steps[done].mode.mayWrite else !fs.Valid()
  {
    hide Image, Sound, TableRoots, Shows, TreeOk, OpenOk, Flags, SuperFits, StepAfter, StepReport, FilesOf;
    done, reports, met := 0, [], [];
    while done < |steps|
      invariant fs.Valid() && fs.SystemOk() && done <= |steps| && |met| == done
      invariant fs.State() == LifeAfter(old(fs.State()), fs.root, steps[..done], met)
      invariant reports == LifeReports(old(fs.State()), fs.root, steps[..done], met)
    {
      var intact, report, answer := Take(fs, steps[done]);
      if !intact {
        return;
      }
      OneStepMore(old(fs.State()), fs.root, steps[..done], met, steps[done], answer);
      assert steps[..done] + [steps[done]] == steps[..done + 1];
      met := met + [answer];
      reports := reports + [report];
      done := done + 1;
    }
    assert steps[..done] == steps;
  }

  /** The two systems have the same names, the same inodes, the same clusters in use and the same contents. */
  ghost predicate SameState(disk: seq<Cluster>, disk': seq<Cluster>, used: seq<bool>, used': seq<bool>,
                             table: seq<Inode>, table': seq<Inode>, ns: Namespace, ns': Namespace)
  {
    && used' == used && table' == table && ns' == ns
    && forall j :: 0 <= j < |table| ==> InodeOk(table[j]) && Content(disk', table[j]) == Content(disk, table[j])
  }

  lemma ShowsSameFiles(disk: seq<Cluster>, disk': seq<Cluster>, table: seq<Inode>, dirs: map<nat, map<Name, nat>>,
                       kinds: map<nat, FileType>)
    requires Shows(disk, table, dirs, kinds, map[])
    requires TableOk(table) && forall j :: 0 <= j < |table| ==> SameFile(disk, disk', table[j], table[j])
    ensures Shows(disk', table, dirs, kinds, map[])
    ensures forall j :: 0 <= j < |table| ==> Content(disk', table[j]) == Content(disk, table[j])
  {
    hide SameFile, Dir, GoodDirectory, Stored, Content;
    forall j: nat | j < |table| ensures Stored(disk', table[j]) && Content(disk', table[j]) == Content(disk, table[j]) {
      StoredKept(disk, disk', table[j]);
      StoredIsWell(disk, table[j]);
      SameContent(disk, disk', table[j], table[j]);
    }
    forall d: nat | d in dirs ensures GoodDirectory(disk', table[d]) && Dir(disk', table[d]) == dirs[d] {
      DirectoryKept(disk, disk', table[d]);
    }
  }

  /** Unmounting a file system without open files and mounting it again changes nothing. */
  method RemountSystem(fs: Vfs, descriptors: nat) returns (status: Status, fs': Vfs)
    requires fs.Valid() && fs.held == map[]
    modifies fs.storage`disk, fs.storage`dirty
    ensures status == Ok && fresh(fs') && fs'.root == fs.root
    ensures fs'.openFiles == seq(descriptors, _ => Descriptor(false, 0))
    ensures fs'.storage.bitmap.Valid() && fs.storage.bitmap.Valid()
    ensures SameState(old(fs.storage.disk), fs'.storage.disk, old(fs.storage.bitmap.Used()), fs'.storage.bitmap.Used(),
                       old(fs.storage.table), fs'.storage.table, old(fs.ns), fs'.ns)
    ensures fs'.Valid() && fs'.Files() == old(fs.Files())
  {
    hide Image, Sound, TableRoots, Shows, TreeOk, OpenOk, Flags, SuperFits, InodeFits, SameFile, Content;
    ghost var disk, table := fs.storage.disk, fs.storage.table;
    ShownFits(fs.storage.Vol(TableRoots(table)), table, fs.ns.dirs, fs.ns.kinds);
    TotalOf(fs.storage.super, |fs.storage.disk|);
    var s;
    status, s := Remount(fs.storage);
    ShowsSameFiles(disk, s.disk, table, fs.ns.dirs, fs.ns.kinds);
    fs' := new Vfs(s, s.super.rootInodeId, descriptors, fs.ns);
    NothingOpen(fs.ns, descriptors);
    SameContentsSameFiles(disk, s.disk, table, s.table, fs.ns.kinds);
  }

  lemma TotalOf(super: Superblock, total: nat)
    requires SuperFits(super, total)
    ensures super.totalClusters == total
  {
  }

  lemma NothingOpen(ns: Namespace, descriptors: nat)
    ensures OpenOk(ns, seq(descriptors, _ => Descriptor(false, 0)))
  {
  }

  /** A new file system: the root alone, nothing open. */
  ghost function Fresh(descriptors: nat): System {
    System(FirstNamespace(), seq(descriptors, _ => Descriptor(false, 0)), FirstFiles())
  }

  /** Unmounting closes everything; names and contents stay. */
  ghost function Remounted(sys: System, descriptors: nat): System {
    sys.(open := seq(descriptors, _ => Descriptor(false, 0)))
  }

  /**
   From formatting on: after any steps that did no damage, and unmounting and mounting again, the file system shows
   just the names and contents that the steps make of an empty value, and the steps reported what they report there.
   The bitmap and the inode table come back as they were.
   */
  method Lifetime(disk: seq<Cluster>, total: nat, descriptors: nat, steps: seq<Step>)
    returns (done: nat, reports: seq<Report>, fs: Vfs, fs': Vfs?, ghost met: seq<Answer>)
    requires |disk| == total && 24 <= total <= 32768 && WholeClusters(disk)
    requires forall i :: 0 <= i < |steps| ==> StepOk(steps[i])
    ensures done <= |steps| && |met| == done && (done == |steps| <==> fs' != null)
    ensures reports == LifeReports(Fresh(descriptors), ROOT_INODE, steps[..done], met)
    ensures done < |steps| ==>
              && fs.SystemOk()
              && if steps[done].DoSession? then AllUsed(fs.storage.Vol(map[])) && steps[done].mode.mayWrite else !fs.Valid()
    ensures fs' != null ==>
              && fs'.Valid() && fs'.root == ROOT_INODE
              && fs'.State() == Remounted(LifeAfter(Fresh(descriptors), ROOT_INODE, steps, met), descriptors)
              && fs'.storage.table == fs.storage.table
              && fs.storage.bitmap.Valid() && fs'.storage.bitmap.Used() == fs.storage.bitmap.Used()
  {
    hide Image, Sound, TableRoots, Shows, TreeOk, OpenOk, Flags, SuperFits, SameFile, Content, FilesOf, LifeAfter;
    hide LifeReports;
    hide FirstNamespace, FirstFiles;
    fs := FormatAndMount(disk, total, descriptors);
    done, reports, met := Live(fs, steps);
    fs' := null;
    if done == |steps| {
      var status;
      status, fs' := RemountSystem(fs, descriptors);
    }
  }

  /**
   From formatting on, with files open: names are made and removed between reads and writes of any descriptors, and
   all that is reported and shown is what the actions make of an empty value.
   */
  method FirstUse(disk: seq<Cluster>, total: nat, descriptors: nat, actions: seq<Action>)
    returns (end: End, done: nat, said: seq<Said>, system: FileSystem, ghost met: seq<Answer>)
    requires |disk| == total && 24 <= total <= 32768 && WholeClusters(disk)
    requires forall i :: 0 <= i < |actions| ==> ActionOk(actions[i])
    ensures done <= |actions| && |met| == done && system.fs.storage.Valid()
    ensures said == RunSaid(FreshMachine(descriptors), ROOT_INODE, actions[..done], met)
    ensures end == NotToBeDone ==> done < |actions| && !CanDo(system.State(), system.fs.root, actions[done])
    ensures end == NoRoom ==>
              done < |actions| && if actions[done].Work? then system.Stuck(actions[done].fd) else !system.fs.Valid()
    ensures end == AllDone ==>
              && done == |actions| && system.Valid()
              && system.State() == RunAfter(FreshMachine(descriptors), ROOT_INODE, actions, met)
  {
    hide Image, Sound, TableRoots, Shows, TreeOk, OpenOk, Flags, SuperFits, FilesOf, RunAfter, RunSaid;
    hide FirstNamespace, FirstFiles;
    hide HeldOpen, FileSystem.Valid;
    var fs := FormatAndMount(disk, total, descriptors);
    system := new FileSystem(fs);
    end, done, said, met := system.Run(actions);
    if end == AllDone {
      assert actions[..done] == actions;
    }
  }

  ghost function FreshMachine(descriptors: nat): Machine {
    Machine(Fresh(descriptors), seq(descriptors, _ => Closed))
  }
}
