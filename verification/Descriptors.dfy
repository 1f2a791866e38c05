/** Open files with pages not yet written back, while names are made and removed around them. */
module Descriptors {
  import opened Basics
  import opened Bitmap
  import opened Clusters
  import opened Ownership
  import opened Inodes
  import opened FileViews
  import opened AllocationSteps
  import opened FlatFile
  import opened CachePages
  import opened Entries
  import opened TableImage
  import opened Storage
  import opened OpenFiles
  import opened Namespace
  import opened Directories
  import opened Calls
  import opened Vfs
  import opened Steps
  import opened Actions
  import opened Interleaving

  // ----- What the disk shows while files are held -----

  /** More bytes of a held file: all that is shown stays. */
  lemma HeldWorked(disk: seq<Cluster>, disk': seq<Cluster>, table: seq<Inode>, table': seq<Inode>, ns: Namespace, root: nat,
                   held: map<nat, seq<byte>>, id: nat, bytes: seq<byte>)
    requires Shows(disk, table, ns.dirs, ns.kinds, held) && TreeOk(ns, root) && IsRegular(ns, id) && id in held
    requires TableOk(table') && OthersKept(disk, disk', table, table', id) && id < |table|
    requires SameLabels(table[id], table'[id])
    ensures Shows(disk', table', ns.dirs, ns.kinds, held[id := bytes])
    ensures TableOk(table) && FilesOf(disk', table', ns.kinds, held[id := bytes]) == FilesOf(disk, table, ns.kinds, held)[id := bytes]
  {
    hide TreeOk, GoodDirectory, Dir, Stored, Content;
    FileIsNoDirectory(ns, root, id);
    ShowsOthers(disk, disk', table, table', ns.dirs, ns.kinds, id, held);
    WithoutAbsent(ns.dirs, id);
    OtherFiles(disk, disk', table, table', ns, held, held[id := bytes], id);
  }

  /** A file just opened is held from now on: as it is stored. */
  lemma HeldNow(disk: seq<Cluster>, table: seq<Inode>, ns: Namespace, root: nat, held: map<nat, seq<byte>>, id: nat)
    requires Shows(disk, table, ns.dirs, ns.kinds, held) && TreeOk(ns, root) && IsRegular(ns, id) && id !in held
    ensures TableOk(table) && id < |table| && WellStored(disk, table[id]) && table[id].linkCount <= 1
    ensures Shows(disk, table, ns.dirs, ns.kinds, held[id := Content(disk, table[id])])
    ensures FilesOf(disk, table, ns.kinds, held[id := Content(disk, table[id])]) == FilesOf(disk, table, ns.kinds, held)
    ensures id in FilesOf(disk, table, ns.kinds, held)
    ensures FilesOf(disk, table, ns.kinds, held)[id] == Content(disk, table[id])
  {
    hide TreeOk, GoodDirectory, Dir, Content;
    FileIsNoDirectory(ns, root, id);
    ShowsFacts(disk, table, ns.dirs, ns.kinds, id, held);
  }

  /** A file whose bytes are all stored need not be held. */
  lemma HeldNoMore(disk: seq<Cluster>, disk': seq<Cluster>, table: seq<Inode>, table': seq<Inode>, ns: Namespace, root: nat,
                   held: map<nat, seq<byte>>, id: nat)
    requires Shows(disk, table, ns.dirs, ns.kinds, held) && TreeOk(ns, root) && IsRegular(ns, id) && id in held
    requires TableOk(table') && OthersKept(disk, disk', table, table', id) && id < |table|
    requires SameLabels(table[id], table'[id])
    requires id < |table'| && WellStored(disk', table'[id]) && table'[id].linkCount <= 1
    requires Content(disk', table'[id]) == held[id]
    ensures Shows(disk', table', ns.dirs, ns.kinds, held - {id})
    ensures TableOk(table) && FilesOf(disk', table', ns.kinds, held - {id}) == FilesOf(disk, table, ns.kinds, held)
  {
    hide TreeOk, GoodDirectory, Dir, Content;
    FileIsNoDirectory(ns, root, id);
    ShowsOthers(disk, disk', table, table', ns.dirs, ns.kinds, id, held);
    WithoutAbsent(ns.dirs, id);
    OtherFiles(disk, disk', table, table', ns, held, held - {id}, id);
  }

  lemma HeldInFiles(disk: seq<Cluster>, table: seq<Inode>, ns: Namespace, open: seq<Descriptor>, held: map<nat,
                    seq<byte>>, id: nat)
    requires Shows(disk, table, ns.dirs, ns.kinds, held) && HeldOpen(held, open) && OpenOk(ns, open) && id in held
    ensures TableOk(table) && id in FilesOf(disk, table, ns.kinds, held)
    ensures FilesOf(disk, table, ns.kinds, held)[id] == held[id]
  {
    hide Shows, HeldOpen, OpenOk, Content;
    HeldInUse(held, open, ns, id);
    FilesInUse(disk, table, ns.dirs, ns.kinds, held);
  }

  lemma OtherFiles(disk: seq<Cluster>, disk': seq<Cluster>, table: seq<Inode>, table': seq<Inode>, ns: Namespace,
                   held: map<nat, seq<byte>>, held': map<nat, seq<byte>>, id: nat)
    requires Shows(disk, table, ns.dirs, ns.kinds, held) && TableOk(table) && TableOk(table')
    requires OthersKept(disk, disk', table, table', id)
    requires id in ns.kinds && ns.kinds[id] != Directory && id < |table| == |table'|
    requires forall j :: j != id ==> (j in held' <==> j in held) && (j in held ==> held'[j] == held[j])
    ensures FilesOf(disk', table', ns.kinds, held') ==
            FilesOf(disk, table, ns.kinds, held)[id := if id in held' then held'[id] else Content(disk', table'[id])]
  {
    hide Shows, Content;
    var before, after := FilesOf(disk, table, ns.kinds, held), FilesOf(disk', table', ns.kinds, held');
    OthersOutside(disk, disk', table, table', id);
    forall j | j in after && j != id ensures j in before && after[j] == before[j] {
      if j !in held {
        ShowsFacts(disk, table, ns.dirs, ns.kinds, j, held);
        KeptOutsideContent(disk, disk', table, table', {id}, j);
      }
    }
    forall j | j in before ensures j in after {
    }
  }

  // ----- The system with its descriptors -----

  lemma StillOpenFile(disk: seq<Cluster>, disk': seq<Cluster>, used: seq<bool>, used': seq<bool>,
                      table: seq<Inode>, table': seq<Inode>, reserved: nat, held: map<nat, seq<byte>>, id: nat,
                      bytes: seq<byte>, slots: seq<CacheSlot>, found: Inode)
    requires Holds(disk, used, table, reserved, id, bytes, slots)
    requires Keeps(disk, used, table, reserved, id, bytes, found, false)
    requires TableOk(table') && Sound(Volume(disk', used', TableRoots(table'), reserved))
    requires KeptHeld(disk, disk', table, table', held) && id in held
    ensures Holds(disk', used', table', reserved, id, bytes, slots)
    ensures Keeps(disk', used', table', reserved, id, bytes, found, false)
  {
    hide Sound, TableRoots, Coherent, SameFile, SameLabels;
    HoldsStill(disk, disk', used, used', table, table', reserved, id, bytes, slots);
  }

  /** The state of an open file that does not depend on the disk, and what disk and cache held for it then. */
  ghost predicate HeldThen(f: OpenFile, disk: seq<Cluster>, used: seq<bool>, table: seq<Inode>)
    reads f, f.slots
  {
    && f.slots.Length == CACHE_CLUSTER_COUNT && f.validCount <= CACHE_CLUSTER_COUNT
    && f.slots as object != f.storage.bitmap.buffer as object && f.cachedSize == |f.bytes|
    && Holds(disk, used, table, f.storage.reserved, f.inodeId, f.bytes, f.slots[..f.validCount])
    && Recent(f.touches, f.counter, f.slots[..f.validCount])
    && Keeps(disk, used, table, f.storage.reserved, f.inodeId, f.bytes, f.found, f.tidy)
  }

  lemma FileFacts(f: OpenFile)
    requires f.Valid()
    ensures var s := f.storage;
            && s.Valid() && (f.DiskFull() ==> AllUsed(s.Vol(map[]))) && TableOk(s.table)
            && f.inodeId < |s.table| && s.table[f.inodeId].size == |f.bytes| <= MAX_FILE_BYTES
            && Sound(s.Vol(TableRoots(s.table))) && SameLabels(f.found, s.table[f.inodeId])
  {
    hide Image, Sound, TableRoots, Recent, Keeps, Holds;
    HoldsFacts(f.storage.disk, f.storage.bitmap.Used(), f.storage.table, f.storage.reserved, f.inodeId, f.bytes,
               f.slots[..f.validCount]);
    KeepsFacts(f.storage.disk, f.storage.bitmap.Used(), f.storage.table, f.storage.reserved, f.inodeId, f.bytes,
               f.found, f.tidy);
  }

  lemma SameLabelsTwice(a: Inode, b: Inode, c: Inode)
    requires SameLabels(a, b) && SameLabels(a, c)
    ensures SameLabels(b, c)
  {
  }

  lemma SameLinks(a: Inode, b: Inode)
    requires SameLabels(a, b)
    ensures b.linkCount == a.linkCount
  {
  }

  lemma OthersAreKept(disk: seq<Cluster>, disk': seq<Cluster>, table: seq<Inode>, table': seq<Inode>, id: nat,
                      held: map<nat, seq<byte>>)
    requires TableOk(table) && TableOk(table') && OthersKept(disk, disk', table, table', id)
    ensures |table'| == |table| && KeptHeld(disk, disk', table, table', held - {id})
  {
    hide SameFile;
  }

  lemma HeldSame(held: map<nat, seq<byte>>, held': map<nat, seq<byte>>, open: seq<Descriptor>)
    requires HeldOpen(held, open) && held'.Keys <= held.Keys
    ensures HeldOpen(held', open)
  {
    hide IsOpen;
  }

  /** An open file behind its descriptor, as it was with that disk. */
  ghost predicate OpenThen(f: OpenFile, s: Storage, d: Descriptor, h: Handle, held: map<nat, seq<byte>>,
                           disk: seq<Cluster>, used: seq<bool>, table: seq<Inode>)
    reads f, f.slots
  {
    && HeldThen(f, disk, used, table)
    && f.storage == s && f.isOpen && !f.tidy && f.found.linkCount <= 1
    && d == Descriptor(true, f.inodeId) && f.inodeId in held && held[f.inodeId] == f.bytes
    && h == Handle(f.allowRead, f.allowWrite, f.position)
  }

  /** What is done elsewhere leaves an open file what it is. */
  lemma StillOk(f: OpenFile, disk: seq<Cluster>, used: seq<bool>, table: seq<Inode>, kept: map<nat, seq<byte>>)
    requires HeldThen(f, disk, used, table) && !f.tidy && f.inodeId in kept
    requires f.storage.Valid() && Sound(f.storage.Vol(TableRoots(f.storage.table)))
    requires KeptHeld(disk, f.storage.disk, table, f.storage.table, kept)
    ensures f.Valid()
  {
    hide Image, Sound, TableRoots, Recent, Keeps, Holds, KeptHeld, Flags;
    StillOpenFile(disk, f.storage.disk, used, f.storage.bitmap.Used(), table, f.storage.table, f.storage.reserved, kept,
                  f.inodeId, f.bytes, f.slots[..f.validCount], f.found);
  }

  /** All files but that of fd are as they were with that disk. */
  ghost predicate AllThen(files: seq<OpenFile?>, s: Storage, open: seq<Descriptor>, handles: seq<Handle>, fd: int,
                          held: map<nat, seq<byte>>, disk: seq<Cluster>, used: seq<bool>, table: seq<Inode>)
    requires |files| == |open| == |handles|
    reads set i | 0 <= i < |files| && i != fd && files[i] != null :: files[i]
    reads set i | 0 <= i < |files| && i != fd && files[i] != null :: files[i].slots
  {
    forall i :: 0 <= i < |files| && i != fd ==>
      if files[i] == null then !open[i].isOpen && handles[i] == Closed
      else OpenThen(files[i], s, open[i], handles[i], held, disk, used, table)
  }

  /** How a run of actions ended. */
  datatype End = AllDone | NotToBeDone | NoRoom

  predicate IsAllowed(size: nat, position: nat, op: Op) {
    op.WriteOp? ==> position <= size && position + |op.data| <= MAX_FILE_BYTES
  }

  /** The operation takes the plain sequence p to q, with that reply. */
  ghost predicate StepIs(p: Plain, mayRead: bool, mayWrite: bool, op: Op, q: Plain, reply: Reply) {
    (mayWrite ==> Allowed(p, op)) && (q, reply) == PlainStep(p, mayRead, mayWrite, op)
  }

  class FileSystem {
    const fs: Vfs
    /** The open file behind each descriptor. */
    var files: seq<OpenFile?>
    ghost var handles: seq<Handle>

    /** The objects of the open files. */
    ghost function Objects(): set<object>
      reads this
    {
      (set f: OpenFile | f in files :: f as object) + (set f: OpenFile | f in files :: f.slots as object)
    }

    ghost predicate FileOk(i: nat)
      requires i < |files| == |handles| == |fs.openFiles|
      reads this, fs, fs.storage, fs.storage.bitmap, fs.storage.bitmap.buffer, Objects()
    {
      if files[i] == null then !fs.openFiles[i].isOpen && handles[i] == Closed
      else
        var f: OpenFile := files[i];
        assert f in files;
        OpenOn(f, fs.openFiles[i], handles[i])
    }

    /** The open file is behind the descriptor, and what it holds is held. */
    ghost predicate OpenOn(f: OpenFile, d: Descriptor, h: Handle)
      reads f, f.slots, fs, fs.storage, fs.storage.bitmap, fs.storage.bitmap.buffer
    {
      && f.storage == fs.storage && f.isOpen && f.Valid() && !f.tidy && f.found.linkCount <= 1
      && d == Descriptor(true, f.inodeId) && f.inodeId in fs.held && fs.held[f.inodeId] == f.bytes
      && h == Handle(f.allowRead, f.allowWrite, f.position)
    }

    /** No two descriptors share anything. */
    ghost predicate Apart()
      reads this, Objects()
    {
      forall i, j :: 0 <= i < j < |files| && files[i] != null && files[j] != null ==>
        files[i] != files[j] && files[i].slots != files[j].slots && files[i].inodeId != files[j].inodeId
    }

    ghost predicate Valid()
      reads this, fs, fs.storage, fs.storage.bitmap, fs.storage.bitmap.buffer, Objects()
    {
      && fs.Valid() && |files| == |handles| == |fs.openFiles|
      && Apart()
      && forall i :: 0 <= i < |files| ==> FileOk(i)
    }

    /** The disk is full, and a page of the descriptor's file that waits to be written back has no cluster. */
    ghost predicate Stuck(fd: nat)
      reads this, fs, fs.storage, fs.storage.bitmap, fs.storage.bitmap.buffer, Objects()
    {
      && fs.storage.Valid() && fd < |files| && files[fd] != null
      && var f: OpenFile := files[fd];
         assert f in files && f in Objects() && f.slots in Objects();
         f.storage == fs.storage && f.DiskFull()
    }

    /** What the file system is to its users. */
    ghost function State(): Machine
      reads this, fs, fs.storage, fs.storage.bitmap.buffer
      requires fs.storage.Valid()
    {
      Machine(fs.State(), handles)
    }

    /** The step of the value that was m. */
    ghost predicate Did(m: Machine, action: Action, a: Answer, said: Said)
      reads this, fs, fs.storage, fs.storage.bitmap.buffer
      requires fs.storage.Valid()
    {
      State() == ActionAfter(m, fs.root, action, a) && said == ActionSaid(m, fs.root, action, a)
    }

    constructor (vfs: Vfs)
      requires vfs.Valid() && vfs.held == map[] && forall i :: 0 <= i < |vfs.openFiles| ==> !vfs.openFiles[i].isOpen
      ensures fs == vfs && Valid() && State() == Machine(vfs.State(), seq(|vfs.openFiles|, _ => Closed))
      ensures Objects() == {}
    {
      hide Image, Sound, TableRoots, Shows, TreeOk, Flags, OpenOk, SuperFits, HeldOpen, FilesOf, OpenOn;
      fs := vfs;
      files, handles := seq(|vfs.openFiles|, _ => null), seq(|vfs.openFiles|, _ => Closed);
      new;
    }

    lemma OpenFacts(fd: int)
      requires Valid()
      ensures AllThen(files, fs.storage, fs.openFiles, handles, fd, fs.held, fs.storage.disk, fs.storage.bitmap.Used(),
                      fs.storage.table)
      ensures forall i :: 0 <= i < |files| && files[i] != null ==> files[i].slots as object != fs.storage.bitmap.buffer as object
    {
      hide Image, Sound, TableRoots, Shows, TreeOk, Flags, OpenOk, SuperFits, HeldOpen, Recent, Keeps, Holds;
      forall i | 0 <= i < |files|
        ensures if files[i] == null then !fs.openFiles[i].isOpen && handles[i] == Closed
                else OpenThen(files[i], fs.storage, fs.openFiles[i], handles[i], fs.held,
                              fs.storage.disk, fs.storage.bitmap.Used(), fs.storage.table)
                     && files[i].slots as object != fs.storage.bitmap.buffer as object
      {
        assert FileOk(i);
      }
    }

    /** An open file whose clusters and record have been left alone. */
    lemma Again(f: OpenFile, d: Descriptor, h: Handle, held: map<nat, seq<byte>>, disk: seq<Cluster>, used: seq<bool>,
                table: seq<Inode>,
                kept: map<nat, seq<byte>>)
      requires OpenThen(f, fs.storage, d, h, held, disk, used, table)
      requires fs.storage.Valid() && Sound(fs.storage.Vol(TableRoots(fs.storage.table)))
      requires KeptHeld(disk, fs.storage.disk, table, fs.storage.table, kept) && f.inodeId in kept
      requires f.inodeId in held && f.inodeId in fs.held && fs.held[f.inodeId] == held[f.inodeId]
      ensures OpenOn(f, d, h)
    {
      hide Image, Sound, TableRoots, Flags, HeldThen, KeptHeld, OpenFile.Valid;
      StillOk(f, disk, used, table, kept);
    }

    lemma AllAgain(fd: int, held: map<nat, seq<byte>>, disk: seq<Cluster>, used: seq<bool>, table: seq<Inode>,
                   kept: map<nat, seq<byte>>)
      requires |files| == |handles| == |fs.openFiles|
      requires AllThen(files, fs.storage, fs.openFiles, handles, fd, held, disk, used, table)
      requires fs.storage.Valid() && Sound(fs.storage.Vol(TableRoots(fs.storage.table)))
      requires KeptHeld(disk, fs.storage.disk, table, fs.storage.table, kept)
      requires forall i :: 0 <= i < |files| && i != fd && files[i] != null ==>
                 var id := files[i].inodeId; id in kept && id in held && id in fs.held && fs.held[id] == held[id]
      ensures forall i :: 0 <= i < |files| && i != fd ==> FileOk(i)
    {
      hide Image, Sound, TableRoots, Flags, HeldThen, OpenThen, OpenOn, KeptHeld;
      forall i | 0 <= i < |files| && i != fd ensures FileOk(i) {
        if files[i] != null {
          Again(files[i], fs.openFiles[i], handles[i], held, disk, used, table, kept);
        }
      }
    }

    /** A call on names, with files open around it. */
    method DoName(call: Call) returns (ok: bool, status: Status, ghost a: Answer)
      requires Valid() && ActionOk(Name(call))
      modifies fs`ns, fs`openFiles, fs.storage`disk, fs.storage`table, fs.storage`dirty, fs.storage.bitmap.buffer
      ensures fs.storage.Valid() && (ok ==> Valid() && Did(old(State()), Name(call), a, Told(status)))
      ensures a == old(fs.Asked(call))
      ensures !ok ==> status == NoSpace && !fs.Valid()
    {
      hide *;
      Parts();
      ghost var disk, used, table := fs.storage.disk, fs.storage.bitmap.Used(), fs.storage.table;
      ghost var m := State();
      NameIs(call);
      OpenFacts(-1);
      InodesHeld();
      StateIs();
      ok, status, a := Try(call);
      if ok {
        StateIs();
        NamesKeepOpen(m.sys, fs.root, call, a);
        assert AllThen(files, fs.storage, fs.openFiles, handles, -1, fs.held, disk, used, table);
        AllAgain(-1, fs.held, disk, used, table, fs.held);
        ValidIs();
        DidName(m, call, a, status);
      }
    }

    lemma NameIs(call: Call)
      requires ActionOk(Name(call))
      ensures CallOk(call) && !call.OpenFile? && !call.CloseFile? && fs.Aside(call)
    {
    }

    lemma DidName(m: Machine, call: Call, a: Answer, status: Status)
      requires fs.storage.Valid() && handles == m.handles
      requires status == Outcome(m.sys, fs.root, call, a) && fs.State() == After(m.sys, fs.root, call, a)
      ensures Did(m, Name(call), a, Told(status))
    {
      hide Image, FilesOf, Outcome, After;
    }

    /** One operation on one open file, seen from the file system. */
    method WorkOn(f: OpenFile, op: Op) returns (ok: bool, reply: Reply)
      requires fs.Valid() && OpenOn(f, Descriptor(true, f.inodeId), Handle(f.allowRead, f.allowWrite, f.position))
      requires f.allowWrite ==> Allowed(Plain(f.bytes, f.position), op)
      modifies fs`held, fs.storage`disk, fs.storage`table, fs.storage`dirty, fs.storage.bitmap.buffer, f, f.slots
      ensures fs.Valid() && fs.held == old(fs.held)[f.inodeId := f.bytes]
      ensures f.inodeId == old(f.inodeId) && f.allowRead == old(f.allowRead) && f.allowWrite == old(f.allowWrite)
      ensures OpenOn(f, Descriptor(true, f.inodeId), Handle(f.allowRead, f.allowWrite, f.position))
      ensures KeptHeld(old(fs.storage.disk), fs.storage.disk, old(fs.storage.table), fs.storage.table, fs.held - {f.inodeId})
      ensures fs.Files() == old(fs.Files())[f.inodeId := f.bytes]
      ensures ok ==>
                StepIs(old(Plain(f.bytes, f.position)), f.allowRead, f.allowWrite, op, Plain(f.bytes, f.position), reply)
      ensures !ok ==> f.storage == fs.storage && f.DiskFull()
    {
      hide *;
      ghost var disk, table, held := fs.storage.disk, fs.storage.table, fs.held;
      BeforeWork(f);
      ok, reply := f.RunOne(op);
      if ok {
        IsStep(old(Plain(f.bytes, f.position)), f.allowRead, f.allowWrite, op, Plain(f.bytes, f.position), reply);
      }
      fs.held := held[f.inodeId := f.bytes];
      FileFacts(f);
      AfterWork(f, disk, table, held);
    }

    lemma IsStep(p: Plain, mayRead: bool, mayWrite: bool, op: Op, q: Plain, reply: Reply)
      requires mayWrite ==> Allowed(p, op)
      requires (q, reply) == PlainStep(p, mayRead, mayWrite, op)
      ensures StepIs(p, mayRead, mayWrite, op, q, reply)
    {
      hide PlainStep, Allowed;
    }

    /** What never changes about the disk. */
    ghost predicate Fixed() {
      && fs.storage.reserved == DATA_START && DATA_START < fs.storage.bitmap.total <= 32768
      && SuperFits(fs.storage.super, fs.storage.bitmap.total) && fs.storage.super.rootInodeId == fs.root
    }

    lemma BeforeWork(f: OpenFile)
      requires fs.Valid() && OpenOn(f, Descriptor(true, f.inodeId), Handle(f.allowRead, f.allowWrite, f.position))
      ensures Fixed() && f.storage == fs.storage && f.isOpen && f.Valid() && !f.tidy && f.found.linkCount <= 1
      ensures f.inodeId in fs.held && fs.held[f.inodeId] == f.bytes && HeldOpen(fs.held, fs.openFiles)
      ensures OpenOk(fs.ns, fs.openFiles)
      ensures Shows(fs.storage.disk, fs.storage.table, fs.ns.dirs, fs.ns.kinds, fs.held) && TreeOk(fs.ns, fs.root)
      ensures TableOk(fs.storage.table) && |fs.storage.table| == INODE_COUNT && f.inodeId < |fs.storage.table|
      ensures SameLabels(f.found, fs.storage.table[f.inodeId])
      ensures f.slots as object != fs.storage.bitmap.buffer as object
      ensures fs.Files() == FilesOf(fs.storage.disk, fs.storage.table, fs.ns.kinds, fs.held)
    {
      hide Image, Sound, TableRoots, Shows, TreeOk, Flags, OpenOk, SuperFits, HeldOpen, Recent, Keeps, Holds;
      hide SameLabels, FilesOf;
      FileFacts(f);
    }

    lemma AfterWork(f: OpenFile, disk: seq<Cluster>, table: seq<Inode>, held: map<nat, seq<byte>>)
      requires Fixed() && f.storage == fs.storage && f.isOpen && f.Valid() && !f.tidy && f.found.linkCount <= 1
      requires f.inodeId in held && HeldOpen(held, fs.openFiles) && OpenOk(fs.ns, fs.openFiles)
      requires fs.held == held[f.inodeId := f.bytes]
      requires Shows(disk, table, fs.ns.dirs, fs.ns.kinds, held) && TreeOk(fs.ns, fs.root)
      requires TableOk(table) && |table| == INODE_COUNT && f.inodeId < |table| && SameLabels(f.found, table[f.inodeId])
      requires TableOk(fs.storage.table) && OthersKept(disk, fs.storage.disk, table, fs.storage.table, f.inodeId)
      ensures fs.Valid() && OpenOn(f, Descriptor(true, f.inodeId), Handle(f.allowRead, f.allowWrite, f.position))
      ensures KeptHeld(disk, fs.storage.disk, table, fs.storage.table, fs.held - {f.inodeId})
      ensures fs.Files() == FilesOf(disk, table, fs.ns.kinds, held)[f.inodeId := f.bytes]
    {
      hide Image, Sound, TableRoots, Shows, TreeOk, Flags, OpenOk, FilesOf, KeptHeld, SuperFits, HeldOpen, OthersKept;
      hide OpenFile.Valid, SameLabels;
      FileFacts(f);
      HeldInUse(held, fs.openFiles, fs.ns, f.inodeId);
      SameLabelsTwice(f.found, table[f.inodeId], fs.storage.table[f.inodeId]);
      HeldWorked(disk, fs.storage.disk, table, fs.storage.table, fs.ns, fs.root, held, f.inodeId, f.bytes);
      OthersAreKept(disk, fs.storage.disk, table, fs.storage.table, f.inodeId, fs.held);
      HeldSame(held, fs.held, fs.openFiles);
    }

    /** One operation on one open file; the others stay what they are. */
    method WorkAmong(fd: nat, op: Op) returns (ok: bool, reply: Reply)
      requires Valid() && fd < |files| && files[fd] != null
      requires files[fd].allowWrite ==> Allowed(Plain(files[fd].bytes, files[fd].position), op)
      modifies this`handles, fs`held, fs.storage`disk, fs.storage`table, fs.storage`dirty, fs.storage.bitmap.buffer
      modifies files[fd], files[fd].slots
      ensures Valid()
      ensures handles == old(handles)[fd := Handle(old(files[fd].allowRead), old(files[fd].allowWrite), files[fd].position)]
      ensures files[fd].inodeId == old(files[fd].inodeId)
      ensures fs.Files() == old(fs.Files())[files[fd].inodeId := files[fd].bytes]
      ensures ok ==>
                StepIs(old(Plain(files[fd].bytes, files[fd].position)), old(files[fd].allowRead), old(files[fd].allowWrite), op,
                       Plain(files[fd].bytes, files[fd].position), reply)
      ensures !ok ==> Stuck(fd)
    {
      hide *;
      Parts();
      ghost var disk, used, table, held := fs.storage.disk, fs.storage.bitmap.Used(), fs.storage.table, fs.held;
      OpenFacts(fd);
      InodesHeld();
      WorkFacts(fd);
      ok, reply := WorkOn(files[fd], op);
      assert AllThen(files, fs.storage, fs.openFiles, handles, fd, held, disk, used, table);
      handles := handles[fd := Handle(old(files[fd].allowRead), old(files[fd].allowWrite), files[fd].position)];
      StillAmong(fd, old(handles), held, disk, used, table);
      if !ok {
        StorageOk();
        IsStuck(fd);
      }
    }

    lemma Parts()
      requires Valid()
      ensures fs.Valid() && |files| == |handles| == |fs.openFiles| && Apart() && fs.storage.Valid()
      ensures fs.storage.bitmap.Valid()
      ensures forall i, j :: 0 <= i < j < |files| && files[i] != null && files[j] != null ==>
                files[i] != files[j] && files[i].slots != files[j].slots && files[i].inodeId != files[j].inodeId
    {
      hide Image, Sound, TableRoots, Shows, TreeOk, Flags, OpenOk, SuperFits, HeldOpen, FileOk;
    }

    lemma StillAmong(fd: nat, before: seq<Handle>, held: map<nat, seq<byte>>, disk: seq<Cluster>, used: seq<bool>,
                     table: seq<Inode>)
      requires |files| == |handles| == |fs.openFiles| == |before| && fd < |files| && files[fd] != null && fs.Valid()
      requires handles == before[fd := Handle(files[fd].allowRead, files[fd].allowWrite, files[fd].position)]
      requires AllThen(files, fs.storage, fs.openFiles, before, fd, held, disk, used, table)
      requires OpenOn(files[fd], Descriptor(true, files[fd].inodeId), handles[fd])
      requires fs.openFiles[fd] == Descriptor(true, files[fd].inodeId)
      requires KeptHeld(disk, fs.storage.disk, table, fs.storage.table, fs.held - {files[fd].inodeId})
      requires fs.held == held[files[fd].inodeId := files[fd].bytes]
      requires forall i :: 0 <= i < |files| && files[i] != null ==> files[i].inodeId in held
      requires forall i, j :: 0 <= i < j < |files| && files[i] != null && files[j] != null ==>
                 files[i] != files[j] && files[i].slots != files[j].slots && files[i].inodeId != files[j].inodeId
      ensures Valid()
    {
      hide Image, Sound, TableRoots, Shows, TreeOk, Flags, OpenOk, SuperFits, HeldOpen, OpenOn, OpenThen, KeptHeld;
      assert AllThen(files, fs.storage, fs.openFiles, handles, fd, held, disk, used, table);
      AllAgain(fd, held, disk, used, table, fs.held - {files[fd].inodeId});
    }

    lemma NotInUse(fd: nat)
      requires Valid() && (fd >= |files| || files[fd] == null)
      ensures !InUse(State(), fd)
    {
      hide Image, Sound, TableRoots, Shows, TreeOk, Flags, OpenOk, SuperFits, HeldOpen, OpenFile.Valid;
      if fd < |files| {
        assert FileOk(fd);
      }
    }

    /** Reading, writing or seeking with a descriptor. */
    method DoWork(fd: nat, op: Op) returns (ok: bool, reply: Reply)
      requires Valid() && CanDo(State(), fs.root, Work(fd, op))
      modifies this`handles, fs`held, fs.storage`disk, fs.storage`table, fs.storage`dirty, fs.storage.bitmap.buffer, Objects()
      ensures Valid() && files == old(files) && (!ok ==> Stuck(fd))
      ensures ok ==> Did(old(State()), Work(fd, op), Answer(false, false, false), Gave(reply))
    {
      hide Image, Sound, TableRoots, Shows, TreeOk, Flags, OpenOk, FilesOf, SuperFits, HeldOpen, Apart, FileOk;
      hide PlainStep, AllUsed, InUse, PlainOf;
      if fd >= |files| || files[fd] == null {
        NotInUse(fd);
        return true, Reply(InvalidArgument, [], 0);
      }
      WorkFacts(fd);
      assert files[fd] in files;
      ok, reply := WorkAmong(fd, op);
    }

    lemma InodesHeld()
      requires Valid()
      ensures AllHeld() && forall i :: 0 <= i < |files| && files[i] != null ==> files[i].inodeId in fs.held
    {
      hide Image, Sound, TableRoots, Shows, TreeOk, Flags, OpenOk, SuperFits, HeldOpen, OpenFile.Valid;
      forall i | 0 <= i < |files| && files[i] != null ensures files[i].inodeId in fs.held {
        assert FileOk(i);
      }
    }

    /** An open file is the plain byte sequence its users see. */
    lemma WorkFacts(fd: nat)
      requires Valid() && fd < |files| && files[fd] != null
      ensures var f := files[fd];
              && OpenOn(f, Descriptor(true, f.inodeId), Handle(f.allowRead, f.allowWrite, f.position))
              && InUse(State(), fd) && PlainOf(State(), fd) == Plain(f.bytes, f.position)
              && handles[fd] == Handle(f.allowRead, f.allowWrite, f.position)
              && fs.openFiles[fd] == Descriptor(true, f.inodeId) && IsRegular(fs.ns, f.inodeId) && f.inodeId in fs.held
              && fs.held[f.inodeId] == f.bytes
              && f.inodeId < |fs.storage.table| && SameLabels(f.found, fs.storage.table[f.inodeId])
    {
      hide Image, Sound, TableRoots, Shows, TreeOk, Flags, SuperFits, Recent, Keeps, Holds;
      assert FileOk(fd);
      var f := files[fd];
      HeldInUse(fs.held, fs.openFiles, fs.ns, f.inodeId);
      ShowsFacts(fs.storage.disk, fs.storage.table, fs.ns.dirs, fs.ns.kinds, f.inodeId, fs.held);
      KeepsFacts(fs.storage.disk, fs.storage.bitmap.Used(), fs.storage.table, fs.storage.reserved, f.inodeId, f.bytes,
                 f.found, f.tidy);
    }

    // ----- Closing -----

    lemma AfterClose(f: OpenFile, disk: seq<Cluster>, table: seq<Inode>, held: map<nat, seq<byte>>)
      requires Fixed() && f.storage == fs.storage && f.Valid() && f.found.linkCount <= 1
      requires f.inodeId in held && held[f.inodeId] == f.bytes && HeldOpen(held, fs.openFiles)
      requires OpenOk(fs.ns, fs.openFiles)
      requires fs.held == held - {f.inodeId}
      requires Shows(disk, table, fs.ns.dirs, fs.ns.kinds, held) && TreeOk(fs.ns, fs.root)
      requires TableOk(table) && |table| == INODE_COUNT && f.inodeId < |table| && SameLabels(f.found, table[f.inodeId])
      requires TableOk(fs.storage.table) && OthersKept(disk, fs.storage.disk, table, fs.storage.table, f.inodeId)
      requires f.inodeId < |fs.storage.table|
      requires var ino := fs.storage.table[f.inodeId];
               Dense(fs.storage.disk, ino) && Content(fs.storage.disk, ino) == f.bytes && ino.clusterCount == ClustersFor(|f.bytes|)
      ensures fs.Valid() && KeptHeld(disk, fs.storage.disk, table, fs.storage.table, fs.held)
      ensures fs.Files() == FilesOf(disk, table, fs.ns.kinds, held)
    {
      hide Image, Sound, TableRoots, Shows, TreeOk, Flags, OpenOk, FilesOf, KeptHeld, SuperFits, HeldOpen, OthersKept;
      hide OpenFile.Valid, SameLabels, Dense, Content, ClustersFor;
      FileFacts(f);
      HeldInUse(held, fs.openFiles, fs.ns, f.inodeId);
      SameLabelsTwice(f.found, table[f.inodeId], fs.storage.table[f.inodeId]);
      SameLinks(f.found, fs.storage.table[f.inodeId]);
      HeldNoMore(disk, fs.storage.disk, table, fs.storage.table, fs.ns, fs.root, held, f.inodeId);
      OthersAreKept(disk, fs.storage.disk, table, fs.storage.table, f.inodeId, held);
      HeldSame(held, fs.held, fs.openFiles);
    }

    /** Closing one open file, seen from the file system; for want of space it stays open. */
    method CloseOn(f: OpenFile, fd: nat) returns (status: Status)
      requires fs.Valid() && OpenOn(f, Descriptor(true, f.inodeId), Handle(f.allowRead, f.allowWrite, f.position))
      requires fd < |fs.openFiles| && fs.openFiles[fd] == Descriptor(true, f.inodeId)
      modifies fs`held, fs`openFiles, fs.storage`disk, fs.storage`table, fs.storage`dirty, fs.storage.bitmap.buffer
      modifies f`isOpen, f.slots
      ensures fs.Valid() && fs.Files() == old(fs.Files()) && (status == Ok || status == NoSpace)
      ensures KeptHeld(old(fs.storage.disk), fs.storage.disk, old(fs.storage.table), fs.storage.table, old(fs.held) - {f.inodeId})
      ensures status == Ok ==>
                && fs.held == old(fs.held) - {f.inodeId}
                && fs.openFiles == old(fs.openFiles)[fd := Descriptor(false, f.inodeId)]
      ensures status == NoSpace ==>
                && fs.held == old(fs.held) && fs.openFiles == old(fs.openFiles)
                && OpenOn(f, Descriptor(true, f.inodeId), Handle(f.allowRead, f.allowWrite, f.position))
                && f.storage == fs.storage && f.DiskFull()
    {
      hide *;
      ghost var disk, table, held := fs.storage.disk, fs.storage.table, fs.held;
      BeforeWork(f);
      status := f.Close();
      FileFacts(f);
      if status == Ok {
        fs.held := held - {f.inodeId};
        AfterClose(f, disk, table, held);
        FilesIs();
        var closed := fs.Close(fd);
        StorageOk();
        FilesIs();
      } else {
        assert held[f.inodeId := f.bytes] == held;
        AfterWork(f, disk, table, held);
        HeldInFiles(disk, table, fs.ns, fs.openFiles, held, f.inodeId);
        SameFiles(FilesOf(disk, table, fs.ns.kinds, held), f.inodeId, f.bytes);
      }
    }

    lemma FilesIs()
      requires fs.storage.Valid()
      ensures fs.Files() == FilesOf(fs.storage.disk, fs.storage.table, fs.ns.kinds, fs.held)
    {
      hide FilesOf, Image;
    }

    lemma StorageOk()
      requires fs.Valid()
      ensures fs.storage.Valid()
    {
      hide Image, Sound, TableRoots, Shows, TreeOk, Flags, OpenOk, SuperFits, HeldOpen;
    }

    lemma SameFiles(files: map<nat, seq<byte>>, id: nat, bytes: seq<byte>)
      requires id in files && files[id] == bytes
      ensures files[id := bytes] == files
    {
    }

    lemma StillWithout(fd: nat, filesThen: seq<OpenFile?>, open: seq<Descriptor>, before: seq<Handle>, id: nat,
                       held: map<nat, seq<byte>>, disk: seq<Cluster>, used: seq<bool>, table: seq<Inode>)
      requires |files| == |handles| == |fs.openFiles| == |before| == |open| == |filesThen| && fd < |files| && fs.Valid()
      requires files == filesThen[fd := null] && handles == before[fd := Closed]
      requires fs.openFiles == open[fd := Descriptor(false, id)]
      requires AllThen(filesThen, fs.storage, open, before, fd, held, disk, used, table)
      requires KeptHeld(disk, fs.storage.disk, table, fs.storage.table, fs.held) && fs.held == held - {id}
      requires forall i :: 0 <= i < |files| && files[i] != null ==> files[i].inodeId in held && files[i].inodeId != id
      requires forall i, j :: 0 <= i < j < |files| && files[i] != null && files[j] != null ==>
                 files[i] != files[j] && files[i].slots != files[j].slots && files[i].inodeId != files[j].inodeId
      ensures Valid()
    {
      hide Image, Sound, TableRoots, Shows, TreeOk, Flags, OpenOk, SuperFits, HeldOpen, OpenOn, OpenThen, KeptHeld;
      assert AllThen(files, fs.storage, fs.openFiles, handles, fd, held, disk, used, table);
      AllAgain(fd, held, disk, used, table, fs.held);
    }

    /** Closing one open file; the others stay what they are. */
    method CloseAmong(fd: nat) returns (status: Status)
      requires Valid() && fd < |files| && files[fd] != null
      modifies this`files, this`handles, fs`held, fs`openFiles
      modifies fs.storage`disk, fs.storage`table, fs.storage`dirty, fs.storage.bitmap.buffer, files[fd], files[fd].slots
      ensures Valid() && fs.Files() == old(fs.Files()) && (status == Ok || status == NoSpace)
      ensures status == Ok ==>
                && files == old(files)[fd := null] && handles == old(handles)[fd := Closed]
                && fs.openFiles == old(fs.openFiles)[fd := Descriptor(false, old(files[fd].inodeId))]
      ensures status == NoSpace ==>
                && files == old(files) && handles == old(handles) && fs.openFiles == old(fs.openFiles)
                && Stuck(fd)
    {
      hide *;
      Parts();
      ghost var disk, used, table, held := fs.storage.disk, fs.storage.bitmap.Used(), fs.storage.table, fs.held;
      ghost var filesThen, open := files, fs.openFiles;
      OpenFacts(fd);
      InodesHeld();
      WorkFacts(fd);
      var f: OpenFile := files[fd];
      status := CloseOn(f, fd);
      if status == Ok {
        files := files[fd := null];
        handles := handles[fd := Closed];
        assert AllThen(filesThen, fs.storage, open, old(handles), fd, held, disk, used, table);
        StillWithout(fd, filesThen, open, old(handles), f.inodeId, held, disk, used, table);
      } else {
        assert AllThen(files, fs.storage, fs.openFiles, handles, fd, held, disk, used, table);
        assert held[f.inodeId := f.bytes] == held;
        StillAmong(fd, handles, held, disk, used, table);
        StorageOk();
        IsStuck(fd);
      }
    }

    lemma IsStuck(fd: nat)
      requires fs.storage.Valid() && fd < |files| && files[fd] != null && files[fd].storage == fs.storage
      requires files[fd].DiskFull()
      ensures Stuck(fd)
    {
      hide OpenFile.DiskFull;
    }

    /** Closing a descriptor; for want of space it stays open. */
    method DoClose(fd: nat) returns (status: Status, ghost a: Answer)
      requires Valid()
      modifies this`files, this`handles, fs`held, fs`openFiles
      modifies fs.storage`disk, fs.storage`table, fs.storage`dirty, fs.storage.bitmap.buffer, Objects()
      ensures Valid() && Did(old(State()), CloseAt(fd), a, Told(status))
      ensures forall i :: 0 <= i < |files| && files[i] != null ==> files[i] in old(files)
      ensures status == NoSpace ==> Stuck(fd)
    {
      hide Image, Sound, TableRoots, Shows, TreeOk, Flags, OpenOk, FilesOf, SuperFits, HeldOpen, Apart, FileOk;
      hide AllUsed, InUse, PlainOf;
      a := Answer(false, false, false);
      if fd >= |files| || files[fd] == null {
        NotInUse(fd);
        return InvalidArgument, a;
      }
      WorkFacts(fd);
      assert files[fd] in files;
      status := CloseAmong(fd);
      a := Answer(false, status == Ok, false);
    }

    // ----- Opening -----

    /** Sets up an open file behind a descriptor just taken. */
    method HoldFile(fd: nat, mode: Mode) returns (f: OpenFile)
      requires fs.Valid() && fs.OpensAt(fd)
      modifies fs`held
      ensures fresh(f) && fresh(f.slots) && fs.Valid() && fs.Files() == old(fs.Files())
      ensures f.inodeId == fs.openFiles[fd].inodeId && f.inodeId !in old(fs.held)
      ensures fs.held == old(fs.held)[f.inodeId := f.bytes]
      ensures OpenOn(f, Descriptor(true, f.inodeId), Handle(mode.mayRead, mode.mayWrite, f.position))
      ensures f.position == if mode.append then |f.bytes| else 0
      ensures f.inodeId in fs.Files() && fs.Files()[f.inodeId] == f.bytes
    {
      hide Image, Sound, TableRoots, Shows, TreeOk, Flags, OpenOk, FilesOf, SuperFits, HeldOpen, WellStored, Content;
      hide Recent, Keeps, Holds, ClustersFor, SameLabels;
      var id := fs.openFiles[fd].inodeId;
      ghost var disk, table, held := fs.storage.disk, fs.storage.table, fs.held;
      HeldNow(disk, table, fs.ns, fs.root, held, id);
      f := new OpenFile(fs.storage);
      f.Begin(id, mode.mayRead, mode.mayWrite, mode.append);
      f.tidy := false;
      FoundKept(table, id);
      KeepsLabels(fs.storage.disk, fs.storage.bitmap.Used(), fs.storage.table, fs.storage.reserved, id, f.bytes, f.found);
      fs.held := held[id := f.bytes];
      NowHeld(held, fs.openFiles, fd, f.bytes);
    }

    lemma FoundKept(table: seq<Inode>, id: nat)
      requires id < |table|
      ensures SameLabels(table[id], table[id])
    {
    }

    lemma NowHeld(held: map<nat, seq<byte>>, open: seq<Descriptor>, fd: nat, bytes: seq<byte>)
      requires HeldOpen(held, open) && fd < |open| && open[fd].isOpen
      ensures HeldOpen(held[open[fd].inodeId := bytes], open)
    {
    }

    lemma StillWith(fd: nat, filesThen: seq<OpenFile?>, open: seq<Descriptor>, before: seq<Handle>,
                    held: map<nat, seq<byte>>, disk: seq<Cluster>, used: seq<bool>, table: seq<Inode>)
      requires |files| == |handles| == |fs.openFiles| == |before| == |open| == |filesThen| && fd < |files| && fs.Valid()
      requires files[fd] != null && files == filesThen[fd := files[fd]] && handles == before[fd := handles[fd]]
      requires fs.openFiles == open[fd := Descriptor(true, files[fd].inodeId)]
      requires OpenOn(files[fd], fs.openFiles[fd], handles[fd])
      requires AllThen(filesThen, fs.storage, open, before, -1, held, disk, used, table)
      requires KeptHeld(disk, fs.storage.disk, table, fs.storage.table, held)
      requires files[fd].inodeId !in held && fs.held == held[files[fd].inodeId := files[fd].bytes]
      requires forall i :: 0 <= i < |files| && i != fd && files[i] != null ==>
                 files[i].inodeId in held && files[i] != files[fd] && files[i].slots != files[fd].slots
      requires forall i, j :: 0 <= i < j < |files| && i != fd && j != fd && files[i] != null && files[j] != null ==>
                 files[i] != files[j] && files[i].slots != files[j].slots && files[i].inodeId != files[j].inodeId
      ensures Valid()
    {
      hide Image, Sound, TableRoots, Shows, TreeOk, Flags, OpenOk, SuperFits, HeldOpen, OpenOn, OpenThen, KeptHeld;
      assert AllThen(files, fs.storage, fs.openFiles, handles, fd, held, disk, used, table);
      AllAgain(fd, held, disk, used, table, held);
    }

    /** Puts an open file behind a descriptor just taken; the other files have been left alone. */
    method Attach(fd: nat, mode: Mode, ghost open: seq<Descriptor>, ghost disk: seq<Cluster>, ghost used: seq<bool>,
                  ghost table: seq<Inode>)
      requires |files| == |handles| == |fs.openFiles| == |open| && fd < |files|
      requires fs.openFiles == open[fd := Descriptor(true, fs.openFiles[fd].inodeId)]
      requires AllThen(files, fs.storage, open, handles, -1, fs.held, disk, used, table) && Apart() && AllHeld()
      requires KeptHeld(disk, fs.storage.disk, table, fs.storage.table, fs.held)
      requires fs.Valid() && fs.OpensAt(fd)
      modifies this`files, this`handles, fs`held
      ensures |files| == |handles| == |fs.openFiles| && fs.storage.Valid() && fs.Files() == old(fs.Files())
      ensures fs.openFiles[fd].inodeId in fs.Files()
      ensures var bytes := fs.Files()[fs.openFiles[fd].inodeId];
              handles == old(handles)[fd := Handle(mode.mayRead, mode.mayWrite, if mode.append then |bytes| else 0)]
      ensures files[fd] != null && fresh(files[fd]) && fresh(files[fd].slots) && files == old(files)[fd := files[fd]]
      ensures Valid()
    {
      hide *;
      ghost var held := fs.held;
      ApartIs();
      OpensIn(fd);
      StorageOk();
      var f := HoldFile(fd, mode);
      files := files[fd := f];
      handles := handles[fd := Handle(mode.mayRead, mode.mayWrite, f.position)];
      assert AllThen(old(files), fs.storage, open, old(handles), -1, held, disk, used, table);
      StillWith(fd, old(files), open, old(handles), held, disk, used, table);
      StorageOk();
    }

    /** Whatever file is open is held. */
    ghost predicate AllHeld()
      reads this, fs, Objects()
    {
      forall i :: 0 <= i < |files| && files[i] != null ==> assert files[i] in files; files[i].inodeId in fs.held
    }

    lemma ApartIs()
      requires Apart() && AllHeld()
      ensures forall i :: 0 <= i < |files| && files[i] != null ==> files[i].inodeId in fs.held
      ensures forall i, j :: 0 <= i < j < |files| && files[i] != null && files[j] != null ==>
                files[i] != files[j] && files[i].slots != files[j].slots && files[i].inodeId != files[j].inodeId
    {
    }

    lemma OpensIn(fd: nat)
      requires fs.OpensAt(fd)
      ensures fd < |fs.openFiles| && fs.openFiles[fd].isOpen
    {
    }

    /** What is open leaves alone what is held: no file is opened twice. */
    lemma OpensAside(path: seq<Entries.Name>, name: Entries.Name, mode: Mode, create: bool)
      requires Valid() && CanDo(State(), fs.root, OpenAt(path, name, mode, create))
      ensures fs.Aside(OpenCall(path, name, mode, create))
    {
      hide Image, Sound, TableRoots, Shows, TreeOk, Flags, OpenOk, SuperFits, FileOk, Apart, IsOpen, Way;
    }

    /** Opening a file that is not open. */
    method DoOpen(path: seq<Entries.Name>, name: Entries.Name, mode: Mode, create: bool)
      returns (ok: bool, status: Status, ghost a: Answer)
      requires Valid() && IsCString(name) && CanDo(State(), fs.root, OpenAt(path, name, mode, create))
      modifies this`files, this`handles, fs`ns, fs`openFiles, fs`held
      modifies fs.storage`disk, fs.storage`table, fs.storage`dirty, fs.storage.bitmap.buffer
      ensures fs.storage.Valid()
      ensures ok ==> Valid() && Did(old(State()), OpenAt(path, name, mode, create), a, Told(status))
      ensures a == old(fs.Asked(OpenCall(path, name, mode, create)))
      ensures !ok ==> status == NoSpace && !fs.Valid()
      ensures forall i :: 0 <= i < |files| && files[i] != null ==>
                files[i] in old(files) || (fresh(files[i]) && fresh(files[i].slots))
    {
      hide *;
      Parts();
      ghost var disk, used, table, held := fs.storage.disk, fs.storage.bitmap.Used(), fs.storage.table, fs.held;
      ghost var open, m := fs.openFiles, State();
      var call := OpenCall(path, name, mode, create);
      CallIs(path, name, mode, create);
      OpensAside(path, name, mode, create);
      OpenFacts(-1);
      InodesHeld();
      var fd := fs.FindFreeDescriptor();
      StateIs();
      DepthsKnown();
      ok, status, a := Try(call);
      if !ok {
        return;
      }
      StateIs();
      if status != Ok {
        NamesKeepOpen(m.sys, fs.root, call, a);
        assert AllThen(files, fs.storage, fs.openFiles, handles, -1, held, disk, used, table);
        AllAgain(-1, held, disk, used, table, held);
        ValidIs();
        DidNotOpen(m, path, name, mode, create, a, status);
        return;
      }
      FirstIs(m, open, fd, path, name, mode, create, a);
      assert AllThen(files, fs.storage, open, handles, -1, held, disk, used, table);
      assert Apart() && AllHeld() by {
        StillApart();
      }
      Attach(fd, mode, open, disk, used, table);
      StateIs();
      DidOpen(m, fd, path, name, mode, create, a);
    }

    /** A call and what it was in for; unless it did damage. */
    method Try(call: Call) returns (ok: bool, status: Status, ghost a: Answer)
      requires fs.Valid() && CallOk(call) && fs.Aside(call)
      modifies fs`ns, fs`openFiles, fs.storage`disk, fs.storage`table, fs.storage`dirty, fs.storage.bitmap.buffer
      ensures fs.storage.Valid() && Sound(fs.storage.Vol(TableRoots(fs.storage.table)))
      ensures status == Outcome(old(fs.State()), fs.root, call, a) && fs.State() == After(old(fs.State()), fs.root, call, a)
      ensures KeptHeld(old(fs.storage.disk), fs.storage.disk, old(fs.storage.table), fs.storage.table, fs.held)
      ensures ok ==> fs.Valid() && (call.OpenFile? && status == Ok ==> fs.OpensAt(FirstClosed(old(fs.openFiles))))
      ensures a == old(fs.Asked(call))
      ensures !ok ==> status == NoSpace && !fs.Valid()
    {
      hide *;
      StorageOk();
      StateIs();
      var spared := fs.IsSpared(call);
      StorageOk();
      StateIs();
      a := fs.Asked(call);
      status := fs.Perform(call);
      SystemParts();
      ok := status != NoSpace || spared;
    }

    lemma DepthsKnown()
      requires fs.Valid()
      ensures fs.ns.dirs.Keys == fs.ns.depth.Keys
    {
      hide Image, Sound, TableRoots, Shows, Flags, OpenOk, SuperFits, HeldOpen, Child, Hangs, NamedOnce, ChildOk, Dots;
    }

    lemma StillApart()
      requires forall i :: 0 <= i < |files| && files[i] != null ==> files[i].inodeId in fs.held
      requires forall i, j :: 0 <= i < j < |files| && files[i] != null && files[j] != null ==>
                 files[i] != files[j] && files[i].slots != files[j].slots && files[i].inodeId != files[j].inodeId
      ensures Apart() && AllHeld()
    {
    }

    lemma SystemParts()
      requires fs.SystemOk()
      ensures fs.storage.Valid() && Sound(fs.storage.Vol(TableRoots(fs.storage.table)))
    {
      hide Image, Sound, TableRoots, Flags, SuperFits, HeldOpen;
    }

    lemma ValidIs()
      requires fs.Valid() && |files| == |handles| == |fs.openFiles| && forall i :: 0 <= i < |files| ==> FileOk(i)
      requires forall i, j :: 0 <= i < j < |files| && files[i] != null && files[j] != null ==>
                 files[i] != files[j] && files[i].slots != files[j].slots && files[i].inodeId != files[j].inodeId
      ensures Valid()
    {
      hide Image, Sound, TableRoots, Shows, TreeOk, Flags, OpenOk, SuperFits, HeldOpen, FileOk;
    }

    lemma StateIs()
      requires fs.storage.Valid()
      ensures fs.State() == System(fs.ns, fs.openFiles, FilesOf(fs.storage.disk, fs.storage.table, fs.ns.kinds, fs.held))
      ensures State() == Machine(fs.State(), handles) && fs.Files() == fs.State().files
    {
      hide Image, FilesOf;
    }

    lemma DidNotOpen(m: Machine, path: seq<Entries.Name>, name: Entries.Name, mode: Mode, create: bool, a: Answer,
                     status: Status)
      requires fs.storage.Valid() && handles == m.handles && status != Ok
      requires var call := OpenCall(path, name, mode, create);
               status == Outcome(m.sys, fs.root, call, a) && fs.State() == After(m.sys, fs.root, call, a)
      ensures Did(m, OpenAt(path, name, mode, create), a, Told(status))
    {
      hide Image, FilesOf, Outcome, After;
    }

    /** The descriptor is the first one that was closed. */
    lemma FirstIs(m: Machine, open: seq<Descriptor>, fd: int, path: seq<Entries.Name>, name: Entries.Name, mode: Mode,
                  create: bool, a: Answer)
      requires fs.Valid() && m.sys.open == open && m.sys.ns.dirs.Keys == m.sys.ns.depth.Keys
      requires var call := OpenCall(path, name, mode, create);
               Outcome(m.sys, fs.root, call, a) == Ok && fs.openFiles == After(m.sys, fs.root, call, a).open
      requires fd == -1 <==> AllOpen(open)
      requires fd != -1 ==> 0 <= fd < |open| && fd == FirstClosed(open)
      ensures 0 <= fd < |open| == |fs.openFiles| && fs.openFiles[fd].isOpen && fd == FirstClosed(open)
      ensures fs.openFiles == open[fd := Descriptor(true, fs.openFiles[fd].inodeId)]
    {
      hide Image, Sound, TableRoots, Shows, TreeOk, Flags, OpenOk, SuperFits, HeldOpen, Outcome, After, FirstClosed;
      OpensFirst(m.sys, fs.root, OpenCall(path, name, mode, create), a);
      AllOpenIs(open);
    }

    lemma AllOpenIs(open: seq<Descriptor>)
      ensures FirstClosed(open) < |open| ==> !AllOpen(open)
    {
    }

    lemma DidOpen(m: Machine, fd: nat, path: seq<Entries.Name>, name: Entries.Name, mode: Mode, create: bool, a: Answer)
      requires fs.storage.Valid() && fd == FirstClosed(m.sys.open) && fd < |m.handles| && fd < |fs.openFiles|
      requires fd < |handles|
      requires var call := OpenCall(path, name, mode, create);
               Outcome(m.sys, fs.root, call, a) == Ok && fs.State() == After(m.sys, fs.root, call, a)
      requires fs.openFiles[fd].inodeId in fs.Files()
      requires var bytes := fs.Files()[fs.openFiles[fd].inodeId];
               handles == m.handles[fd := Handle(mode.mayRead, mode.mayWrite, if mode.append then |bytes| else 0)]
      ensures Did(m, OpenAt(path, name, mode, create), a, Told(Ok))
    {
      hide Image, FilesOf, Outcome, After, FirstClosed;
    }

    lemma CallIs(path: seq<Entries.Name>, name: Entries.Name, mode: Mode, create: bool)
      ensures var call := OpenCall(path, name, mode, create);
              call.OpenFile? && (IsCString(name) ==> CallOk(call))
    {
    }

    // ----- Actions in a row -----

    /** Whether nothing is open that the path and name lead to. */
    method IsClosed(path: seq<Entries.Name>, name: Entries.Name) returns (closed: bool)
      requires fs.Valid()
      modifies fs.storage`disk, fs.storage.bitmap.buffer
      ensures fs.Valid() && fs.storage.disk == old(fs.storage.disk)
      ensures fs.storage.bitmap.Used() == old(fs.storage.bitmap.Used())
      ensures var way := Way(fs.ns, fs.root, path);
              closed <==> (way.To? && way.dir in fs.ns.dirs && name in fs.ns.dirs[way.dir] ==>
                             !IsOpen(fs.openFiles, fs.ns.dirs[way.dir][name]))
    {
      hide Image, Sound, TableRoots, Shows, TreeOk, Flags, OpenOk, SuperFits, HeldOpen, Way, IsOpen, GoodDirectory, Dir;
      var status, parent := fs.Resolve(path);
      if status != Ok {
        return true;
      }
      ShowsFacts(fs.storage.disk, fs.storage.table, fs.ns.dirs, fs.ns.kinds, parent, fs.held);
      var t;
      status, t := FindEntry(fs.storage, parent, name);
      if status != Ok {
        return true;
      }
      var open := fs.IsInodeOpen(t);
      return !open;
    }

    /** Whether the action can be done: it opens no file a second time and leaves no hole. */
    method CanBeDone(action: Action) returns (can: bool)
      requires Valid() && ActionOk(action)
      modifies fs.storage`disk, fs.storage.bitmap.buffer
      ensures Valid() && State() == old(State()) && can == CanDo(State(), fs.root, action)
    {
      hide *;
      Parts();
      match action {
        case Name(call) =>
          NameCan(call);
          return true;
        case OpenAt(path, name, mode, create) =>
          ghost var disk, used, table := fs.storage.disk, fs.storage.bitmap.Used(), fs.storage.table;
          OpenFacts(-1);
          InodesHeld();
          StateIs();
          can := IsClosed(path, name);
          SystemIs();
          StateIs();
          HeldUntouched(disk, table, fs.held);
          assert AllThen(files, fs.storage, fs.openFiles, handles, -1, fs.held, disk, used, table);
          AllAgain(-1, fs.held, disk, used, table, fs.held);
          ValidIs();
          OpenCan(path, name, mode, create, can);
        case Work(fd, op) =>
          if fd >= |files| || files[fd] == null {
            NotInUse(fd);
            WorkCan(fd, op);
            return true;
          }
          WorkAllowed(fd, op);
          return !files[fd].allowWrite || IsAllowed(files[fd].cachedSize, files[fd].position, op);
        case CloseAt(fd) =>
          CloseCan(fd);
          return true;
      }
    }

    lemma SystemIs()
      requires fs.Valid()
      ensures fs.storage.Valid() && Sound(fs.storage.Vol(TableRoots(fs.storage.table))) && TableOk(fs.storage.table)
    {
      hide Image, Sound, TableRoots, Shows, TreeOk, Flags, OpenOk, SuperFits, HeldOpen;
    }

    lemma NameCan(call: Call)
      requires fs.storage.Valid()
      ensures CanDo(State(), fs.root, Name(call))
    {
    }

    lemma CloseCan(fd: nat)
      requires fs.storage.Valid()
      ensures CanDo(State(), fs.root, CloseAt(fd))
    {
    }

    lemma OpenCan(path: seq<Entries.Name>, name: Entries.Name, mode: Mode, create: bool, can: bool)
      requires fs.storage.Valid()
      requires var way := Way(fs.ns, fs.root, path);
               can <==> (way.To? && way.dir in fs.ns.dirs && name in fs.ns.dirs[way.dir] ==>
                           !IsOpen(fs.openFiles, fs.ns.dirs[way.dir][name]))
      ensures can == CanDo(State(), fs.root, OpenAt(path, name, mode, create))
    {
      hide Image, FilesOf, Way, IsOpen;
    }

    lemma WorkAllowed(fd: nat, op: Op)
      requires Valid() && fd < |files| && files[fd] != null
      ensures fs.storage.Valid()
      ensures CanDo(State(), fs.root, Work(fd, op)) <==>
              !files[fd].allowWrite || IsAllowed(files[fd].cachedSize, files[fd].position, op)
    {
      hide Image, Sound, TableRoots, Shows, TreeOk, Flags, OpenOk, SuperFits, HeldOpen, InUse, PlainOf, FilesOf;
      hide Recent, Keeps, Holds;
      WorkFacts(fd);
      assert FileOk(fd);
    }

    lemma WorkCan(fd: nat, op: Op)
      requires fs.storage.Valid()
      ensures CanDo(State(), fs.root, Work(fd, op)) <==> (InUse(State(), fd) ==> MayWork(State(), fd, op))
    {
      hide Image, FilesOf, InUse, MayWork;
    }

    /** One action; false when a call on names has damaged a directory, or reading or writing found no space. */
    method Act(action: Action) returns (ok: bool, said: Said, ghost a: Answer)
      requires Valid() && ActionOk(action) && CanDo(State(), fs.root, action)
      modifies this`files, this`handles, fs`ns, fs`openFiles, fs`held
      modifies fs.storage`disk, fs.storage`table, fs.storage`dirty, fs.storage.bitmap.buffer, Objects()
      ensures fs.storage.Valid() && (ok ==> Valid() && Did(old(State()), action, a, said))
      ensures !ok ==> if action.Work? then Stuck(action.fd) else !fs.Valid()
      ensures action.Name? ==> a == old(fs.Asked(action.call))
      ensures action.OpenAt? ==> a == old(fs.Asked(OpenCall(action.path, action.name, action.mode, action.create)))
      ensures action.CloseAt? && said == Told(NoSpace) ==> Stuck(action.fd)
      ensures forall i :: 0 <= i < |files| && files[i] != null ==>
                files[i] in old(files) || (fresh(files[i]) && fresh(files[i].slots))
    {
      hide *;
      Parts();
      var status, reply;
      match action {
        case Name(call) =>
          ok, status, a := DoName(call);
          said := Told(status);
        case OpenAt(path, name, mode, create) =>
          OpenIsOk(path, name, mode, create);
          ok, status, a := DoOpen(path, name, mode, create);
          said := Told(status);
        case Work(fd, op) =>
          ok, reply := DoWork(fd, op);
          a, said := Answer(false, false, false), Gave(reply);
          Parts();
        case CloseAt(fd) =>
          status, a := DoClose(fd);
          ok, said := true, Told(status);
          Parts();
      }
    }

    lemma OpenIsOk(path: seq<Entries.Name>, name: Entries.Name, mode: Mode, create: bool)
      requires ActionOk(OpenAt(path, name, mode, create))
      ensures IsCString(name)
    {
    }

    /**
     Actions in a row. What they report, and what becomes of names, contents, descriptors and positions, is what the
     actions make of a plain value, given what they met on the way: pages that wait in a cache are seen by nobody. The
     run ends early before an action that would open a file twice or leave a hole, after a call that found no space and
     did damage, and after reading or writing was cut short on a full disk.
     */
    method Run(actions: seq<Action>) returns (end: End, done: nat, said: seq<Said>, ghost met: seq<Answer>)
      requires Valid() && forall i :: 0 <= i < |actions| ==> ActionOk(actions[i])
      modifies this`files, this`handles, fs`ns, fs`openFiles, fs`held
      modifies fs.storage`disk, fs.storage`table, fs.storage`dirty, fs.storage.bitmap.buffer, Objects()
      ensures fs.storage.Valid() && done <= |actions| && |met| == done
      ensures said == RunSaid(old(State()), fs.root, actions[..done], met)
      ensures end != NoRoom ==> Valid() && State() == RunAfter(old(State()), fs.root, actions[..done], met)
      ensures end == AllDone ==> done == |actions|
      ensures end == NotToBeDone ==> done < |actions| && !CanDo(State(), fs.root, actions[done])
      ensures end == NoRoom ==>
                done < |actions| && if actions[done].Work? then Stuck(actions[done].fd) else !fs.Valid()
    {
      hide *;
      Parts();
      ghost var m := State();
      done, said, met := 0, [], [];
      ObjectsAre();
      NothingRun(m);
      while done < |actions|
        invariant Valid() && fs.storage.Valid() && done <= |actions| && |met| == done
        invariant State() == RunAfter(m, fs.root, actions[..done], met)
        invariant said == RunSaid(m, fs.root, actions[..done], met)
        invariant forall i :: 0 <= i < |files| && files[i] != null ==>
                    files[i] in old(files) || (fresh(files[i]) && fresh(files[i].slots))
      {
        var can := CanBeDone(actions[done]);
        if !can {
          Parts();
          return NotToBeDone, done, said, met;
        }
        Parts();
        ObjectsAre();
        forall o: object | o in Objects() ensures o in old(Objects()) || fresh(o) {
          var f: OpenFile :| f in files && (o == f || o == f.slots);
          var i :| 0 <= i < |files| && files[i] == f;
        }
        ghost var sys := State();
        var ok, one, a := Act(actions[done]);
        if !ok {
          return NoRoom, done, said, met;
        }
        OneActionMore(m, fs.root, actions[..done], met, actions[done], a);
        assert actions[..done] + [actions[done]] == actions[..done + 1];
        DidIs(sys, actions[done], a, one);
        met := met + [a];
        said := said + [one];
        done := done + 1;
      }
      assert actions[..done] == actions;
      end := AllDone;
    }

    lemma NothingRun(m: Machine)
      ensures RunAfter(m, fs.root, [], []) == m && RunSaid(m, fs.root, [], []) == []
    {
    }

    lemma DidIs(m: Machine, action: Action, a: Answer, said: Said)
      requires fs.storage.Valid() && Did(m, action, a, said)
      ensures State() == ActionAfter(m, fs.root, action, a) && said == ActionSaid(m, fs.root, action, a)
    {
      hide Image, FilesOf, ActionAfter, ActionSaid;
    }

    lemma ObjectsAre()
      ensures forall f: OpenFile :: f in files ==> f in Objects() && f.slots in Objects()
      ensures forall o: object :: o in Objects() ==> exists f: OpenFile :: f in files && (o == f || o == f.slots)
    {
    }
  }
}
