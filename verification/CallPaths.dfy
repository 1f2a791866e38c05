/** What calls do at the end of their path: which names, directories, descriptors and contents change, and no others. */
module CallPaths {
  import opened Basics
  import opened Bitmap
  import opened Inodes
  import opened Entries
  import opened Namespace
  import opened Calls
  import opened Paths

  /** All directories but d are where they were. */
  ghost predicate SamePlaces(ns: Namespace, ns': Namespace, root: nat, except: nat) {
    forall q, d :: Plain(q) && d in ns.dirs && d != except ==> (Way(ns', root, q) == To(d) <==> Way(ns, root, q) == To(d))
  }

  lemma WayIsDirectory(ns: Namespace, root: nat, path: seq<Name>)
    requires root in ns.dirs && Way(ns, root, path).To?
    ensures Way(ns, root, path).dir in ns.dirs
  {
  }

  /** A directory that was made is at its path, with nothing in it; it was not there before, and nothing else changes. */
  lemma MadeDirectory(sys: System, root: nat, path: seq<Name>, name: Name, a: Answer)
    requires TreeOk(sys.ns, root) && Outcome(sys, root, MakeDirectory(path, name), a) == Ok
    ensures var sys' := After(sys, root, MakeDirectory(path, name), a);
            var place := Way(sys'.ns, root, path + [name]);
            && TreeOk(sys'.ns, root) && place.To? && place.dir !in sys.ns.kinds && place.dir in sys'.ns.dirs
            && sys'.ns.dirs[place.dir].Keys == {[46], [46, 46]}
            && Way(sys.ns, root, path + [name]) == Nowhere(OutOfBounds)
            && Way(sys'.ns, root, path + [name, [46, 46]]) == Way(sys.ns, root, path)
            && SamePlaces(sys.ns, sys'.ns, root, place.dir)
            && sys'.open == sys.open && sys'.files == sys.files
  {
    hide TreeOk, Way, Plain, LinkDirectory, Leak, NextId;
    NowhereFails(sys.ns, root, path);
    var d, id := Way(sys.ns, root, path).dir, NextId(sys.ns);
    RootFacts(sys.ns, root);
    WayIsDirectory(sys.ns, root, path);
    NextIsNew(sys.ns);
    WayComposes(sys.ns, root, path, [name]);
    OneName(sys.ns, d, name);
    NewDirectoryPath(sys.ns, root, d, name, id, path);
  }

  lemma NextIsNew(ns: Namespace)
    ensures NextId(ns) !in ns.kinds
  {
  }

  /**
   A file that was opened is the one its path names, new and empty if it was not there. It is behind the first
   descriptor that was closed; opening for writing may have emptied it, and no other file changes.
   */
  lemma OpenedFile(sys: System, root: nat, path: seq<Name>, name: Name, mayRead: bool, mayWrite: bool, create: bool,
                   truncate: bool, a: Answer)
    requires var call := OpenFile(path, name, mayRead, mayWrite, create, truncate);
             TreeOk(sys.ns, root) && Outcome(sys, root, call, a) == Ok
    ensures var call := OpenFile(path, name, mayRead, mayWrite, create, truncate);
            var sys', way := After(sys, root, call, a), Way(sys.ns, root, path);
            && TreeOk(sys'.ns, root) && way.To? && way.dir in sys.ns.dirs && Way(sys'.ns, root, path) == way
            && way.dir in sys'.ns.dirs && name in sys'.ns.dirs[way.dir]
            && var t, fd, isNew := sys'.ns.dirs[way.dir][name], FirstClosed(sys.open), name !in sys.ns.dirs[way.dir];
               && (mayRead || mayWrite) && t in sys'.ns.kinds && sys'.ns.kinds[t] == Regular
               && fd < |sys.open| && !sys.open[fd].isOpen && (forall j :: 0 <= j < fd ==> sys.open[j].isOpen)
               && sys'.open == sys.open[fd := Descriptor(true, t)]
               && (isNew ==> create && t !in sys.ns.kinds)
               && (!isNew ==> sys'.ns == sys.ns)
               && sys'.files == (if isNew || (mayWrite && truncate) then sys.files[t := []] else sys.files)
               && SamePlaces(sys.ns, sys'.ns, root, t)
  {
    hide TreeOk, Way, Plain, LinkFile, NextId, AllOpen;
    var call := OpenFile(path, name, mayRead, mayWrite, create, truncate);
    NowhereFails(sys.ns, root, path);
    var d, id := Way(sys.ns, root, path).dir, NextId(sys.ns);
    RootFacts(sys.ns, root);
    WayIsDirectory(sys.ns, root, path);
    NextIsNew(sys.ns);
    ClosedIfAny(sys.open);
    if name !in sys.ns.dirs[d] {
      NewFilePath(sys.ns, root, d, name, id, Regular, path);
    }
  }

  /** A symbolic link that was made has its path and a zero byte for contents, and nothing else changes. */
  lemma MadeLink(sys: System, root: nat, path: seq<Name>, name: Name, target: seq<byte>, a: Answer)
    requires TreeOk(sys.ns, root) && Outcome(sys, root, MakeLink(path, name, target), a) == Ok
    ensures var sys', way := After(sys, root, MakeLink(path, name, target), a), Way(sys.ns, root, path);
            && TreeOk(sys'.ns, root) && way.To? && way.dir in sys.ns.dirs && name !in sys.ns.dirs[way.dir]
            && way.dir in sys'.ns.dirs && name in sys'.ns.dirs[way.dir]
            && var t := sys'.ns.dirs[way.dir][name];
               && t !in sys.ns.kinds && t in sys'.ns.kinds && sys'.ns.kinds[t] == Symlink
               && sys'.open == sys.open && sys'.files == sys.files[t := target + [0]]
               && SamePlaces(sys.ns, sys'.ns, root, t)
  {
    hide TreeOk, Way, Plain, LinkFile, NextId;
    NowhereFails(sys.ns, root, path);
    var d, id := Way(sys.ns, root, path).dir, NextId(sys.ns);
    RootFacts(sys.ns, root);
    WayIsDirectory(sys.ns, root, path);
    NextIsNew(sys.ns);
    NewFilePath(sys.ns, root, d, name, id, Symlink, path);
  }

  /** What may be removed by its path: a file that is not open. */
  lemma RemovedFile(sys: System, root: nat, path: seq<Name>, name: Name, a: Answer)
    requires TreeOk(sys.ns, root)
    ensures Outcome(sys, root, RemoveFile(path, name), a) == Ok <==>
            && 0 < |name| <= 255
            && var way := Way(sys.ns, root, path);
               && way.To? && way.dir in sys.ns.dirs && name in sys.ns.dirs[way.dir]
               && var t := sys.ns.dirs[way.dir][name];
                  && t in sys.ns.kinds && sys.ns.kinds[t] != Directory
                  && forall i :: 0 <= i < |sys.open| && sys.open[i].isOpen ==> sys.open[i].inodeId != t
    ensures Plain(path) && Outcome(sys, root, RemoveFile(path, name), a) == Ok ==>
              var sys', d := After(sys, root, RemoveFile(path, name), a), Way(sys.ns, root, path).dir;
              && d in sys.ns.dirs && name in sys.ns.dirs[d]
              && var t := sys.ns.dirs[d][name];
                 && TreeOk(sys'.ns, root) && d in sys'.ns.dirs && name !in sys'.ns.dirs[d] && t !in sys'.ns.kinds
                 && sys'.open == sys.open && sys'.files == sys.files - {t}
                 && SamePlaces(sys.ns, sys'.ns, root, t)
  {
    hide TreeOk, Way, Plain;
    NowhereFails(sys.ns, root, path);
    RootFacts(sys.ns, root);
    if Way(sys.ns, root, path).To? {
      WayIsDirectory(sys.ns, root, path);
    }
    if Plain(path) && Outcome(sys, root, RemoveFile(path, name), a) == Ok {
      var d := Way(sys.ns, root, path).dir;
      FilesHaveNames(sys.ns, root, d, name);
      RemovedPath(sys.ns, root, d, name, sys.ns.dirs[d][name], path);
    }
  }

  /**
   A directory may be removed by its path when it names only itself and its parent and no descriptor is on its inode;
   its name is then gone, and so is the directory.
   */
  lemma RemovedDirectory(sys: System, root: nat, path: seq<Name>, name: Name, t: nat, a: Answer)
    requires TreeOk(sys.ns, root) && t in sys.ns.dirs && t != root && Plain(path + [name])
    requires Way(sys.ns, root, path + [name]) == To(t)
    ensures Outcome(sys, root, RemoveEmpty(path, name), a) == Ok <==>
            && 0 < |name| <= 255 && sys.ns.dirs[t].Keys == {[46], [46, 46]}
            && forall i :: 0 <= i < |sys.open| && sys.open[i].isOpen ==> sys.open[i].inodeId != t
    ensures Outcome(sys, root, RemoveEmpty(path, name), a) == Ok ==>
              var sys' := After(sys, root, RemoveEmpty(path, name), a);
              && TreeOk(sys'.ns, root) && Way(sys'.ns, root, path + [name]) == Nowhere(OutOfBounds)
              && t !in sys'.ns.kinds && t !in sys'.ns.dirs && sys'.open == sys.open && sys'.files == sys.files - {t}
              && SamePlaces(sys.ns, sys'.ns, root, t)
  {
    hide TreeOk, Way, Plain;
    RootFacts(sys.ns, root);
    PlainParts(path + [name]);
    assert (path + [name])[..|path + [name]| - 1] == path;
    PlainLeadsDown(sys.ns, root, root, path + [name], t);
    var d := Way(sys.ns, root, path).dir;
    WayIsDirectory(sys.ns, root, path);
    ChildFacts(sys.ns, root, d, name, t);
    assert Child(sys.ns, d, name, t);
    if Outcome(sys, root, RemoveEmpty(path, name), a) == Ok {
      RemovedPath(sys.ns, root, d, name, t, path);
    }
  }

  lemma FilesHaveNames(ns: Namespace, root: nat, d: nat, name: Name)
    requires TreeOk(ns, root) && d in ns.dirs && name in ns.dirs[d] && IsFile(ns, ns.dirs[d][name])
    ensures Child(ns, d, name, ns.dirs[d][name]) && ns.dirs[d][name] !in ns.dirs && ns.dirs[d][name] != d
  {
    hide NamedOnce, ChildOk;
    var t := ns.dirs[d][name];
    ParentFacts(ns, root, d);
    DirFacts(ns, root, d);
    if t in ns.dirs {
      DirFacts(ns, root, t);
    }
  }

  /** An empty directory that was made and removed again has left no trace. */
  lemma MadeAndRemoved(sys: System, root: nat, path: seq<Name>, name: Name, a: Answer, b: Answer)
    requires TreeOk(sys.ns, root) && Outcome(sys, root, MakeDirectory(path, name), a) == Ok
    requires forall i :: 0 <= i < |sys.open| && sys.open[i].isOpen ==> sys.open[i].inodeId in sys.ns.kinds
    requires forall id :: id in sys.files ==> id in sys.ns.kinds
    ensures var made := After(sys, root, MakeDirectory(path, name), a);
            && Outcome(made, root, RemoveEmpty(path, name), b) == Ok
            && After(made, root, RemoveEmpty(path, name), b) == sys
  {
    hide TreeOk, Way, Plain, NextId;
    var made := After(sys, root, MakeDirectory(path, name), a);
    NowhereFails(sys.ns, root, path);
    var d, id := Way(sys.ns, root, path).dir, NextId(sys.ns);
    RootFacts(sys.ns, root);
    WayIsDirectory(sys.ns, root, path);
    NextIsNew(sys.ns);
    UnnamedId(sys.ns, root, id);
    assert Paths.Keeps(sys.ns, made.ns);
    KeepsPaths(sys.ns, made.ns, root, path);
    assert made.ns == LinkDirectory(sys.ns, d, name, id);
    UnlinkLinked(sys.ns, d, name, id);
    assert made.ns.dirs[id].Keys == {DOT, DOT_DOT};
    assert !IsOpen(made.open, id);
    assert sys.files - {id} == sys.files;
  }

  lemma UnlinkLinked(ns: Namespace, d: nat, name: Name, id: nat)
    requires d in ns.dirs && d in ns.depth && name !in ns.dirs[d]
    requires id !in ns.dirs && id !in ns.depth && id !in ns.kinds && id != d
    ensures var made := LinkDirectory(ns, d, name, id);
            && d in made.dirs && name in made.dirs[d] && made.dirs[d][name] == id && Unlink(made, d, name) == ns
  {
    var made := LinkDirectory(ns, d, name, id);
    var back := Unlink(made, d, name);
    assert made.dirs[d] - {name} == ns.dirs[d];
    assert back.dirs == ns.dirs;
    assert back.depth == ns.depth && back.kinds == ns.kinds;
  }

  /** A call that is refused or finds no space leaves everything as it was, in all but two cases. */
  lemma FailedCall(sys: System, root: nat, call: Call, a: Answer)
    requires Outcome(sys, root, call, a) != Ok
    ensures !call.MakeDirectory? && !call.OpenFile? ==> After(sys, root, call, a) == sys
    ensures call.MakeDirectory? ==>
              var sys' := After(sys, root, call, a);
              && sys'.open == sys.open && sys'.files == sys.files && sys'.ns.dirs == sys.ns.dirs
              && (sys' == sys || sys'.ns.kinds == sys.ns.kinds[NextId(sys.ns) := Directory])
    ensures call.OpenFile? ==>
              var sys' := After(sys, root, call, a);
              && sys'.open == sys.open && (sys' == sys || forall fd :: 0 <= fd < |sys.open| ==> sys.open[fd].isOpen)
  {
    hide Way, NextId, ValidName, IsOpen;
  }

  /** Closing frees the descriptor and nothing else; it is refused exactly when the descriptor is not open. */
  lemma ClosedDescriptor(sys: System, root: nat, fd: nat, a: Answer)
    ensures Outcome(sys, root, CloseFile(fd), a) == if fd < |sys.open| && sys.open[fd].isOpen then Ok else InvalidArgument
    ensures var sys' := After(sys, root, CloseFile(fd), a);
            && sys'.ns == sys.ns && sys'.files == sys.files && |sys'.open| == |sys.open|
            && forall i :: 0 <= i < |sys.open| ==>
                 && sys'.open[i].inodeId == sys.open[i].inodeId
                 && (sys'.open[i].isOpen <==> sys.open[i].isOpen && i != fd)
  {
  }
}
