/** The calls of the file system as steps of a value: names, open descriptors and the contents of all files. */
module Calls {
  import opened Basics
  import opened Bitmap
  import opened Inodes
  import opened FlatFile
  import opened Entries
  import opened Namespace

  // ----- Paths -----

  datatype Destination = Nowhere(why: Status) | To(dir: nat)

  /** The directory the names of path lead to, from the root. */
  ghost function Way(ns: Namespace, root: nat, path: seq<Name>): Destination {
    if path == [] then To(root)
    else
      var before, name := Way(ns, root, path[..|path| - 1]), path[|path| - 1];
      if before.Nowhere? then before
      else if before.dir !in ns.dirs || name !in ns.dirs[before.dir] then Nowhere(OutOfBounds)
      else if ns.dirs[before.dir][name] !in ns.dirs then Nowhere(InvalidArgument)
      else To(ns.dirs[before.dir][name])
  }

  lemma {:induction false} NoWay(ns: Namespace, root: nat, path: seq<Name>, n: nat)
    requires n <= |path| && Way(ns, root, path[..n]).Nowhere?
    ensures Way(ns, root, path) == Way(ns, root, path[..n])
    decreases |path|
  {
    if n < |path| {
      assert path[..|path| - 1][..n] == path[..n];
      NoWay(ns, root, path[..|path| - 1], n);
    } else {
      assert path[..n] == path;
    }
  }

  lemma {:induction false} NowhereFails(ns: Namespace, root: nat, path: seq<Name>)
    ensures Way(ns, root, path).Nowhere? ==> Way(ns, root, path).why == OutOfBounds || Way(ns, root, path).why == InvalidArgument
  {
    if path != [] {
      NowhereFails(ns, root, path[..|path| - 1]);
    }
  }

  /** What the last name of a path may be at all. */
  predicate IsComponent(name: Name) {
    0 < |name| <= MAX_FILENAME_LENGTH
  }

  // ----- Calls -----

  /** A path is the list of names from the root to the directory the call works in. */
  datatype Call =
    | OpenFile(path: seq<Name>, name: Name, mayRead: bool, mayWrite: bool, create: bool, truncate: bool)
    | MakeDirectory(path: seq<Name>, name: Name)
    | MakeLink(path: seq<Name>, name: Name, target: seq<byte>)
    | RemoveFile(path: seq<Name>, name: Name)
    | RemoveEmpty(path: seq<Name>, name: Name)
    | CloseFile(fd: nat)

  predicate CallOk(call: Call) {
    match call
    case OpenFile(_, name, _, _, _, _) => IsCString(name)
    case MakeDirectory(_, name) => IsCString(name)
    case MakeLink(_, name, target) => IsCString(name) && |target| + 1 <= MAX_FILE_BYTES
    case RemoveFile(_, _) => true
    case RemoveEmpty(_, _) => true
    case CloseFile(_) => true
  }

  /** Calls turned down before anything is looked up. */
  predicate Refused(call: Call) {
    match call
    case OpenFile(_, name, mayRead, mayWrite, create, _) => (!mayRead && !mayWrite) || (create && !IsComponent(name))
    case CloseFile(_) => false
    case _ => !IsComponent(call.name)
  }

  /** The names, the open descriptors, and the bytes of every file that is not a directory. */
  datatype System = System(ns: Namespace, open: seq<Descriptor>, files: map<nat, seq<byte>>)

  /**
   What a call depends on besides: whether it runs out of inodes or clusters before it enters its name; whether the
   name has space in its directory then; and whether the file under the name parses to at most two entries.
   */
  datatype Answer = Answer(early: bool, fits: bool, few: bool)

  predicate AllOpen(open: seq<Descriptor>) {
    forall j :: 0 <= j < |open| ==> open[j].isOpen
  }

  function FirstClosed(open: seq<Descriptor>): (fd: nat)
    ensures fd <= |open| && (forall j :: 0 <= j < fd ==> open[j].isOpen) && (fd < |open| ==> !open[fd].isOpen)
  {
    if open == [] || open[0].isOpen == false then 0 else 1 + FirstClosed(open[1..])
  }

  lemma IsFirstClosed(open: seq<Descriptor>, fd: nat)
    requires fd < |open| && !open[fd].isOpen && forall j :: 0 <= j < fd ==> open[j].isOpen
    ensures fd == FirstClosed(open)
  {
  }

  // ----- What a call reports -----

  ghost function Outcome(sys: System, root: nat, call: Call, a: Answer): Status {
    match call
    case CloseFile(fd) => if fd < |sys.open| && sys.open[fd].isOpen then Ok else InvalidArgument
    case _ =>
      var way := Way(sys.ns, root, call.path);
      if Refused(call) then InvalidArgument
      else if way.Nowhere? then way.why
      else if way.dir !in sys.ns.dirs then InvalidArgument
      else OutcomeIn(sys, way.dir, call, a)
  }

  ghost function OutcomeIn(sys: System, d: nat, call: Call, a: Answer): Status
    requires d in sys.ns.dirs
  {
    var names := sys.ns.dirs[d];
    match call
    case OpenFile(_, name, _, _, create, _) =>
      if name in names then
        if IsRegular(sys.ns, names[name]) then (if AllOpen(sys.open) then OutOfBounds else Ok) else InvalidArgument
      else if !create then OutOfBounds
      else if a.early then NoSpace
      else if !ValidName(name) then InvalidArgument
      else if !a.fits then NoSpace
      else if AllOpen(sys.open) then OutOfBounds
      else Ok
    case MakeDirectory(_, name) =>
      if a.early then NoSpace
      else if !ValidName(name) || name in names then InvalidArgument
      else if a.fits then Ok
      else NoSpace
    case MakeLink(_, name, _) =>
      if name in names then InvalidArgument
      else if a.early then NoSpace
      else if !ValidName(name) then InvalidArgument
      else if a.fits then Ok
      else NoSpace
    case RemoveFile(_, name) =>
      if name !in names then OutOfBounds
      else if IsOpen(sys.open, names[name]) || !IsFile(sys.ns, names[name]) then InvalidArgument
      else Ok
    case RemoveEmpty(_, name) =>
      if name !in names then OutOfBounds
      else if IsOpen(sys.open, names[name]) || name == DOT || name == DOT_DOT then InvalidArgument
      else if HoldsFew(sys.ns, names[name], a) then Ok
      else InvalidArgument
    case CloseFile(_) => InvalidArgument
  }

  ghost predicate IsRegular(ns: Namespace, id: nat) {
    id in ns.kinds && ns.kinds[id] == Regular
  }

  ghost predicate IsFile(ns: Namespace, id: nat) {
    id in ns.kinds && ns.kinds[id] != Directory
  }

  /** A directory of "." and ".." alone, or a file that parses to at most two entries. */
  ghost predicate HoldsFew(ns: Namespace, id: nat, a: Answer) {
    if id in ns.dirs then ns.dirs[id].Keys == {DOT, DOT_DOT} else a.few
  }

  // ----- What a call does -----

  ghost function After(sys: System, root: nat, call: Call, a: Answer): System {
    match call
    case CloseFile(fd) =>
      if fd < |sys.open| && sys.open[fd].isOpen then sys.(open := sys.open[fd := sys.open[fd].(isOpen := false)]) else sys
    case _ =>
      var way := Way(sys.ns, root, call.path);
      if Refused(call) || way.Nowhere? || way.dir !in sys.ns.dirs || way.dir !in sys.ns.depth then sys
      else AfterIn(sys, way.dir, call, a)
  }

  ghost function AfterIn(sys: System, d: nat, call: Call, a: Answer): System
    requires d in sys.ns.dirs && d in sys.ns.depth
  {
    var ns, names, id := sys.ns, sys.ns.dirs[d], NextId(sys.ns);
    match call
    case OpenFile(_, name, _, mayWrite, create, truncate) =>
      if name in names then
        var t := names[name];
        if !IsRegular(ns, t) then sys
        else Opened(if mayWrite && truncate then sys.(files := sys.files[t := []]) else sys, t)
      else if create && !a.early && ValidName(name) && a.fits then
        Opened(System(LinkFile(ns, d, name, id, Regular), sys.open, sys.files[id := []]), id)
      else sys
    case MakeDirectory(_, name) =>
      if OutcomeIn(sys, d, call, a) == Ok then sys.(ns := LinkDirectory(ns, d, name, id))
      else if a.early then sys
      else sys.(ns := Leak(ns, id))
    case MakeLink(_, name, target) =>
      if OutcomeIn(sys, d, call, a) == Ok
      then System(LinkFile(ns, d, name, id, Symlink), sys.open, sys.files[id := target + [0]])
      else sys
    case RemoveFile(_, name) =>
      if OutcomeIn(sys, d, call, a) == Ok then Unlinked(sys, d, name) else sys
    case RemoveEmpty(_, name) =>
      if OutcomeIn(sys, d, call, a) == Ok then Unlinked(sys, d, name) else sys
    case CloseFile(_) => sys
  }

  ghost function Opened(sys: System, id: nat): System {
    if AllOpen(sys.open) then sys
    else
      var fd := FirstClosed(sys.open);
      if fd < |sys.open| then sys.(open := sys.open[fd := Descriptor(true, id)]) else sys
  }

  ghost function Unlinked(sys: System, d: nat, name: Name): System
    requires d in sys.ns.dirs && name in sys.ns.dirs[d]
  {
    System(Unlink(sys.ns, d, name), sys.open, sys.files - {sys.ns.dirs[d][name]})
  }

  // ----- Runs -----

  ghost function AfterAll(sys: System, root: nat, calls: seq<Call>, answers: seq<Answer>): System
    requires |answers| == |calls|
  {
    if calls == [] then sys
    else
      var n := |calls| - 1;
      After(AfterAll(sys, root, calls[..n], answers[..n]), root, calls[n], answers[n])
  }

  ghost function Outcomes(sys: System, root: nat, calls: seq<Call>, answers: seq<Answer>): seq<Status>
    requires |answers| == |calls|
  {
    if calls == [] then []
    else
      var n := |calls| - 1;
      Outcomes(sys, root, calls[..n], answers[..n])
      + [Outcome(AfterAll(sys, root, calls[..n], answers[..n]), root, calls[n], answers[n])]
  }

  lemma OneCallMore(sys: System, root: nat, calls: seq<Call>, answers: seq<Answer>, call: Call, a: Answer)
    requires |answers| == |calls|
    ensures AfterAll(sys, root, calls + [call], answers + [a]) == After(AfterAll(sys, root, calls, answers), root, call, a)
    ensures Outcomes(sys, root, calls + [call], answers + [a]) ==
            Outcomes(sys, root, calls, answers) + [Outcome(AfterAll(sys, root, calls, answers), root, call, a)]
  {
    assert (calls + [call])[..|calls|] == calls && (answers + [a])[..|calls|] == answers;
  }

  // ----- Descriptors -----

  /** Only opening and closing touch the descriptors. */
  lemma NamesKeepOpen(sys: System, root: nat, call: Call, a: Answer)
    requires !call.CloseFile? && !(call.OpenFile? && Outcome(sys, root, call, a) == Ok)
    ensures After(sys, root, call, a).open == sys.open
  {
    hide Way, LinkFile, LinkDirectory, Leak, Unlink, NextId, ValidName, IsOpen;
  }

  /** A file that was opened is behind the first descriptor that was closed. */
  lemma OpensFirst(sys: System, root: nat, call: Call, a: Answer)
    requires call.OpenFile? && Outcome(sys, root, call, a) == Ok && sys.ns.dirs.Keys == sys.ns.depth.Keys
    ensures var fd, open := FirstClosed(sys.open), After(sys, root, call, a).open;
            && fd < |sys.open| == |open| && open[fd].isOpen && open == sys.open[fd := Descriptor(true, open[fd].inodeId)]
  {
    hide Way, LinkFile, NextId, ValidName, AllOpen, FirstClosed;
    ClosedIfAny(sys.open);
    var way := Way(sys.ns, root, call.path);
    NowhereFails(sys.ns, root, call.path);
    assert way.To? && way.dir in sys.ns.dirs && way.dir in sys.ns.depth;
    assert Outcome(sys, root, call, a) == OutcomeIn(sys, way.dir, call, a);
    assert !AllOpen(sys.open);
  }

  lemma ClosedIfAny(open: seq<Descriptor>)
    ensures !AllOpen(open) ==> FirstClosed(open) < |open|
  {
  }
}
