/** Names and open files together, as a value: calls on names come between reads and writes of descriptors. */
module Actions {
  import opened Bitmap
  import opened Entries
  import opened Namespace
  import opened Calls
  import opened OpenFiles
  import opened Steps
  import opened Inodes

  /** What a descriptor is to its user. */
  datatype Handle = Closed | Handle(mayRead: bool, mayWrite: bool, position: nat)

  /** The system with the descriptors in use. */
  datatype Machine = Machine(sys: System, handles: seq<Handle>)

  datatype Action =
    | Name(call: Call)
    | OpenAt(path: seq<Name>, name: Entries.Name, mode: Mode, create: bool)
    | Work(fd: nat, op: Op)
    | CloseAt(fd: nat)

  datatype Said = Told(status: Status) | Gave(reply: Reply)

  predicate ActionOk(action: Action) {
    match action
    case Name(call) => CallOk(call) && !call.OpenFile? && !call.CloseFile?
    case OpenAt(_, name, _, _) => IsCString(name)
    case Work(_, _) => true
    case CloseAt(_) => true
  }

  function OpenCall(path: seq<Entries.Name>, name: Entries.Name, mode: Mode, create: bool): Call {
    OpenFile(path, name, mode.mayRead, mode.mayWrite, create, mode.truncate)
  }

  ghost predicate InUse(m: Machine, fd: nat) {
    fd < |m.handles| && m.handles[fd].Handle? && fd < |m.sys.open| && m.sys.open[fd].inodeId in m.sys.files
  }

  /** The file of a descriptor as a plain byte sequence. */
  ghost function PlainOf(m: Machine, fd: nat): Plain
    requires InUse(m, fd)
  {
    Plain(m.sys.files[m.sys.open[fd].inodeId], m.handles[fd].position)
  }

  ghost predicate MayWork(m: Machine, fd: nat, op: Op)
    requires InUse(m, fd)
  {
    m.handles[fd].mayWrite ==> Allowed(PlainOf(m, fd), op)
  }

  /** The action opens no file a second time, and leaves no hole. */
  ghost predicate CanDo(m: Machine, root: nat, action: Action) {
    match action
    case Name(_) => true
    case OpenAt(path, name, _, _) =>
      var way := Way(m.sys.ns, root, path);
      way.To? && way.dir in m.sys.ns.dirs && name in m.sys.ns.dirs[way.dir] ==>
        !IsOpen(m.sys.open, m.sys.ns.dirs[way.dir][name])
    case Work(fd, op) => InUse(m, fd) ==> MayWork(m, fd, op)
    case CloseAt(_) => true
  }

  ghost function ActionSaid(m: Machine, root: nat, action: Action, a: Answer): Said {
    match action
    case Name(call) => Told(Outcome(m.sys, root, call, a))
    case OpenAt(path, name, mode, create) => Told(Outcome(m.sys, root, OpenCall(path, name, mode, create), a))
    case Work(fd, op) =>
      if InUse(m, fd) && MayWork(m, fd, op) then Gave(PlainStep(PlainOf(m, fd), m.handles[fd].mayRead, m.handles[fd].mayWrite, op).1)
      else Gave(Reply(InvalidArgument, [], 0))
    case CloseAt(fd) =>
      if !InUse(m, fd) then Told(InvalidArgument) else if a.fits then Told(Ok) else Told(NoSpace)
  }

  ghost function ActionAfter(m: Machine, root: nat, action: Action, a: Answer): Machine {
    match action
    case Name(call) => m.(sys := After(m.sys, root, call, a))
    case OpenAt(path, name, mode, create) =>
      var call := OpenCall(path, name, mode, create);
      var sys := After(m.sys, root, call, a);
      if Outcome(m.sys, root, call, a) == Ok then Machine(sys, WithHandle(m.handles, sys, FirstClosed(m.sys.open), mode))
      else m.(sys := sys)
    case Work(fd, op) =>
      if InUse(m, fd) && MayWork(m, fd, op) then
        var p := PlainStep(PlainOf(m, fd), m.handles[fd].mayRead, m.handles[fd].mayWrite, op).0;
        Machine(m.sys.(files := m.sys.files[m.sys.open[fd].inodeId := p.bytes]),
                m.handles[fd := m.handles[fd].(position := p.position)])
      else m
    case CloseAt(fd) =>
      if InUse(m, fd) && a.fits then Machine(After(m.sys, root, CloseFile(fd), a), m.handles[fd := Closed]) else m
  }

  /** The handle of a file just opened: at its end for appending, else at its start. */
  ghost function WithHandle(handles: seq<Handle>, sys: System, fd: nat, mode: Mode): seq<Handle> {
    if fd < |handles| && fd < |sys.open| && sys.open[fd].inodeId in sys.files then
      handles[fd := Handle(mode.mayRead, mode.mayWrite, if mode.append then |sys.files[sys.open[fd].inodeId]| else 0)]
    else handles
  }

  // ----- Runs -----

  ghost function RunAfter(m: Machine, root: nat, actions: seq<Action>, met: seq<Answer>): Machine
    requires |met| == |actions|
  {
    if actions == [] then m
    else
      var n := |actions| - 1;
      ActionAfter(RunAfter(m, root, actions[..n], met[..n]), root, actions[n], met[n])
  }

  ghost function RunSaid(m: Machine, root: nat, actions: seq<Action>, met: seq<Answer>): seq<Said>
    requires |met| == |actions|
  {
    if actions == [] then []
    else
      var n := |actions| - 1;
      RunSaid(m, root, actions[..n], met[..n])
      + [ActionSaid(RunAfter(m, root, actions[..n], met[..n]), root, actions[n], met[n])]
  }

  lemma OneActionMore(m: Machine, root: nat, actions: seq<Action>, met: seq<Answer>, action: Action, a: Answer)
    requires |met| == |actions|
    ensures RunAfter(m, root, actions + [action], met + [a]) == ActionAfter(RunAfter(m, root, actions, met), root, action, a)
    ensures RunSaid(m, root, actions + [action], met + [a]) ==
            RunSaid(m, root, actions, met) + [ActionSaid(RunAfter(m, root, actions, met), root, action, a)]
  {
    assert (actions + [action])[..|actions|] == actions && (met + [a])[..|actions|] == met;
  }

  // ----- What actions leave alone -----

  /** A descriptor that is not open can neither be worked on nor closed. */
  lemma NotOpen(m: Machine, root: nat, fd: nat, op: Op, a: Answer)
    requires fd >= |m.handles| || m.handles[fd].Closed?
    ensures ActionSaid(m, root, Work(fd, op), a) == Gave(Reply(InvalidArgument, [], 0))
    ensures ActionSaid(m, root, CloseAt(fd), a) == Told(InvalidArgument)
    ensures ActionAfter(m, root, Work(fd, op), a) == m == ActionAfter(m, root, CloseAt(fd), a)
  {
    hide PlainStep;
  }

  /** Work changes the bytes of one file and the position of one descriptor, and reads change no bytes. */
  lemma WorkStays(m: Machine, root: nat, fd: nat, op: Op, a: Answer)
    requires InUse(m, fd) && MayWork(m, fd, op)
    ensures var m', id := ActionAfter(m, root, Work(fd, op), a), m.sys.open[fd].inodeId;
            && m'.sys.ns == m.sys.ns && m'.sys.open == m.sys.open
            && m'.sys.files.Keys == m.sys.files.Keys
            && (forall j :: j in m.sys.files && j != id ==> m'.sys.files[j] == m.sys.files[j])
            && ((op.WriteOp? && m.handles[fd].mayWrite) || m'.sys.files == m.sys.files)
            && |m'.handles| == |m.handles| && (forall i :: 0 <= i < |m.handles| && i != fd ==> m'.handles[i] == m.handles[i])
            && m'.handles[fd] == Handle(m.handles[fd].mayRead, m.handles[fd].mayWrite, m'.handles[fd].position)
  {
    hide ReadBytes, SeekStatus, SeekTarget;
    var m', id := ActionAfter(m, root, Work(fd, op), a), m.sys.open[fd].inodeId;
    if !(op.WriteOp? && m.handles[fd].mayWrite) {
      assert m'.sys.files == m.sys.files;
    }
  }

  /** A file just opened is behind the first closed descriptor, at its end for appending, else at its start. */
  lemma OpenedAt(m: Machine, root: nat, path: seq<Entries.Name>, name: Entries.Name, mode: Mode, create: bool, a: Answer)
    requires |m.handles| == |m.sys.open| && m.sys.ns.dirs.Keys == m.sys.ns.depth.Keys
    requires forall id :: id in m.sys.ns.kinds && m.sys.ns.kinds[id] != Directory ==> id in m.sys.files
    requires ActionSaid(m, root, OpenAt(path, name, mode, create), a) == Told(Ok)
    ensures var m', fd := ActionAfter(m, root, OpenAt(path, name, mode, create), a), FirstClosed(m.sys.open);
            && fd < |m.sys.open| == |m'.sys.open| == |m'.handles| && !m.sys.open[fd].isOpen && m'.sys.open[fd].isOpen
            && m'.sys.open[fd].inodeId in m'.sys.files
            && m'.handles[fd] == Handle(mode.mayRead, mode.mayWrite,
                                        if mode.append then |m'.sys.files[m'.sys.open[fd].inodeId]| else 0)
            && forall i :: 0 <= i < |m.handles| && i != fd ==> m'.handles[i] == m.handles[i]
  {
    hide Way, LinkFile, NextId, ValidName, AllOpen;
    var call := OpenCall(path, name, mode, create);
    OpensFirst(m.sys, root, call, a);
    var sys, fd := After(m.sys, root, call, a), FirstClosed(m.sys.open);
    OpenedIsFile(m.sys, root, path, name, mode, create, a);
    ClosedIfAny(m.sys.open);
    hide After, Outcome;
    assert WithHandle(m.handles, sys, fd, mode)[fd].Handle?;
  }

  lemma OpenedIsFile(sys: System, root: nat, path: seq<Entries.Name>, name: Entries.Name, mode: Mode, create: bool,
                     a: Answer)
    requires sys.ns.dirs.Keys == sys.ns.depth.Keys
    requires forall id :: id in sys.ns.kinds && sys.ns.kinds[id] != Directory ==> id in sys.files
    requires Outcome(sys, root, OpenCall(path, name, mode, create), a) == Ok
    ensures var fd, sys' := FirstClosed(sys.open), After(sys, root, OpenCall(path, name, mode, create), a);
            fd < |sys.open| == |sys'.open| && !sys.open[fd].isOpen && sys'.open[fd].inodeId in sys'.files
  {
    hide Way, LinkFile, NextId, ValidName;
    NowhereFails(sys.ns, root, path);
    ClosedIfAny(sys.open);
  }
}
