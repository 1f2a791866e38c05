/** What is done to a mounted file system, as steps of a value: calls, sessions, removals of trees and defragmentation. */
module Steps {
  import opened Basics
  import opened Bitmap
  import opened Entries
  import opened Namespace
  import opened Calls
  import opened OpenFiles
  import opened Subtrees

  datatype Mode = Mode(mayRead: bool, mayWrite: bool, append: bool, truncate: bool)

  datatype Step =
    | DoCall(call: Call)
    | DoSession(path: seq<Name>, name: Name, mode: Mode, ops: seq<Op>)
    | DoRemoveTree(path: seq<Name>, name: Name, confirmed: bool)
    | DoDefragment(id: nat)

  predicate StepOk(step: Step) {
    step.DoCall? ==> CallOk(step.call)
  }

  datatype Report =
    | Reported(status: Status)
    | Answered(replies: seq<Reply>)
    | Counted(counted: (nat, nat), removed: (nat, nat))
    | Defragmented

  // ----- Sessions -----

  ghost function StartedOn(bytes: seq<byte>, mode: Mode): Plain {
    var start := if mode.mayWrite && mode.truncate then [] else bytes;
    Plain(start, if mode.append then |start| else 0)
  }

  /** The session is one on a regular file, for reading or writing, and leaves no hole. */
  ghost predicate CanRun(sys: System, d: nat, name: Name, mode: Mode, ops: seq<Op>)
    requires d in sys.ns.dirs
  {
    && name in sys.ns.dirs[d] && IsRegular(sys.ns, sys.ns.dirs[d][name]) && sys.ns.dirs[d][name] in sys.files
    && (mode.mayRead || mode.mayWrite)
    && AllAllowed(StartedOn(sys.files[sys.ns.dirs[d][name]], mode), mode.mayRead, mode.mayWrite, ops)
  }

  ghost function SessionReport(sys: System, d: nat, name: Name, mode: Mode, ops: seq<Op>): Report
    requires d in sys.ns.dirs
  {
    if name !in sys.ns.dirs[d] then Reported(OutOfBounds)
    else if !CanRun(sys, d, name, mode, ops) then Reported(InvalidArgument)
    else Answered(PlainRun(StartedOn(sys.files[sys.ns.dirs[d][name]], mode), mode.mayRead, mode.mayWrite, ops).1)
  }

  ghost function SessionAfter(sys: System, d: nat, name: Name, mode: Mode, ops: seq<Op>): System
    requires d in sys.ns.dirs
  {
    if !CanRun(sys, d, name, mode, ops) then sys
    else
      var t := sys.ns.dirs[d][name];
      sys.(files := sys.files[t := PlainRun(StartedOn(sys.files[t], mode), mode.mayRead, mode.mayWrite, ops).0.bytes])
  }

  // ----- Removing a tree -----

  ghost predicate NamesTree(ns: Namespace, d: nat, name: Name)
    requires d in ns.dirs
  {
    name in ns.dirs[d] && name != DOT && name != DOT_DOT && ns.dirs[d][name] in ns.dirs
  }

  /** The files and the directories below t. */
  ghost function Contents(ns: Namespace, t: nat): (nat, nat) {
    (|FilesIn(ns, t)|, |DirectoriesIn(ns, t) - {t}|)
  }

  ghost function RemovalReport(ns: Namespace, d: nat, name: Name, confirmed: bool): Report
    requires d in ns.dirs
  {
    if name !in ns.dirs[d] then Reported(OutOfBounds)
    else if !NamesTree(ns, d, name) then Reported(InvalidArgument)
    else
      var counted := Contents(ns, ns.dirs[d][name]);
      Counted(counted, if confirmed then counted else (0, 0))
  }

  ghost function RemovalAfter(sys: System, d: nat, name: Name, confirmed: bool): System
    requires d in sys.ns.dirs
  {
    if confirmed && NamesTree(sys.ns, d, name) then
      System(Prune(sys.ns, d, name), sys.open, sys.files - Subtree(sys.ns, sys.ns.dirs[d][name]))
    else sys
  }

  // ----- Steps -----

  ghost function StepReport(sys: System, root: nat, step: Step, a: Answer): Report {
    match step
    case DoCall(call) => Reported(Outcome(sys, root, call, a))
    case DoDefragment(_) => Defragmented
    case DoSession(path, name, mode, ops) =>
      (match Way(sys.ns, root, path)
       case Nowhere(why) => Reported(why)
       case To(d) => if d in sys.ns.dirs then SessionReport(sys, d, name, mode, ops) else Reported(InvalidArgument))
    case DoRemoveTree(path, name, confirmed) =>
      (match Way(sys.ns, root, path)
       case Nowhere(why) => Reported(why)
       case To(d) => if d in sys.ns.dirs then RemovalReport(sys.ns, d, name, confirmed) else Reported(InvalidArgument))
  }

  /** Defragmenting changes nothing a caller can see. */
  ghost function StepAfter(sys: System, root: nat, step: Step, a: Answer): System {
    match step
    case DoCall(call) => After(sys, root, call, a)
    case DoDefragment(_) => sys
    case DoSession(path, name, mode, ops) =>
      var way := Way(sys.ns, root, path);
      if way.To? && way.dir in sys.ns.dirs then SessionAfter(sys, way.dir, name, mode, ops) else sys
    case DoRemoveTree(path, name, confirmed) =>
      var way := Way(sys.ns, root, path);
      if way.To? && way.dir in sys.ns.dirs then RemovalAfter(sys, way.dir, name, confirmed) else sys
  }

  ghost function LifeAfter(sys: System, root: nat, steps: seq<Step>, met: seq<Answer>): System
    requires |met| == |steps|
  {
    if steps == [] then sys
    else
      var n := |steps| - 1;
      StepAfter(LifeAfter(sys, root, steps[..n], met[..n]), root, steps[n], met[n])
  }

  ghost function LifeReports(sys: System, root: nat, steps: seq<Step>, met: seq<Answer>): seq<Report>
    requires |met| == |steps|
  {
    if steps == [] then []
    else
      var n := |steps| - 1;
      LifeReports(sys, root, steps[..n], met[..n])
      + [StepReport(LifeAfter(sys, root, steps[..n], met[..n]), root, steps[n], met[n])]
  }

  lemma OneStepMore(sys: System, root: nat, steps: seq<Step>, met: seq<Answer>, step: Step, a: Answer)
    requires |met| == |steps|
    ensures LifeAfter(sys, root, steps + [step], met + [a]) == StepAfter(LifeAfter(sys, root, steps, met), root, step, a)
    ensures LifeReports(sys, root, steps + [step], met + [a]) ==
            LifeReports(sys, root, steps, met) + [StepReport(LifeAfter(sys, root, steps, met), root, step, a)]
  {
    assert (steps + [step])[..|steps|] == steps && (met + [a])[..|steps|] == met;
  }
}
