/** What sessions do to the file at their path, and what removing a tree does to all paths. */
module StepPaths {
  import opened Basics
  import opened Bitmap
  import opened Inodes
  import opened Entries
  import opened FlatFile
  import opened Namespace
  import opened Calls
  import opened OpenFiles
  import opened PlainFiles
  import opened Subtrees
  import opened Steps
  import Paths

  /** The path and the name lead to the regular file t. */
  ghost predicate FileAt(sys: System, root: nat, path: seq<Name>, name: Name, t: nat) {
    var way := Way(sys.ns, root, path);
    && way.To? && way.dir in sys.ns.dirs && name in sys.ns.dirs[way.dir] && sys.ns.dirs[way.dir][name] == t
    && t in sys.ns.kinds && sys.ns.kinds[t] == Regular && t in sys.files
  }

  /** A session is refused, and changes nothing, unless its file is there and may be read or written without a hole. */
  lemma SessionRefused(sys: System, root: nat, path: seq<Name>, name: Name, mode: Mode, ops: seq<Op>, a: Answer)
    ensures StepReport(sys, root, DoSession(path, name, mode, ops), a).Answered? <==>
            exists t :: && FileAt(sys, root, path, name, t) && (mode.mayRead || mode.mayWrite)
                        && AllAllowed(StartedOn(sys.files[t], mode), mode.mayRead, mode.mayWrite, ops)
    ensures !StepReport(sys, root, DoSession(path, name, mode, ops), a).Answered? ==>
              StepAfter(sys, root, DoSession(path, name, mode, ops), a) == sys
  {
    hide Way, StartedOn, AllAllowed, PlainRun;
    var way := Way(sys.ns, root, path);
    if way.To? && way.dir in sys.ns.dirs && name in sys.ns.dirs[way.dir] {
      var t := sys.ns.dirs[way.dir][name];
      assert CanRun(sys, way.dir, name, mode, ops) <==>
             FileAt(sys, root, path, name, t) && (mode.mayRead || mode.mayWrite)
             && AllAllowed(StartedOn(sys.files[t], mode), mode.mayRead, mode.mayWrite, ops);
    }
  }

  lemma RunsOn(sys: System, root: nat, path: seq<Name>, name: Name, t: nat, mode: Mode, ops: seq<Op>, a: Answer)
    requires FileAt(sys, root, path, name, t) && (mode.mayRead || mode.mayWrite)
    requires AllAllowed(StartedOn(sys.files[t], mode), mode.mayRead, mode.mayWrite, ops)
    ensures var run := PlainRun(StartedOn(sys.files[t], mode), mode.mayRead, mode.mayWrite, ops);
            && StepReport(sys, root, DoSession(path, name, mode, ops), a) == Answered(run.1)
            && StepAfter(sys, root, DoSession(path, name, mode, ops), a) == sys.(files := sys.files[t := run.0.bytes])
  {
    hide Way, StartedOn, AllAllowed, PlainRun;
    assert CanRun(sys, Way(sys.ns, root, path).dir, name, mode, ops);
  }

  /** Writing in a session that appends puts the bytes behind the file's own, and changes no other file. */
  lemma AppendSession(sys: System, root: nat, path: seq<Name>, name: Name, t: nat, mode: Mode, data: seq<byte>,
                      a: Answer)
    requires FileAt(sys, root, path, name, t) && mode.mayWrite && mode.append && !mode.truncate
    requires |sys.files[t]| + |data| <= MAX_FILE_BYTES
    ensures var session := DoSession(path, name, mode, [WriteOp(data)]);
            && StepReport(sys, root, session, a) == Answered([Reply(Ok, [], |data|)])
            && StepAfter(sys, root, session, a) == sys.(files := sys.files[t := sys.files[t] + data])
  {
    hide StepReport, StepAfter, Way;
    var start := StartedOn(sys.files[t], mode);
    WritesRead(start, data);
    var bytes := PlainRun(start, mode.mayRead, true, [WriteOp(data)]).0.bytes;
    OneStep(start, mode.mayRead, true, WriteOp(data));
    OneStep(start, true, true, WriteOp(data));
    assert bytes == sys.files[t] + data;
    RunsOn(sys, root, path, name, t, mode, [WriteOp(data)], a);
  }

  /** Writing in a session that empties the file leaves just what was written. */
  lemma ReplaceSession(sys: System, root: nat, path: seq<Name>, name: Name, t: nat, mode: Mode, data: seq<byte>,
                       a: Answer)
    requires FileAt(sys, root, path, name, t) && mode.mayWrite && mode.truncate && |data| <= MAX_FILE_BYTES
    ensures var session := DoSession(path, name, mode, [WriteOp(data)]);
            && StepReport(sys, root, session, a) == Answered([Reply(Ok, [], |data|)])
            && StepAfter(sys, root, session, a) == sys.(files := sys.files[t := data])
  {
    hide StepReport, StepAfter, Way;
    var start := StartedOn(sys.files[t], mode);
    OneStep(start, mode.mayRead, true, WriteOp(data));
    assert PlainRun(start, mode.mayRead, true, [WriteOp(data)]).0.bytes == data;
    RunsOn(sys, root, path, name, t, mode, [WriteOp(data)], a);
  }

  /** Reading gives the file's first bytes and changes nothing; what may not be written is not emptied either. */
  lemma ReadSession(sys: System, root: nat, path: seq<Name>, name: Name, t: nat, mode: Mode, n: nat, a: Answer)
    requires FileAt(sys, root, path, name, t) && mode.mayRead && !mode.append && !(mode.mayWrite && mode.truncate)
    ensures var session, m := DoSession(path, name, mode, [ReadOp(n)]), Min(n, |sys.files[t]|);
            && StepReport(sys, root, session, a) == Answered([Reply(Ok, sys.files[t][..m], m)])
            && StepAfter(sys, root, session, a) == sys
  {
    hide StepReport, StepAfter, Way;
    var start, m := StartedOn(sys.files[t], mode), Min(n, |sys.files[t]|);
    OneStep(start, true, mode.mayWrite, ReadOp(n));
    assert ReadBytes(sys.files[t], 0, n) == sys.files[t][..m];
    RunsOn(sys, root, path, name, t, mode, [ReadOp(n)], a);
    assert sys.files[t := sys.files[t]] == sys.files;
  }

  // ----- Removing a tree by its path -----

  /**
   The tree at a path: its files and the directories below it are counted; after removal its path leads nowhere, its
   inodes are gone with their bytes, and every directory outside of it is where it was.
   */
  lemma RemovedTree(sys: System, root: nat, path: seq<Name>, name: Name, t: nat, a: Answer)
    requires TreeOk(sys.ns, root) && t in sys.ns.dirs && t != root && Paths.Plain(path + [name])
    requires Way(sys.ns, root, path + [name]) == To(t)
    ensures var files, below := FilesIn(sys.ns, t), DirectoriesIn(sys.ns, t) - {t};
            var counted := (|files|, |below|);
            && StepReport(sys, root, DoRemoveTree(path, name, true), a) == Counted(counted, counted)
            && StepReport(sys, root, DoRemoveTree(path, name, false), a) == Counted(counted, (0, 0))
            && StepAfter(sys, root, DoRemoveTree(path, name, false), a) == sys
    ensures var sys' := StepAfter(sys, root, DoRemoveTree(path, name, true), a);
            var gone := FilesIn(sys.ns, t) + DirectoriesIn(sys.ns, t);
            && TreeOk(sys'.ns, root) && Way(sys'.ns, root, path + [name]) == Nowhere(OutOfBounds)
            && sys'.ns.kinds == sys.ns.kinds - gone && sys'.files == sys.files - gone && sys'.open == sys.open
            && forall q, d :: Paths.Plain(q) && d in sys.ns.dirs && d !in gone ==>
                 (Way(sys'.ns, root, q) == To(d) <==> Way(sys.ns, root, q) == To(d))
  {
    hide TreeOk, Way, Paths.Plain, Child, Under, Below;
    TreeAtPath(sys.ns, root, path, name, t);
    var d := Way(sys.ns, root, path).dir;
    assert NamesTree(sys.ns, d, name);
    var gone := FilesIn(sys.ns, t) + DirectoriesIn(sys.ns, t);
    assert Subtree(sys.ns, t) == gone;
    PrunedPaths(sys.ns, root, d, name, t, path);
  }

  lemma TreeAtPath(ns: Namespace, root: nat, path: seq<Name>, name: Name, t: nat)
    requires TreeOk(ns, root) && t in ns.dirs && Paths.Plain(path + [name]) && Way(ns, root, path + [name]) == To(t)
    ensures var way := Way(ns, root, path);
            && Paths.Plain(path) && way.To? && Child(ns, way.dir, name, t)
            && way.dir in ns.dirs && name in ns.dirs[way.dir] && ns.dirs[way.dir][name] == t
            && name != DOT && name != DOT_DOT
  {
    hide TreeOk, Way;
    RootFacts(ns, root);
    assert (path + [name])[..|path + [name]| - 1] == path && (path + [name])[|path|] == name;
    Paths.PlainParts(path + [name]);
    Paths.PlainLeadsDown(ns, root, root, path + [name], t);
    Paths.ChildIsNamed(ns, Way(ns, root, path).dir, name, t);
  }

  lemma PrunedPaths(ns: Namespace, root: nat, parent: nat, name: Name, t: nat, path: seq<Name>)
    requires TreeOk(ns, root) && Child(ns, parent, name, t) && Way(ns, root, path) == To(parent) && Paths.Plain(path)
    ensures parent in ns.dirs && name in ns.dirs[parent]
    ensures var ns' := Prune(ns, parent, name);
            && TreeOk(ns', root) && Way(ns', root, path + [name]) == Nowhere(OutOfBounds)
            && forall q, d :: Paths.Plain(q) && d in ns.dirs && d !in Subtree(ns, t) ==>
                 (Way(ns', root, q) == To(d) <==> Way(ns, root, q) == To(d))
  {
    hide TreeOk, Way, Paths.Plain, Child, Under, Below;
    Paths.ChildIsNamed(ns, parent, name, t);
    var ns' := Prune(ns, parent, name);
    PruneKeepsTree(ns, root, parent, name, t);
    PrunedChildren(ns, root, parent, name, t, parent, name, t);
    assert ns'.dirs.Keys <= ns.dirs.Keys && Paths.Keeps(ns', ns);
    hide Subtree, Paths.Keeps;
    forall q, d | Paths.Plain(q) && d in ns.dirs && d !in Subtree(ns, t)
      ensures Way(ns', root, q) == To(d) <==> Way(ns, root, q) == To(d)
    {
      assert d in ns'.dirs;
      Paths.OldPaths(ns', ns, root, q, d);
    }
    Paths.WayComposes(ns', root, path, [name]);
    Paths.OneName(ns', parent, name);
  }
}
