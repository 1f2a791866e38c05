/** Where paths lead: name by name, once for every directory, and how calls change it. */
module Paths {
  import opened Bitmap
  import opened Inodes
  import opened Entries
  import opened Namespace
  import opened Subtrees
  import opened Calls

  /** No name of the path is "." or "..". */
  ghost predicate Plain(path: seq<Name>) {
    forall i :: 0 <= i < |path| ==> path[i] != [46] && path[i] != [46, 46]
  }

  // ----- Following a path -----

  lemma NoNames(ns: Namespace, d: nat)
    ensures Way(ns, d, []) == To(d)
  {
  }

  /** One name leads to the directory behind it. */
  lemma OneName(ns: Namespace, d: nat, name: Name)
    ensures Way(ns, d, [name]) ==
            if d !in ns.dirs || name !in ns.dirs[d] then Nowhere(OutOfBounds)
            else if ns.dirs[d][name] !in ns.dirs then Nowhere(InvalidArgument)
            else To(ns.dirs[d][name])
  {
    assert [name][..0] == [];
  }

  /** A path is followed on from where its first part led. */
  lemma {:induction false} WayComposes(ns: Namespace, root: nat, p: seq<Name>, q: seq<Name>)
    ensures Way(ns, root, p + q) == match Way(ns, root, p) case To(d) => Way(ns, d, q) case Nowhere(why) => Nowhere(why)
    decreases |q|
  {
    if q == [] {
      assert p + q == p;
    } else {
      var front := q[..|q| - 1];
      assert (p + q)[..|p + q| - 1] == p + front;
      WayComposes(ns, root, p, front);
    }
  }

  lemma LastName(ns: Namespace, root: nat, path: seq<Name>)
    requires path != []
    ensures var p, name := path[..|path| - 1], path[|path| - 1];
            Way(ns, root, path) == match Way(ns, root, p) case To(d) => Way(ns, d, [name]) case Nowhere(why) => Nowhere(why)
  {
    assert path == path[..|path| - 1] + [path[|path| - 1]];
    WayComposes(ns, root, path[..|path| - 1], [path[|path| - 1]]);
  }

  // ----- Paths in a tree -----

  lemma PlainParts(path: seq<Name>)
    requires Plain(path) && path != []
    ensures Plain(path[..|path| - 1]) && path[|path| - 1] != DOT && path[|path| - 1] != DOT_DOT
  {
  }

  /** A path without dots leads as many levels down as it has names, to a directory its last name names. */
  lemma {:induction false} PlainLeadsDown(ns: Namespace, root: nat, t: nat, path: seq<Name>, d: nat)
    requires TreeOk(ns, root) && t in ns.dirs && Plain(path) && Way(ns, t, path) == To(d)
    ensures d in ns.dirs && d in ns.depth && t in ns.depth && ns.depth[d] == ns.depth[t] + |path|
    ensures path == [] ==> d == t
    ensures path != [] ==>
              var p := Way(ns, t, path[..|path| - 1]);
              p.To? && Child(ns, p.dir, path[|path| - 1], d)
    decreases |path|
  {
    hide TreeOk, Plain;
    DirFacts(ns, root, t);
    if path != [] {
      PlainParts(path);
      LastName(ns, t, path);
      var p := Way(ns, t, path[..|path| - 1]);
      PlainLeadsDown(ns, root, t, path[..|path| - 1], p.dir);
      OneName(ns, p.dir, path[|path| - 1]);
      ChildDepth(ns, root, p.dir, path[|path| - 1], d);
    }
  }

  /** Every directory has such a path from every directory it lies below. */
  lemma {:induction false} HasPath(ns: Namespace, root: nat, t: nat, d: nat) returns (path: seq<Name>)
    requires TreeOk(ns, root) && Below(ns, t, d)
    ensures Plain(path) && Way(ns, t, path) == To(d)
    decreases ns.depth[d]
  {
    hide TreeOk, Child;
    BelowStep(ns, root, t, d);
    if d == t {
      return [];
    }
    var p, name := OldHangs(ns, root, d);
    ChildDepth(ns, root, p, name, d);
    var front := HasPath(ns, root, t, p);
    path := front + [name];
    ChildIsNamed(ns, p, name, d);
    WayComposes(ns, t, front, [name]);
    OneName(ns, p, name);
  }

  lemma ChildIsNamed(ns: Namespace, d: nat, name: Name, t: nat)
    requires Child(ns, d, name, t)
    ensures d in ns.dirs && name in ns.dirs[d] && ns.dirs[d][name] == t && name != [46] && name != [46, 46]
  {
  }

  lemma BelowRoot(ns: Namespace, root: nat, d: nat)
    requires TreeOk(ns, root) && d in ns.dirs
    ensures Below(ns, root, d)
  {
    hide TreeOk;
    RootFacts(ns, root);
    DirFacts(ns, root, d);
    LeadsToRoot(ns, root, d, ns.depth[d]);
  }

  /** Every directory has exactly one path without dots, and it has as many names as the directory is deep. */
  lemma PathOf(ns: Namespace, root: nat, d: nat) returns (path: seq<Name>)
    requires TreeOk(ns, root) && d in ns.dirs
    ensures Plain(path) && Way(ns, root, path) == To(d) && d in ns.depth && |path| == ns.depth[d]
    ensures forall q :: Plain(q) && Way(ns, root, q) == To(d) ==> q == path
  {
    hide TreeOk, Below, Way, Plain;
    BelowRoot(ns, root, d);
    RootFacts(ns, root);
    path := HasPath(ns, root, root, d);
    PlainLeadsDown(ns, root, root, path, d);
    forall q | Plain(q) && Way(ns, root, q) == To(d) ensures q == path {
      SamePath(ns, root, root, path, q, d);
    }
  }

  /** No two paths without dots lead from one directory to another. */
  lemma {:induction false} SamePath(ns: Namespace, root: nat, t: nat, p: seq<Name>, q: seq<Name>, d: nat)
    requires TreeOk(ns, root) && t in ns.dirs && Plain(p) && Plain(q) && Way(ns, t, p) == To(d) == Way(ns, t, q)
    ensures p == q
    decreases |p|
  {
    hide TreeOk, Plain, Way, Child;
    PlainLeadsDown(ns, root, t, p, d);
    PlainLeadsDown(ns, root, t, q, d);
    if p != [] {
      var a, b := Way(ns, t, p[..|p| - 1]).dir, Way(ns, t, q[..|q| - 1]).dir;
      SameNamer(ns, root, a, p[|p| - 1], b, q[|q| - 1], d);
      PlainParts(p);
      PlainParts(q);
      SamePath(ns, root, t, p[..|p| - 1], q[..|q| - 1], a);
      assert p == p[..|p| - 1] + [p[|p| - 1]] && q == q[..|q| - 1] + [q[|q| - 1]];
    }
  }

  /** ".." leads one level up, back to where the last name was looked up, and "." stays; above the root is the root. */
  lemma DotsLead(ns: Namespace, root: nat, path: seq<Name>, d: nat)
    requires TreeOk(ns, root) && Way(ns, root, path) == To(d) && d in ns.dirs
    ensures Way(ns, root, path + [[46]]) == To(d)
    ensures DOT_DOT in ns.dirs[d] && Way(ns, root, path + [[46, 46]]) == To(ns.dirs[d][DOT_DOT])
    ensures d == root ==> Way(ns, root, path + [[46, 46]]) == To(root)
    ensures Plain(path) && path != [] ==> Way(ns, root, path + [[46, 46]]) == Way(ns, root, path[..|path| - 1])
  {
    hide TreeOk, Child, Way, Plain;
    DirFacts(ns, root, d);
    ParentFacts(ns, root, d);
    RootFacts(ns, root);
    WayComposes(ns, root, path, [DOT]);
    WayComposes(ns, root, path, [DOT_DOT]);
    OneName(ns, d, DOT);
    OneName(ns, d, DOT_DOT);
    if Plain(path) && path != [] {
      PlainLeadsDown(ns, root, root, path, d);
      ChildDepth(ns, root, Way(ns, root, path[..|path| - 1]).dir, path[|path| - 1], d);
    }
  }

  /** A directory lies in the tree below t exactly when a path without dots leads there from t. */
  lemma InTreeIfReached(ns: Namespace, root: nat, t: nat, d: nat)
    requires TreeOk(ns, root) && t in ns.dirs
    ensures d in DirectoriesIn(ns, t) <==> exists path :: Plain(path) && Way(ns, t, path) == To(d)
  {
    hide TreeOk, Below, Way, Plain, Child;
    if d in DirectoriesIn(ns, t) {
      InSubtree(ns, root, t, d);
      UnderDirectory(ns, root, t, d);
      var path := HasPath(ns, root, t, d);
    }
    if exists path :: Plain(path) && Way(ns, t, path) == To(d) {
      var path :| Plain(path) && Way(ns, t, path) == To(d);
      ReachedIsBelow(ns, root, t, path, d);
      PlainLeadsDown(ns, root, t, path, d);
      DirFacts(ns, root, d);
      UnderDirectory(ns, root, t, d);
    }
  }

  lemma InSubtree(ns: Namespace, root: nat, t: nat, d: nat)
    requires TreeOk(ns, root) && t in ns.dirs && d in DirectoriesIn(ns, t)
    ensures d in ns.dirs
  {
    hide TreeOk;
    DirFacts(ns, root, t);
    if d != t {
      var e, name :| Child(ns, e, name, d) && Below(ns, t, e);
      ChildDepth(ns, root, e, name, d);
    }
  }

  lemma {:induction false} ReachedIsBelow(ns: Namespace, root: nat, t: nat, path: seq<Name>, d: nat)
    requires TreeOk(ns, root) && t in ns.dirs && Plain(path) && Way(ns, t, path) == To(d)
    ensures Below(ns, t, d)
    decreases |path|
  {
    hide TreeOk, Way, Plain, Child, Ancestor;
    PlainLeadsDown(ns, root, t, path, d);
    BelowStep(ns, root, t, t);
    if path != [] {
      PlainParts(path);
      var p := Way(ns, t, path[..|path| - 1]).dir;
      ReachedIsBelow(ns, root, t, path[..|path| - 1], p);
      ChildDepth(ns, root, p, path[|path| - 1], d);
      BelowStep(ns, root, t, d);
    }
  }

  /** A file lies in the tree below t exactly when a directory that a path without dots leads to from t names it. */
  lemma FileInTree(ns: Namespace, root: nat, t: nat, j: nat)
    requires TreeOk(ns, root) && t in ns.dirs
    ensures j in FilesIn(ns, t) <==>
            && j in ns.kinds && ns.kinds[j] != Directory
            && exists path, d, name :: Plain(path) && Way(ns, t, path) == To(d) && Child(ns, d, name, j)
  {
    hide TreeOk, Below, Way, Plain, Child;
    DirFacts(ns, root, t);
    if j in FilesIn(ns, t) {
      var d, name :| Child(ns, d, name, j) && Below(ns, t, d);
      var path := HasPath(ns, root, t, d);
    }
    if exists path, d, name :: Plain(path) && Way(ns, t, path) == To(d) && Child(ns, d, name, j) {
      var path, d, name :| Plain(path) && Way(ns, t, path) == To(d) && Child(ns, d, name, j);
      ReachedIsBelow(ns, root, t, path, d);
    }
  }

  // ----- How steps change what paths lead to -----

  /** Names are only added, and never changed: what paths led to, they still lead to. */
  ghost predicate Keeps(ns: Namespace, ns': Namespace) {
    forall d, name :: d in ns.dirs && name in ns.dirs[d] ==>
      d in ns'.dirs && name in ns'.dirs[d] && ns'.dirs[d][name] == ns.dirs[d][name]
  }

  lemma {:induction false} KeepsPaths(ns: Namespace, ns': Namespace, root: nat, path: seq<Name>)
    requires ns.dirs.Keys <= ns'.dirs.Keys && Keeps(ns, ns') && Way(ns, root, path).To?
    ensures Way(ns', root, path) == Way(ns, root, path)
    decreases |path|
  {
    if path != [] {
      KeepsPaths(ns, ns', root, path[..|path| - 1]);
    }
  }

  /** A step that only adds names keeps where every path without dots leads, both ways, among the old directories. */
  lemma OldPaths(ns: Namespace, ns': Namespace, root: nat, path: seq<Name>, d: nat)
    requires TreeOk(ns, root) && TreeOk(ns', root) && ns.dirs.Keys <= ns'.dirs.Keys && Keeps(ns, ns')
    requires d in ns.dirs && Plain(path)
    ensures Way(ns', root, path) == To(d) <==> Way(ns, root, path) == To(d)
  {
    hide TreeOk, Keeps, Way, Plain, Child;
    if Way(ns, root, path) == To(d) {
      KeepsPaths(ns, ns', root, path);
    }
    if Way(ns', root, path) == To(d) {
      var p := PathOf(ns, root, d);
      KeepsPaths(ns, ns', root, p);
      RootFacts(ns', root);
      SamePath(ns', root, root, path, p, d);
    }
  }

  /** A new directory is where its path says, and all others stay where they were. */
  lemma NewDirectoryPath(ns: Namespace, root: nat, parent: nat, name: Name, id: nat, path: seq<Name>)
    requires TreeOk(ns, root) && Way(ns, root, path) == To(parent) && parent in ns.dirs && parent in ns.depth
    requires id !in ns.kinds && name !in ns.dirs[parent] && ValidName(name)
    ensures var ns' := LinkDirectory(ns, parent, name, id);
            && TreeOk(ns', root) && Way(ns', root, path + [name]) == To(id)
            && Way(ns', root, path + [name, [46, 46]]) == To(parent)
            && id in ns'.dirs && ns'.dirs[id] == map[[46] := id, [46, 46] := parent]
            && forall q, d :: Plain(q) && d in ns.dirs ==> (Way(ns', root, q) == To(d) <==> Way(ns, root, q) == To(d))
  {
    hide TreeOk, Child, Way, Plain;
    var ns' := LinkDirectory(ns, parent, name, id);
    LinkDirectoryKeepsTree(ns, root, parent, name, id);
    UnnamedId(ns, root, id);
    assert Keeps(ns, ns');
    hide Keeps;
    KeepsPaths(ns, ns', root, path);
    WayComposes(ns', root, path, [name]);
    OneName(ns', parent, name);
    DotsLead(ns', root, path + [name], id);
    assert path + [name, [46, 46]] == path + [name] + [[46, 46]];
    forall q, d | Plain(q) && d in ns.dirs ensures Way(ns', root, q) == To(d) <==> Way(ns, root, q) == To(d) {
      OldPaths(ns, ns', root, q, d);
    }
  }

  /** A new file changes no path to a directory, and its own path leads nowhere further. */
  lemma NewFilePath(ns: Namespace, root: nat, parent: nat, name: Name, id: nat, kind: FileType, path: seq<Name>)
    requires TreeOk(ns, root) && Way(ns, root, path) == To(parent) && parent in ns.dirs
    requires id !in ns.kinds && kind != Directory && name !in ns.dirs[parent] && ValidName(name)
    ensures var ns' := LinkFile(ns, parent, name, id, kind);
            && TreeOk(ns', root) && Way(ns', root, path + [name]) == Nowhere(InvalidArgument)
            && Way(ns', root, path) == To(parent) && parent in ns'.dirs && name in ns'.dirs[parent]
            && ns'.dirs[parent][name] == id && id in ns'.kinds && ns'.kinds[id] == kind
            && forall q, d :: Plain(q) && d in ns.dirs ==> (Way(ns', root, q) == To(d) <==> Way(ns, root, q) == To(d))
  {
    hide TreeOk, Child, Way, Plain;
    var ns' := LinkFile(ns, parent, name, id, kind);
    LinkFileKeepsTree(ns, root, parent, name, id, kind);
    UnnamedId(ns, root, id);
    assert Keeps(ns, ns');
    hide Keeps;
    KeepsPaths(ns, ns', root, path);
    WayComposes(ns', root, path, [name]);
    OneName(ns', parent, name);
    forall q, d | Plain(q) && d in ns.dirs ensures Way(ns', root, q) == To(d) <==> Way(ns, root, q) == To(d) {
      OldPaths(ns, ns', root, q, d);
    }
  }

  /** A name taken away leads nowhere; every other directory stays where it was. */
  lemma RemovedPath(ns: Namespace, root: nat, parent: nat, name: Name, t: nat, path: seq<Name>)
    requires TreeOk(ns, root) && Child(ns, parent, name, t) && Way(ns, root, path) == To(parent) && Plain(path)
    requires t in ns.dirs ==> ns.dirs[t].Keys == {DOT, DOT_DOT}
    ensures parent in ns.dirs && name in ns.dirs[parent]
    ensures var ns' := Unlink(ns, parent, name);
            && TreeOk(ns', root) && Way(ns', root, path + [name]) == Nowhere(OutOfBounds)
            && forall q, d :: Plain(q) && d in ns.dirs && d != t ==> (Way(ns', root, q) == To(d) <==> Way(ns, root, q) == To(d))
  {
    hide TreeOk, Way, Plain;
    var ns' := Unlink(ns, parent, name);
    UnlinkKeepsTree(ns, root, parent, name, t);
    ChildFacts(ns, root, parent, name, t);
    ChildDepth(ns, root, parent, name, t);
    RootFacts(ns', root);
    forall q, d | Plain(q) && d in ns.dirs && d != t ensures Way(ns', root, q) == To(d) <==> Way(ns, root, q) == To(d) {
      UnlinkedPath(ns, root, parent, name, t, q, d);
    }
    WayComposes(ns', root, path, [name]);
    OneName(ns', parent, name);
  }

  lemma UnlinkedPath(ns: Namespace, root: nat, parent: nat, name: Name, t: nat, q: seq<Name>, d: nat)
    requires TreeOk(ns, root) && Child(ns, parent, name, t) && d in ns.dirs && d != t && Plain(q)
    requires t in ns.dirs ==> ns.dirs[t].Keys == {DOT, DOT_DOT}
    ensures parent in ns.dirs && name in ns.dirs[parent]
    ensures var ns' := Unlink(ns, parent, name); Way(ns', root, q) == To(d) <==> Way(ns, root, q) == To(d)
  {
    hide TreeOk, Way, Plain;
    var ns' := Unlink(ns, parent, name);
    UnlinkKeepsTree(ns, root, parent, name, t);
    ChildFacts(ns, root, parent, name, t);
    assert ns'.dirs.Keys <= ns.dirs.Keys && Keeps(ns', ns);
    OldPaths(ns', ns, root, q, d);
  }
}
