/** The graph of directories as a value: when it is a tree, and which steps keep it one. */
module Namespace {
  import opened Inodes
  import opened Entries

  /**
   The directories that can be reached, each as a map from names to inodes; how deep each of them lies; and the
   kind of every inode in use.
   */
  datatype Namespace = Namespace(dirs: map<nat, map<Name, nat>>, depth: map<nat, nat>, kinds: map<nat, FileType>)

  datatype Descriptor = Descriptor(isOpen: bool, inodeId: nat)

  /** Directory d names inode t. */
  ghost predicate Child(ns: Namespace, d: nat, name: Name, t: nat) {
    d in ns.dirs && name in ns.dirs[d] && name != DOT && name != DOT_DOT && ns.dirs[d][name] == t
  }

  ghost predicate IsNamed(ns: Namespace, d: nat, t: nat) {
    exists name :: Child(ns, d, name, t)
  }

  ghost predicate Dots(ns: Namespace, d: nat) {
    d in ns.dirs && DOT in ns.dirs[d] && ns.dirs[d][DOT] == d && DOT_DOT in ns.dirs[d]
  }

  /** A directory other than the root is named in the directory its ".." leads to, one level up. */
  ghost predicate Hangs(ns: Namespace, d: nat) {
    && Dots(ns, d)
    && var p := ns.dirs[d][DOT_DOT];
       p in ns.dirs && p in ns.depth && d in ns.depth && ns.depth[d] == ns.depth[p] + 1 && IsNamed(ns, p, d)
  }

  /** Whatever is named is in use, is not the root, and, if it is a directory, leads back. */
  ghost predicate ChildOk(ns: Namespace, root: nat, d: nat, t: nat) {
    && t in ns.kinds && t != root
    && (ns.kinds[t] == Directory ==> t in ns.dirs && DOT_DOT in ns.dirs[t] && ns.dirs[t][DOT_DOT] == d)
  }

  ghost predicate NamedOnce(ns: Namespace) {
    forall d, name, e, name', t, t' ::
      Child(ns, d, name, t) && Child(ns, e, name', t') && t == t' ==> d == e && name == name'
  }

  ghost predicate TreeOk(ns: Namespace, root: nat) {
    && ns.dirs.Keys == ns.depth.Keys
    && root in ns.dirs && ns.depth[root] == 0 && Dots(ns, root) && ns.dirs[root][DOT_DOT] == root
    && (forall d :: d in ns.dirs ==> d in ns.kinds && ns.kinds[d] == Directory && Dots(ns, d))
    && (forall d :: d in ns.dirs && d != root ==> Hangs(ns, d))
    && (forall d, name, t :: Child(ns, d, name, t) ==> ChildOk(ns, root, d, t))
    && NamedOnce(ns)
  }

  /** Every open descriptor refers to a regular file in use. */
  ghost predicate OpenOk(ns: Namespace, open: seq<Descriptor>) {
    forall i :: 0 <= i < |open| && open[i].isOpen ==> open[i].inodeId in ns.kinds && ns.kinds[open[i].inodeId] == Regular
  }

  predicate IsOpen(open: seq<Descriptor>, id: nat) {
    exists i :: 0 <= i < |open| && open[i].isOpen && open[i].inodeId == id
  }

  // ----- Climbing to the root -----

  ghost function Ancestor(ns: Namespace, d: nat, n: nat): nat {
    if n == 0 then d
    else
      var a := Ancestor(ns, d, n - 1);
      if a in ns.dirs && DOT_DOT in ns.dirs[a] then ns.dirs[a][DOT_DOT] else a
  }

  lemma ParentFacts(ns: Namespace, root: nat, d: nat)
    requires TreeOk(ns, root) && d in ns.dirs
    ensures d in ns.depth && DOT_DOT in ns.dirs[d] && ns.dirs[d][DOT_DOT] in ns.dirs && ns.dirs[d][DOT_DOT] in ns.depth
    ensures if d == root then ns.depth[d] == 0 else ns.depth[d] == ns.depth[ns.dirs[d][DOT_DOT]] + 1
  {
    hide Child, NamedOnce, ChildOk, IsNamed;
    if d != root {
      assert Hangs(ns, d);
    }
  }

  /** Following ".." as often as a directory is deep leads through ever shallower directories to the root. */
  lemma {:induction false} LeadsToRoot(ns: Namespace, root: nat, d: nat, n: nat)
    requires TreeOk(ns, root) && d in ns.dirs && d in ns.depth && n <= ns.depth[d]
    ensures var a := Ancestor(ns, d, n);
            && a in ns.dirs && a in ns.depth && ns.depth[a] == ns.depth[d] - n
            && (a == root <==> n == ns.depth[d])
  {
    hide TreeOk;
    if n > 0 {
      LeadsToRoot(ns, root, d, n - 1);
      ParentFacts(ns, root, Ancestor(ns, d, n - 1));
    }
    ParentFacts(ns, root, Ancestor(ns, d, n));
  }

  // ----- Steps -----

  /** A new file with a name. */
  ghost function LinkFile(ns: Namespace, parent: nat, name: Name, id: nat, kind: FileType): Namespace
    requires parent in ns.dirs
  {
    var names: map<Name, nat> := ns.dirs[parent][name := id];
    ns.(dirs := ns.dirs[parent := names], kinds := ns.kinds[id := kind])
  }

  /** A new empty directory with a name. */
  ghost function LinkDirectory(ns: Namespace, parent: nat, name: Name, id: nat): Namespace
    requires parent in ns.dirs && parent in ns.depth
  {
    var names: map<Name, nat> := ns.dirs[parent][name := id];
    Namespace(ns.dirs[parent := names][id := FirstNames(id, parent)],
              ns.depth[id := ns.depth[parent] + 1],
              ns.kinds[id := Directory])
  }

  /** A directory that is in use but was never given its name. */
  ghost function Leak(ns: Namespace, id: nat): Namespace {
    ns.(kinds := ns.kinds[id := Directory])
  }

  /** A name and the file or empty directory behind it are gone. */
  ghost function Unlink(ns: Namespace, parent: nat, name: Name): Namespace
    requires parent in ns.dirs && name in ns.dirs[parent]
  {
    var t := ns.dirs[parent][name];
    Namespace(ns.dirs[parent := ns.dirs[parent] - {name}] - {t}, ns.depth - {t}, ns.kinds - {t})
  }

  /** The least inode from i on that is not in use. */
  ghost function FreeFrom(used: set<nat>, i: nat): (id: nat)
    ensures i <= id && id !in used && forall j: nat :: i <= j < id ==> j in used
    decreases used
  {
    if i in used then FreeFrom(used - {i}, i + 1) else i
  }

  /** The inode the next file gets. */
  ghost function NextId(ns: Namespace): nat {
    FreeFrom(ns.kinds.Keys, 0)
  }

  lemma IsNextId(ns: Namespace, id: nat)
    requires id !in ns.kinds && forall j: nat :: j < id ==> j in ns.kinds
    ensures id == NextId(ns)
  {
  }

  // ----- What a step does to the names -----

  /** Exactly one name is new. */
  ghost predicate Gains(ns: Namespace, ns': Namespace, parent: nat, name: Name, id: nat) {
    forall d, n, t :: Child(ns', d, n, t) <==> Child(ns, d, n, t) || (d == parent && n == name && t == id)
  }

  /** Exactly one name is gone. */
  ghost predicate Loses(ns: Namespace, ns': Namespace, parent: nat, name: Name) {
    forall d, n, t :: Child(ns', d, n, t) <==> Child(ns, d, n, t) && !(d == parent && n == name)
  }

  lemma ChildFacts(ns: Namespace, root: nat, d: nat, name: Name, t: nat)
    requires TreeOk(ns, root) && Child(ns, d, name, t)
    ensures ChildOk(ns, root, d, t) && d in ns.dirs && d in ns.kinds && ns.kinds[d] == Directory
    ensures d == t ==> false
  {
    hide NamedOnce, Hangs;
    assert ChildOk(ns, root, d, t);
    if d == t {
      ParentFacts(ns, root, t);
    }
  }

  lemma GainedOnce(ns: Namespace, ns': Namespace, parent: nat, name: Name, id: nat)
    requires NamedOnce(ns) && Gains(ns, ns', parent, name, id)
    requires forall d, n :: !Child(ns, d, n, id)
    ensures NamedOnce(ns')
  {
    hide Child;
  }

  lemma LostOnce(ns: Namespace, ns': Namespace, parent: nat, name: Name)
    requires NamedOnce(ns) && Loses(ns, ns', parent, name)
    ensures NamedOnce(ns')
  {
    hide Child;
  }

  /** A directory hangs where it did when its own entry, and its depth and its parent's, are as before. */
  lemma StillHangs(ns: Namespace, ns': Namespace, d: nat)
    requires Hangs(ns, d) && Dots(ns', d) && ns'.dirs[d][DOT_DOT] == ns.dirs[d][DOT_DOT]
    requires var p := ns.dirs[d][DOT_DOT];
             && p in ns'.dirs && p in ns'.depth && d in ns'.depth
             && ns'.depth[d] == ns.depth[d] && ns'.depth[p] == ns.depth[p] && IsNamed(ns', p, d)
    ensures Hangs(ns', d)
  {
    hide Child, IsNamed, Dots;
  }

  lemma LinkFileGains(ns: Namespace, parent: nat, name: Name, id: nat, kind: FileType)
    requires parent in ns.dirs && name !in ns.dirs[parent] && ValidName(name)
    ensures Gains(ns, LinkFile(ns, parent, name, id, kind), parent, name, id)
  {
  }

  lemma LinkDirectoryGains(ns: Namespace, parent: nat, name: Name, id: nat)
    requires parent in ns.dirs && parent in ns.depth && id !in ns.dirs && name !in ns.dirs[parent] && ValidName(name)
    ensures Gains(ns, LinkDirectory(ns, parent, name, id), parent, name, id)
  {
  }

  lemma UnlinkLoses(ns: Namespace, parent: nat, name: Name, t: nat)
    requires Child(ns, parent, name, t) && parent != t
    requires t in ns.dirs ==> ns.dirs[t].Keys == {DOT, DOT_DOT}
    ensures Loses(ns, Unlink(ns, parent, name), parent, name)
  {
    NoChildren(ns, t);
  }

  lemma NoChildren(ns: Namespace, t: nat)
    ensures t in ns.dirs && ns.dirs[t].Keys == {DOT, DOT_DOT} ==> forall n, x :: !Child(ns, t, n, x)
  {
    if t in ns.dirs && ns.dirs[t].Keys == {DOT, DOT_DOT} {
      forall n, x ensures !Child(ns, t, n, x) {
        assert n in ns.dirs[t] <==> n in ns.dirs[t].Keys;
      }
    }
  }

  lemma UnnamedId(ns: Namespace, root: nat, id: nat)
    requires TreeOk(ns, root) && id !in ns.kinds
    ensures id !in ns.dirs && id !in ns.depth && id != root && forall d, n :: !Child(ns, d, n, id)
  {
    forall d, n ensures !Child(ns, d, n, id) {
      if Child(ns, d, n, id) {
        ChildFacts(ns, root, d, n, id);
      }
    }
  }

  lemma TreeParts(ns: Namespace, root: nat)
    requires ns.dirs.Keys == ns.depth.Keys
    requires root in ns.dirs && ns.depth[root] == 0 && Dots(ns, root) && ns.dirs[root][DOT_DOT] == root
    requires forall d :: d in ns.dirs ==> d in ns.kinds && ns.kinds[d] == Directory && Dots(ns, d)
    requires forall d :: d in ns.dirs && d != root ==> Hangs(ns, d)
    requires forall d, name, t :: Child(ns, d, name, t) ==> ChildOk(ns, root, d, t)
    requires NamedOnce(ns)
    ensures TreeOk(ns, root)
  {
    hide Child, NamedOnce, ChildOk, Hangs, Dots;
  }

  lemma OldHangs(ns: Namespace, root: nat, d: nat) returns (p: nat, n: Name)
    requires TreeOk(ns, root) && d in ns.dirs && d != root
    ensures Hangs(ns, d) && p == ns.dirs[d][DOT_DOT] && Child(ns, p, n, d)
  {
    hide Child, NamedOnce, ChildOk;
    assert Hangs(ns, d);
    p := ns.dirs[d][DOT_DOT];
    n :| Child(ns, p, n, d);
  }

  lemma DirFacts(ns: Namespace, root: nat, d: nat)
    requires TreeOk(ns, root) && d in ns.dirs
    ensures Dots(ns, d) && d in ns.kinds && ns.kinds[d] == Directory && d in ns.depth
  {
    hide Child, NamedOnce, ChildOk, Hangs;
  }

  lemma RootFacts(ns: Namespace, root: nat)
    requires TreeOk(ns, root)
    ensures root in ns.dirs && root in ns.depth && ns.depth[root] == 0 && Dots(ns, root) && ns.dirs[root][DOT_DOT] == root
    ensures ns.dirs.Keys == ns.depth.Keys && NamedOnce(ns)
  {
    hide Child, NamedOnce, ChildOk, Hangs;
  }

  lemma LinkFileKeepsTree(ns: Namespace, root: nat, parent: nat, name: Name, id: nat, kind: FileType)
    requires TreeOk(ns, root) && parent in ns.dirs && id !in ns.kinds && kind != Directory
    requires name !in ns.dirs[parent] && ValidName(name)
    ensures TreeOk(LinkFile(ns, parent, name, id, kind), root)
  {
    hide Child, NamedOnce, Hangs, TreeOk;
    var ns' := LinkFile(ns, parent, name, id, kind);
    LinkFileGains(ns, parent, name, id, kind);
    UnnamedId(ns, root, id);
    RootFacts(ns, root);
    GainedOnce(ns, ns', parent, name, id);
    forall d | d in ns'.dirs ensures d in ns'.kinds && ns'.kinds[d] == Directory && Dots(ns', d) {
      DirFacts(ns, root, d);
    }
    forall d | d in ns'.dirs && d != root ensures Hangs(ns', d) {
      var p, n := OldHangs(ns, root, d);
      ParentFacts(ns, root, d);
      assert Child(ns', p, n, d);
      StillHangs(ns, ns', d);
    }
    forall d, n, t | Child(ns', d, n, t) ensures ChildOk(ns', root, d, t) {
      if Child(ns, d, n, t) {
        ChildFacts(ns, root, d, n, t);
      }
    }
    TreeParts(ns', root);
  }

  lemma LinkDirectoryKeepsTree(ns: Namespace, root: nat, parent: nat, name: Name, id: nat)
    requires TreeOk(ns, root) && parent in ns.dirs && parent in ns.depth && id !in ns.kinds
    requires name !in ns.dirs[parent] && ValidName(name)
    ensures TreeOk(LinkDirectory(ns, parent, name, id), root)
  {
    hide Child, NamedOnce, TreeOk;
    var ns' := LinkDirectory(ns, parent, name, id);
    UnnamedId(ns, root, id);
    LinkDirectoryGains(ns, parent, name, id);
    RootFacts(ns, root);
    GainedOnce(ns, ns', parent, name, id);
    forall d | d in ns'.dirs ensures d in ns'.kinds && ns'.kinds[d] == Directory && Dots(ns', d) {
      if d != id {
        DirFacts(ns, root, d);
      }
    }
    forall d | d in ns'.dirs && d != root ensures Hangs(ns', d) {
      if d == id {
        assert Child(ns', parent, name, id);
      } else {
        var p, n := OldHangs(ns, root, d);
        ParentFacts(ns, root, d);
        assert Child(ns', p, n, d);
        StillHangs(ns, ns', d);
      }
    }
    forall d, n, t | Child(ns', d, n, t) ensures ChildOk(ns', root, d, t) {
      if Child(ns, d, n, t) {
        ChildFacts(ns, root, d, n, t);
      }
    }
    TreeParts(ns', root);
  }

  lemma LeakKeepsTree(ns: Namespace, root: nat, id: nat)
    requires TreeOk(ns, root) && id !in ns.kinds
    ensures TreeOk(Leak(ns, id), root)
  {
    hide NamedOnce, TreeOk;
    var ns' := Leak(ns, id);
    UnnamedId(ns, root, id);
    RootFacts(ns, root);
    forall d, n, t ensures Child(ns', d, n, t) <==> Child(ns, d, n, t) {
    }
    hide Child;
    SameChildrenOnce(ns, ns');
    forall d | d in ns'.dirs ensures d in ns'.kinds && ns'.kinds[d] == Directory && Dots(ns', d) {
      DirFacts(ns, root, d);
    }
    forall d | d in ns'.dirs && d != root ensures Hangs(ns', d) {
      var p, n := OldHangs(ns, root, d);
      ParentFacts(ns, root, d);
      assert Child(ns', p, n, d);
      StillHangs(ns, ns', d);
    }
    forall d, n, t | Child(ns', d, n, t) ensures ChildOk(ns', root, d, t) {
      ChildFacts(ns, root, d, n, t);
    }
    TreeParts(ns', root);
  }

  lemma SameChildrenOnce(ns: Namespace, ns': Namespace)
    requires NamedOnce(ns) && forall d, n, t :: Child(ns', d, n, t) <==> Child(ns, d, n, t)
    ensures NamedOnce(ns')
  {
    hide Child;
  }

  /** Removing a file, or a directory without children, leaves a tree. */
  lemma UnlinkKeepsTree(ns: Namespace, root: nat, parent: nat, name: Name, t: nat)
    requires TreeOk(ns, root) && Child(ns, parent, name, t)
    requires t in ns.dirs ==> ns.dirs[t].Keys == {DOT, DOT_DOT}
    ensures TreeOk(Unlink(ns, parent, name), root)
  {
    hide NamedOnce, TreeOk;
    var ns' := Unlink(ns, parent, name);
    ChildFacts(ns, root, parent, name, t);
    UnlinkLoses(ns, parent, name, t);
    hide Child;
    RootFacts(ns, root);
    LostOnce(ns, ns', parent, name);
    forall d | d in ns'.dirs ensures d in ns'.kinds && ns'.kinds[d] == Directory && Dots(ns', d) {
      DirFacts(ns, root, d);
    }
    forall d | d in ns'.dirs && d != root ensures Hangs(ns', d) {
      var p, n := OldHangs(ns, root, d);
      ParentFacts(ns, root, d);
      UnlinkedHangs(ns, root, parent, name, t, d, p, n);
      StillHangs(ns, ns', d);
    }
    forall d, n, x | Child(ns', d, n, x) ensures ChildOk(ns', root, d, x) {
      ChildFacts(ns, root, d, n, x);
      OnlyName(ns, parent, name, d, n, t, x);
    }
    TreeParts(ns', root);
  }

  lemma OnlyName(ns: Namespace, d: nat, n: Name, e: nat, m: Name, t: nat, x: nat)
    requires NamedOnce(ns) && Child(ns, d, n, t) && Child(ns, e, m, x)
    ensures t == x ==> d == e && n == m
  {
    hide Child;
  }

  lemma UnlinkedHangs(ns: Namespace, root: nat, parent: nat, name: Name, t: nat, d: nat, p: nat, n: Name)
    requires TreeOk(ns, root) && Child(ns, parent, name, t) && d != t
    requires t in ns.dirs ==> ns.dirs[t].Keys == {DOT, DOT_DOT}
    requires Child(ns, p, n, d) && Loses(ns, Unlink(ns, parent, name), parent, name)
    ensures p != t && IsNamed(Unlink(ns, parent, name), p, d)
  {
    hide NamedOnce, Hangs, TreeOk, Loses;
    NoChildren(ns, t);
    assert !(p == parent && n == name);
    LosesOther(ns, Unlink(ns, parent, name), parent, name, p, n, d);
  }

  lemma LosesOther(ns: Namespace, ns': Namespace, parent: nat, name: Name, p: nat, n: Name, d: nat)
    requires Loses(ns, ns', parent, name) && Child(ns, p, n, d) && !(p == parent && n == name)
    ensures IsNamed(ns', p, d)
  {
    hide Child;
  }
}
