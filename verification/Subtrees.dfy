/** The part of the directory tree below an inode, and what is left of the tree without it. */
module Subtrees {
  import opened Inodes
  import opened Entries
  import opened Namespace

  /** Directory t is d or above it. */
  ghost predicate Below(ns: Namespace, t: nat, d: nat) {
    && t in ns.dirs && d in ns.dirs && t in ns.depth && d in ns.depth && ns.depth[t] <= ns.depth[d]
    && Ancestor(ns, d, ns.depth[d] - ns.depth[t]) == t
  }

  /** Inode j is t or named somewhere below t. */
  ghost predicate Under(ns: Namespace, t: nat, j: nat) {
    j == t || exists d, name :: Child(ns, d, name, j) && Below(ns, t, d)
  }

  ghost function Subtree(ns: Namespace, t: nat): set<nat> {
    set j | j in ns.kinds && Under(ns, t, j)
  }

  ghost function FilesIn(ns: Namespace, t: nat): set<nat> {
    set j | j in Subtree(ns, t) && ns.kinds[j] != Directory
  }

  ghost function DirectoriesIn(ns: Namespace, t: nat): set<nat> {
    set j | j in Subtree(ns, t) && ns.kinds[j] == Directory
  }

  lemma {:induction false} AncestorAbove(ns: Namespace, d: nat, n: nat)
    requires d in ns.dirs && DOT_DOT in ns.dirs[d]
    ensures Ancestor(ns, d, n + 1) == Ancestor(ns, ns.dirs[d][DOT_DOT], n)
  {
    if n > 0 {
      AncestorAbove(ns, d, n - 1);
    } else {
      assert Ancestor(ns, d, 0) == d;
    }
  }

  /** What lies below t, other than t itself, has its parent below t. */
  lemma BelowStep(ns: Namespace, root: nat, t: nat, d: nat)
    requires TreeOk(ns, root) && t in ns.dirs && d in ns.dirs
    ensures Below(ns, t, t)
    ensures DOT_DOT in ns.dirs[d] && d in ns.depth && t in ns.depth
    ensures d != t ==> (Below(ns, t, d) <==> d != root && Below(ns, t, ns.dirs[d][DOT_DOT]))
  {
    hide TreeOk;
    ParentFacts(ns, root, d);
    ParentFacts(ns, root, t);
    if d != t && d != root {
      var p := ns.dirs[d][DOT_DOT];
      if ns.depth[t] < ns.depth[d] {
        AncestorAbove(ns, d, ns.depth[p] - ns.depth[t]);
      }
    }
  }

  lemma {:induction false} BelowTransitive(ns: Namespace, root: nat, a: nat, b: nat, c: nat)
    requires TreeOk(ns, root) && Below(ns, a, b) && Below(ns, b, c)
    ensures Below(ns, a, c)
    decreases ns.depth[c]
  {
    hide TreeOk, Ancestor;
    BelowStep(ns, root, b, c);
    if b != c {
      ParentFacts(ns, root, c);
      BelowTransitive(ns, root, a, b, ns.dirs[c][DOT_DOT]);
      BelowStep(ns, root, a, c);
    }
  }

  /** A named inode hangs in the directory that names it, one level down. */
  lemma ChildDepth(ns: Namespace, root: nat, d: nat, name: Name, t: nat)
    requires TreeOk(ns, root) && Child(ns, d, name, t)
    ensures d in ns.dirs && d in ns.depth && t in ns.kinds && t != root && d != t
    ensures t in ns.dirs <==> ns.kinds[t] == Directory
    ensures t in ns.dirs ==>
              t in ns.depth && DOT_DOT in ns.dirs[t] && ns.dirs[t][DOT_DOT] == d && ns.depth[t] == ns.depth[d] + 1
  {
    ChildFacts(ns, root, d, name, t);
    hide TreeOk;
    DirFacts(ns, root, d);
    if t in ns.dirs {
      DirFacts(ns, root, t);
      ParentFacts(ns, root, t);
    }
  }

  lemma SameNamer(ns: Namespace, root: nat, d: nat, n: Name, e: nat, m: Name, t: nat)
    requires TreeOk(ns, root) && Child(ns, d, n, t) && Child(ns, e, m, t)
    ensures d == e && n == m
  {
    hide Child, Hangs, ChildOk;
    OnlyName(ns, d, n, e, m, t, t);
  }

  /** A directory is under t exactly when it is t or below it. */
  lemma UnderDirectory(ns: Namespace, root: nat, t: nat, j: nat)
    requires TreeOk(ns, root) && t in ns.dirs && j in ns.dirs
    ensures Under(ns, t, j) <==> Below(ns, t, j)
  {
    hide TreeOk, Below, Child;
    BelowStep(ns, root, t, j);
    if j != t {
      if Under(ns, t, j) {
        var d, name :| Child(ns, d, name, j) && Below(ns, t, d);
        ChildDepth(ns, root, d, name, j);
      }
      if Below(ns, t, j) {
        var p, n := OldHangs(ns, root, j);
        assert Child(ns, p, n, j) && Below(ns, t, p);
      }
    }
  }

  lemma FileHasNothingUnder(ns: Namespace, t: nat, j: nat)
    requires t !in ns.dirs
    ensures Under(ns, t, j) <==> j == t
  {
  }

  /** What is under a child is under the directory. */
  lemma UnderChild(ns: Namespace, root: nat, t: nat, name: Name, x: nat, j: nat)
    requires TreeOk(ns, root) && Child(ns, t, name, x) && Under(ns, x, j)
    ensures Under(ns, t, j) && j != t
  {
    hide TreeOk, Child, Ancestor;
    ChildDepth(ns, root, t, name, x);
    BelowStep(ns, root, t, t);
    if j != x {
      var d, n :| Child(ns, d, n, j) && Below(ns, x, d);
      ChildDepth(ns, root, d, n, j);
      BelowStep(ns, root, t, x);
      BelowTransitive(ns, root, t, x, d);
      assert Under(ns, t, j);
    }
  }

  /** The child of t on the way to d. */
  lemma ChildTowards(ns: Namespace, root: nat, t: nat, d: nat) returns (name: Name, x: nat)
    requires TreeOk(ns, root) && Below(ns, t, d) && d != t
    ensures Child(ns, t, name, x) && x in ns.dirs && Below(ns, x, d)
  {
    hide TreeOk, Child;
    var n := ns.depth[d] - ns.depth[t];
    LeadsToRoot(ns, root, d, n);
    assert n > 0;
    x := Ancestor(ns, d, n - 1);
    LeadsToRoot(ns, root, d, n - 1);
    if x == root {
      assert false;
    }
    ParentFacts(ns, root, x);
    var p;
    p, name := OldHangs(ns, root, x);
  }

  /** What is under a directory is the directory itself and what is under its children. */
  lemma UnderSplit(ns: Namespace, root: nat, t: nat, j: nat)
    requires TreeOk(ns, root) && t in ns.dirs
    ensures Under(ns, t, j) <==> j == t || exists name, x :: Child(ns, t, name, x) && Under(ns, x, j)
  {
    hide TreeOk, Child, Below;
    if Under(ns, t, j) && j != t {
      var d, n :| Child(ns, d, n, j) && Below(ns, t, d);
      if d == t {
        assert Child(ns, t, n, j) && Under(ns, j, j);
      } else {
        var name, x := ChildTowards(ns, root, t, d);
        assert Child(ns, t, name, x) && Under(ns, x, j);
      }
    }
    if exists name, x :: Child(ns, t, name, x) && Under(ns, x, j) {
      var name, x :| Child(ns, t, name, x) && Under(ns, x, j);
      UnderChild(ns, root, t, name, x, j);
    }
  }

  /** Different children have nothing in common. */
  lemma ChildrenApart(ns: Namespace, root: nat, t: nat, n: Name, x: nat, m: Name, y: nat, j: nat)
    requires TreeOk(ns, root) && Child(ns, t, n, x) && Child(ns, t, m, y) && Under(ns, x, j) && Under(ns, y, j)
    ensures x == y && n == m
  {
    hide TreeOk, Child, Ancestor;
    ChildDepth(ns, root, t, n, x);
    ChildDepth(ns, root, t, m, y);
    if j == x && j == y {
      SameNamer(ns, root, t, n, t, m, j);
    } else if j == x {
      var d, k :| Child(ns, d, k, j) && Below(ns, y, d);
      SameNamer(ns, root, t, n, d, k, j);
      assert false;
    } else if j == y {
      var d, k :| Child(ns, d, k, j) && Below(ns, x, d);
      SameNamer(ns, root, t, m, d, k, j);
      assert false;
    } else {
      var d, k :| Child(ns, d, k, j) && Below(ns, x, d);
      var e, l :| Child(ns, e, l, j) && Below(ns, y, e);
      SameNamer(ns, root, d, k, e, l, j);
      SameNamer(ns, root, t, n, t, m, x);
    }
  }

  // ----- The tree without a subtree -----

  /** A name and everything under it are gone. */
  ghost function Prune(ns: Namespace, parent: nat, name: Name): Namespace
    requires parent in ns.dirs && name in ns.dirs[parent]
  {
    var s := Subtree(ns, ns.dirs[parent][name]);
    Namespace((ns.dirs - s)[parent := ns.dirs[parent] - {name}], ns.depth - s, ns.kinds - s)
  }

  /** What is under t is named under t, and the other way around. */
  lemma NamedUnder(ns: Namespace, root: nat, t: nat, d: nat, name: Name, j: nat)
    requires TreeOk(ns, root) && t in ns.kinds && Child(ns, d, name, j) && j != t
    ensures Under(ns, t, j) <==> Below(ns, t, d)
    ensures t in ns.dirs ==> (Under(ns, t, j) <==> Under(ns, t, d))
    ensures t !in ns.dirs ==> !Under(ns, t, j)
  {
    hide TreeOk, Child;
    ChildDepth(ns, root, d, name, j);
    if Under(ns, t, j) {
      var e, m :| Child(ns, e, m, j) && Below(ns, t, e);
      SameNamer(ns, root, d, name, e, m, j);
    }
    if t in ns.dirs {
      UnderDirectory(ns, root, t, d);
    }
  }

  lemma PrunedChildren(ns: Namespace, root: nat, parent: nat, name: Name, t: nat, d: nat, n: Name, x: nat)
    requires TreeOk(ns, root) && Child(ns, parent, name, t)
    ensures var s := Subtree(ns, t);
            && (Child(Prune(ns, parent, name), d, n, x) <==>
                  Child(ns, d, n, x) && d !in s && !(d == parent && n == name))
            && (Child(Prune(ns, parent, name), d, n, x) ==> x !in s)
            && parent !in s
  {
    hide TreeOk, Below, Subtree, Under, Hangs;
    ChildSubtree(ns, root, parent, name, t);
    if Child(ns, d, n, x) && d !in Subtree(ns, t) && !(d == parent && n == name) {
      StaysUnder(ns, root, parent, name, t, d, n, x);
    }
  }

  lemma StaysUnder(ns: Namespace, root: nat, parent: nat, name: Name, t: nat, d: nat, n: Name, x: nat)
    requires TreeOk(ns, root) && Child(ns, parent, name, t) && Child(ns, d, n, x)
    requires d !in Subtree(ns, t) && !(d == parent && n == name)
    ensures x !in Subtree(ns, t)
  {
    hide TreeOk, Below, Child, Under;
    ChildDepth(ns, root, d, n, x);
    ChildDepth(ns, root, parent, name, t);
    DirFacts(ns, root, d);
    if x == t {
      SameNamer(ns, root, parent, name, d, n, x);
      assert false;
    }
    NamedUnder(ns, root, t, d, n, x);
  }

  lemma PrunedDots(ns: Namespace, root: nat, parent: nat, name: Name, t: nat, d: nat)
    requires TreeOk(ns, root) && Child(ns, parent, name, t) && d in Prune(ns, parent, name).dirs
    ensures var ns' := Prune(ns, parent, name);
            && d in ns.dirs && d !in Subtree(ns, t) && Dots(ns', d) && ns'.dirs[d][DOT_DOT] == ns.dirs[d][DOT_DOT]
            && d in ns'.kinds && ns'.kinds[d] == Directory && d in ns'.depth && ns'.depth[d] == ns.depth[d]
  {
    PrunedChildren(ns, root, parent, name, t, parent, name, t);
    hide TreeOk, Under, Subtree;
    DirFacts(ns, root, d);
  }

  /** The parent of a directory that stays, stays. */
  lemma ParentStays(ns: Namespace, root: nat, parent: nat, name: Name, t: nat, d: nat)
    requires TreeOk(ns, root) && Child(ns, parent, name, t) && d in Prune(ns, parent, name).dirs
    ensures DOT_DOT in ns.dirs[d] && ns.dirs[d][DOT_DOT] in Prune(ns, parent, name).dirs
    ensures d != root ==> IsNamed(Prune(ns, parent, name), ns.dirs[d][DOT_DOT], d)
  {
    PrunedDots(ns, root, parent, name, t, d);
    hide TreeOk, Subtree, Child;
    ParentFacts(ns, root, d);
    if d != root {
      var p, n := OldHangs(ns, root, d);
      StaysNamed(ns, root, parent, name, t, p, n, d);
    }
  }

  /** An inode that stays keeps its name. */
  lemma StaysNamed(ns: Namespace, root: nat, parent: nat, name: Name, t: nat, d: nat, n: Name, j: nat)
    requires TreeOk(ns, root) && Child(ns, parent, name, t) && Child(ns, d, n, j) && j !in Subtree(ns, t)
    ensures Child(Prune(ns, parent, name), d, n, j) && d in Prune(ns, parent, name).dirs
  {
    PrunedChildren(ns, root, parent, name, t, d, n, j);
    hide TreeOk, Below, Child;
    ChildDepth(ns, root, d, n, j);
    ChildDepth(ns, root, parent, name, t);
    assert Under(ns, t, t);
    if d in Subtree(ns, t) {
      NamedUnder(ns, root, t, d, n, j);
    }
    ChildNamer(Prune(ns, parent, name), d, n, j);
  }

  lemma ChildNamer(ns: Namespace, d: nat, n: Name, j: nat)
    requires Child(ns, d, n, j)
    ensures d in ns.dirs
  {
  }

  /** Without the subtree the rest is a tree. */
  lemma PruneKeepsTree(ns: Namespace, root: nat, parent: nat, name: Name, t: nat)
    requires TreeOk(ns, root) && Child(ns, parent, name, t)
    ensures TreeOk(Prune(ns, parent, name), root)
  {
    var ns' := Prune(ns, parent, name);
    hide TreeOk, Child, Subtree;
    RootFacts(ns, root);
    ChildDepth(ns, root, parent, name, t);
    RootStays(ns, root, parent, name, t);
    forall d | d in ns'.dirs ensures d in ns'.kinds && ns'.kinds[d] == Directory && Dots(ns', d) {
      PrunedDots(ns, root, parent, name, t, d);
    }
    forall d | d in ns'.dirs && d != root ensures Hangs(ns', d) {
      var p, n := OldHangs(ns, root, d);
      PrunedDots(ns, root, parent, name, t, d);
      ParentStays(ns, root, parent, name, t, d);
      PrunedDots(ns, root, parent, name, t, p);
      StillHangs(ns, ns', d);
    }
    forall d, n, x | Child(ns', d, n, x) ensures ChildOk(ns', root, d, x) {
      PrunedChildren(ns, root, parent, name, t, d, n, x);
      ChildFacts(ns, root, d, n, x);
      if ns.kinds[x] == Directory {
        PrunedDots(ns, root, parent, name, t, x);
      }
    }
    PrunedOnce(ns, root, parent, name, t);
    TreeParts(ns', root);
  }

  lemma RootStays(ns: Namespace, root: nat, parent: nat, name: Name, t: nat)
    requires TreeOk(ns, root) && Child(ns, parent, name, t)
    ensures var ns' := Prune(ns, parent, name);
            && root in ns'.dirs && root in ns'.depth && ns'.depth[root] == 0 && ns'.dirs.Keys == ns'.depth.Keys
            && Dots(ns', root) && ns'.dirs[root][DOT_DOT] == root
  {
    var s := Subtree(ns, t);
    PrunedChildren(ns, root, parent, name, t, parent, name, t);
    RootFacts(ns, root);
    ChildDepth(ns, root, parent, name, t);
    if root in s {
      var d, n :| Child(ns, d, n, root) && Below(ns, t, d);
      ChildDepth(ns, root, d, n, root);
      assert false;
    }
    hide TreeOk, Under;
    DirFacts(ns, root, parent);
    PrunedDots(ns, root, parent, name, t, root);
  }

  lemma PrunedOnce(ns: Namespace, root: nat, parent: nat, name: Name, t: nat)
    requires TreeOk(ns, root) && Child(ns, parent, name, t)
    ensures NamedOnce(Prune(ns, parent, name))
  {
    var ns' := Prune(ns, parent, name);
    hide TreeOk, Child, Subtree;
    forall d, n, e, m, x, y | Child(ns', d, n, x) && Child(ns', e, m, y) && x == y ensures d == e && n == m {
      PrunedChildren(ns, root, parent, name, t, d, n, x);
      PrunedChildren(ns, root, parent, name, t, e, m, y);
      SameNamer(ns, root, d, n, e, m, x);
    }
  }

  lemma {:induction false} AncestorStays(ns: Namespace, root: nat, parent: nat, name: Name, t: nat, d: nat, n: nat)
    requires TreeOk(ns, root) && Child(ns, parent, name, t) && d in Prune(ns, parent, name).dirs
    ensures var ns' := Prune(ns, parent, name);
            Ancestor(ns', d, n) == Ancestor(ns, d, n) && Ancestor(ns, d, n) in ns'.dirs
  {
    hide TreeOk, Child, Prune, Subtree;
    if n > 0 {
      AncestorStays(ns, root, parent, name, t, d, n - 1);
      var a := Ancestor(ns, d, n - 1);
      PrunedDots(ns, root, parent, name, t, a);
      ParentStays(ns, root, parent, name, t, a);
    }
  }

  /** What stays lies where it did. */
  lemma PrunedBelow(ns: Namespace, root: nat, parent: nat, name: Name, t: nat, a: nat, d: nat)
    requires TreeOk(ns, root) && Child(ns, parent, name, t)
    requires a in Prune(ns, parent, name).dirs && d in Prune(ns, parent, name).dirs
    ensures Below(Prune(ns, parent, name), a, d) <==> Below(ns, a, d)
  {
    hide TreeOk, Child, Prune, Ancestor;
    PrunedDots(ns, root, parent, name, t, a);
    PrunedDots(ns, root, parent, name, t, d);
    DirFacts(ns, root, a);
    DirFacts(ns, root, d);
    if ns.depth[a] <= ns.depth[d] {
      AncestorStays(ns, root, parent, name, t, d, ns.depth[d] - ns.depth[a]);
    }
  }

  lemma PrunedUnder(ns: Namespace, root: nat, parent: nat, name: Name, t: nat, a: nat, j: nat)
    requires TreeOk(ns, root) && Child(ns, parent, name, t) && a in Prune(ns, parent, name).kinds
    requires j in Prune(ns, parent, name).kinds
    ensures Under(Prune(ns, parent, name), a, j) <==> Under(ns, a, j)
  {
    var ns' := Prune(ns, parent, name);
    hide TreeOk, Child, Below;
    if j != a && Under(ns', a, j) {
      var d, n :| Child(ns', d, n, j) && Below(ns', a, d);
      PrunedChildren(ns, root, parent, name, t, d, n, j);
      BelowFacts(ns', a, d);
      PrunedBelow(ns, root, parent, name, t, a, d);
      assert Under(ns, a, j);
    }
    if j != a && Under(ns, a, j) {
      var d, n :| Child(ns, d, n, j) && Below(ns, a, d);
      BelowFacts(ns, a, d);
      StaysNamed(ns, root, parent, name, t, d, n, j);
      DirectoryStays(ns, root, parent, name, t, a);
      PrunedBelow(ns, root, parent, name, t, a, d);
    }
  }

  lemma BelowFacts(ns: Namespace, a: nat, d: nat)
    requires Below(ns, a, d)
    ensures a in ns.dirs && d in ns.dirs
  {
  }

  lemma DirectoryStays(ns: Namespace, root: nat, parent: nat, name: Name, t: nat, a: nat)
    requires TreeOk(ns, root) && Child(ns, parent, name, t) && a in ns.dirs && a in Prune(ns, parent, name).kinds
    ensures a in Prune(ns, parent, name).dirs
  {
  }

  /** A subtree that stays is what it was; the subtrees around the removed one lose just that. */
  lemma PrunedSubtree(ns: Namespace, root: nat, parent: nat, name: Name, t: nat, a: nat)
    requires TreeOk(ns, root) && Child(ns, parent, name, t) && a in Prune(ns, parent, name).kinds
    ensures Subtree(Prune(ns, parent, name), a) == Subtree(ns, a) - Subtree(ns, t)
  {
    var ns' := Prune(ns, parent, name);
    hide TreeOk, Child, Under;
    forall j ensures j in Subtree(ns', a) <==> j in Subtree(ns, a) - Subtree(ns, t) {
      if j in ns'.kinds {
        PrunedUnder(ns, root, parent, name, t, a, j);
      }
    }
  }

  // ----- Taking a directory apart, child by child -----

  /** A child's subtree is part of the directory's, which has the directory besides. */
  lemma ChildSubtree(ns: Namespace, root: nat, d: nat, name: Name, t: nat)
    requires TreeOk(ns, root) && Child(ns, d, name, t)
    ensures Subtree(ns, t) <= Subtree(ns, d) && d !in Subtree(ns, t) && t in Subtree(ns, t) && d in Subtree(ns, d)
  {
    hide TreeOk, Child, Under;
    ChildDepth(ns, root, d, name, t);
    DirFacts(ns, root, d);
    SelfUnder(ns, d);
    SelfUnder(ns, t);
    forall j | j in Subtree(ns, t) ensures j in Subtree(ns, d) && j != d {
      UnderChild(ns, root, d, name, t, j);
    }
  }

  lemma SelfUnder(ns: Namespace, t: nat)
    ensures Under(ns, t, t)
  {
  }

  lemma SiblingSubtrees(ns: Namespace, root: nat, d: nat, n: Name, x: nat, m: Name, y: nat)
    requires TreeOk(ns, root) && Child(ns, d, n, x) && Child(ns, d, m, y) && n != m
    ensures Subtree(ns, x) !! Subtree(ns, y) && y !in Subtree(ns, x)
  {
    hide TreeOk, Child, Under;
    ChildSubtree(ns, root, d, m, y);
    forall j | j in Subtree(ns, x) ensures j !in Subtree(ns, y) {
      if j in Subtree(ns, y) {
        ChildrenApart(ns, root, d, n, x, m, y, j);
      }
    }
  }

  lemma FileSubtree(ns: Namespace, root: nat, d: nat, name: Name, t: nat)
    requires TreeOk(ns, root) && Child(ns, d, name, t) && ns.kinds[t] != Directory
    ensures Subtree(ns, t) == {t} && FilesIn(ns, t) == {t} && DirectoriesIn(ns, t) == {}
  {
    hide TreeOk, Child;
    ChildDepth(ns, root, d, name, t);
    hide Under;
    forall j ensures Under(ns, t, j) <==> j == t {
      FileHasNothingUnder(ns, t, j);
    }
  }

  /** An empty directory is its whole subtree. */
  lemma EmptySubtree(ns: Namespace, root: nat, d: nat)
    requires TreeOk(ns, root) && d in ns.dirs && ns.dirs[d].Keys == {DOT, DOT_DOT}
    ensures Subtree(ns, d) == {d} && FilesIn(ns, d) == {} && DirectoriesIn(ns, d) == {d}
  {
    hide TreeOk;
    DirFacts(ns, root, d);
    NoChildren(ns, d);
    hide Child, Under;
    SelfUnder(ns, d);
    forall j | j in Subtree(ns, d) ensures j == d {
      UnderSplit(ns, root, d, j);
    }
  }

  /** cur is the tree ns after some of the children of d have been removed with everything under them. */
  ghost predicate Partly(ns: Namespace, cur: Namespace, d: nat) {
    && d in ns.dirs && d in cur.dirs && Subtree(cur, d) <= Subtree(ns, d)
    && var gone := Subtree(ns, d) - Subtree(cur, d);
       && cur.kinds == ns.kinds - gone && cur.dirs - {d} == ns.dirs - gone - {d}
       && forall j :: j in gone ==> j !in cur.kinds
  }

  lemma PartlyNone(ns: Namespace, d: nat)
    requires d in ns.dirs
    ensures Partly(ns, ns, d)
  {
    hide Subtree;
    assert Subtree(ns, d) - Subtree(ns, d) == {};
  }

  lemma PartlyStep(ns: Namespace, cur: Namespace, root: nat, d: nat, name: Name, t: nat)
    requires TreeOk(cur, root) && Partly(ns, cur, d) && Child(cur, d, name, t)
    ensures Partly(ns, Prune(cur, d, name), d) && d in Prune(cur, d, name).kinds
    ensures Subtree(Prune(cur, d, name), d) == Subtree(cur, d) - Subtree(cur, t)
  {
    var cur' := Prune(cur, d, name);
    hide TreeOk;
    DirFacts(cur, root, d);
    ChildSubtree(cur, root, d, name, t);
    PrunedDots(cur, root, d, name, t, d);
    hide Child;
    PrunedSubtree(cur, root, d, name, t, d);
    SubtreeInUse(cur, t);
    hide Subtree;
    var s, r, b := Subtree(ns, d), Subtree(cur, d), Subtree(cur, t);
    assert s - (r - b) == (s - r) + b;
    RemovedTwice(ns.kinds, s - r, b);
    RemovedAround(cur.dirs, b, d, cur.dirs[d] - {name});
    RemovedAround(ns.dirs - (s - r), b, d, map[]);
    RemovedTwice(ns.dirs, s - r, b);
  }

  lemma SubtreeInUse(ns: Namespace, t: nat)
    ensures forall j :: j in Subtree(ns, t) ==> j in ns.kinds
  {
  }

  lemma RemovedTwice<V>(m: map<nat, V>, a: set<nat>, b: set<nat>)
    ensures m - a - b == m - (a + b)
  {
  }

  lemma RemovedAround<V>(m: map<nat, V>, b: set<nat>, d: nat, v: V)
    ensures (m - b)[d := v] - {d} == m - {d} - b
    ensures m - b - {d} == m - {d} - b
  {
  }

  /** With no child left, only the directory itself is left to remove. */
  lemma PartlyDone(ns: Namespace, cur: Namespace, root: nat, d: nat)
    requires TreeOk(cur, root) && Partly(ns, cur, d) && cur.dirs[d].Keys == {DOT, DOT_DOT}
    ensures cur.kinds - {d} == ns.kinds - Subtree(ns, d) && cur.dirs - {d} == ns.dirs - Subtree(ns, d)
    ensures Subtree(cur, d) == {d} && d in Subtree(ns, d)
  {
    hide TreeOk, Subtree;
    EmptySubtree(cur, root, d);
    var s := Subtree(ns, d);
    assert (s - {d}) + {d} == s;
    RemovedTwice(ns.kinds, s - {d}, {d});
    RemovedTwice(ns.dirs, s - {d}, {d});
  }

  // ----- Counting -----

  lemma DifferenceSize(a: set<nat>, b: set<nat>, c: set<nat>)
    requires c == a - b && b <= a
    ensures |a| == |c| + |b|
  {
    assert a == c + b;
  }

  /** Removing a child takes its files and directories off the directory's counts. */
  lemma PrunedCounts(ns: Namespace, root: nat, d: nat, name: Name, t: nat)
    requires TreeOk(ns, root) && Child(ns, d, name, t) && d in Prune(ns, d, name).kinds
    ensures |FilesIn(ns, d)| == |FilesIn(Prune(ns, d, name), d)| + |FilesIn(ns, t)|
    ensures |DirectoriesIn(ns, d)| == |DirectoriesIn(Prune(ns, d, name), d)| + |DirectoriesIn(ns, t)|
  {
    var ns' := Prune(ns, d, name);
    hide TreeOk, Under;
    ChildSubtree(ns, root, d, name, t);
    PrunedSubtree(ns, root, d, name, t, d);
    assert FilesIn(ns', d) == FilesIn(ns, d) - FilesIn(ns, t);
    assert DirectoriesIn(ns', d) == DirectoriesIn(ns, d) - DirectoriesIn(ns, t);
    DifferenceSize(FilesIn(ns, d), FilesIn(ns, t), FilesIn(ns', d));
    DifferenceSize(DirectoriesIn(ns, d), DirectoriesIn(ns, t), DirectoriesIn(ns', d));
  }

  // ----- How deep it gets -----

  ghost predicate DepthsBelow(ns: Namespace, bound: nat) {
    forall d :: d in ns.depth ==> ns.depth[d] < bound
  }

  lemma {:induction false} DepthsAreBounded(depth: map<nat, nat>, keys: set<nat>) returns (bound: nat)
    requires keys <= depth.Keys
    ensures forall d :: d in keys ==> depth[d] < bound
    decreases keys
  {
    if keys == {} {
      bound := 0;
    } else {
      var d :| d in keys;
      bound := DepthsAreBounded(depth, keys - {d});
      if bound <= depth[d] {
        bound := depth[d] + 1;
      }
    }
  }
}
