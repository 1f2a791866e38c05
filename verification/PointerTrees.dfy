/** Trees of pointer clusters built from the bottom: which data cluster sits where, and which clusters were taken. */
module PointerTrees {
  import opened Clusters
  import opened Ownership

  /** Only clusters that were free have been written, and nothing has been released. */
  ghost predicate OnlyFreeChanged(disk: seq<Cluster>, used: seq<bool>, disk': seq<Cluster>, used': seq<bool>) {
    && |disk'| == |disk| == |used| == |used'|
    && forall c :: 0 <= c < |disk| && used[c] ==> used'[c] && disk'[c] == disk[c]
  }

  lemma OnlyFreeChangedTransitive(d0: seq<Cluster>, u0: seq<bool>, d1: seq<Cluster>, u1: seq<bool>,
                                  d2: seq<Cluster>, u2: seq<bool>)
    requires OnlyFreeChanged(d0, u0, d1, u1) && OnlyFreeChanged(d1, u1, d2, u2)
    ensures OnlyFreeChanged(d0, u0, d2, u2)
  {
  }

  // ----- Paths as numbers -----

  /** The data clusters a full tree with d pointer levels holds. */
  function Width(d: nat): (w: nat)
    ensures w >= 1
  {
    if d == 0 then 1 else POINTERS_PER_CLUSTER * Width(d - 1)
  }

  ghost predicate InRange(path: Path) {
    forall i :: 0 <= i < |path| ==> path[i] < POINTERS_PER_CLUSTER
  }

  /** The number of the leaf that path leads to, counted from the left. */
  function Index(path: Path): nat {
    if path == [] then 0 else path[0] * Width(|path| - 1) + Index(path[1..])
  }

  lemma {:induction false} IndexBound(path: Path)
    requires InRange(path)
    ensures Index(path) < Width(|path|)
  {
    if path != [] {
      IndexBound(path[1..]);
      TimesStep(path[0], POINTERS_PER_CLUSTER, Width(|path| - 1));
    }
  }

  lemma TimesStep(a: nat, b: nat, w: nat)
    requires a < b
    ensures a * w + w <= b * w
  {
    assert b * w == a * w + w + (b - a - 1) * w;
  }

  /** A path is determined by its length and its number. */
  lemma {:induction false} IndexInjective(p: Path, q: Path)
    requires InRange(p) && InRange(q) && |p| == |q| && Index(p) == Index(q)
    ensures p == q
  {
    if p != [] {
      var w := Width(|p| - 1);
      IndexBound(p[1..]);
      IndexBound(q[1..]);
      if p[0] < q[0] {
        TimesStep(p[0], q[0], w);
      } else if q[0] < p[0] {
        TimesStep(q[0], p[0], w);
      }
      IndexInjective(p[1..], q[1..]);
      assert p == [p[0]] + p[1..] && q == [q[0]] + q[1..];
    }
  }

  // ----- Trees -----

  /** A position above the leaves, where a pointer cluster sits. */
  ghost predicate Inner(path: Path, d: nat) {
    |path| < d && InRange(path)
  }

  /** The leaves of the tree are the clusters of data, in order, and nothing further. */
  ghost predicate HasLeaves(disk: seq<Cluster>, root: nat, d: nat, data: seq<nat>) {
    forall p :: |p| == d && InRange(p) ==> At(disk, root, p) == if Index(p) < |data| then data[Index(p)] else 0
  }

  ghost predicate NewlyUsed(used0: seq<bool>, used: seq<bool>, c: nat) {
    c < |used0| && c < |used| && !used0[c] && used[c]
  }

  /** The tree's pointer clusters were free in used0 and are used in used. */
  ghost predicate InnerAreNew(disk: seq<Cluster>, used0: seq<bool>, used: seq<bool>, root: nat, d: nat) {
    forall p :: Inner(p, d) && At(disk, root, p) != 0 ==> NewlyUsed(used0, used, At(disk, root, p))
  }

  ghost predicate InnerOnce(disk: seq<Cluster>, root: nat, d: nat) {
    forall p, q :: Inner(p, d) && Inner(q, d) && At(disk, root, p) != 0 && At(disk, root, p) == At(disk, root, q) ==> p == q
  }

  ghost predicate IsInner(disk: seq<Cluster>, root: nat, d: nat, c: nat) {
    exists p :: Inner(p, d) && At(disk, root, p) == c
  }

  /** Every newly used cluster is a pointer cluster of the tree. */
  ghost predicate TakenForTree(disk: seq<Cluster>, used0: seq<bool>, used: seq<bool>, root: nat, d: nat) {
    forall c: nat :: NewlyUsed(used0, used, c) ==> IsInner(disk, root, d, c)
  }

  /** Some leaf with data lies below position path. */
  ghost predicate HasLeafBelow(path: Path, d: nat, data: seq<nat>) {
    exists q :: |q| == d && InRange(q) && path <= q && Index(q) < |data|
  }

  /** No pointer cluster below the root is without data. */
  ghost predicate InnerNeeded(disk: seq<Cluster>, root: nat, d: nat, data: seq<nat>) {
    forall p :: Inner(p, d) && p != [] && At(disk, root, p) != 0 ==> HasLeafBelow(p, d, data)
  }

  ghost predicate Tree(disk: seq<Cluster>, used0: seq<bool>, used: seq<bool>, root: nat, d: nat, data: seq<nat>) {
    && root != 0
    && HasLeaves(disk, root, d, data)
    && InnerAreNew(disk, used0, used, root, d)
    && InnerOnce(disk, root, d)
    && TakenForTree(disk, used0, used, root, d)
    && InnerNeeded(disk, root, d, data)
  }

  /** A single data cluster is a tree without pointer levels. */
  lemma DataTree(disk: seq<Cluster>, used: seq<bool>, c: nat)
    requires c != 0
    ensures Tree(disk, used, used, c, 0, [c])
  {
    forall p: Path | |p| == 0 ensures At(disk, c, p) == c && Index(p) == 0 {
    }
  }

  /** A zeroed pointer cluster is a tree without data. */
  lemma EmptyTree(disk: seq<Cluster>, used: seq<bool>, b: nat, d: nat)
    requires 0 < b < |disk| == |used| && !used[b] && disk[b] == ZeroCluster() && d > 0
    ensures Tree(disk, used, used[b := true], b, d, [])
  {
    forall p: Path | p != [] && InRange(p) ensures At(disk, b, p) == 0 {
      BelowZeroCluster(disk, b, p);
    }
    assert At(disk, b, []) == b;
    assert Inner([], d);
    forall p: Path | |p| == d && InRange(p) ensures At(disk, b, p) == 0 {
    }
  }

  lemma {:induction false} BelowZeroCluster(disk: seq<Cluster>, b: nat, p: Path)
    requires 0 < b < |disk| && disk[b] == ZeroCluster() && p != [] && InRange(p)
    ensures At(disk, b, p) == 0
  {
    if |p| == 1 {
      assert p[..0] == [];
      ZeroPtr(p[0]);
    } else {
      BelowZeroCluster(disk, b, p[..|p| - 1]);
    }
  }

  /** The trees reached at a position stay as they are while their pointer clusters stay. */
  lemma {:induction false} AtStays(disk: seq<Cluster>, used0: seq<bool>, used: seq<bool>, disk': seq<Cluster>,
                                   used': seq<bool>, root: nat, d: nat, p: Path)
    requires OnlyFreeChanged(disk, used, disk', used') && InnerAreNew(disk, used0, used, root, d)
    requires |p| <= d && InRange(p)
    ensures At(disk', root, p) == At(disk, root, p)
    decreases |p|
  {
    if p != [] {
      AtStays(disk, used0, used, disk', used', root, d, p[..|p| - 1]);
      assert Inner(p[..|p| - 1], d);
    }
  }

  // ----- Hanging a tree below a pointer cluster -----

  /** The path starts at pointer i. */
  ghost predicate Through(p: Path, i: nat) {
    p != [] && p[0] == i
  }

  lemma {:induction false} GraftOld(disk: seq<Cluster>, disk': seq<Cluster>, used0: seq<bool>, used: seq<bool>,
                                    used': seq<bool>, b: nat, buffer: Cluster, i: nat, c: nat, d: nat, p: Path)
    requires OnlyFreeChanged(disk, used, disk', used') && 0 < b < |disk| && used[b] && IsCluster(buffer)
    requires i < POINTERS_PER_CLUSTER && c < MAX_CLUSTERS
    requires InnerAreNew(disk[b := buffer], used0, used, b, d) && InnerOnce(disk[b := buffer], b, d)
    requires |p| <= d && InRange(p) && !Through(p, i)
    ensures At(disk'[b := SetPtr(buffer, i, c)], b, p) == At(disk[b := buffer], b, p)
    decreases |p|
  {
    if p != [] {
      var q, x := p[..|p| - 1], p[|p| - 1];
      GraftOld(disk, disk', used0, used, used', b, buffer, i, c, d, q);
      assert Inner(q, d) && Inner([], d);
      assert At(disk[b := buffer], b, []) == b;
      if At(disk[b := buffer], b, q) == b {
        assert q == [];
        SetPtrFacts(buffer, i, c, x);
      }
    }
  }

  lemma {:induction false} GraftNew(disk': seq<Cluster>, used: seq<bool>, used': seq<bool>,
                                    b: nat, buffer: Cluster, i: nat, c: nat, d: nat, p: Path)
    requires 0 < b < |disk'| == |used| && used[b] && IsCluster(buffer)
    requires i < POINTERS_PER_CLUSTER && c < MAX_CLUSTERS
    requires InnerAreNew(disk', used, used', c, d) && |p| <= d && InRange(p)
    ensures At(disk'[b := SetPtr(buffer, i, c)], b, [i] + p) == At(disk', c, p)
    decreases |p|
  {
    hide SetPtr, Ptr, Width;
    var disk1 := disk'[b := SetPtr(buffer, i, c)];
    if p == [] {
      AtChild(disk1, b, [], i);
      assert [] + [i] == [i] + p;
      SetPtrFacts(buffer, i, c, i);
    } else {
      var q, x := p[..|p| - 1], p[|p| - 1];
      GraftNew(disk', used, used', b, buffer, i, c, d, q);
      assert Inner(q, d);
      assert [i] + p == ([i] + q) + [x] && p == q + [x];
      AtChild(disk1, b, [i] + q, x);
      AtChild(disk', c, q, x);
    }
  }

  /** Everything a graft needs: an open pointer i of b, and a tree built below c out of clusters that were free. */
  ghost predicate CanGraft(disk: seq<Cluster>, disk': seq<Cluster>, used0: seq<bool>, used: seq<bool>, used': seq<bool>,
                           b: nat, buffer: Cluster, i: nat, c: nat, d: nat, data: seq<nat>, chunk: seq<nat>)
  {
    && OnlyFreeChanged(disk, used, disk', used') && |used0| == |used|
    && 0 < b < |disk| && used[b] && IsCluster(buffer) && i < POINTERS_PER_CLUSTER && c < MAX_CLUSTERS && d > 0
    && used0[0] && (forall x :: 0 <= x < |used| && used0[x] ==> used[x])
    && Ptr(buffer, i) == 0
    && |data| == i * Width(d - 1) && 0 < |chunk| <= Width(d - 1)
    && Tree(disk[b := buffer], used0, used, b, d, data)
    && Tree(disk', used, used', c, d - 1, chunk)
  }

  ghost function Grafted(disk': seq<Cluster>, b: nat, buffer: Cluster, i: nat, c: nat): seq<Cluster>
    requires b < |disk'| && IsCluster(buffer) && i < POINTERS_PER_CLUSTER
  {
    disk'[b := SetPtr(buffer, i, c)]
  }

  lemma GraftAt(disk: seq<Cluster>, disk': seq<Cluster>, used0: seq<bool>, used: seq<bool>, used': seq<bool>,
                b: nat, buffer: Cluster, i: nat, c: nat, d: nat, data: seq<nat>, chunk: seq<nat>, p: Path)
    requires CanGraft(disk, disk', used0, used, used', b, buffer, i, c, d, data, chunk) && |p| <= d && InRange(p)
    ensures At(Grafted(disk', b, buffer, i, c), b, p) ==
            if Through(p, i) then At(disk', c, p[1..]) else At(disk[b := buffer], b, p)
    ensures Through(p, i) ==> At(disk[b := buffer], b, p) == 0
  {
    hide HasLeaves, TakenForTree, InnerNeeded, Width;
    if Through(p, i) {
      assert p == [i] + p[1..];
      GraftNew(disk', used, used', b, buffer, i, c, d - 1, p[1..]);
      AtChild(disk[b := buffer], b, [], i);
      assert [] + [i] == [i];
      AtBelowNothing(disk[b := buffer], b, [i], p);
    } else {
      GraftOld(disk, disk', used0, used, used', b, buffer, i, c, d, p);
    }
  }

  lemma GraftLeaf(i: nat, d: nat, data: seq<nat>, chunk: seq<nat>, p: Path)
    requires d > 0 && |p| == d && InRange(p) && |data| == i * Width(d - 1) && |chunk| <= Width(d - 1)
    ensures p[0] == i ==> (Index(p) < |data + chunk| <==> Index(p[1..]) < |chunk|)
    ensures p[0] == i && Index(p) < |data + chunk| ==> (data + chunk)[Index(p)] == chunk[Index(p[1..])]
    ensures p[0] != i ==> (Index(p) < |data + chunk| <==> Index(p) < |data|)
    ensures p[0] != i && Index(p) < |data + chunk| ==> (data + chunk)[Index(p)] == data[Index(p)]
  {
    IndexBound(p[1..]);
    if p[0] < i {
      TimesStep(p[0], i, Width(d - 1));
    } else if p[0] > i {
      TimesStep(i, p[0], Width(d - 1));
    }
  }

  lemma GraftLeaves(disk: seq<Cluster>, disk': seq<Cluster>, used0: seq<bool>, used: seq<bool>, used': seq<bool>,
                    b: nat, buffer: Cluster, i: nat, c: nat, d: nat, data: seq<nat>, chunk: seq<nat>)
    requires CanGraft(disk, disk', used0, used, used', b, buffer, i, c, d, data, chunk)
    ensures HasLeaves(Grafted(disk', b, buffer, i, c), b, d, data + chunk)
  {
    hide At, Width, Index, Grafted, InnerAreNew, InnerOnce, TakenForTree, InnerNeeded;
    forall p | |p| == d && InRange(p)
      ensures At(Grafted(disk', b, buffer, i, c), b, p) ==
              if Index(p) < |data + chunk| then (data + chunk)[Index(p)] else 0
    {
      GraftAt(disk, disk', used0, used, used', b, buffer, i, c, d, data, chunk, p);
      GraftLeaf(i, d, data, chunk, p);
    }
  }

  lemma GraftInner(disk: seq<Cluster>, disk': seq<Cluster>, used0: seq<bool>, used: seq<bool>, used': seq<bool>,
                   b: nat, buffer: Cluster, i: nat, c: nat, d: nat, data: seq<nat>, chunk: seq<nat>, p: Path)
    requires CanGraft(disk, disk', used0, used, used', b, buffer, i, c, d, data, chunk)
    requires Inner(p, d) && At(Grafted(disk', b, buffer, i, c), b, p) != 0
    ensures NewlyUsed(used0, used', At(Grafted(disk', b, buffer, i, c), b, p))
    ensures NewlyUsed(used, used', At(Grafted(disk', b, buffer, i, c), b, p)) <==> Through(p, i)
  {
    hide At, Width, Index, Grafted, HasLeaves, InnerOnce, TakenForTree, InnerNeeded;
    GraftAt(disk, disk', used0, used, used', b, buffer, i, c, d, data, chunk, p);
    if Through(p, i) {
      assert Inner(p[1..], d - 1);
    }
  }

  lemma GraftOnce(disk: seq<Cluster>, disk': seq<Cluster>, used0: seq<bool>, used: seq<bool>, used': seq<bool>,
                  b: nat, buffer: Cluster, i: nat, c: nat, d: nat, data: seq<nat>, chunk: seq<nat>)
    requires CanGraft(disk, disk', used0, used, used', b, buffer, i, c, d, data, chunk)
    ensures InnerOnce(Grafted(disk', b, buffer, i, c), b, d)
  {
    hide At, Width, Index, Grafted, HasLeaves, InnerAreNew, TakenForTree, InnerNeeded;
    forall p, q | Inner(p, d) && Inner(q, d) && At(Grafted(disk', b, buffer, i, c), b, p) != 0
                  && At(Grafted(disk', b, buffer, i, c), b, p) == At(Grafted(disk', b, buffer, i, c), b, q)
      ensures p == q
    {
      GraftAt(disk, disk', used0, used, used', b, buffer, i, c, d, data, chunk, p);
      GraftAt(disk, disk', used0, used, used', b, buffer, i, c, d, data, chunk, q);
      GraftInner(disk, disk', used0, used, used', b, buffer, i, c, d, data, chunk, p);
      GraftInner(disk, disk', used0, used, used', b, buffer, i, c, d, data, chunk, q);
      if Through(p, i) {
        assert Inner(p[1..], d - 1) && Inner(q[1..], d - 1);
        assert p[1..] == q[1..];
        assert p == [i] + p[1..] && q == [i] + q[1..];
      }
    }
  }

  lemma GraftTaken(disk: seq<Cluster>, disk': seq<Cluster>, used0: seq<bool>, used: seq<bool>, used': seq<bool>,
                   b: nat, buffer: Cluster, i: nat, c: nat, d: nat, data: seq<nat>, chunk: seq<nat>, x: nat)
    requires CanGraft(disk, disk', used0, used, used', b, buffer, i, c, d, data, chunk) && NewlyUsed(used0, used', x)
    ensures IsInner(Grafted(disk', b, buffer, i, c), b, d, x)
  {
    hide At, Width, Index, Grafted, HasLeaves, InnerAreNew, InnerOnce, InnerNeeded;
    if used[x] {
      assert IsInner(disk[b := buffer], b, d, x);
      var p :| Inner(p, d) && At(disk[b := buffer], b, p) == x;
      GraftAt(disk, disk', used0, used, used', b, buffer, i, c, d, data, chunk, p);
    } else {
      assert IsInner(disk', c, d - 1, x);
      var p :| Inner(p, d - 1) && At(disk', c, p) == x;
      GraftAt(disk, disk', used0, used, used', b, buffer, i, c, d, data, chunk, [i] + p);
      assert ([i] + p)[1..] == p;
      assert Inner([i] + p, d);
    }
  }

  /** The path that always takes pointer 0. */
  function Leftmost(d: nat): (p: Path)
    ensures |p| == d && InRange(p) && Index(p) == 0
  {
    if d == 0 then [] else [0] + Leftmost(d - 1)
  }

  lemma GraftNeeded(disk: seq<Cluster>, disk': seq<Cluster>, used0: seq<bool>, used: seq<bool>, used': seq<bool>,
                    b: nat, buffer: Cluster, i: nat, c: nat, d: nat, data: seq<nat>, chunk: seq<nat>, p: Path)
    requires CanGraft(disk, disk', used0, used, used', b, buffer, i, c, d, data, chunk)
    requires Inner(p, d) && p != [] && At(Grafted(disk', b, buffer, i, c), b, p) != 0
    ensures HasLeafBelow(p, d, data + chunk)
  {
    hide At, Width, Index, Grafted, HasLeaves, InnerAreNew, InnerOnce, TakenForTree;
    GraftAt(disk, disk', used0, used, used', b, buffer, i, c, d, data, chunk, p);
    if Through(p, i) {
      var q := Leftmost(d - 1);
      if p[1..] != [] {
        assert Inner(p[1..], d - 1);
        assert HasLeafBelow(p[1..], d - 1, chunk);
        q :| |q| == d - 1 && InRange(q) && p[1..] <= q && Index(q) < |chunk|;
      }
      var leaf := [i] + q;
      assert leaf[1..] == q && p == [i] + p[1..];
      GraftLeaf(i, d, data, chunk, leaf);
      assert p <= leaf;
    } else {
      assert HasLeafBelow(p, d, data);
    }
  }

  /** Hanging a newly built tree below the next open pointer adds its data to the leaves. */
  lemma Graft(disk: seq<Cluster>, disk': seq<Cluster>, used0: seq<bool>, used: seq<bool>, used': seq<bool>,
              b: nat, buffer: Cluster, i: nat, c: nat, d: nat, data: seq<nat>, chunk: seq<nat>)
    requires CanGraft(disk, disk', used0, used, used', b, buffer, i, c, d, data, chunk)
    ensures Tree(Grafted(disk', b, buffer, i, c), used0, used', b, d, data + chunk)
  {
    hide At, Width, Index, Grafted, HasLeaves;
    GraftLeaves(disk, disk', used0, used, used', b, buffer, i, c, d, data, chunk);
    GraftOnce(disk, disk', used0, used, used', b, buffer, i, c, d, data, chunk);
    forall p | Inner(p, d) && At(Grafted(disk', b, buffer, i, c), b, p) != 0
      ensures NewlyUsed(used0, used', At(Grafted(disk', b, buffer, i, c), b, p))
    {
      GraftInner(disk, disk', used0, used, used', b, buffer, i, c, d, data, chunk, p);
    }
    forall p | Inner(p, d) && p != [] && At(Grafted(disk', b, buffer, i, c), b, p) != 0
      ensures HasLeafBelow(p, d, data + chunk)
    {
      GraftNeeded(disk, disk', used0, used, used', b, buffer, i, c, d, data, chunk, p);
    }
    forall x: nat | NewlyUsed(used0, used', x) ensures IsInner(Grafted(disk', b, buffer, i, c), b, d, x) {
      GraftTaken(disk, disk', used0, used, used', b, buffer, i, c, d, data, chunk, x);
    }
  }
}
