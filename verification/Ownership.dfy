/**
 Who owns which cluster. Every pointer held by an inode is a root of a tree of pointer clusters;
 a position is a root together with a path of pointer indices below it.
 */
module Ownership {
  import opened Clusters

  /** Slot(id, k) is pointer k of inode id. */
  datatype Key = Slot(id: nat, k: nat)

  /** A root cluster (0 for none) and the number of pointer levels below it. */
  datatype Root = Root(cluster: nat, depth: nat)

  type Roots = map<Key, Root>

  /** Disk, bitmap and roots together; clusters below reserved hold the file system's own data. */
  datatype Volume = Volume(disk: seq<Cluster>, used: seq<bool>, roots: Roots, reserved: nat)

  type Path = seq<nat>

  /** The cluster reached from root along path, 0 when some pointer on the way is 0. */
  ghost function At(disk: seq<Cluster>, root: nat, path: Path): nat {
    if path == [] then root
    else
      var parent := At(disk, root, path[..|path| - 1]);
      var i := path[|path| - 1];
      if parent == 0 || parent >= |disk| || !IsCluster(disk[parent]) || i >= POINTERS_PER_CLUSTER then 0
      else Ptr(disk[parent], i)
  }

  ghost predicate Position(roots: Roots, key: Key, path: Path) {
    && key in roots
    && |path| <= roots[key].depth
    && forall i :: 0 <= i < |path| ==> path[i] < POINTERS_PER_CLUSTER
  }

  ghost function Owned(disk: seq<Cluster>, roots: Roots, key: Key, path: Path): nat
    requires key in roots
  {
    At(disk, roots[key].cluster, path)
  }

  ghost predicate Shaped(v: Volume) {
    && |v.used| == |v.disk| <= MAX_CLUSTERS
    && 1 <= v.reserved <= |v.disk|
    && (forall c :: 0 <= c < |v.disk| ==> IsCluster(v.disk[c]))
    && (forall c :: 0 <= c < v.reserved ==> v.used[c])
  }

  /** Every owned cluster lies in the data area and is marked used. */
  ghost predicate OwnedAreUsed(v: Volume) {
    forall key, path :: Position(v.roots, key, path) && Owned(v.disk, v.roots, key, path) != 0 ==>
      InData(v, Owned(v.disk, v.roots, key, path))
  }

  ghost predicate InData(v: Volume, c: nat) {
    v.reserved <= c < |v.disk| && c < |v.used| && v.used[c]
  }

  /** No cluster is owned at two positions. */
  ghost predicate OwnedOnce(v: Volume) {
    forall key, path, key', path' ::
      Position(v.roots, key, path) && Position(v.roots, key', path')
      && Owned(v.disk, v.roots, key, path) != 0
      && Owned(v.disk, v.roots, key, path) == Owned(v.disk, v.roots, key', path')
      ==> key == key' && path == path'
  }

  ghost predicate Sound(v: Volume) {
    Shaped(v) && OwnedAreUsed(v) && OwnedOnce(v)
  }

  lemma SoundAt(v: Volume, key: Key, path: Path)
    requires Sound(v) && Position(v.roots, key, path)
    ensures Owned(v.disk, v.roots, key, path) != 0 ==> InData(v, Owned(v.disk, v.roots, key, path))
  {
  }

  lemma SameOwner(v: Volume, key: Key, path: Path, key': Key, path': Path)
    requires Sound(v) && Position(v.roots, key, path) && Position(v.roots, key', path')
    requires Owned(v.disk, v.roots, key, path) != 0
    requires Owned(v.disk, v.roots, key, path) == Owned(v.disk, v.roots, key', path')
    ensures key == key' && path == path'
  {
  }

  lemma PositionParent(roots: Roots, key: Key, path: Path)
    requires Position(roots, key, path) && path != []
    ensures Position(roots, key, path[..|path| - 1]) && |path[..|path| - 1]| < roots[key].depth
    ensures path[|path| - 1] < POINTERS_PER_CLUSTER
    ensures path == path[..|path| - 1] + [path[|path| - 1]]
  {
  }

  lemma AtChild(disk: seq<Cluster>, root: nat, path: Path, i: nat)
    ensures At(disk, root, path + [i]) ==
            var parent := At(disk, root, path);
            if parent == 0 || parent >= |disk| || !IsCluster(disk[parent]) || i >= POINTERS_PER_CLUSTER then 0
            else Ptr(disk[parent], i)
  {
    assert (path + [i])[..|path|] == path;
  }

  lemma {:induction false} AtNothing(disk: seq<Cluster>, path: Path)
    ensures At(disk, 0, path) == 0
  {
    if path != [] {
      AtNothing(disk, path[..|path| - 1]);
    }
  }

  lemma {:induction false} AtBelowNothing(disk: seq<Cluster>, root: nat, q: Path, p: Path)
    requires q <= p && At(disk, root, q) == 0
    ensures At(disk, root, p) == 0
    decreases |p|
  {
    if |q| < |p| {
      assert q <= p[..|p| - 1];
      AtBelowNothing(disk, root, q, p[..|p| - 1]);
    } else {
      assert p == q;
    }
  }

  // ----- Allocating a cluster and hanging it into the tree -----

  function AllocateIn(v: Volume, n: nat): Volume
    requires n < |v.disk| && n < |v.used|
  {
    v.(disk := v.disk[n := ZeroCluster()], used := v.used[n := true])
  }

  /** A cluster that is not owned may be overwritten. */
  lemma {:induction false} UnownedWrite(v: Volume, n: nat, data: Cluster, key: Key, path: Path)
    requires Sound(v) && n < |v.disk| && Position(v.roots, key, path)
    requires forall q :: Position(v.roots, key, q) ==> Owned(v.disk, v.roots, key, q) != n
    ensures Owned(v.disk[n := data], v.roots, key, path) == Owned(v.disk, v.roots, key, path)
    decreases |path|
  {
    if path != [] {
      PositionParent(v.roots, key, path);
      UnownedWrite(v, n, data, key, path[..|path| - 1]);
    }
  }

  ghost predicate Unowned(v: Volume, n: nat) {
    forall key, path :: Position(v.roots, key, path) ==> Owned(v.disk, v.roots, key, path) != n
  }

  lemma FreeIsUnowned(v: Volume, n: nat)
    requires Sound(v) && n < |v.disk| && !v.used[n]
    ensures Unowned(v, n) && n >= v.reserved && n != 0
  {
    forall key, path | Position(v.roots, key, path) ensures Owned(v.disk, v.roots, key, path) != n {
      SoundAt(v, key, path);
    }
  }

  lemma WriteUnowned(v: Volume, n: nat, data: Cluster)
    requires Sound(v) && n < |v.disk| && Unowned(v, n) && IsCluster(data)
    ensures Sound(v.(disk := v.disk[n := data]))
    ensures forall key, path :: Position(v.roots, key, path) ==>
              Owned(v.disk[n := data], v.roots, key, path) == Owned(v.disk, v.roots, key, path)
  {
    forall key, path | Position(v.roots, key, path)
      ensures Owned(v.disk[n := data], v.roots, key, path) == Owned(v.disk, v.roots, key, path)
    {
      UnownedWrite(v, n, data, key, path);
    }
  }

  lemma MarkUsedSound(v: Volume, n: nat)
    requires Sound(v) && n < |v.disk|
    ensures Sound(v.(used := v.used[n := true]))
  {
  }

  /** Allocation alone changes no position. */
  lemma AllocateSound(v: Volume, n: nat)
    requires Sound(v) && n < |v.disk| && !v.used[n]
    ensures Sound(AllocateIn(v, n)) && Unowned(AllocateIn(v, n), n)
    ensures forall key, path :: Position(v.roots, key, path) ==>
              Owned(AllocateIn(v, n).disk, v.roots, key, path) == Owned(v.disk, v.roots, key, path)
  {
    FreeIsUnowned(v, n);
    hide Sound, Owned;
    WriteUnowned(v, n, ZeroCluster());
    MarkUsedSound(v.(disk := v.disk[n := ZeroCluster()]), n);
  }

  /** A zeroed, used cluster of the data area that nobody owns yet. */
  ghost predicate Fresh(v: Volume, n: nat) {
    n < |v.disk| && InData(v, n) && Unowned(v, n) && v.disk[n] == ZeroCluster()
  }

  lemma AllocatedIsFresh(v: Volume, n: nat)
    requires Sound(v) && n < |v.disk| && !v.used[n]
    ensures Fresh(AllocateIn(v, n), n)
  {
    FreeIsUnowned(v, n);
    AllocateSound(v, n);
  }

  ghost predicate SamePositions(v: Volume, v': Volume) {
    && v.roots.Keys == v'.roots.Keys
    && forall key :: key in v.roots ==> v.roots[key].depth == v'.roots[key].depth
  }

  /** v' owns what v owns, and in addition n at position (key, path). */
  ghost predicate Gains(v: Volume, v': Volume, key: Key, path: Path, n: nat) {
    && SamePositions(v, v')
    && forall k, p :: Position(v'.roots, k, p) ==>
         Owned(v'.disk, v'.roots, k, p) ==
         if k == key && p == path then n else Owned(v.disk, v.roots, k, p)
  }

  lemma SamePosition(v: Volume, v': Volume, key: Key, path: Path)
    requires SamePositions(v, v')
    ensures Position(v.roots, key, path) <==> Position(v'.roots, key, path)
  {
  }

  lemma GainsSound(v: Volume, v': Volume, key: Key, path: Path, n: nat)
    requires Sound(v) && Shaped(v') && v'.used == v.used && v'.reserved == v.reserved && |v'.disk| == |v.disk|
    requires n < |v.disk| && InData(v, n) && Unowned(v, n)
    requires Gains(v, v', key, path, n)
    ensures Sound(v')
  {
    forall k, p | Position(v'.roots, k, p) && Owned(v'.disk, v'.roots, k, p) != 0
      ensures InData(v', Owned(v'.disk, v'.roots, k, p))
    {
      SamePosition(v, v', k, p);
    }
    forall k, p, k', p' | Position(v'.roots, k, p) && Position(v'.roots, k', p')
                          && Owned(v'.disk, v'.roots, k, p) != 0
                          && Owned(v'.disk, v'.roots, k, p) == Owned(v'.disk, v'.roots, k', p')
      ensures k == k' && p == p'
    {
      SamePosition(v, v', k, p);
      SamePosition(v, v', k', p');
      assert Owned(v'.disk, v'.roots, k, p) == if k == key && p == path then n else Owned(v.disk, v.roots, k, p);
      assert Owned(v'.disk, v'.roots, k', p') == if k' == key && p' == path then n else Owned(v.disk, v.roots, k', p');
    }
  }

  ghost function LinkedRoot(v: Volume, key: Key, n: nat): Volume
    requires key in v.roots
  {
    v.(roots := v.roots[key := v.roots[key].(cluster := n)])
  }

  lemma {:induction false} LinkRootAt(v: Volume, key: Key, n: nat, k: Key, p: Path)
    requires Sound(v) && Fresh(v, n) && key in v.roots && v.roots[key].cluster == 0 && Position(v.roots, k, p)
    ensures Owned(v.disk, LinkedRoot(v, key, n).roots, k, p) ==
            if k == key && p == [] then n else Owned(v.disk, v.roots, k, p)
    decreases |p|
  {
    if p != [] {
      PositionParent(v.roots, k, p);
      LinkRootAt(v, key, n, k, p[..|p| - 1]);
      if k == key {
        AtNothing(v.disk, p);
        ZeroPtr(p[|p| - 1]);
        AtNothing(v.disk, p[..|p| - 1]);
      }
    }
  }

  /** An inode pointer that was 0 may be set to a fresh cluster. */
  lemma LinkRoot(v: Volume, key: Key, n: nat)
    requires Sound(v) && Fresh(v, n) && key in v.roots && v.roots[key].cluster == 0
    ensures Sound(LinkedRoot(v, key, n))
    ensures Gains(v, LinkedRoot(v, key, n), key, [], n)
  {
    var v' := LinkedRoot(v, key, n);
    forall k, p | Position(v'.roots, k, p)
      ensures Owned(v'.disk, v'.roots, k, p) == if k == key && p == [] then n else Owned(v.disk, v.roots, k, p)
    {
      SamePosition(v, v', k, p);
      LinkRootAt(v, key, n, k, p);
    }
    hide Sound, Fresh, Owned, Position;
    FreshFacts(v, n);
    GainsSound(v, v', key, [], n);
  }

  lemma FreshFacts(v: Volume, n: nat)
    requires Sound(v) && Fresh(v, n)
    ensures Shaped(v) && n < |v.disk| == |v.used| && InData(v, n) && Unowned(v, n) && n != 0
    ensures v.disk[n] == ZeroCluster() && n < MAX_CLUSTERS
  {
  }

  /** A pointer cluster of the tree at (key, path), with pointer o still 0. */
  ghost predicate OpenPointer(v: Volume, key: Key, path: Path, o: nat) {
    && Position(v.roots, key, path) && |path| < v.roots[key].depth && o < POINTERS_PER_CLUSTER
    && var c := Owned(v.disk, v.roots, key, path);
       0 < c < |v.disk| && IsCluster(v.disk[c]) && Ptr(v.disk[c], o) == 0
  }

  ghost function LinkedChild(v: Volume, key: Key, path: Path, o: nat, n: nat): Volume
    requires OpenPointer(v, key, path, o)
  {
    var c := Owned(v.disk, v.roots, key, path);
    v.(disk := v.disk[c := SetPtr(v.disk[c], o, n)])
  }

  lemma {:induction false} LinkChildAt(v: Volume, key: Key, path: Path, o: nat, n: nat, k: Key, p: Path)
    requires Sound(v) && Fresh(v, n) && OpenPointer(v, key, path, o) && Position(v.roots, k, p)
    ensures Owned(LinkedChild(v, key, path, o, n).disk, v.roots, k, p) ==
            if k == key && p == path + [o] then n else Owned(v.disk, v.roots, k, p)
    decreases |p|
  {
    var disk' := LinkedChild(v, key, path, o, n).disk;
    var c := Owned(v.disk, v.roots, key, path);
    FreshFacts(v, n);
    if p != [] {
      var q, x := p[..|p| - 1], p[|p| - 1];
      PositionParent(v.roots, k, p);
      LinkChildAt(v, key, path, o, n, k, q);
      var d := Owned(v.disk, v.roots, k, q);
      if k == key && q == path + [o] {
        AtChild(v.disk, v.roots[key].cluster, path, o);
        ZeroPtr(x);
        NotOwned(v, n, key, path);
      } else if d == c {
        SameOwner(v, key, path, k, q);
        SetPtrFacts(v.disk[c], o, n, x);
      } else {
        assert !(k == key && p == path + [o]);
      }
    }
  }

  lemma NotOwned(v: Volume, n: nat, key: Key, path: Path)
    requires Unowned(v, n) && Position(v.roots, key, path)
    ensures Owned(v.disk, v.roots, key, path) != n
  {
  }

  /** A pointer that was 0 may be set to a fresh cluster. */
  lemma LinkChild(v: Volume, key: Key, path: Path, o: nat, n: nat)
    requires Sound(v) && Fresh(v, n) && OpenPointer(v, key, path, o)
    ensures Sound(LinkedChild(v, key, path, o, n))
    ensures Gains(v, LinkedChild(v, key, path, o, n), key, path + [o], n)
  {
    var v' := LinkedChild(v, key, path, o, n);
    forall k, p | Position(v'.roots, k, p)
      ensures Owned(v'.disk, v'.roots, k, p) == if k == key && p == path + [o] then n else Owned(v.disk, v.roots, k, p)
    {
      LinkChildAt(v, key, path, o, n, k, p);
    }
    hide Sound, Fresh, Owned, Position;
    FreshFacts(v, n);
    GainsSound(v, v', key, path + [o], n);
  }

  // ----- Writing data and growing a tree -----

  /** A position at full depth: the cluster there holds file data, not pointers. */
  ghost predicate LeafPosition(roots: Roots, key: Key, path: Path) {
    Position(roots, key, path) && |path| == roots[key].depth
  }

  lemma {:induction false} LeafWriteAt(v: Volume, key: Key, path: Path, data: Cluster, k: Key, p: Path)
    requires Sound(v) && LeafPosition(v.roots, key, path) && Position(v.roots, k, p)
    requires Owned(v.disk, v.roots, key, path) != 0
    ensures Owned(v.disk, v.roots, key, path) < |v.disk|
    ensures Owned(v.disk[Owned(v.disk, v.roots, key, path) := data], v.roots, k, p) == Owned(v.disk, v.roots, k, p)
    decreases |p|
  {
    SoundAt(v, key, path);
    if p != [] {
      var q := p[..|p| - 1];
      PositionParent(v.roots, k, p);
      LeafWriteAt(v, key, path, data, k, q);
      if Owned(v.disk, v.roots, k, q) == Owned(v.disk, v.roots, key, path) {
        SameOwner(v, key, path, k, q);
      }
    }
  }

  ghost predicate SameOwned(v: Volume, v': Volume) {
    && SamePositions(v, v')
    && forall k, p :: Position(v'.roots, k, p) ==>
         Owned(v'.disk, v'.roots, k, p) == Owned(v.disk, v.roots, k, p)
  }

  lemma SameOwnedSound(v: Volume, v': Volume)
    requires Sound(v) && Shaped(v') && v'.used == v.used && v'.reserved == v.reserved && |v'.disk| == |v.disk|
    requires SameOwned(v, v')
    ensures Sound(v')
  {
    forall k, p | Position(v'.roots, k, p) && Owned(v'.disk, v'.roots, k, p) != 0
      ensures InData(v', Owned(v'.disk, v'.roots, k, p))
    {
      SamePosition(v, v', k, p);
    }
    forall k, p, k', p' | Position(v'.roots, k, p) && Position(v'.roots, k', p')
                          && Owned(v'.disk, v'.roots, k, p) != 0
                          && Owned(v'.disk, v'.roots, k, p) == Owned(v'.disk, v'.roots, k', p')
      ensures k == k' && p == p'
    {
      SamePosition(v, v', k, p);
      SamePosition(v, v', k', p');
    }
  }

  ghost function LeafWritten(v: Volume, key: Key, path: Path, data: Cluster): Volume
    requires key in v.roots && Owned(v.disk, v.roots, key, path) < |v.disk|
  {
    v.(disk := v.disk[Owned(v.disk, v.roots, key, path) := data])
  }

  /** Writing file data moves no pointer. */
  lemma WriteLeaf(v: Volume, key: Key, path: Path, data: Cluster)
    requires Sound(v) && LeafPosition(v.roots, key, path) && IsCluster(data)
    requires Owned(v.disk, v.roots, key, path) != 0
    ensures Owned(v.disk, v.roots, key, path) < |v.disk|
    ensures Sound(LeafWritten(v, key, path, data)) && SameOwned(v, LeafWritten(v, key, path, data))
  {
    SoundAt(v, key, path);
    var v' := LeafWritten(v, key, path, data);
    forall k, p | Position(v'.roots, k, p)
      ensures Owned(v'.disk, v'.roots, k, p) == Owned(v.disk, v.roots, k, p)
    {
      LeafWriteAt(v, key, path, data, k, p);
    }
    SameOwnedSound(v, v');
  }

  /** Cluster c is owned somewhere below key. */
  ghost predicate OwnedUnder(v: Volume, key: Key, c: nat) {
    c != 0 && exists p :: Position(v.roots, key, p) && Owned(v.disk, v.roots, key, p) == c
  }

  /** Only empty positions on the way along path may have been filled. */
  ghost predicate FillsPath(v: Volume, v': Volume, key: Key, path: Path)
    requires SamePositions(v, v')
  {
    forall k, p :: Position(v'.roots, k, p) && Owned(v'.disk, v'.roots, k, p) != Owned(v.disk, v.roots, k, p) ==>
      k == key && p <= path && Owned(v.disk, v.roots, k, p) == 0
  }

  ghost predicate KeepsLeaves(v: Volume, v': Volume) {
    forall k, p :: LeafPosition(v.roots, k, p) && Owned(v.disk, v.roots, k, p) != 0 ==>
      SameCluster(v, v', Owned(v.disk, v.roots, k, p))
  }

  ghost predicate SameCluster(v: Volume, v': Volume, c: nat) {
    c < |v.disk| && c < |v'.disk| && v.disk[c] == v'.disk[c]
  }

  ghost predicate KeepsReserved(v: Volume, v': Volume) {
    forall c :: 0 <= c < v.reserved ==> SameCluster(v, v', c)
  }

  /** Free clusters have been taken from the lowest on. */
  ghost predicate LowestFirst(used: seq<bool>, used': seq<bool>) {
    |used| == |used'| && forall c, j :: 0 <= j < c < |used| && used'[c] && !used[c] ==> used'[j]
  }

  ghost predicate GrowsUsed(v: Volume, v': Volume, key: Key) {
    && |v.used| == |v'.used|
    && LowestFirst(v.used, v'.used)
    && (forall c :: 0 <= c < |v.used| && v.used[c] ==> v'.used[c])
    && (forall c :: 0 <= c < |v.used| && v'.used[c] && !v.used[c] ==> OwnedUnder(v', key, c))
  }

  /** Whatever is newly owned was free before. */
  ghost predicate TakesFree(v: Volume, v': Volume)
    requires SamePositions(v, v')
  {
    forall k, p :: Position(v'.roots, k, p) && Owned(v'.disk, v'.roots, k, p) != Owned(v.disk, v.roots, k, p) ==>
      WasFree(v, Owned(v'.disk, v'.roots, k, p))
  }

  ghost predicate WasFree(v: Volume, c: nat) {
    c < |v.used| && !v.used[c]
  }

  /** v' is v with more clusters along one path; all data and all other positions are as before. */
  ghost predicate Grew(v: Volume, v': Volume, key: Key, path: Path) {
    && SamePositions(v, v') && |v.disk| == |v'.disk| && v.reserved == v'.reserved
    && FillsPath(v, v', key, path)
    && KeepsLeaves(v, v')
    && KeepsReserved(v, v')
    && GrowsUsed(v, v', key)
    && TakesFree(v, v')
  }

  lemma GrewNothing(v: Volume, key: Key, path: Path)
    requires Sound(v)
    ensures Grew(v, v, key, path)
  {
    forall k, p | LeafPosition(v.roots, k, p) && Owned(v.disk, v.roots, k, p) != 0
      ensures SameCluster(v, v, Owned(v.disk, v.roots, k, p))
    {
      SoundAt(v, k, p);
    }
  }

  lemma OwnedStays(v: Volume, v': Volume, key: Key, path: Path, k: Key, p: Path)
    requires SamePositions(v, v') && FillsPath(v, v', key, path) && Position(v.roots, k, p)
    ensures Owned(v.disk, v.roots, k, p) != 0 ==> Owned(v'.disk, v'.roots, k, p) == Owned(v.disk, v.roots, k, p)
  {
    SamePosition(v, v', k, p);
  }

  lemma GrewTransitive(a: Volume, b: Volume, c: Volume, key: Key, p1: Path, p2: Path)
    requires Grew(a, b, key, p1) && Grew(b, c, key, p2) && p1 <= p2
    ensures Grew(a, c, key, p2)
  {
    FillsTransitive(a, b, c, key, p1, p2);
    KeepsLeavesTransitive(a, b, c, key, p1);
    UsedTransitive(a, b, c, key, p2);
    forall k, p | Position(c.roots, k, p) && Owned(c.disk, c.roots, k, p) != Owned(a.disk, a.roots, k, p)
      ensures WasFree(a, Owned(c.disk, c.roots, k, p))
    {
      SamePosition(b, c, k, p);
      if Owned(c.disk, c.roots, k, p) != Owned(b.disk, b.roots, k, p) {
        assert WasFree(b, Owned(c.disk, c.roots, k, p));
      } else {
        assert WasFree(a, Owned(b.disk, b.roots, k, p));
      }
    }
    forall x | 0 <= x < a.reserved ensures SameCluster(a, c, x) {
      assert SameCluster(a, b, x) && SameCluster(b, c, x);
    }
  }

  lemma FillsTransitive(a: Volume, b: Volume, c: Volume, key: Key, p1: Path, p2: Path)
    requires SamePositions(a, b) && SamePositions(b, c) && p1 <= p2
    requires FillsPath(a, b, key, p1) && FillsPath(b, c, key, p2)
    ensures FillsPath(a, c, key, p2)
  {
    forall k, p | Position(c.roots, k, p) && Owned(c.disk, c.roots, k, p) != Owned(a.disk, a.roots, k, p)
      ensures k == key && p <= p2 && Owned(a.disk, a.roots, k, p) == 0
    {
      SamePosition(b, c, k, p);
      SamePosition(a, b, k, p);
      if Owned(b.disk, b.roots, k, p) == Owned(a.disk, a.roots, k, p) {
        assert k == key && p <= p2;
      } else {
        assert k == key && p <= p1;
      }
    }
  }

  lemma KeepsLeavesTransitive(a: Volume, b: Volume, c: Volume, key: Key, p1: Path)
    requires SamePositions(a, b) && FillsPath(a, b, key, p1)
    requires KeepsLeaves(a, b) && KeepsLeaves(b, c)
    ensures KeepsLeaves(a, c)
  {
    forall k, p | LeafPosition(a.roots, k, p) && Owned(a.disk, a.roots, k, p) != 0
      ensures SameCluster(a, c, Owned(a.disk, a.roots, k, p))
    {
      SamePosition(a, b, k, p);
      OwnedStays(a, b, key, p1, k, p);
      assert LeafPosition(b.roots, k, p);
      assert SameCluster(a, b, Owned(a.disk, a.roots, k, p));
      assert SameCluster(b, c, Owned(b.disk, b.roots, k, p));
    }
  }

  lemma UsedTransitive(a: Volume, b: Volume, c: Volume, key: Key, p2: Path)
    requires SamePositions(b, c) && FillsPath(b, c, key, p2)
    requires GrowsUsed(a, b, key) && GrowsUsed(b, c, key)
    ensures GrowsUsed(a, c, key)
  {
    forall x | 0 <= x < |a.used| && c.used[x] && !a.used[x] ensures OwnedUnder(c, key, x) {
      if b.used[x] {
        assert OwnedUnder(b, key, x);
        var p :| Position(b.roots, key, p) && Owned(b.disk, b.roots, key, p) == x;
        SamePosition(b, c, key, p);
        OwnedStays(b, c, key, p2, key, p);
        assert Owned(c.disk, c.roots, key, p) == x;
      }
    }
  }

  /** Gaining one fresh cluster, with the data of every leaf left alone, is growth. */
  lemma GainGrows(v: Volume, n: nat, v': Volume, key: Key, path: Path)
    requires Sound(v) && n < |v.disk| && !v.used[n] && n != 0
    requires Gains(AllocateIn(v, n), v', key, path, n) && Position(v.roots, key, path)
    requires v'.used == v.used[n := true] && v'.reserved == v.reserved && |v'.disk| == |v.disk|
    requires forall j :: 0 <= j < n ==> v.used[j]
    requires Owned(v.disk, v.roots, key, path) == 0
    requires forall k, p :: Position(v.roots, k, p) ==>
               Owned(AllocateIn(v, n).disk, v.roots, k, p) == Owned(v.disk, v.roots, k, p)
    requires KeepsLeaves(v, v') && KeepsReserved(v, v')
    ensures Grew(v, v', key, path)
  {
    assert SamePositions(v, v');
    forall k, p | Position(v'.roots, k, p) && Owned(v'.disk, v'.roots, k, p) != Owned(v.disk, v.roots, k, p)
      ensures k == key && p <= path && Owned(v.disk, v.roots, k, p) == 0
    {
      SamePosition(v, v', k, p);
    }
    SamePosition(v, v', key, path);
    assert Owned(v'.disk, v'.roots, key, path) == n;
    assert OwnedUnder(v', key, n);
  }

  lemma KeepsAfterAllocate(v: Volume, n: nat)
    requires Sound(v) && n < |v.disk| && !v.used[n]
    ensures KeepsLeaves(v, AllocateIn(v, n)) && KeepsReserved(v, AllocateIn(v, n))
  {
    forall k, p | LeafPosition(v.roots, k, p) && Owned(v.disk, v.roots, k, p) != 0
      ensures SameCluster(v, AllocateIn(v, n), Owned(v.disk, v.roots, k, p))
    {
      SoundAt(v, k, p);
    }
  }

  /** Giving an inode pointer its first cluster. */
  lemma GrowRoot(v: Volume, key: Key, n: nat)
    requires Sound(v) && key in v.roots && v.roots[key].cluster == 0 && n < |v.disk| && !v.used[n]
    requires forall j :: 0 <= j < n ==> v.used[j]
    ensures var v' := LinkedRoot(AllocateIn(v, n), key, n);
            && Sound(v') && Grew(v, v', key, [])
            && Owned(v'.disk, v'.roots, key, []) == n != 0
  {
    var v' := LinkedRoot(AllocateIn(v, n), key, n);
    FreeIsUnowned(v, n);
    AllocateSound(v, n);
    AllocatedIsFresh(v, n);
    KeepsAfterAllocate(v, n);
    LinkRoot(AllocateIn(v, n), key, n);
    assert Position(v.roots, key, []);
    hide Sound, Fresh, Unowned;
    forall k, p | LeafPosition(v.roots, k, p) && Owned(v.disk, v.roots, k, p) != 0
      ensures SameCluster(v, v', Owned(v.disk, v.roots, k, p))
    {
      assert SameCluster(v, AllocateIn(v, n), Owned(v.disk, v.roots, k, p));
    }
    forall c | 0 <= c < v.reserved ensures SameCluster(v, v', c) {
      assert SameCluster(v, AllocateIn(v, n), c);
    }
    GainGrows(v, n, v', key, []);
    assert Position(v'.roots, key, []);
  }

  /** Giving an empty pointer of a pointer cluster its first cluster. */
  lemma GrowChild(v: Volume, key: Key, path: Path, o: nat, n: nat)
    requires Sound(v) && OpenPointer(v, key, path, o) && n < |v.disk| && !v.used[n]
    requires forall j :: 0 <= j < n ==> v.used[j]
    ensures OpenPointer(AllocateIn(v, n), key, path, o)
    ensures var v' := LinkedChild(AllocateIn(v, n), key, path, o, n);
            && Sound(v') && Grew(v, v', key, path + [o])
            && Owned(v'.disk, v'.roots, key, path + [o]) == n != 0
            && v'.disk[n] == ZeroCluster()
  {
    var w := AllocateIn(v, n);
    var c := Owned(v.disk, v.roots, key, path);
    SoundAt(v, key, path);
    FreeIsUnowned(v, n);
    AllocateSound(v, n);
    AllocatedIsFresh(v, n);
    KeepsAfterAllocate(v, n);
    var v' := LinkedChild(w, key, path, o, n);
    LinkChild(w, key, path, o, n);
    assert Position(v.roots, key, path + [o]);
    AtChild(v.disk, v.roots[key].cluster, path, o);
    ParentIsNoLeaf(v, key, path);
    hide Sound, Fresh, Unowned;
    forall k, p | LeafPosition(v.roots, k, p) && Owned(v.disk, v.roots, k, p) != 0
      ensures SameCluster(v, v', Owned(v.disk, v.roots, k, p))
    {
      assert SameCluster(v, w, Owned(v.disk, v.roots, k, p));
    }
    forall x | 0 <= x < v.reserved ensures SameCluster(v, v', x) {
      assert SameCluster(v, w, x);
    }
    GainGrows(v, n, v', key, path + [o]);
  }

  /** A pointer cluster is not the data cluster of any leaf. */
  lemma ParentIsNoLeaf(v: Volume, key: Key, path: Path)
    requires Sound(v) && Position(v.roots, key, path) && |path| < v.roots[key].depth
    requires Owned(v.disk, v.roots, key, path) != 0
    ensures v.reserved <= Owned(v.disk, v.roots, key, path)
    ensures forall k, p :: LeafPosition(v.roots, k, p) ==>
              Owned(v.disk, v.roots, k, p) != Owned(v.disk, v.roots, key, path)
  {
    SoundAt(v, key, path);
    forall k, p | LeafPosition(v.roots, k, p)
      ensures Owned(v.disk, v.roots, k, p) != Owned(v.disk, v.roots, key, path)
    {
      if Owned(v.disk, v.roots, k, p) == Owned(v.disk, v.roots, key, path) {
        SameOwner(v, key, path, k, p);
      }
    }
  }
}
