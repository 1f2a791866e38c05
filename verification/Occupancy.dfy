/** How many clusters a file occupies: its data clusters and the pointer clusters above them. */
module Occupancy {
  import opened Basics
  import opened Bitmap
  import opened Clusters
  import opened Ownership
  import opened Inodes
  import opened FileViews
  import opened AllocationSteps
  import opened Truncation

  /** Position path below pointer k is on the way to one of the first n logical clusters. */
  ghost predicate OnTheWay(k: nat, path: Path, n: nat) {
    exists m: nat :: m < n && SlotFor(m) == k && path <= PathFor(m)
  }

  /** The positions on the way to logical cluster l. */
  ghost function WayTo(l: nat): (ps: set<(nat, Path)>)
    ensures forall k: nat, p: Path :: (k, p) in ps <==> k == SlotFor(l) && p <= PathFor(l)
  {
    var q := PathFor(l);
    assert forall p: Path :: p <= q ==> p == q[..|p|];
    set i | 0 <= i <= |q| :: (SlotFor(l), q[..i])
  }

  ghost function Positions(n: nat): (ps: set<(nat, Path)>)
    ensures forall k: nat, p: Path :: (k, p) in ps <==> OnTheWay(k, p, n)
  {
    if n == 0 then {} else Positions(n - 1) + WayTo(n - 1)
  }

  function DivideUp(a: nat, b: nat): nat
    requires b > 0
  {
    (a + b - 1) / b
  }

  /** The pointer clusters of a file with n data clusters. */
  function PointerClusters(n: nat): nat {
    (if n > DIRECT_POINTERS then 1 else 0)
    + (if n > DOUBLE_START then 1 + DivideUp(Min(n, TRIPLE_START) - DOUBLE_START, POINTERS_PER_CLUSTER) else 0)
    + (if n > TRIPLE_START then 1 + DivideUp(n - TRIPLE_START, SQUARE) + DivideUp(n - TRIPLE_START, POINTERS_PER_CLUSTER) else 0)
  }

  // ----- The positions added by one more cluster -----

  /** The offset of cluster l below its pointer. */
  function OffsetInTree(l: nat): nat {
    if l < DIRECT_POINTERS then 0
    else if l < DOUBLE_START then l - DIRECT_POINTERS
    else if l < TRIPLE_START then l - DOUBLE_START
    else l - TRIPLE_START
  }

  function Span(d: nat): (w: nat)
    ensures w > 0
  {
    if d == 0 then 1 else if d == 1 then POINTERS_PER_CLUSTER else if d == 2 then SQUARE else SQUARE * POINTERS_PER_CLUSTER
  }

  lemma PrefixIs(p: Path, q: Path, j: nat)
    requires |p| == |q| && j <= |p|
    ensures p[..j] <= q <==> forall i :: 0 <= i < j ==> p[i] == q[i]
  {
    if p[..j] <= q {
      forall i | 0 <= i < j ensures p[i] == q[i] {
        assert p[..j][i] == q[i];
      }
    }
  }

  lemma SharedDouble(r: nat, s: nat, j: nat)
    requires r < SQUARE && s < SQUARE && j <= 2
    ensures var p, q := [r / POINTERS_PER_CLUSTER, r % POINTERS_PER_CLUSTER], [s / POINTERS_PER_CLUSTER, s % POINTERS_PER_CLUSTER];
            (forall i :: 0 <= i < j ==> p[i] == q[i]) <==> r / Span(2 - j) == s / Span(2 - j)
  {
    var p, q := [r / POINTERS_PER_CLUSTER, r % POINTERS_PER_CLUSTER], [s / POINTERS_PER_CLUSTER, s % POINTERS_PER_CLUSTER];
    assert (forall i :: 0 <= i < 2 ==> p[i] == q[i]) <==> p[0] == q[0] && p[1] == q[1];
    assert (forall i :: 0 <= i < 1 ==> p[i] == q[i]) <==> p[0] == q[0];
  }

  lemma SharedTriple(r: nat, s: nat, j: nat)
    requires r < SQUARE * POINTERS_PER_CLUSTER && s < SQUARE * POINTERS_PER_CLUSTER && j <= 3
    ensures var p := [r / SQUARE, r % SQUARE / POINTERS_PER_CLUSTER, r % SQUARE % POINTERS_PER_CLUSTER];
            var q := [s / SQUARE, s % SQUARE / POINTERS_PER_CLUSTER, s % SQUARE % POINTERS_PER_CLUSTER];
            (forall i :: 0 <= i < j ==> p[i] == q[i]) <==> r / Span(3 - j) == s / Span(3 - j)
  {
    var p := [r / SQUARE, r % SQUARE / POINTERS_PER_CLUSTER, r % SQUARE % POINTERS_PER_CLUSTER];
    var q := [s / SQUARE, s % SQUARE / POINTERS_PER_CLUSTER, s % SQUARE % POINTERS_PER_CLUSTER];
    ThreeDigits(r);
    ThreeDigits(s);
    hide *;
    assert (forall i :: 0 <= i < 3 ==> p[i] == q[i]) <==> p[0] == q[0] && p[1] == q[1] && p[2] == q[2];
    assert (forall i :: 0 <= i < 2 ==> p[i] == q[i]) <==> p[0] == q[0] && p[1] == q[1];
    assert (forall i :: 0 <= i < 1 ==> p[i] == q[i]) <==> p[0] == q[0];
    SpanValues(r, s, j);
  }

  lemma SpanValues(r: nat, s: nat, j: nat)
    requires r < SQUARE * POINTERS_PER_CLUSTER && s < SQUARE * POINTERS_PER_CLUSTER && j <= 3
    ensures j == 0 ==> r / Span(3 - j) == s / Span(3 - j)
    ensures j == 1 ==> r / Span(3 - j) == r / SQUARE && s / Span(3 - j) == s / SQUARE
    ensures j == 2 ==> r / Span(3 - j) == r / POINTERS_PER_CLUSTER && s / Span(3 - j) == s / POINTERS_PER_CLUSTER
    ensures j == 3 ==> r / Span(3 - j) == r && s / Span(3 - j) == s
  {
  }

  lemma ThreeDigits(r: nat)
    ensures r / POINTERS_PER_CLUSTER == r / SQUARE * POINTERS_PER_CLUSTER + r % SQUARE / POINTERS_PER_CLUSTER
    ensures r == r / POINTERS_PER_CLUSTER * POINTERS_PER_CLUSTER + r % SQUARE % POINTERS_PER_CLUSTER
    ensures 0 <= r % SQUARE / POINTERS_PER_CLUSTER < POINTERS_PER_CLUSTER
    ensures 0 <= r % SQUARE % POINTERS_PER_CLUSTER < POINTERS_PER_CLUSTER
  {
  }

  /** Two clusters below one pointer share their first j path entries exactly when they lie in the same span. */
  lemma SharedPrefix(l: nat, m: nat, j: nat)
    requires SlotFor(l) == SlotFor(m) && j <= |PathFor(l)| && l < MAX_FILE_CLUSTERS && m < MAX_FILE_CLUSTERS
    ensures PathFor(l)[..j] <= PathFor(m) <==> OffsetInTree(l) / Span(|PathFor(l)| - j) == OffsetInTree(m) / Span(|PathFor(l)| - j)
  {
    var p, q, d := PathFor(l), PathFor(m), |PathFor(l)|;
    PrefixIs(p, q, j);
    if d == 3 {
      SharedTriple(OffsetInTree(l), OffsetInTree(m), j);
    } else if d == 2 {
      SharedDouble(OffsetInTree(l), OffsetInTree(m), j);
    } else if d == 1 && j == 1 {
      assert p[0] == OffsetInTree(l) && q[0] == OffsetInTree(m);
    }
  }

  /** The first j entries of the path of l lead somewhere new exactly when l is the first of its span. */
  lemma NewPrefix(l: nat, j: nat)
    requires l < MAX_FILE_CLUSTERS && j <= |PathFor(l)|
    ensures OnTheWay(SlotFor(l), PathFor(l)[..j], l) <==> OffsetInTree(l) % Span(|PathFor(l)| - j) != 0
  {
    hide PathFor, Span, OffsetInTree, SlotFor;
    var w := Span(|PathFor(l)| - j);
    if OffsetInTree(l) % w != 0 {
      Before(l);
      SharedPrefix(l, l - 1, j);
      SameQuotient(OffsetInTree(l), w);
    }
    if OnTheWay(SlotFor(l), PathFor(l)[..j], l) {
      var m: nat :| m < l && SlotFor(m) == SlotFor(l) && PathFor(l)[..j] <= PathFor(m);
      SharedPrefix(l, m, j);
      OffsetGrows(m, l);
      if OffsetInTree(l) % w == 0 {
        SmallerQuotient(OffsetInTree(m), OffsetInTree(l), w);
      }
    }
  }

  lemma SmallerQuotient(s: nat, r: nat, w: nat)
    requires w > 0 && s < r && r % w == 0
    ensures s / w < r / w
  {
    var q := s / w;
    QuotientNonNegative(r, w);
    assert s == w * q + s % w && r == w * (r / w);
    if r / w <= q {
      MulMonotone(r / w, q, w);
    }
  }

  lemma Before(l: nat)
    requires OffsetInTree(l) > 0
    ensures l > 0 && SlotFor(l - 1) == SlotFor(l) && OffsetInTree(l - 1) == OffsetInTree(l) - 1
  {
  }

  lemma OffsetGrows(m: nat, l: nat)
    requires m < l && SlotFor(m) == SlotFor(l)
    ensures OffsetInTree(m) < OffsetInTree(l)
  {
  }

  lemma SameQuotient(r: nat, w: nat)
    requires w > 0 && r > 0 && r % w != 0
    ensures (r - 1) / w == r / w
  {
    Quotient(r - 1, w, r / w, r % w - 1);
  }

  // ----- Counting the positions -----

  /** The new ones among the first j prefixes of the path of l. */
  ghost function NewPieces(l: nat, j: nat): (ps: set<(nat, Path)>)
    requires j <= |PathFor(l)| + 1
    ensures forall k: nat, p: Path :: (k, p) in ps <==>
              k == SlotFor(l) && |p| < j && p <= PathFor(l) && OffsetInTree(l) % Span(|PathFor(l)| - |p|) == 0
  {
    if j == 0 then {}
    else
      var q := PathFor(l)[..j - 1];
      assert forall p: Path :: |p| == j - 1 && p <= PathFor(l) ==> p == q;
      NewPieces(l, j - 1) + (if OffsetInTree(l) % Span(|PathFor(l)| - (j - 1)) == 0 then {(SlotFor(l), q)} else {})
  }

  function NewCount(l: nat, j: nat): nat
    requires j <= |PathFor(l)| + 1
  {
    if j == 0 then 0 else NewCount(l, j - 1) + (if OffsetInTree(l) % Span(|PathFor(l)| - (j - 1)) == 0 then 1 else 0)
  }

  lemma {:induction false} NewPiecesSize(l: nat, j: nat)
    requires j <= |PathFor(l)| + 1
    ensures |NewPieces(l, j)| == NewCount(l, j)
  {
    if j > 0 {
      NewPiecesSize(l, j - 1);
      var q := PathFor(l)[..j - 1];
      assert (SlotFor(l), q) !in NewPieces(l, j - 1);
    }
  }

  lemma NewPiecesAreNew(l: nat)
    requires l < MAX_FILE_CLUSTERS
    ensures NewPieces(l, |PathFor(l)| + 1) == WayTo(l) - Positions(l)
  {
    hide PathFor, NewPieces, WayTo, Positions, Span, OnTheWay, SlotFor, OffsetInTree;
    var pieces, added := NewPieces(l, |PathFor(l)| + 1), WayTo(l) - Positions(l);
    forall k: nat, p: Path ensures (k, p) in pieces <==> (k, p) in added {
      if k == SlotFor(l) && p <= PathFor(l) {
        assert p == PathFor(l)[..|p|];
        NewPrefix(l, |p|);
      }
    }
    PairSetsEqual(pieces, added);
  }

  lemma PairSetsEqual(a: set<(nat, Path)>, b: set<(nat, Path)>)
    requires forall k: nat, p: Path :: (k, p) in a <==> (k, p) in b
    ensures a == b
  {
    forall x ensures x in a <==> x in b {
      assert x == (x.0, x.1);
    }
  }

  /** One more data cluster brings its own position and those of the pointer clusters it is the first below. */
  lemma NewCountIs(l: nat)
    requires l < MAX_FILE_CLUSTERS
    ensures NewCount(l, |PathFor(l)| + 1) == 1 + PointerClusters(l + 1) - PointerClusters(l)
  {
    var r, d := OffsetInTree(l), |PathFor(l)|;
    if d == 0 {
      assert NewCount(l, 1) == 1;
    } else if d == 1 {
      assert NewCount(l, 1) == if r == 0 then 1 else 0;
      assert NewCount(l, 2) == NewCount(l, 1) + 1;
    } else if d == 2 {
      assert NewCount(l, 1) == if r == 0 then 1 else 0;
      assert NewCount(l, 2) == NewCount(l, 1) + if r % POINTERS_PER_CLUSTER == 0 then 1 else 0;
      assert NewCount(l, 3) == NewCount(l, 2) + 1;
      DivideUpStep(r, POINTERS_PER_CLUSTER);
    } else {
      assert NewCount(l, 1) == if r == 0 then 1 else 0;
      assert NewCount(l, 2) == NewCount(l, 1) + if r % SQUARE == 0 then 1 else 0;
      assert NewCount(l, 3) == NewCount(l, 2) + if r % POINTERS_PER_CLUSTER == 0 then 1 else 0;
      assert NewCount(l, 4) == NewCount(l, 3) + 1;
      DivideUpStep(r, POINTERS_PER_CLUSTER);
      DivideUpStep(r, SQUARE);
    }
  }

  lemma DivideUpStep(r: nat, w: nat)
    requires w > 0
    ensures DivideUp(r + 1, w) == DivideUp(r, w) + if r % w == 0 then 1 else 0
  {
    var q, x := r / w, r % w;
    QuotientNonNegative(r, w);
    assert r == w * q + x;
    Quotient(r + w, w, q + 1, x);
    if x == 0 {
      Quotient(r + w - 1, w, q, w - 1);
    } else {
      Quotient(r + w - 1, w, q + 1, x - 1);
    }
  }

  /** A file of n data clusters has n positions of data and PointerClusters(n) positions of pointer clusters. */
  lemma {:induction false} PositionsSize(n: nat)
    requires n <= MAX_FILE_CLUSTERS
    ensures |Positions(n)| == n + PointerClusters(n)
  {
    hide PathFor, SlotFor, Span, OffsetInTree, PointerClusters, NewPieces, NewCount;
    if n > 0 {
      var l := n - 1;
      PositionsSize(l);
      NewPiecesAreNew(l);
      NewPiecesSize(l, |PathFor(l)| + 1);
      NewCountIs(l);
      assert Positions(n) == Positions(l) + (WayTo(l) - Positions(l));
    } else {
      NoPointerClusters();
    }
  }

  lemma NoPointerClusters()
    ensures PointerClusters(0) == 0
  {
  }

  // ----- The clusters at those positions -----

  /** The inode owns a cluster exactly at the positions on the way to its first n logical clusters. */
  ghost predicate Occupies(v: Volume, id: nat, n: nat) {
    forall k: nat, p: Path :: Position(v.roots, Slot(id, k), p) ==>
      (Owned(v.disk, v.roots, Slot(id, k), p) != 0 <==> OnTheWay(k, p, n))
  }

  ghost function ClusterAt(v: Volume, id: nat, kp: (nat, Path)): nat {
    if Slot(id, kp.0) in v.roots then Owned(v.disk, v.roots, Slot(id, kp.0), kp.1) else 0
  }

  ghost function ClustersAt(v: Volume, id: nat, ps: set<(nat, Path)>): set<nat> {
    set kp | kp in ps :: ClusterAt(v, id, kp)
  }

  lemma {:induction false} ImageSize(v: Volume, id: nat, ps: set<(nat, Path)>)
    requires forall a, b :: a in ps && b in ps && ClusterAt(v, id, a) == ClusterAt(v, id, b) ==> a == b
    ensures |ClustersAt(v, id, ps)| == |ps|
    decreases |ps|
  {
    if ps == {} {
      assert ClustersAt(v, id, ps) == {};
    } else {
      var kp :| kp in ps;
      ImageSize(v, id, ps - {kp});
      assert ClusterAt(v, id, kp) !in ClustersAt(v, id, ps - {kp});
      assert ClustersAt(v, id, ps) == ClustersAt(v, id, ps - {kp}) + {ClusterAt(v, id, kp)};
    }
  }

  lemma WayIsPosition(table: seq<Inode>, id: nat, k: nat, p: Path, n: nat)
    requires TableOk(table) && id < |table| && OnTheWay(k, p, n) && n <= MAX_FILE_CLUSTERS
    ensures Position(TableRoots(table), Slot(id, k), p)
  {
    var m: nat :| m < n && SlotFor(m) == k && p <= PathFor(m);
    PrefixPosition(table, id, m, p);
  }

  /** The clusters an inode owns: as many as its data clusters and the pointer clusters they need. */
  lemma OccupiedClusters(v: Volume, table: seq<Inode>, id: nat, n: nat)
    requires Sound(v) && OfTable(v, table) && id < |table| && Occupies(v, id, n) && n <= MAX_FILE_CLUSTERS
    ensures |ClustersAt(v, id, Positions(n))| == n + PointerClusters(n)
    ensures forall c: nat :: c in ClustersAt(v, id, Positions(n)) <==> OwnedByInode(v, id, c)
  {
    hide OnTheWay, TableRoots, PointerClusters, Positions, Owned;
    forall kp | kp in Positions(n)
      ensures Position(v.roots, Slot(id, kp.0), kp.1) && Owned(v.disk, v.roots, Slot(id, kp.0), kp.1) != 0
    {
      assert kp == (kp.0, kp.1);
      WayIsPosition(table, id, kp.0, kp.1, n);
    }
    forall a, b | a in Positions(n) && b in Positions(n) && ClusterAt(v, id, a) == ClusterAt(v, id, b) ensures a == b {
      SameOwner(v, Slot(id, a.0), a.1, Slot(id, b.0), b.1);
      assert a == (a.0, a.1) && b == (b.0, b.1);
    }
    ImageSize(v, id, Positions(n));
    PositionsSize(n);
    forall c: nat ensures c in ClustersAt(v, id, Positions(n)) <==> OwnedByInode(v, id, c) {
      OccupiedCluster(v, table, id, n, c);
    }
  }

  /** Everything inode id owns, data clusters and pointer clusters. */
  ghost function ClustersOf(v: Volume, id: nat): set<nat> {
    set c: nat | c < |v.used| && OwnedByInode(v, id, c)
  }

  lemma OccupiedCount(v: Volume, table: seq<Inode>, id: nat, n: nat)
    requires Sound(v) && OfTable(v, table) && id < |table| && Occupies(v, id, n) && n <= MAX_FILE_CLUSTERS
    ensures |ClustersOf(v, id)| == n + PointerClusters(n)
  {
    hide TableRoots, PointerClusters, Positions, OwnedByInode, Occupies, Sound;
    OccupiedClusters(v, table, id, n);
    forall c: nat | OwnedByInode(v, id, c) ensures c < |v.used| {
      OwnedInUse(v, id, c);
    }
    assert ClustersOf(v, id) == ClustersAt(v, id, Positions(n));
  }

  lemma OccupiedCluster(v: Volume, table: seq<Inode>, id: nat, n: nat, c: nat)
    requires Sound(v) && OfTable(v, table) && id < |table| && Occupies(v, id, n) && n <= MAX_FILE_CLUSTERS
    ensures c in ClustersAt(v, id, Positions(n)) <==> OwnedByInode(v, id, c)
  {
    hide OnTheWay, TableRoots, Positions, Owned, Sound;
    if c in ClustersAt(v, id, Positions(n)) {
      var kp :| kp in Positions(n) && ClusterAt(v, id, kp) == c;
      assert kp == (kp.0, kp.1);
      WayIsPosition(table, id, kp.0, kp.1, n);
      assert OwnedUnder(v, Slot(id, kp.0), c);
    }
    if OwnedByInode(v, id, c) {
      var k :| 0 <= k < SLOT_COUNT && OwnedUnder(v, Slot(id, k), c);
      var p :| Position(v.roots, Slot(id, k), p) && Owned(v.disk, v.roots, Slot(id, k), p) == c;
      assert (k, p) in Positions(n) && ClusterAt(v, id, (k, p)) == c;
    }
  }

  // ----- Counting used clusters -----

  ghost function UsedSet(used: seq<bool>, n: nat): (s: set<nat>)
    requires n <= |used|
  {
    set c: nat | c < n && used[c]
  }

  lemma {:induction false} CountIsSize(used: seq<bool>, n: nat)
    requires n <= |used|
    ensures CountUsed(used, n) == |UsedSet(used, n)|
  {
    if n == 0 {
      assert UsedSet(used, 0) == {};
    } else {
      CountIsSize(used, n - 1);
      assert UsedSet(used, n) == UsedSet(used, n - 1) + (if used[n - 1] then {n - 1} else {});
    }
  }

  /** Truncating a file gives back what it owned. */
  lemma TruncatedCount(v: Volume, id: nat, used': seq<bool>)
    requires Sound(v) && Truncated(v, id, v.used, used')
    ensures CountUsed(v.used, |v.used|) == CountUsed(used', |used'|) + |ClustersOf(v, id)|
  {
    CountIsSize(v.used, |v.used|);
    CountIsSize(used', |used'|);
    var owned, before, after := ClustersOf(v, id), UsedSet(v.used, |v.used|), UsedSet(used', |used'|);
    forall c: nat | c in owned ensures c in before {
      hide *;
      OwnedInUse(v, id, c);
      UsedAfterTruncate(v, id, used', c);
    }
    hide OwnedByInode, Sound, CountUsed;
    assert after == before - owned;
    RemovedSize(before, owned);
  }

  /** Truncating a file gives back its data clusters and its pointer clusters, no more and no fewer. */
  lemma TruncateCount(v: Volume, table: seq<Inode>, id: nat, n: nat, used': seq<bool>)
    requires Sound(v) && OfTable(v, table) && id < |table| && Occupies(v, id, n) && n <= MAX_FILE_CLUSTERS
    requires Truncated(v, id, v.used, used')
    ensures CountUsed(v.used, |v.used|) == CountUsed(used', |used'|) + n + PointerClusters(n)
  {
    hide TableRoots, PointerClusters, ClustersOf, Occupies, Truncated, Sound;
    OccupiedCount(v, table, id, n);
    TruncatedCount(v, id, used');
  }

  lemma UsedAfterTruncate(v: Volume, id: nat, used': seq<bool>, c: nat)
    requires Truncated(v, id, v.used, used')
    ensures c in UsedSet(v.used, |v.used|) <==> c < |v.used| && v.used[c]
    ensures c in UsedSet(used', |used'|) <==> c < |v.used| && v.used[c] && !OwnedByInode(v, id, c)
  {
  }

  lemma RemovedSize(a: set<nat>, b: set<nat>)
    requires b <= a
    ensures |a| == |a - b| + |b|
  {
    assert a == (a - b) + b;
  }

  // ----- How writing fills positions -----

  /** Positions of inode id that changed lie on the way to its first n clusters. */
  ghost predicate Fills(v: Volume, w: Volume, id: nat, n: nat) {
    && SamePositions(v, w)
    && forall k: nat, p: Path :: Position(v.roots, Slot(id, k), p) ==>
         Owned(w.disk, w.roots, Slot(id, k), p) == Owned(v.disk, v.roots, Slot(id, k), p) || OnTheWay(k, p, n)
  }

  lemma FillsNothing(v: Volume, id: nat, n: nat)
    ensures Fills(v, v, id, n)
  {
  }

  lemma GrewFills(v: Volume, w: Volume, id: nat, l: nat, n: nat)
    requires Grew(v, w, Slot(id, SlotFor(l)), PathFor(l)) && l < n
    ensures Fills(v, w, id, n)
  {
    forall k: nat, p: Path | Position(v.roots, Slot(id, k), p)
                             && Owned(w.disk, w.roots, Slot(id, k), p) != Owned(v.disk, v.roots, Slot(id, k), p)
      ensures OnTheWay(k, p, n)
    {
      SamePosition(v, w, Slot(id, k), p);
    }
  }

  lemma SameOwnedFills(v: Volume, w: Volume, id: nat, n: nat)
    requires SameOwned(v, w)
    ensures Fills(v, w, id, n)
  {
    forall k: nat, p: Path | Position(v.roots, Slot(id, k), p)
      ensures Owned(w.disk, w.roots, Slot(id, k), p) == Owned(v.disk, v.roots, Slot(id, k), p)
    {
      SamePosition(v, w, Slot(id, k), p);
    }
  }

  lemma FillsTransitively(a: Volume, b: Volume, c: Volume, id: nat, n: nat)
    requires Fills(a, b, id, n) && Fills(b, c, id, n)
    ensures Fills(a, c, id, n)
  {
    forall k: nat, p: Path | Position(a.roots, Slot(id, k), p)
                             && Owned(c.disk, c.roots, Slot(id, k), p) != Owned(a.disk, a.roots, Slot(id, k), p)
      ensures OnTheWay(k, p, n)
    {
      SamePosition(a, b, Slot(id, k), p);
    }
  }

  lemma FillsMore(v: Volume, w: Volume, id: nat, m: nat, n: nat)
    requires Fills(v, w, id, m) && m <= n
    ensures Fills(v, w, id, n)
  {
  }

  /** Resolving a cluster fills positions on the way to it only. */
  lemma ResolvedFills(v: Volume, w: Volume, ino: Inode, ino': Inode, l: nat, status: Status, physical: nat)
    requires InodeOk(ino) && InodeOk(ino') && Resolved(v, w, ino, ino', l, true, status, physical)
    ensures Fills(v, w, ino.id, l + 1)
  {
    hide Sound, OnTheWay;
    GrewFills(v, w, ino.id, l, l + 1);
  }

  /** Writing file data afterwards fills nothing. */
  lemma FillsThenSame(v: Volume, w: Volume, x: Volume, id: nat, n: nat)
    requires Fills(v, w, id, n) && SameOwned(w, x)
    ensures Fills(v, x, id, n)
  {
    hide OnTheWay, Fills;
    SameOwnedFills(w, x, id, n);
    FillsTransitively(v, w, x, id, n);
  }

  /** Resolving, then patching: together the step of writing one chunk. */
  lemma ChunkDone(v: Volume, w: Volume, x: Volume, inodes: seq<Inode>, inodes': seq<Inode>, id: nat, l: nat, data: Cluster)
    requires TableOk(inodes) && TableOk(inodes') && id < |inodes| == |inodes'|
    requires FileStep(v, w, inodes, inodes', id) && Fills(v, w, id, l + 1) && OnlyBacked(v, w, inodes, inodes', id, l)
    requires FileStep(w, x, inodes', inodes', id) && SameOwned(w, x) && ClusterWritten(w, x, inodes', inodes', id, l, data)
    ensures FileStep(v, x, inodes, inodes', id) && Fills(v, x, id, l + 1)
    ensures ClusterWritten(v, x, inodes, inodes', id, l, data)
  {
    hide FileStep, Fills, SameOwned, ClusterWritten, OnlyBacked;
    FillsThenSame(v, w, x, id, l + 1);
    FileStepTransitive(v, w, x, inodes, inodes', inodes', id);
    WrittenAfterResolve(v, w, x, inodes, inodes', id, l, data);
  }

  lemma NextFills(v: Volume, w: Volume, x: Volume, id: nat, offset: nat, total: nat, written: nat)
    requires written < total && Fills(v, w, id, ClustersFor(offset + total))
    requires Fills(w, x, id, (offset + written) / CLUSTER_SIZE + 1)
    ensures Fills(v, x, id, ClustersFor(offset + total))
  {
    FillsMore(w, x, id, (offset + written) / CLUSTER_SIZE + 1, ClustersFor(offset + total));
    FillsTransitively(v, w, x, id, ClustersFor(offset + total));
  }

  lemma EmptyOccupies(v: Volume, table: seq<Inode>, id: nat)
    requires OfTable(v, table) && id < |table| && NoPointers(table[id])
    ensures Occupies(v, id, 0)
  {
    forall k: nat, p: Path | Position(v.roots, Slot(id, k), p) ensures Owned(v.disk, v.roots, Slot(id, k), p) == 0 {
      AtNothing(v.disk, p);
    }
  }

  /** Whatever the inode owns lies on the way to its first n logical clusters. */
  ghost predicate Within(v: Volume, id: nat, n: nat) {
    forall k: nat, p: Path :: Position(v.roots, Slot(id, k), p) && Owned(v.disk, v.roots, Slot(id, k), p) != 0 ==>
      OnTheWay(k, p, n)
  }

  lemma OccupiesIsWithin(v: Volume, id: nat, m: nat, n: nat)
    requires Occupies(v, id, m) && m <= n
    ensures Within(v, id, n)
  {
    forall k: nat, p: Path | Position(v.roots, Slot(id, k), p) && Owned(v.disk, v.roots, Slot(id, k), p) != 0
      ensures OnTheWay(k, p, n)
    {
      FurtherOnTheWay(k, p, m, n);
    }
  }

  lemma FurtherOnTheWay(k: nat, p: Path, m: nat, n: nat)
    requires OnTheWay(k, p, m) && m <= n
    ensures OnTheWay(k, p, n)
  {
  }

  lemma FilledWithin(v: Volume, w: Volume, id: nat, n: nat)
    requires Within(v, id, n) && Fills(v, w, id, n)
    ensures Within(w, id, n)
  {
    hide OnTheWay;
    forall k: nat, p: Path | Position(w.roots, Slot(id, k), p) && Owned(w.disk, w.roots, Slot(id, k), p) != 0
      ensures OnTheWay(k, p, n)
    {
      SamePosition(v, w, Slot(id, k), p);
    }
  }

  /** With all of its first n clusters mapped, an inode that owns no more occupies exactly their positions. */
  lemma MappedOccupies(v: Volume, table: seq<Inode>, id: nat, n: nat)
    requires OfTable(v, table) && id < |table| && n <= MAX_FILE_CLUSTERS && Within(v, id, n)
    requires forall l :: 0 <= l < n ==> Lookup(v.disk, table[id], l) != 0
    ensures Occupies(v, id, n)
  {
    hide TableRoots, At, Lookup;
    forall k: nat, p: Path | Position(v.roots, Slot(id, k), p) && OnTheWay(k, p, n)
      ensures Owned(v.disk, v.roots, Slot(id, k), p) != 0
    {
      var l: nat :| l < n && SlotFor(l) == k && p <= PathFor(l);
      LookupIsOwned(v.disk, table, id, l);
      AboveMapped(v.disk, v.roots[Slot(id, k)].cluster, p, PathFor(l));
    }
  }

  lemma AboveMapped(disk: seq<Cluster>, root: nat, q: Path, p: Path)
    requires q <= p && At(disk, root, p) != 0
    ensures At(disk, root, q) != 0
  {
    if At(disk, root, q) == 0 {
      AtBelowNothing(disk, root, q, p);
    }
  }

  // ----- What a write takes -----

  /** The positions on the way to the first n clusters where the inode owns nothing yet. */
  ghost function Unfilled(v: Volume, id: nat, n: nat): set<(nat, Path)> {
    set kp | kp in Positions(n) && ClusterAt(v, id, kp) == 0
  }

  /** How many clusters the inode needs for its first n logical clusters to be mapped. */
  ghost function MissingClusters(v: Volume, id: nat, n: nat): nat {
    |Unfilled(v, id, n)|
  }

  ghost function Filled(v: Volume, w: Volume, id: nat, n: nat): set<(nat, Path)> {
    set kp | kp in Unfilled(v, id, n) && ClusterAt(w, id, kp) != 0
  }

  /** A newly used cluster sits at a position that has been filled. */
  lemma NewIsFilled(v: Volume, w: Volume, inodes: seq<Inode>, inodes': seq<Inode>, id: nat, n: nat, c: nat)
    requires Sound(v) && OfTable(v, inodes) && OfTable(w, inodes') && FileStep(v, w, inodes, inodes', id)
    requires Fills(v, w, id, n)
    requires c < |w.used| && w.used[c] && !(c < |v.used| && v.used[c])
    ensures c in ClustersAt(w, id, Filled(v, w, id, n))
  {
    hide TableRoots, OnTheWay, Positions, OwnsOnlyNew, OthersSame;
    assert OwnedByInode(w, id, c);
    var k :| 0 <= k < SLOT_COUNT && OwnedUnder(w, Slot(id, k), c);
    var p :| Position(w.roots, Slot(id, k), p) && Owned(w.disk, w.roots, Slot(id, k), p) == c;
    SamePosition(v, w, Slot(id, k), p);
    SoundAt(v, Slot(id, k), p);
    assert (k, p) in Filled(v, w, id, n) && ClusterAt(w, id, (k, p)) == c;
  }

  /** A filled position holds a newly used cluster. */
  lemma FilledIsNew(v: Volume, w: Volume, inodes: seq<Inode>, inodes': seq<Inode>, id: nat, n: nat, kp: (nat, Path))
    requires Sound(v) && OfTable(v, inodes) && OfTable(w, inodes') && FileStep(v, w, inodes, inodes', id)
    requires id < |inodes| == |inodes'| && n <= MAX_FILE_CLUSTERS && kp in Filled(v, w, id, n)
    ensures Slot(id, kp.0) in w.roots && Position(w.roots, Slot(id, kp.0), kp.1)
    ensures var c := ClusterAt(w, id, kp); c < |w.used| && w.used[c] && !(c < |v.used| && v.used[c])
  {
    hide TableRoots, OnTheWay, Positions, OthersSame, TakenBy;
    var c := ClusterAt(w, id, kp);
    assert kp == (kp.0, kp.1);
    WayIsPosition(inodes', id, kp.0, kp.1, n);
    WayIsPosition(inodes, id, kp.0, kp.1, n);
    SoundAt(w, Slot(id, kp.0), kp.1);
    assert OwnedUnder(w, Slot(id, kp.0), c);
    assert OwnedByInode(w, id, c);
  }

  /** Different filled positions hold different clusters. */
  lemma FilledSize(v: Volume, w: Volume, inodes: seq<Inode>, inodes': seq<Inode>, id: nat, n: nat)
    requires Sound(v) && OfTable(v, inodes) && OfTable(w, inodes') && id < |inodes| == |inodes'|
    requires FileStep(v, w, inodes, inodes', id) && n <= MAX_FILE_CLUSTERS
    ensures |ClustersAt(w, id, Filled(v, w, id, n))| == |Filled(v, w, id, n)|
  {
    var ps := Filled(v, w, id, n);
    FileStepSound(v, w, inodes, inodes', id);
    hide TableRoots, FileStep, Fills, Filled, Sound;
    forall a, b | a in ps && b in ps && ClusterAt(w, id, a) == ClusterAt(w, id, b) ensures a == b {
      FilledIsNew(v, w, inodes, inodes', id, n, a);
      FilledIsNew(v, w, inodes, inodes', id, n, b);
      NotZero(v, w, id, n, a);
      SameOwner(w, Slot(id, a.0), a.1, Slot(id, b.0), b.1);
      assert a == (a.0, a.1) && b == (b.0, b.1);
    }
    ImageSize(w, id, ps);
  }

  /** The clusters used since are those at the filled positions. */
  lemma FilledClusters(v: Volume, w: Volume, inodes: seq<Inode>, inodes': seq<Inode>, id: nat, n: nat)
    requires Sound(v) && OfTable(v, inodes) && OfTable(w, inodes') && id < |inodes| == |inodes'|
    requires FileStep(v, w, inodes, inodes', id) && Fills(v, w, id, n) && n <= MAX_FILE_CLUSTERS
    ensures var before, taken := UsedSet(v.used, |v.used|), ClustersAt(w, id, Filled(v, w, id, n));
            UsedSet(w.used, |w.used|) == before + taken && before !! taken
  {
    var ps := Filled(v, w, id, n);
    var before, after, taken := UsedSet(v.used, |v.used|), UsedSet(w.used, |w.used|), ClustersAt(w, id, ps);
    UsedOnlyGrows(v, w, inodes, inodes', id);
    hide TableRoots, FileStep, Fills, Filled, Sound, ClusterAt;
    forall c | c in taken ensures c in after && c !in before {
      var kp :| kp in ps && ClusterAt(w, id, kp) == c;
      FilledIsNew(v, w, inodes, inodes', id, n, kp);
    }
    forall c | c in after && c !in before ensures c in taken {
      NewIsFilled(v, w, inodes, inodes', id, n, c);
    }
  }

  /** A write takes one cluster for each position it fills. */
  lemma FilledCount(v: Volume, w: Volume, inodes: seq<Inode>, inodes': seq<Inode>, id: nat, n: nat)
    requires Sound(v) && OfTable(v, inodes) && OfTable(w, inodes') && id < |inodes| == |inodes'|
    requires FileStep(v, w, inodes, inodes', id) && Fills(v, w, id, n) && n <= MAX_FILE_CLUSTERS
    ensures CountUsed(w.used, |w.used|) == CountUsed(v.used, |v.used|) + |Filled(v, w, id, n)|
  {
    hide TableRoots, FileStep, Fills, Filled, Sound, ClustersAt, CountUsed, UsedSet;
    CountIsSize(v.used, |v.used|);
    CountIsSize(w.used, |w.used|);
    FilledClusters(v, w, inodes, inodes', id, n);
    FilledSize(v, w, inodes, inodes', id, n);
    DisjointSize(UsedSet(v.used, |v.used|), ClustersAt(w, id, Filled(v, w, id, n)));
  }

  lemma NotZero(v: Volume, w: Volume, id: nat, n: nat, kp: (nat, Path))
    requires kp in Filled(v, w, id, n)
    ensures ClusterAt(w, id, kp) != 0
  {
  }

  lemma UsedOnlyGrows(v: Volume, w: Volume, inodes: seq<Inode>, inodes': seq<Inode>, id: nat)
    requires TableOk(inodes) && TableOk(inodes') && FileStep(v, w, inodes, inodes', id)
    ensures |v.used| == |w.used| && UsedSet(v.used, |v.used|) <= UsedSet(w.used, |w.used|)
  {
  }

  lemma DisjointSize(a: set<nat>, b: set<nat>)
    requires a !! b
    ensures |a + b| == |a| + |b|
  {
  }

  /** With all of its first n clusters mapped afterwards, a write has filled everything that was missing. */
  lemma WholeCount(v: Volume, w: Volume, inodes: seq<Inode>, inodes': seq<Inode>, id: nat, n: nat)
    requires Sound(v) && OfTable(v, inodes) && OfTable(w, inodes') && id < |inodes| == |inodes'| && n <= MAX_FILE_CLUSTERS
    requires FileStep(v, w, inodes, inodes', id) && Fills(v, w, id, n)
    requires forall l :: 0 <= l < n ==> Lookup(w.disk, inodes'[id], l) != 0
    ensures CountUsed(w.used, |w.used|) == CountUsed(v.used, |v.used|) + MissingClusters(v, id, n)
  {
    FileStepSound(v, w, inodes, inodes', id);
    FilledCount(v, w, inodes, inodes', id, n);
    hide TableRoots, CountUsed, FileStep, Fills, Sound, At, Lookup;
    forall kp | kp in Unfilled(v, id, n) ensures ClusterAt(w, id, kp) != 0 {
      assert kp == (kp.0, kp.1);
      var l: nat :| l < n && SlotFor(l) == kp.0 && kp.1 <= PathFor(l);
      LookupIsOwned(w.disk, inodes', id, l);
      AboveMapped(w.disk, w.roots[Slot(id, kp.0)].cluster, kp.1, PathFor(l));
    }
    assert Filled(v, w, id, n) == Unfilled(v, id, n);
  }

  /** A write that left one of its first n clusters unmapped has filled less than was missing. */
  lemma PartCount(v: Volume, w: Volume, inodes: seq<Inode>, inodes': seq<Inode>, id: nat, n: nat, l: nat)
    requires Sound(v) && OfTable(v, inodes) && OfTable(w, inodes') && id < |inodes| == |inodes'|
    requires FileStep(v, w, inodes, inodes', id) && Fills(v, w, id, n)
    requires l < n <= MAX_FILE_CLUSTERS && Lookup(w.disk, inodes'[id], l) == 0
    ensures CountUsed(w.used, |w.used|) < CountUsed(v.used, |v.used|) + MissingClusters(v, id, n)
  {
    FileStepSound(v, w, inodes, inodes', id);
    FilledCount(v, w, inodes, inodes', id, n);
    LookupIsOwned(w.disk, inodes', id, l);
    LookupIsOwned(v.disk, inodes, id, l);
    LookupPosition(inodes, id, l);
    var leaf: (nat, Path) := (SlotFor(l), PathFor(l));
    KeptAt(v, w, inodes, inodes', id, leaf);
    hide TableRoots, CountUsed, FileStep, Fills, Sound, At, Lookup, SlotFor, PathFor;
    assert OnTheWay(leaf.0, leaf.1, n);
    assert leaf in Unfilled(v, id, n) && leaf !in Filled(v, w, id, n);
    ProperSize(Filled(v, w, id, n), Unfilled(v, id, n), leaf);
  }

  lemma KeptAt(v: Volume, w: Volume, inodes: seq<Inode>, inodes': seq<Inode>, id: nat, kp: (nat, Path))
    requires TableOk(inodes) && TableOk(inodes') && FileStep(v, w, inodes, inodes', id)
    requires Position(v.roots, Slot(id, kp.0), kp.1) && Slot(id, kp.0) in w.roots
    requires Owned(w.disk, w.roots, Slot(id, kp.0), kp.1) == 0
    ensures Owned(v.disk, v.roots, Slot(id, kp.0), kp.1) == 0
  {
  }

  lemma ProperSize(a: set<(nat, Path)>, b: set<(nat, Path)>, x: (nat, Path))
    requires a <= b && x in b && x !in a
    ensures |a| < |b|
  {
    assert b == a + (b - a) && x in b - a;
    assert |b| == |a| + |b - a|;
  }

  /** A file that owns nothing misses its data clusters and its pointer clusters. */
  lemma MissingOfNew(v: Volume, table: seq<Inode>, id: nat, n: nat)
    requires OfTable(v, table) && id < |table| && NoPointers(table[id]) && n <= MAX_FILE_CLUSTERS
    ensures MissingClusters(v, id, n) == n + PointerClusters(n)
  {
    EmptyOccupies(v, table, id);
    hide TableRoots, NoPointers, PointerClusters;
    forall kp | kp in Positions(n) ensures ClusterAt(v, id, kp) == 0 {
      assert kp == (kp.0, kp.1);
      WayIsPosition(table, id, kp.0, kp.1, n);
      assert !OnTheWay(kp.0, kp.1, 0);
    }
    assert Unfilled(v, id, n) == Positions(n);
    PositionsSize(n);
  }

  /** Writing a file from nothing takes its data clusters and its pointer clusters, no more and no fewer. */
  lemma WriteCount(v: Volume, w: Volume, inodes: seq<Inode>, inodes': seq<Inode>, id: nat, n: nat)
    requires Sound(v) && OfTable(v, inodes) && OfTable(w, inodes') && id < |inodes| == |inodes'| && n <= MAX_FILE_CLUSTERS
    requires NoPointers(inodes[id]) && FileStep(v, w, inodes, inodes', id) && Fills(v, w, id, n)
    requires forall l :: 0 <= l < n ==> Lookup(w.disk, inodes'[id], l) != 0
    ensures CountUsed(w.used, |w.used|) == CountUsed(v.used, |v.used|) + n + PointerClusters(n)
  {
    hide TableRoots, PointerClusters, Lookup, NoPointers, CountUsed, Sound, MissingClusters, FileStep, Fills;
    WholeCount(v, w, inodes, inodes', id, n);
    MissingOfNew(v, inodes, id, n);
  }

  /** In numbers: none up to 12 clusters, one up to 1036, then one for each 1024, and one for each 1024 of these. */
  lemma PointerClusterNumbers(n: nat)
    ensures n <= 12 ==> PointerClusters(n) == 0
    ensures 12 < n <= 1036 ==> PointerClusters(n) == 1
    ensures 1036 < n <= 1049612 ==> PointerClusters(n) == 1 + 1 + (n - 1036 + 1023) / 1024
    ensures n > 1049612 ==>
              PointerClusters(n) == 1 + 1 + 1024 + 1 + (n - 1049612 + 1048575) / 1048576 + (n - 1049612 + 1023) / 1024
  {
  }
}
