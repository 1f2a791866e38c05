/** How many pointer clusters the bottom-up builder takes, tree by tree. */
module PointerCounts {
  import opened Basics
  import opened Bitmap
  import opened Clusters
  import opened Inodes
  import opened Occupancy
  import opened PointerTrees
  import opened Rebuild

  /** The pointer clusters of full trees with d levels, one beside the other, over m data clusters. */
  ghost function ForestClusters(d: nat, m: nat): nat {
    if d == 0 then 0 else DivideUp(m, Width(d)) + ForestClusters(d - 1, m)
  }

  lemma DivideUpMonotone(a: nat, b: nat, w: nat)
    requires w > 0 && a <= b
    ensures DivideUp(a, w) <= DivideUp(b, w)
  {
    var x, y := a + w - 1, b + w - 1;
    assert x == w * (x / w) + x % w && y == w * (y / w) + y % w;
    if x / w > y / w {
      MulMonotone(y / w + 1, x / w, w);
    }
  }

  lemma {:induction false} ForestMonotone(d: nat, a: nat, b: nat)
    requires a <= b
    ensures ForestClusters(d, a) <= ForestClusters(d, b)
  {
    if d > 0 {
      DivideUpMonotone(a, b, Width(d));
      ForestMonotone(d - 1, a, b);
    }
  }

  lemma DivideUpAfter(k: nat, w: nat, n: nat)
    requires w > 0
    ensures DivideUp(k * w + n, w) == k + DivideUp(n, w)
  {
    var x := n + w - 1;
    QuotientNonNegative(x, w);
    assert x == w * (x / w) + x % w;
    assert k * w + x == w * (k + x / w) + x % w;
    Quotient(k * w + x, w, k + x / w, x % w);
  }

  /** Behind full trees the count starts afresh. */
  lemma {:induction false} ForestAfter(d: nat, k: nat, n: nat)
    ensures ForestClusters(d, k * Width(d) + n) == ForestClusters(d, k * Width(d)) + ForestClusters(d, n)
  {
    if d > 0 {
      var w := Width(d);
      DivideUpAfter(k, w, n);
      DivideUpAfter(k, w, 0);
      NoneForNothing(w);
      assert k * w == k * POINTERS_PER_CLUSTER * Width(d - 1) by {
        assert w == POINTERS_PER_CLUSTER * Width(d - 1);
      }
      ForestAfter(d - 1, k * POINTERS_PER_CLUSTER, n);
    }
  }

  lemma NoneForNothing(w: nat)
    requires w > 0
    ensures DivideUp(0, w) == 0
  {
    Quotient(w - 1, w, 0, w - 1);
  }

  lemma {:induction false} EmptyForest(d: nat)
    ensures ForestClusters(d, 0) == 0
  {
    if d > 0 {
      NoneForNothing(Width(d));
      EmptyForest(d - 1);
    }
  }

  /** One tree: its root and the trees below it. */
  lemma OneTree(d: nat, n: nat)
    requires d > 0 && 0 < n <= Width(d)
    ensures ForestClusters(d, n) == 1 + ForestClusters(d - 1, n)
  {
    Quotient(n + Width(d) - 1, Width(d), 1, n - 1);
  }

  lemma ForestValues(m: nat)
    ensures ForestClusters(0, m) == 0
    ensures ForestClusters(1, m) == DivideUp(m, POINTERS_PER_CLUSTER)
    ensures ForestClusters(2, m) == DivideUp(m, SQUARE) + DivideUp(m, POINTERS_PER_CLUSTER)
    ensures ForestClusters(3, m) ==
            DivideUp(m, SQUARE * POINTERS_PER_CLUSTER) + DivideUp(m, SQUARE) + DivideUp(m, POINTERS_PER_CLUSTER)
  {
    assert Width(1) == POINTERS_PER_CLUSTER && Width(2) == SQUARE && Width(3) == SQUARE * POINTERS_PER_CLUSTER;
    assert ForestClusters(3, m) == DivideUp(m, Width(3)) + ForestClusters(2, m);
    assert ForestClusters(2, m) == DivideUp(m, Width(2)) + ForestClusters(1, m);
    assert ForestClusters(1, m) == DivideUp(m, Width(1)) + ForestClusters(0, m);
  }

  /** The tree at pointer k adds its pointer clusters to those of the file. */
  lemma SlotAdds(k: nat, n: nat)
    requires k < SLOT_COUNT && 0 < n <= Width(SlotDepth(k))
    ensures PointerClusters(SlotStart(k) + n) == PointerClusters(SlotStart(k)) + ForestClusters(SlotDepth(k), n)
  {
    ForestValues(n);
    SlotEnds(k);
    if k >= SINGLE_SLOT {
      OneTree(SlotDepth(k), n);
    }
  }

  lemma PointersMonotone(a: nat, b: nat)
    requires a <= b
    ensures PointerClusters(a) <= PointerClusters(b)
  {
    if a > TRIPLE_START {
      DivideUpMonotone(a - TRIPLE_START, b - TRIPLE_START, SQUARE);
      DivideUpMonotone(a - TRIPLE_START, b - TRIPLE_START, POINTERS_PER_CLUSTER);
    }
    if a > DOUBLE_START {
      DivideUpMonotone(Min(a, TRIPLE_START) - DOUBLE_START, Min(b, TRIPLE_START) - DOUBLE_START, POINTERS_PER_CLUSTER);
    }
  }

  // ----- Free clusters -----

  lemma {:induction false} CountSet(used: seq<bool>, c: nat, n: nat)
    requires c < |used| && !used[c] && n <= |used|
    ensures CountUsed(used[c := true], n) == CountUsed(used, n) + if c < n then 1 else 0
  {
    if n > 0 {
      CountSet(used, c, n - 1);
    }
  }

  lemma OneFewerFree(used: seq<bool>, c: nat)
    requires c < |used| && !used[c]
    ensures FreeClusters(used) > 0 && FreeClusters(used[c := true]) == FreeClusters(used) - 1
  {
    CountSet(used, c, |used|);
    FullCount(used, |used|);
  }

  lemma NoneFree(used: seq<bool>)
    requires forall c :: 0 <= c < |used| ==> used[c]
    ensures FreeClusters(used) == 0
  {
    FullCount(used, |used|);
  }
}
