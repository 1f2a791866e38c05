/** What reading leaves in an empty cache: the order in which clusters are touched, and the ones kept. */
module CacheTouches {
  import opened Basics
  import opened Clusters
  import opened Inodes
  import opened FileViews
  import opened CachePages

  /** The touches after one turn of reading: cluster l, and then the one after it while a slot is free. */
  ghost function ReadTurn(touches: seq<nat>, l: nat): seq<nat> {
    var here := touches + [l];
    if |Recency(here)| < CACHE_CLUSTER_COUNT && l + 1 !in here then here + [l + 1] else here
  }

  /** The touches after reading from clusters a up to, but not including, b. */
  ghost function ReadTouches(touches: seq<nat>, a: nat, b: nat): seq<nat> {
    if b <= a then touches else ReadTurn(ReadTouches(touches, a, b - 1), b - 1)
  }

  /** The clusters from a up to, but not including, b. */
  function ClusterRun(a: nat, b: nat): (ls: seq<nat>)
    ensures |ls| == (if a <= b then b - a else 0) && forall i :: 0 <= i < |ls| ==> ls[i] == a + i
  {
    seq(if a <= b then b - a else 0, i requires 0 <= i => a + i)
  }

  /** The cluster after the last one of n bytes from position on. */
  function EndCluster(position: nat, n: nat): (l: nat)
    ensures n == 0 ==> l == position / CLUSTER_SIZE
    ensures n > 0 ==> l == (position + n - 1) / CLUSTER_SIZE + 1
  {
    if n == 0 then position / CLUSTER_SIZE else (position + n - 1) / CLUSTER_SIZE + 1
  }

  /** Bytes that fill their last cluster, and more from the next one: one cluster more. */
  lemma NextCluster(position: nat, n: nat, m: nat)
    requires n == 0 || (position + n) % CLUSTER_SIZE == 0
    requires 0 < m <= CLUSTER_SIZE - (position + n) % CLUSTER_SIZE
    ensures EndCluster(position, n) == (position + n) / CLUSTER_SIZE
    ensures EndCluster(position, n + m) == (position + n) / CLUSTER_SIZE + 1
  {
    var p, l := position + n, (position + n) / CLUSTER_SIZE;
    assert p == l * CLUSTER_SIZE + p % CLUSTER_SIZE;
    SameQuotient(p + m - 1, l);
    if n > 0 {
      SameQuotient(p - 1, l - 1);
    }
  }

  lemma SameQuotient(p: nat, l: int)
    requires l * CLUSTER_SIZE <= p < l * CLUSTER_SIZE + CLUSTER_SIZE
    ensures p / CLUSTER_SIZE == l
  {
  }

  lemma OneClusterMore(a: nat, b: nat)
    requires a <= b
    ensures ClusterRun(a, b + 1) == ClusterRun(a, b) + [b]
  {
  }

  /** The number of clusters cached is that of the clusters touched, at most four; while a slot is free all are cached. */
  lemma TouchedIsCached(touches: seq<nat>, counter: nat, slots: seq<CacheSlot>)
    requires Recent(touches, counter, slots) && Distinct(slots)
    ensures |slots| == Min(CACHE_CLUSTER_COUNT, |Recency(touches)|)
    ensures |slots| < CACHE_CLUSTER_COUNT ==> forall l: nat :: Cached(slots, l) <==> l in touches
  {
    CacheHoldsLatest(touches, counter, slots);
    RecencyFacts(touches);
    if |slots| < CACHE_CLUSTER_COUNT {
      assert Recency(touches)[..|slots|] == Recency(touches);
    }
  }

  // ----- Reading through an empty cache -----

  /** The numbers from b down to a. */
  ghost function Down(b: int, a: nat): (s: seq<nat>)
    ensures |s| == (if b < a then 0 else b - a + 1) && forall i :: 0 <= i < |s| ==> s[i] == b - i
  {
    seq(if b < a then 0 else b - a + 1, i requires 0 <= i => b - i)
  }

  lemma {:induction false} WithoutAbsent(s: seq<nat>, x: nat)
    requires x !in s
    ensures Without(s, x) == s
  {
    if s != [] {
      WithoutAbsent(s[1..], x);
      assert s == [s[0]] + s[1..];
    }
  }

  lemma RecencyAfter(touches: seq<nat>, x: nat)
    ensures Recency(touches + [x]) == [x] + Without(Recency(touches), x)
  {
    assert (touches + [x])[..|touches|] == touches;
  }

  /** A new cluster comes first. */
  lemma RecencyNew(touches: seq<nat>, x: nat)
    requires x !in touches
    ensures Recency(touches + [x]) == [x] + Recency(touches)
  {
    RecencyFacts(touches);
    RecencyAfter(touches, x);
    WithoutAbsent(Recency(touches), x);
  }

  lemma DownHas(b: int, a: nat, x: nat)
    ensures x in Down(b, a) <==> a <= x <= b
  {
    if a <= x <= b {
      assert Down(b, a)[b - x] == x;
    }
  }

  lemma DownMore(b: nat, a: nat)
    requires a <= b
    ensures Down(b, a) == [b] + Down(b - 1, a)
  {
  }

  /** One more turn: cluster x has been prefetched or is new, and the next one is prefetched while a slot is free. */
  lemma OneMoreTurn(touches: seq<nat>, a: nat, x: nat)
    requires a < x && Recency(touches) == Down(if x - a < 4 then x else x - 1, a)
    ensures Recency(ReadTurn(touches, x)) == Down(if x + 1 - a < 4 then x + 1 else x, a)
  {
    hide Recency, Down;
    var here := touches + [x];
    RecencyFacts(touches);
    DownHas(if x - a < 4 then x else x - 1, a, x);
    if x - a < 4 {
      DownFirst(x, a);
      SameLatest(touches, x);
    } else {
      RecencyNew(touches, x);
      DownMore(x, a);
    }
    DownLength(x, a);
    RecencyFacts(here);
    DownHas(x, a, x + 1);
    if x + 1 - a < 4 {
      RecencyNew(here, x + 1);
      DownMore(x + 1, a);
    }
  }

  lemma DownFirst(b: nat, a: nat)
    requires a <= b
    ensures Down(b, a) != [] && Down(b, a)[0] == b
  {
  }

  lemma DownLength(b: nat, a: nat)
    requires a <= b
    ensures |Down(b, a)| == b - a + 1
  {
  }

  lemma FirstTurn(a: nat)
    ensures Recency(ReadTurn([], a)) == Down(a + 1, a)
  {
    assert [] + [a] == [a];
    assert Recency([a]) == [a];
    RecencyNew([a], a + 1);
    assert Down(a + 1, a) == [a + 1, a];
  }

  /** Reading the clusters a to b - 1 through an empty cache: they and, until four are cached, the next one. */
  lemma {:induction false} ReadThroughEmpty(a: nat, b: nat)
    requires a < b
    ensures Recency(ReadTouches([], a, b)) == Down(if b - a < 4 then b else b - 1, a)
  {
    hide Recency, Down, ReadTurn;
    if b == a + 1 {
      FirstTurn(a);
    } else {
      ReadThroughEmpty(a, b - 1);
      OneMoreTurn(ReadTouches([], a, b - 1), a, b - 1);
    }
  }

  lemma SameLatest(touches: seq<nat>, x: nat)
    requires Recency(touches) != [] && Recency(touches)[0] == x
    ensures Recency(touches + [x]) == Recency(touches)
  {
    var init := touches[..|touches| - 1];
    var last := touches[|touches| - 1];
    RecencyFacts(init);
    var rest := Without(Recency(init), x);
    RecencyAfter(touches, x);
    assert Recency(touches) == [x] + rest && x !in rest;
    WithoutAbsent(rest, x);
    assert Without([x] + rest, x) == Without(rest, x) by {
      assert ([x] + rest)[1..] == rest;
    }
  }

  /** After that, exactly these clusters are cached: all read and the next one while they fit, else the last four. */
  lemma CachedAfterReading(touches: seq<nat>, counter: nat, slots: seq<CacheSlot>, a: nat, b: nat)
    requires Recent(touches, counter, slots) && Distinct(slots) && a < b && touches == ReadTouches([], a, b)
    ensures |slots| == if b - a < 4 then b - a + 1 else 4
    ensures forall l: nat :: Cached(slots, l) <==> if b - a < 4 then a <= l <= b else b - 4 <= l < b
  {
    ReadThroughEmpty(a, b);
    TouchedIsCached(touches, counter, slots);
    CacheHoldsLatest(touches, counter, slots);
    var latest := Down(if b - a < 4 then b else b - 1, a)[..|slots|];
    forall l: nat ensures Cached(slots, l) <==> if b - a < 4 then a <= l <= b else b - 4 <= l < b {
      var top: nat := if b - a < 4 then b else b - 1;
      if top - |slots| < l <= top {
        assert latest[top - l] == l;
      }
    }
  }

  // ----- What writing leaves dirty -----

  /** Cluster l was written, and is dirty unless it is complete; no other slot has become dirty. */
  ghost predicate OneWritten(before: seq<CacheSlot>, after: seq<CacheSlot>, l: nat, complete: bool) {
    && Cached(after, l)
    && (forall j :: 0 <= j < |after| && after[j].logical == l ==> after[j].dirty == !complete)
    && (forall j :: 0 <= j < |after| && after[j].dirty && after[j].logical != l ==> j < |before| && after[j] == before[j])
  }

  /**
   After writing from start up to position: the clusters written to their end have nothing left to write back, and
   a last one that is not full waits in the cache.
   */
  ghost predicate WrittenOut(slots: seq<CacheSlot>, start: nat, position: nat) {
    && (forall j :: 0 <= j < |slots| && start / 4096 <= slots[j].logical < position / 4096 ==> !slots[j].dirty)
    && (start < position && position % 4096 != 0 ==>
          exists j :: 0 <= j < |slots| && slots[j].logical == position / 4096 && slots[j].dirty)
  }

  lemma NothingWritten(slots: seq<CacheSlot>, start: nat)
    ensures WrittenOut(slots, start, start)
  {
  }

  /** What has been written up to the end of a cluster is on disk, and what is beyond waits in the cache. */
  lemma WrittenIsOnDisk(disk: seq<Cluster>, ino: Inode, bytes: seq<byte>, slots: seq<CacheSlot>, start: nat, position: nat)
    requires Coherent(disk, ino, bytes, slots) && WrittenOut(slots, start, position) && start < position <= |bytes|
    ensures forall k :: start / 4096 * 4096 <= k < position / 4096 * 4096 ==> ByteAt(disk, ino, k) == bytes[k] as int
    ensures position % 4096 != 0 ==>
              exists j :: 0 <= j < |slots| && slots[j].logical == position / 4096 && slots[j].dirty
                          && slots[j].buffer == Page(bytes, position / 4096)
  {
    hide ByteAt, Page;
    forall k | start / 4096 * 4096 <= k < position / 4096 * 4096 ensures ByteAt(disk, ino, k) == bytes[k] as int {
      assert start / 4096 <= k / 4096 < position / 4096;
      assert !DirtyAt(slots, k / CLUSTER_SIZE);
    }
  }

  lemma WrittenOutStep(before: seq<CacheSlot>, after: seq<CacheSlot>, start: nat, p: nat, q: nat)
    requires WrittenOut(before, start, p) && OneWritten(before, after, p / CLUSTER_SIZE, q % CLUSTER_SIZE == 0)
    requires start <= p < q <= p + CLUSTER_SIZE - p % CLUSTER_SIZE
    ensures WrittenOut(after, start, q)
  {
    if q % CLUSTER_SIZE != 0 {
      assert q / CLUSTER_SIZE == p / CLUSTER_SIZE;
      var j :| 0 <= j < |after| && after[j].logical == p / CLUSTER_SIZE;
      assert after[j].dirty;
    } else {
      assert q / CLUSTER_SIZE == p / CLUSTER_SIZE + 1;
    }
  }

  /** All slots but i are as before. */
  ghost predicate SameBut(before: seq<CacheSlot>, after: seq<CacheSlot>, i: nat) {
    forall j :: 0 <= j < |after| && j != i ==> j < |before| && after[j] == before[j]
  }

  /** Loading a cluster, writing into it and, when it is complete, writing it back. */
  lemma LoadedAndWritten(before: seq<CacheSlot>, loaded: seq<CacheSlot>, after: seq<CacheSlot>, i: nat, l: nat,
                         complete: bool)
    requires Distinct(loaded) && i < |loaded| == |after| && |before| <= |loaded| && loaded[i].logical == l
    requires SameBut(before, loaded, i)
    requires forall j :: 0 <= j < |loaded| && j != i ==> after[j] == loaded[j]
    requires after[i].logical == l && after[i].dirty == !complete
    ensures OneWritten(before, after, l, complete)
  {
  }
}
