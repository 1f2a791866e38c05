/** The pages a file descriptor caches, as values: when they agree with a plain byte sequence. */
module CachePages {
  import opened Basics
  import opened Clusters
  import opened Ownership
  import opened Inodes
  import opened FileViews
  import opened AllocationSteps
  import opened FlatFile

  const CACHE_CLUSTER_COUNT := 4

  /** One cache slot: a logical cluster, its data, whether it is newer than the disk, and when it was last used. */
  datatype CacheSlot = CacheSlot(logical: nat, buffer: Cluster, dirty: bool, stamp: nat)

  /** Page l of a byte sequence, zero-padded. */
  ghost function Page(bytes: seq<byte>, l: nat): (page: Cluster)
    ensures IsCluster(page)
    ensures forall i :: 0 <= i < CLUSTER_SIZE ==>
              page[i] == if l * CLUSTER_SIZE + i < |bytes| then bytes[l * CLUSTER_SIZE + i] else 0
  {
    seq(CLUSTER_SIZE, i requires 0 <= i => if l * CLUSTER_SIZE + i < |bytes| then bytes[l * CLUSTER_SIZE + i] else 0)
  }

  predicate Cached(slots: seq<CacheSlot>, l: nat) {
    exists i :: 0 <= i < |slots| && slots[i].logical == l
  }

  ghost predicate Distinct(slots: seq<CacheSlot>) {
    forall i, j :: 0 <= i < |slots| && 0 <= j < |slots| && slots[i].logical == slots[j].logical ==> i == j
  }

  ghost predicate HoldsPages(slots: seq<CacheSlot>, bytes: seq<byte>) {
    forall i :: 0 <= i < |slots| ==> slots[i].buffer == Page(bytes, slots[i].logical)
  }

  /** Only clusters the file reaches are ever dirty. */
  ghost predicate DirtyInside(slots: seq<CacheSlot>, bytes: seq<byte>) {
    forall i :: 0 <= i < |slots| && slots[i].dirty ==> slots[i].logical * CLUSTER_SIZE < |bytes|
  }

  ghost predicate DirtyAt(slots: seq<CacheSlot>, l: nat) {
    exists i :: 0 <= i < |slots| && slots[i].dirty && slots[i].logical == l
  }

  ghost predicate AllClean(slots: seq<CacheSlot>) {
    forall i :: 0 <= i < |slots| ==> !slots[i].dirty
  }

  /** Every byte is on disk, unless its page is dirty in the cache. */
  ghost predicate Backed(disk: seq<Cluster>, ino: Inode, bytes: seq<byte>, slots: seq<CacheSlot>)
    requires InodeOk(ino)
  {
    forall k :: 0 <= k < |bytes| ==> DirtyAt(slots, k / CLUSTER_SIZE) || ByteAt(disk, ino, k) == bytes[k] as int
  }

  /** The inode and the cached slots together stand for the byte sequence. */
  ghost predicate Coherent(disk: seq<Cluster>, ino: Inode, bytes: seq<byte>, slots: seq<CacheSlot>) {
    && InodeOk(ino) && ino.size == |bytes| <= MAX_FILE_CLUSTERS * CLUSTER_SIZE
    && Distinct(slots)
    && HoldsPages(slots, bytes)
    && DirtyInside(slots, bytes)
    && Backed(disk, ino, bytes, slots)
    && (AllClean(slots) ==> ino.clusterCount == ClustersFor(|bytes|))
  }

  // ----- Loading -----

  /** A cluster that is not cached can always be read, and reading it gives its page. */
  lemma MissReadsPage(disk: seq<Cluster>, ino: Inode, bytes: seq<byte>, slots: seq<CacheSlot>, l: nat, data: seq<byte>)
    requires Coherent(disk, ino, bytes, slots) && !Cached(slots, l)
    ensures var n := ReadLength(|bytes|, l * CLUSTER_SIZE, CLUSTER_SIZE);
            && RangeMapped(disk, ino, l * CLUSTER_SIZE, n)
            && n <= CLUSTER_SIZE
            && (IsRange(disk, ino, l * CLUSTER_SIZE, n, data) ==>
                  data + Zeros(CLUSTER_SIZE - n) == Page(bytes, l))
  {
    hide ByteAt, Page;
    var n := ReadLength(|bytes|, l * CLUSTER_SIZE, CLUSTER_SIZE);
    forall k | l * CLUSTER_SIZE <= k < l * CLUSTER_SIZE + n
      ensures k < |bytes| && ByteAt(disk, ino, k) == bytes[k] as int
    {
      assert k / CLUSTER_SIZE == l;
    }
    if IsRange(disk, ino, l * CLUSTER_SIZE, n, data) {
      forall i | 0 <= i < CLUSTER_SIZE ensures (data + Zeros(CLUSTER_SIZE - n))[i] == Page(bytes, l)[i] {
        if i < n {
          assert data[l * CLUSTER_SIZE + i - l * CLUSTER_SIZE] == ByteAt(disk, ino, l * CLUSTER_SIZE + i);
        }
      }
    }
  }

  lemma PutPage(disk: seq<Cluster>, ino: Inode, bytes: seq<byte>, slots: seq<CacheSlot>, l: nat, stamp: nat, i: nat)
    requires Coherent(disk, ino, bytes, slots) && !Cached(slots, l)
    requires i < |slots| ==> !slots[i].dirty
    requires i <= |slots|
    ensures Coherent(disk, ino, bytes, Put(slots, i, CacheSlot(l, Page(bytes, l), false, stamp)))
  {
    hide ByteAt, Page;
    var slots' := Put(slots, i, CacheSlot(l, Page(bytes, l), false, stamp));
    forall k | 0 <= k < |bytes| ensures DirtyAt(slots', k / CLUSTER_SIZE) || ByteAt(disk, ino, k) == bytes[k] as int {
      if DirtyAt(slots, k / CLUSTER_SIZE) {
        var j :| 0 <= j < |slots| && slots[j].dirty && slots[j].logical == k / CLUSTER_SIZE;
        assert slots'[j].dirty && slots'[j].logical == k / CLUSTER_SIZE;
      }
    }
    if AllClean(slots') {
      forall j | 0 <= j < |slots| ensures !slots[j].dirty {
        assert !slots'[j].dirty;
      }
    }
  }

  /** Slot i replaced, or a new slot at the end. */
  function Put(slots: seq<CacheSlot>, i: nat, s: CacheSlot): (slots': seq<CacheSlot>)
    requires i <= |slots|
    ensures |slots'| == if i < |slots| then |slots| else |slots| + 1
    ensures slots'[i] == s
    ensures forall j :: 0 <= j < |slots| && j != i ==> slots'[j] == slots[j]
  {
    if i < |slots| then slots[i := s] else slots + [s]
  }

  lemma TouchSlot(disk: seq<Cluster>, ino: Inode, bytes: seq<byte>, slots: seq<CacheSlot>, i: nat, stamp: nat)
    requires Coherent(disk, ino, bytes, slots) && i < |slots|
    ensures Coherent(disk, ino, bytes, slots[i := slots[i].(stamp := stamp)])
  {
    hide ByteAt, Page;
    var slots' := slots[i := slots[i].(stamp := stamp)];
    forall k | 0 <= k < |bytes| ensures DirtyAt(slots', k / CLUSTER_SIZE) || ByteAt(disk, ino, k) == bytes[k] as int {
      if DirtyAt(slots, k / CLUSTER_SIZE) {
        var j :| 0 <= j < |slots| && slots[j].dirty && slots[j].logical == k / CLUSTER_SIZE;
        assert slots'[j].dirty && slots'[j].logical == k / CLUSTER_SIZE;
      }
    }
    if AllClean(slots') {
      forall j | 0 <= j < |slots| ensures !slots[j].dirty {
        assert !slots'[j].dirty;
      }
    }
  }

  // ----- Writing into a page -----

  lemma PageAfterSplice(bytes: seq<byte>, position: nat, chunk: seq<byte>, l: nat)
    requires position <= |bytes| && position % CLUSTER_SIZE + |chunk| <= CLUSTER_SIZE
    ensures Page(Splice(bytes, position, chunk), l) ==
            if l == position / CLUSTER_SIZE then Patch(Page(bytes, l), position % CLUSTER_SIZE, chunk) else Page(bytes, l)
  {
    hide Splice, Patch;
    var bytes' := Splice(bytes, position, chunk);
    var want := if l == position / CLUSTER_SIZE then Patch(Page(bytes, l), position % CLUSTER_SIZE, chunk) else Page(bytes, l);
    forall i | 0 <= i < CLUSTER_SIZE ensures Page(bytes', l)[i] == want[i] {
      assert (l * CLUSTER_SIZE + i) / CLUSTER_SIZE == l && (l * CLUSTER_SIZE + i) % CLUSTER_SIZE == i;
    }
  }

  /** Writing a chunk into its cached page keeps cache and byte sequence together. */
  lemma WritePage(disk: seq<Cluster>, ino: Inode, bytes: seq<byte>, slots: seq<CacheSlot>, i: nat, position: nat,
                  chunk: seq<byte>)
    requires Coherent(disk, ino, bytes, slots) && i < |slots| && slots[i].logical == position / CLUSTER_SIZE
    requires position <= |bytes| && 0 < |chunk| && position % CLUSTER_SIZE + |chunk| <= CLUSTER_SIZE
    requires position + |chunk| <= MAX_FILE_CLUSTERS * CLUSTER_SIZE
    ensures IsCluster(slots[i].buffer)
    ensures var bytes' := Splice(bytes, position, chunk);
            Coherent(disk, ino.(size := |bytes'|), bytes',
                     slots[i := slots[i].(buffer := Patch(slots[i].buffer, position % CLUSTER_SIZE, chunk), dirty := true)])
  {
    hide ByteAt, Page, Patch, Splice;
    assert slots[i].buffer == Page(bytes, slots[i].logical);
    var l, bytes' := position / CLUSTER_SIZE, Splice(bytes, position, chunk);
    var s := slots[i].(buffer := Patch(slots[i].buffer, position % CLUSTER_SIZE, chunk), dirty := true);
    var slots', ino' := slots[i := s], ino.(size := |bytes'|);
    assert slots'[i].dirty;
    forall j | 0 <= j < |slots'| ensures slots'[j].buffer == Page(bytes', slots'[j].logical) {
      PageAfterSplice(bytes, position, chunk, slots[j].logical);
    }
    forall k | 0 <= k < |bytes'|
      ensures DirtyAt(slots', k / CLUSTER_SIZE) || ByteAt(disk, ino', k) == bytes'[k] as int
    {
      ResizedByte(disk, ino, |bytes'|, k);
      if k / CLUSTER_SIZE == l {
        assert slots'[i].logical == k / CLUSTER_SIZE;
      } else {
        OutsideChunk(position, |chunk|, |bytes|, k);
        if DirtyAt(slots, k / CLUSTER_SIZE) {
          var j :| 0 <= j < |slots| && slots[j].dirty && slots[j].logical == k / CLUSTER_SIZE;
          assert slots'[j].dirty && slots'[j].logical == k / CLUSTER_SIZE;
        }
      }
    }
  }

  lemma ResizedByte(disk: seq<Cluster>, ino: Inode, size: nat, k: nat)
    requires InodeOk(ino)
    ensures ByteAt(disk, ino.(size := size), k) == ByteAt(disk, ino, k)
  {
  }

  lemma OutsideChunk(position: nat, n: nat, size: nat, k: nat)
    requires position <= size && position % CLUSTER_SIZE + n <= CLUSTER_SIZE && k / CLUSTER_SIZE != position / CLUSTER_SIZE
    requires k < GrownSize(size, position, n)
    ensures k < size && !(position <= k < position + n)
  {
  }

  // ----- Flushing -----

  lemma FlushedByte(disk: seq<Cluster>, disk': seq<Cluster>, ino: Inode, ino': Inode, bytes: seq<byte>, l: nat, k: nat)
    requires InodeOk(ino) && InodeOk(ino') && k < |bytes| <= MAX_FILE_CLUSTERS * CLUSTER_SIZE
    requires Wrote(disk, disk', ino, ino', l * CLUSTER_SIZE, Page(bytes, l))
    requires k / CLUSTER_SIZE != l ==> ByteAt(disk, ino, k) == bytes[k] as int
    ensures ByteAt(disk', ino', k) == bytes[k] as int
  {
    hide ByteAt, Page, Touched;
    assert ByteAt(disk', ino', k) == WrittenByte(ByteAt(disk, ino, k), k, l * CLUSTER_SIZE, Page(bytes, l));
    if k / CLUSTER_SIZE == l {
      assert k == l * CLUSTER_SIZE + (k - l * CLUSTER_SIZE) && 0 <= k - l * CLUSTER_SIZE < CLUSTER_SIZE;
    }
  }

  lemma StillDirty(slots: seq<CacheSlot>, i: nat, l: nat)
    requires i < |slots| && DirtyAt(slots, l) && slots[i].logical != l
    ensures DirtyAt(slots[i := slots[i].(dirty := false)], l)
  {
    var j :| 0 <= j < |slots| && slots[j].dirty && slots[j].logical == l;
    assert slots[i := slots[i].(dirty := false)][j].dirty;
  }

  /** Writing a dirty page to disk makes it clean. */
  lemma FlushPage(disk: seq<Cluster>, disk': seq<Cluster>, ino: Inode, ino': Inode, bytes: seq<byte>,
                  slots: seq<CacheSlot>, i: nat)
    requires Coherent(disk, ino, bytes, slots) && i < |slots| && slots[i].dirty && InodeOk(ino')
    requires Wrote(disk, disk', ino, ino', slots[i].logical * CLUSTER_SIZE, slots[i].buffer)
    requires ino'.clusterCount == ClustersFor(GrownSize(|bytes|, slots[i].logical * CLUSTER_SIZE, CLUSTER_SIZE))
    ensures Coherent(disk', ino'.(size := |bytes|), bytes, slots[i := slots[i].(dirty := false)])
  {
    var l, slots', done := slots[i].logical, slots[i := slots[i].(dirty := false)], ino'.(size := |bytes|);
    LastCluster(|bytes|, l);
    assert slots[i].buffer == Page(bytes, l);
    hide ByteAt, Page, Wrote, DirtyAt, GrownSize, ClustersFor;
    forall k: nat | k < |bytes| ensures DirtyAt(slots', k / CLUSTER_SIZE) || ByteAt(disk', done, k) == bytes[k] as int {
      ResizedByte(disk', ino', |bytes|, k);
      if DirtyAt(slots, k / CLUSTER_SIZE) && k / CLUSTER_SIZE != l {
        StillDirty(slots, i, k / CLUSTER_SIZE);
      } else {
        FlushedByte(disk, disk', ino, ino', bytes, l, k);
      }
    }
  }

  lemma LastCluster(size: nat, l: nat)
    requires l * CLUSTER_SIZE < size
    ensures ClustersFor(GrownSize(size, l * CLUSTER_SIZE, CLUSTER_SIZE)) == ClustersFor(size)
  {
  }

  /** A flush that found no space has changed no byte of the file. */
  lemma FlushFailed(disk: seq<Cluster>, disk': seq<Cluster>, ino: Inode, bytes: seq<byte>, slots: seq<CacheSlot>)
    requires Coherent(disk, ino, bytes, slots)
    requires forall k: nat :: k < MAX_FILE_CLUSTERS * CLUSTER_SIZE ==> ByteAt(disk', ino, k) == ByteAt(disk, ino, k)
    ensures Coherent(disk', ino, bytes, slots)
  {
    hide ByteAt, DirtyAt, Page;
  }

  /** With every page clean, the file on disk is the byte sequence. */
  lemma CleanIsOnDisk(disk: seq<Cluster>, ino: Inode, bytes: seq<byte>, slots: seq<CacheSlot>)
    requires Coherent(disk, ino, bytes, slots) && AllClean(slots)
    ensures Dense(disk, ino) && Content(disk, ino) == bytes && ino.clusterCount == ClustersFor(ino.size)
    ensures Coherent(disk, ino, bytes, [])
  {
    hide ByteAt, Page;
    forall k: nat | k < |bytes| ensures ByteAt(disk, ino, k) == bytes[k] as int {
      assert !DirtyAt(slots, k / CLUSTER_SIZE);
    }
  }

  /** A dense file with nothing cached. */
  lemma OpensCoherent(disk: seq<Cluster>, ino: Inode)
    requires InodeOk(ino) && Dense(disk, ino) && ino.size <= MAX_FILE_CLUSTERS * CLUSTER_SIZE
    requires ino.clusterCount == ClustersFor(ino.size)
    ensures Coherent(disk, ino, Content(disk, ino), [])
  {
    hide ByteAt;
    forall k: nat | k < ino.size ensures ByteAt(disk, ino, k) == Content(disk, ino)[k] as int {
      ByteIsByte(disk, ino, k);
    }
  }

  // ----- Recency -----

  /** The last place of l in a sequence of touches, -1 if it was never touched. */
  function Last(touches: seq<nat>, l: nat): (i: int)
    ensures -1 <= i < |touches|
    ensures i >= 0 ==> touches[i] == l
    ensures forall j :: i < j < |touches| ==> touches[j] != l
  {
    if touches == [] then -1
    else if touches[|touches| - 1] == l then |touches| - 1
    else Last(touches[..|touches| - 1], l)
  }

  /** The clusters touched, latest first, each once. */
  function Recency(touches: seq<nat>): (order: seq<nat>) {
    if touches == [] then []
    else [touches[|touches| - 1]] + Without(Recency(touches[..|touches| - 1]), touches[|touches| - 1])
  }

  function Without(s: seq<nat>, x: nat): (r: seq<nat>)
    ensures forall y :: y in r <==> y in s && y != x
  {
    if s == [] then []
    else if s[0] == x then Without(s[1..], x)
    else [s[0]] + Without(s[1..], x)
  }

  ghost predicate Falling(touches: seq<nat>, s: seq<nat>) {
    forall i, j :: 0 <= i < j < |s| ==> Last(touches, s[i]) > Last(touches, s[j])
  }

  lemma {:induction false} WithoutFalls(touches: seq<nat>, s: seq<nat>, x: nat)
    requires Falling(touches, s)
    ensures Falling(touches, Without(s, x))
  {
    if s != [] {
      assert Falling(touches, s[1..]);
      WithoutFalls(touches, s[1..], x);
      var r := Without(s[1..], x);
      forall j | 0 <= j < |r| ensures Last(touches, s[0]) > Last(touches, r[j]) {
        assert r[j] in s[1..];
      }
    }
  }

  /** Recency lists exactly the touched clusters, by falling time of the last touch. */
  lemma {:induction false} RecencyFacts(touches: seq<nat>)
    ensures forall l: nat :: l in Recency(touches) <==> l in touches
    ensures Falling(touches, Recency(touches))
  {
    if touches != [] {
      var init, x := touches[..|touches| - 1], touches[|touches| - 1];
      assert touches == init + [x];
      RecencyFacts(init);
      WithoutFalls(init, Recency(init), x);
      var rest := Without(Recency(init), x);
      forall i | 0 <= i < |rest| ensures Last(touches, rest[i]) == Last(init, rest[i]) {
        assert rest[i] in rest;
      }
    }
  }

  /**
   The slots' time stamps follow the touches: of all clusters touched since the cache was last emptied, the
   cached ones were touched last, and while a slot is free every touched cluster is cached.
   */
  ghost predicate Recent(touches: seq<nat>, counter: nat, slots: seq<CacheSlot>) {
    && |touches| <= counter && |slots| <= CACHE_CLUSTER_COUNT
    && (forall i :: 0 <= i < |slots| ==>
          && slots[i].logical in touches
          && slots[i].stamp == counter - |touches| + Last(touches, slots[i].logical) + 1)
    && (forall l: nat :: l in touches && !Cached(slots, l) ==>
          && |slots| == CACHE_CLUSTER_COUNT
          && forall i :: 0 <= i < |slots| ==> Last(touches, l) < Last(touches, slots[i].logical))
  }

  lemma LastAfter(touches: seq<nat>, x: nat, l: nat)
    ensures Last(touches + [x], l) == if l == x then |touches| else Last(touches, l)
  {
    assert (touches + [x])[..|touches|] == touches;
  }

  lemma RecentHit(touches: seq<nat>, counter: nat, slots: seq<CacheSlot>, i: nat)
    requires Recent(touches, counter, slots) && i < |slots| && Distinct(slots)
    ensures Recent(touches + [slots[i].logical], counter + 1, slots[i := slots[i].(stamp := counter + 1)])
  {
    var x, slots' := slots[i].logical, slots[i := slots[i].(stamp := counter + 1)];
    forall j | 0 <= j < |slots|
      ensures Last(touches + [x], slots[j].logical) == if j == i then |touches| else Last(touches, slots[j].logical)
    {
      LastAfter(touches, x, slots[j].logical);
    }
    forall l: nat | l in touches + [x] && !Cached(slots', l)
      ensures l in touches && !Cached(slots, l) && Last(touches + [x], l) == Last(touches, l)
    {
      assert slots'[i].logical == x;
      LastAfter(touches, x, l);
      StillCached(slots, slots', i, l);
    }
  }

  lemma StillCached(slots: seq<CacheSlot>, slots': seq<CacheSlot>, i: nat, l: nat)
    requires |slots| <= |slots'| && forall j :: 0 <= j < |slots| && j != i ==> slots'[j].logical == slots[j].logical
    ensures Cached(slots, l) ==> Cached(slots', l) || (i < |slots| && slots[i].logical == l)
  {
    if Cached(slots, l) {
      var j :| 0 <= j < |slots| && slots[j].logical == l;
      assert j != i ==> slots'[j].logical == l;
    }
  }

  /** A newly loaded cluster goes into a free slot, or takes the place of the least recently used one. */
  lemma RecentLoad(touches: seq<nat>, counter: nat, slots: seq<CacheSlot>, i: nat, s: CacheSlot)
    requires Recent(touches, counter, slots) && Distinct(slots) && i <= |slots|
    requires !Cached(slots, s.logical) && s.stamp == counter + 1
    requires i == |slots| ==> |slots| < CACHE_CLUSTER_COUNT
    requires i < |slots| ==>
               |slots| == CACHE_CLUSTER_COUNT && forall j :: 0 <= j < |slots| ==> slots[i].stamp <= slots[j].stamp
    ensures Recent(touches + [s.logical], counter + 1, Put(slots, i, s))
  {
    var x, slots' := s.logical, Put(slots, i, s);
    forall j | 0 <= j < |slots'|
      ensures Last(touches + [x], slots'[j].logical) == if j == i then |touches| else Last(touches, slots[j].logical)
    {
      LastAfter(touches, x, slots'[j].logical);
      if j != i {
        assert slots[j].logical != x;
      }
    }
    forall l: nat | l in touches + [x] && !Cached(slots', l)
      ensures |slots'| == CACHE_CLUSTER_COUNT
      ensures forall j :: 0 <= j < |slots'| ==> Last(touches + [x], l) < Last(touches + [x], slots'[j].logical)
    {
      assert slots'[i].logical == x;
      LastAfter(touches, x, l);
      assert l in touches;
      StillCached(slots, slots', i, l);
      if Cached(slots, l) {
        forall m | 0 <= m < |slots| && m != i ensures Last(touches, l) < Last(touches, slots[m].logical) {
          assert slots[m].logical != slots[i].logical;
        }
      }
    }
  }

  lemma RecentFlags(touches: seq<nat>, counter: nat, slots: seq<CacheSlot>, i: nat, s: CacheSlot)
    requires Recent(touches, counter, slots) && i < |slots| && s.logical == slots[i].logical && s.stamp == slots[i].stamp
    ensures Recent(touches, counter, slots[i := s])
  {
    var slots' := slots[i := s];
    forall l: nat ensures Cached(slots', l) <==> Cached(slots, l) {
      if Cached(slots, l) {
        var j :| 0 <= j < |slots| && slots[j].logical == l;
        assert slots'[j].logical == l;
      }
    }
  }

  ghost function Elements(s: seq<nat>): (e: set<nat>)
    ensures forall x :: x in e <==> x in s
  {
    set x | x in s
  }

  lemma {:induction false} DistinctSize(s: seq<nat>)
    requires forall i, j :: 0 <= i < j < |s| ==> s[i] != s[j]
    ensures |Elements(s)| == |s|
  {
    if s != [] {
      DistinctSize(s[1..]);
      assert Elements(s) == {s[0]} + Elements(s[1..]);
    }
  }

  ghost function Logicals(slots: seq<CacheSlot>): (ls: seq<nat>)
    ensures |ls| == |slots| && forall i :: 0 <= i < |slots| ==> ls[i] == slots[i].logical
  {
    seq(|slots|, i requires 0 <= i < |slots| => slots[i].logical)
  }

  lemma LogicalsCached(slots: seq<CacheSlot>)
    ensures forall l: nat :: Cached(slots, l) <==> l in Logicals(slots)
  {
    forall l: nat ensures Cached(slots, l) <==> l in Logicals(slots) {
      if Cached(slots, l) {
        var i :| 0 <= i < |slots| && slots[i].logical == l;
        assert Logicals(slots)[i] == l;
      }
    }
  }

  lemma SubsetSize(a: set<nat>, b: set<nat>)
    requires a <= b
    ensures |a| <= |b|
    ensures |a| == |b| ==> a == b
  {
    assert b == a + (b - a);
  }

  /** Of two sequences of distinct elements, the second at least as long, one element is missing from the first. */
  lemma Missing(a: set<nat>, b: set<nat>, x: nat)
    requires |a| == |b| && x in a && x !in b
    ensures exists y: nat :: y in b && y !in a
  {
    if forall y: nat :: y in b ==> y in a {
      SubsetSize(b, a);
    }
  }

  lemma LaterInOrder(touches: seq<nat>, order: seq<nat>, n: nat, x: nat, y: nat)
    requires Falling(touches, order) && n <= |order| && x in order && x !in order[..n] && y in order[..n]
    ensures Last(touches, y) > Last(touches, x)
  {
  }

  lemma OlderThanCached(touches: seq<nat>, counter: nat, slots: seq<CacheSlot>, x: nat, y: nat)
    requires Recent(touches, counter, slots) && Cached(slots, x) && !Cached(slots, y) && y in touches
    ensures Last(touches, y) < Last(touches, x)
  {
  }

  /**
   The cache holds the most recently touched clusters: all of them while it has room, and exactly the latest
   four once it is full.
   */
  lemma CacheHoldsLatest(touches: seq<nat>, counter: nat, slots: seq<CacheSlot>)
    requires Recent(touches, counter, slots) && Distinct(slots)
    ensures |Recency(touches)| >= |slots|
    ensures forall l: nat :: Cached(slots, l) <==> l in Recency(touches)[..|slots|]
    ensures |slots| < CACHE_CLUSTER_COUNT ==> |Recency(touches)| == |slots|
  {
    var order, n := Recency(touches), |slots|;
    RecencyFacts(touches);
    LogicalsCached(slots);
    DistinctSize(Logicals(slots));
    DistinctSize(order);
    var cached := Elements(Logicals(slots));
    SubsetSize(cached, Elements(order));
    if n < CACHE_CLUSTER_COUNT {
      SubsetSize(Elements(order), cached);
      assert order[..n] == order;
    } else {
      var latest := order[..n];
      DistinctSize(latest);
      forall x | x in cached ensures x in latest {
        if x !in latest {
          Missing(cached, Elements(latest), x);
          var y: nat :| y in latest && y !in cached;
          LaterInOrder(touches, order, n, x, y);
          OlderThanCached(touches, counter, slots, x, y);
        }
      }
      SubsetSize(cached, Elements(latest));
    }
  }
}
