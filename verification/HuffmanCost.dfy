/**
 How many bits the codes of a tree can need. The bound follows the merge loop with a potential:
 while c nodes are free and 2^m >= c is the next power of two, some 2^m - c of the free nodes
 may be thought of as one level shallower than the rest.
 */
module HuffmanCost {
  import opened Basics
  import opened HuffmanTree
  import opened HuffmanShape
  import opened HuffmanSource

  /** The sum of all merged weights below the root of t. */
  ghost function Cost(t: Tree): nat {
    match t
    case Empty => 0
    case Leaf(_, _) => 0
    case Join(l, r) => Weight(t) + Cost(l) + Cost(r)
  }

  ghost function Costs(ns: seq<Node>): (c: seq<nat>)
    requires Shaped(ns)
    ensures |c| == |ns|
  {
    seq(|ns|, v requires 0 <= v < |ns| => Cost(TreeOf(ns, v)))
  }

  /** The least m with 2^m >= k. */
  ghost function CeilLog2(k: nat): nat {
    if k <= 1 then 0 else 1 + CeilLog2((k + 1) / 2)
  }

  lemma {:induction false} CeilLog2Facts(k: nat)
    requires k >= 1
    ensures Pow2(CeilLog2(k)) >= k
    ensures k >= 2 ==> CeilLog2(k) >= 1 && Pow2(CeilLog2(k) - 1) < k
  {
    if k >= 2 {
      CeilLog2Facts((k + 1) / 2);
    }
  }

  lemma {:induction false} CeilLog2Monotone(a: nat, b: nat)
    requires a <= b
    ensures CeilLog2(a) <= CeilLog2(b)
    decreases b
  {
    if a > 1 {
      CeilLog2Monotone((a + 1) / 2, (b + 1) / 2);
    }
  }

  // ----- Exchanging marked nodes for heavier ones -----

  /** If x is marked, mark some free node other than x and y in its place. */
  lemma UnmarkLight(A: set<int>, M: set<int>, w: seq<nat>, x: int, y: int) returns (M': set<int>)
    requires M <= A && |M| + 2 <= |A| && x in A && y in A && x != y
    requires forall j :: j in A ==> 0 <= j < |w|
    requires forall j :: j in A && j != y ==> w[x] <= w[j]
    ensures M' <= A && |M'| == |M| && x !in M'
    ensures M' <= M + (A - {x, y})
    ensures Sum(M', w) >= Sum(M, w)
  {
    if x !in M {
      M' := M;
    } else {
      assert |A - M| == |A| - |M|;
      var rest := A - M - {y};
      assert rest != {} by {
        if y in A - M {
          assert |rest| == |A - M| - 1;
        } else {
          assert rest == A - M;
        }
      }
      HasElement(rest);
      var z :| z in rest;
      M' := M - {x} + {z};
      SumRemove(M, x, w);
      SumRemove(M', z, w);
      assert M' - {z} == M - {x};
    }
  }

  lemma UnmarkTwoLightest(A: set<int>, M: set<int>, w: seq<nat>, x: int, y: int) returns (M': set<int>)
    requires M <= A && |M| + 2 <= |A| && x in A && y in A && x != y
    requires forall j :: j in A ==> 0 <= j < |w|
    requires w[x] <= w[y] && forall j :: j in A && j != x && j != y ==> w[y] <= w[j]
    ensures M' <= A - {x, y} && |M'| == |M|
    ensures Sum(M', w) >= Sum(M, w)
  {
    var M1 := UnmarkLight(A, M, w, x, y);
    M' := UnmarkLight(A, M1, w, y, x);
  }

  // ----- The potential -----

  /** The marked nodes M of A witness the potential at level m, with weights w and costs c. */
  ghost predicate PotentialOf(A: set<int>, M: set<int>, m: nat, w: seq<nat>, c: seq<nat>, total: nat, bound: nat) {
    && M <= A
    && |M| < |A|
    && |M| + |A| == Pow2(m)
    && Sum(A, c) + m * total <= bound + Sum(M, w)
  }

  ghost predicate Potential(ns: seq<Node>, k: nat, i: nat, M: set<int>, m: nat)
    requires Shaped(ns) && k <= i <= |ns|
  {
    var total := Sum(Numbers(k), Weights(ns));
    PotentialOf(Active(ns, k, i), M, m, Weights(ns), Costs(ns), total, CeilLog2(k) * total)
  }

  lemma PotentialStart(ns: seq<Node>, k: nat) returns (M: set<int>, m: nat)
    requires Forest(ns, k) && Shaped(ns)
    ensures Potential(ns, k, k, M, m)
  {
    m := CeilLog2(k);
    CeilLog2Facts(k);
    M := Numbers(Pow2(m) - k);
    forall j | 0 <= j < |ns| && j in Numbers(k) ensures Costs(ns)[j] == 0 {
      InnerNode(ns, k, j);
    }
    SumZero(Numbers(k), Costs(ns));
  }

  /** One merge adds its weight to the cost of the free trees. */
  lemma MergeCost(ns: seq<Node>, k: nat, i: nat)
    requires Forest(ns, k) && Shaped(ns) && k <= i < |ns|
    ensures Sum(Active(ns, k, i + 1), Costs(ns)) == Sum(Active(ns, k, i), Costs(ns)) + ns[i].frequency
  {
    MergeFacts(ns, k, i);
    InnerNode(ns, k, i);
    TreeWeight(ns, k, i);
    hide Forest;
    var c := Costs(ns);
    var l, r := ns[i].left, ns[i].right;
    var A := Active(ns, k, i);
    assert c[i] == ns[i].frequency + c[l] + c[r];
    MergedSum(A, c, l, r, i);
  }

  lemma MergedSum(A: set<int>, c: seq<nat>, l: int, r: int, i: int)
    requires l in A && r in A && l != r && i !in A
    requires 0 <= l < |c| && 0 <= r < |c| && 0 <= i < |c|
    ensures Sum(A - {l, r} + {i}, c) == Sum(A, c) - c[l] - c[r] + c[i]
  {
    var rest := A - {l} - {r};
    SumRemove(A, l, c);
    SumRemove(A - {l}, r, c);
    SumRemove(rest + {i}, i, c);
    assert rest + {i} - {i} == rest;
    assert A - {l, r} + {i} == rest + {i};
  }

  lemma MarkMerged(A: set<int>, M: set<int>, w: seq<nat>, l: int, r: int, i: int) returns (M': set<int>)
    requires M <= A && |M| + 2 <= |A| && l in A && r in A && l != r && i !in A
    requires 0 <= i < |w| && forall j :: j in A ==> 0 <= j < |w|
    requires w[l] <= w[r] && forall j :: j in A && j != l && j != r ==> w[r] <= w[j]
    ensures M' <= A - {l, r} + {i}
    ensures |M'| == |M| + 1 && |A - {l, r} + {i}| == |A| - 1
    ensures Sum(M', w) >= Sum(M, w) + w[i]
  {
    var M2 := UnmarkTwoLightest(A, M, w, l, r);
    M' := M2 + {i};
    SumRemove(M', i, w);
    assert M' - {i} == M2;
    assert A - {l, r} == A - {l} - {r};
  }

  lemma LevelDown(m: nat, m': nat, total: nat)
    requires m == m' + 1
    ensures m * total == m' * total + total
  {
  }

  lemma PotentialOfStep(A: set<int>, M: set<int>, m: nat, w: seq<nat>, c: seq<nat>, total: nat, bound: nat,
                        l: int, r: int, i: int, A': set<int>) returns (M': set<int>, m': nat)
    requires PotentialOf(A, M, m, w, c, total, bound) && |A| >= 2
    requires A' == A - {l, r} + {i} && l in A && r in A && l != r && i !in A
    requires 0 <= i < |w| && forall j :: j in A ==> 0 <= j < |w|
    requires w[l] <= w[r] && forall j :: j in A && j != l && j != r ==> w[r] <= w[j]
    requires Sum(A', w) == total && Sum(A', c) == Sum(A, c) + w[i]
    ensures PotentialOf(A', M', m', w, c, total, bound)
  {
    EvenPower(m, |M|, |A|);
    M' := MarkMerged(A, M, w, l, r, i);
    hide Sum, Pow2;
    m' := m;
    if |M'| == |A'| {
      FullSubset(M', A');
      m' := HalfPower(m, |A'|);
      LevelDown(m, m', total);
      M' := {};
    }
  }

  lemma PotentialStep(ns: seq<Node>, k: nat, i: nat, M: set<int>, m: nat) returns (M': set<int>, m': nat)
    requires Forest(ns, k) && Shaped(ns) && k <= i < |ns| && Potential(ns, k, i, M, m)
    ensures Potential(ns, k, i + 1, M', m')
  {
    hide Forest, Active, Sum, Weights, Costs, CeilLog2, Pow2, PotentialOf, Shaped;
    var A, A' := Active(ns, k, i), Active(ns, k, i + 1);
    var w, c := Weights(ns), Costs(ns);
    var total := Sum(Numbers(k), w);
    FreeCount(ns, k, i);
    ActiveWeight(ns, k, i + 1);
    MergeCost(ns, k, i);
    MergeOrder(ns, k, i);
    MergeFacts(ns, k, i);
    MergedSet(ns, k, i);
    WeightAt(ns, i);
    M', m' := PotentialOfStep(A, M, m, w, c, total, CeilLog2(k) * total, ns[i].left, ns[i].right, i, A');
  }

  lemma FreeCount(ns: seq<Node>, k: nat, i: nat)
    requires Forest(ns, k) && k <= i < |ns|
    ensures |Active(ns, k, i)| >= 2
  {
    ActiveFacts(ns, k, i);
  }

  lemma MergedSet(ns: seq<Node>, k: nat, i: nat)
    requires k <= i < |ns|
    ensures Active(ns, k, i + 1) == Active(ns, k, i) - {ns[i].left, ns[i].right} + {i}
  {
  }

  lemma WeightAt(ns: seq<Node>, i: nat)
    requires i < |ns|
    ensures Weights(ns)[i] == ns[i].frequency
  {
  }

  /** The two nodes of a merge, in order, are no heavier than any other free node. */
  lemma MergeOrder(ns: seq<Node>, k: nat, i: nat)
    requires Forest(ns, k) && k <= i < |ns|
    ensures 0 <= ns[i].left < i && 0 <= ns[i].right < i
    ensures Weights(ns)[ns[i].left] <= Weights(ns)[ns[i].right]
    ensures forall j :: j in Active(ns, k, i) ==> 0 <= j < i
    ensures forall j :: j in Active(ns, k, i) && j != ns[i].left && j != ns[i].right ==>
              Weights(ns)[ns[i].right] <= Weights(ns)[j]
  {
    ActiveFacts(ns, k, i);
    MergeFacts(ns, k, i);
    assert Greedy(ns, k, i);
    hide Forest;
    assert ns[i].right in Active(ns, k, i);
    forall j | j in Active(ns, k, i) && j != ns[i].left && j != ns[i].right
      ensures Weights(ns)[ns[i].right] <= Weights(ns)[j]
    {
      assert j in Active(ns, k, i) - {ns[i].left};
    }
  }

  lemma EvenPower(m: nat, a: nat, b: nat)
    requires a < b && a + b == Pow2(m)
    ensures b >= 2 ==> a + 2 <= b
  {
  }

  lemma HalfPower(m: nat, c: nat) returns (m': nat)
    requires 2 * c == Pow2(m)
    ensures m == m' + 1 && c == Pow2(m')
  {
    m' := m - 1;
  }

  lemma FullSubset(M: set<int>, A: set<int>)
    requires M <= A && |M| == |A|
    ensures M == A
  {
    assert |A - M| == |A| - |M|;
    HasElement(A - M);
    assert A - M == {};
  }

  lemma {:induction false} PotentialHolds(ns: seq<Node>, k: nat, i: nat) returns (M: set<int>, m: nat)
    requires Forest(ns, k) && Shaped(ns) && k <= i <= |ns|
    ensures Potential(ns, k, i, M, m)
    decreases i
  {
    if i == k {
      M, m := PotentialStart(ns, k);
    } else {
      M, m := PotentialHolds(ns, k, i - 1);
      M, m := PotentialStep(ns, k, i - 1, M, m);
    }
  }

  /** The tree on k leaves costs at most ceil(log2 k) times its weight. */
  lemma TreeCostBound(ns: seq<Node>, k: nat)
    requires Forest(ns, k) && Shaped(ns) && |ns| == 2 * k - 1
    ensures Cost(TreeOf(ns, |ns| - 1)) <= CeilLog2(k) * ns[|ns| - 1].frequency
  {
    hide *;
    ForestSize(ns, k);
    var M, m := PotentialHolds(ns, k, |ns|);
    PotentialAtEnd(ns, k, M, m);
    TotalIsRootWeight(ns, k);
    SumSingle(|ns| - 1, Costs(ns));
    CostAt(ns, |ns| - 1);
  }

  lemma ForestSize(ns: seq<Node>, k: nat)
    requires Forest(ns, k)
    ensures 2 <= k <= |ns|
  {
  }

  lemma CostAt(ns: seq<Node>, v: nat)
    requires Shaped(ns) && v < |ns|
    ensures Costs(ns)[v] == Cost(TreeOf(ns, v))
  {
  }

  lemma PotentialAtEnd(ns: seq<Node>, k: nat, M: set<int>, m: nat)
    requires Forest(ns, k) && Shaped(ns) && |ns| == 2 * k - 1 && Potential(ns, k, |ns|, M, m)
    ensures Sum({|ns| - 1}, Costs(ns)) <= CeilLog2(k) * Sum(Numbers(k), Weights(ns))
  {
    OnlyRootFree(ns, k);
    hide Forest, Active, CeilLog2, Sum, TreeOf, PotentialOf, Cost;
    PotentialOfSingleton(|ns| - 1, M, m, Weights(ns), Costs(ns), Sum(Numbers(k), Weights(ns)),
                         CeilLog2(k) * Sum(Numbers(k), Weights(ns)));
  }

  lemma TotalIsRootWeight(ns: seq<Node>, k: nat)
    requires Forest(ns, k) && |ns| == 2 * k - 1
    ensures Sum(Numbers(k), Weights(ns)) == ns[|ns| - 1].frequency
  {
    RootWeight(ns, k);
    SumPrefix(Numbers(k), Weights(ns), k);
    assert Weights(ns)[..k] == Weights(ns[..k]);
  }

  lemma PotentialOfSingleton(root: int, M: set<int>, m: nat, w: seq<nat>, c: seq<nat>, total: nat, bound: nat)
    requires PotentialOf({root}, M, m, w, c, total, bound)
    ensures Sum({root}, c) <= bound
  {
    assert M == {};
    SumZero(M, w);
  }

  // ----- From the tree to the source bytes -----

  /** How many bytes of src lie in S. */
  ghost function Count(src: seq<byte>, S: set<int>): nat {
    if src == [] then 0
    else Count(src[..|src| - 1], S) + (if src[|src| - 1] in S then 1 else 0)
  }

  /** The total depth in t of the bytes of src that t knows. */
  ghost function DepthSum(src: seq<byte>, t: Tree): nat {
    if src == [] then 0
    else
      var b := src[|src| - 1];
      DepthSum(src[..|src| - 1], t) + (if b in Symbols(t) then Depth(t, b) else 0)
  }

  lemma {:induction false} CountSingle(src: seq<byte>, s: int)
    ensures Count(src, {s}) == multiset(src)[s]
  {
    if src != [] {
      CountSingle(src[..|src| - 1], s);
      assert src == src[..|src| - 1] + [src[|src| - 1]];
    }
  }

  lemma {:induction false} CountSplit(src: seq<byte>, S: set<int>, T: set<int>)
    requires S !! T
    ensures Count(src, S + T) == Count(src, S) + Count(src, T)
  {
    if src != [] {
      CountSplit(src[..|src| - 1], S, T);
    }
  }

  lemma {:induction false} CountNothing(src: seq<byte>)
    ensures Count(src, {}) == 0
  {
    if src != [] {
      CountNothing(src[..|src| - 1]);
    }
  }

  /** The weight of a tree is the number of source bytes below it. */
  lemma {:induction false} WeightCounts(src: seq<byte>, t: Tree)
    requires Distinct(t) && LeafWeights(t, Frequencies(src))
    ensures Count(src, Symbols(t)) == Weight(t)
  {
    match t
    case Empty => CountNothing(src);
    case Leaf(s, _) => CountSingle(src, s);
    case Join(l, r) =>
      WeightCounts(src, l);
      WeightCounts(src, r);
      CountSplit(src, Symbols(l), Symbols(r));
  }

  lemma {:induction false} DepthSumJoin(src: seq<byte>, l: Tree, r: Tree)
    requires Symbols(l) !! Symbols(r)
    ensures DepthSum(src, Join(l, r)) ==
            Count(src, Symbols(l)) + Count(src, Symbols(r)) + DepthSum(src, l) + DepthSum(src, r)
  {
    if src != [] {
      DepthSumJoin(src[..|src| - 1], l, r);
    }
  }

  lemma {:induction false} DepthSumFlat(src: seq<byte>, t: Tree)
    requires !t.Join?
    ensures DepthSum(src, t) == 0
  {
    if src != [] {
      DepthSumFlat(src[..|src| - 1], t);
    }
  }

  /** Reading the depths byte by byte or merge by merge gives the same total. */
  lemma {:induction false} DepthSumIsCost(src: seq<byte>, t: Tree)
    requires Distinct(t) && LeafWeights(t, Frequencies(src))
    ensures DepthSum(src, t) == Cost(t)
  {
    if t.Join? {
      DepthSumIsCost(src, t.left);
      DepthSumIsCost(src, t.right);
      WeightCounts(src, t.left);
      WeightCounts(src, t.right);
      DepthSumJoin(src, t.left, t.right);
    } else {
      DepthSumFlat(src, t);
    }
  }

  /** The symbols below n that occur. */
  ghost function Occurring(freq: seq<nat>, n: nat): (S: set<int>)
    requires n <= |freq|
    ensures forall s :: s in S <==> 0 <= s < n && freq[s] > 0
    ensures |S| == |Leaves(freq, n)|
  {
    if n == 0 then {}
    else Occurring(freq, n - 1) + (if freq[n - 1] > 0 then {n - 1} else {})
  }

  ghost function DistinctBytes(src: seq<byte>): set<int> {
    set b: byte | b in src :: b
  }

  /** The leaves of the tree are the distinct byte values of the source. */
  lemma LeafCountIsDistinctBytes(src: seq<byte>)
    ensures LeafCount(Frequencies(src)) == |DistinctBytes(src)| <= SYMBOL_COUNT
  {
    var freq := Frequencies(src);
    forall s ensures s in DistinctBytes(src) <==> s in Occurring(freq, |freq|) {
      if 0 <= s < SYMBOL_COUNT {
        assert freq[s] == multiset(src)[s];
        assert s in multiset(src) <==> s in src;
      }
    }
    assert DistinctBytes(src) == Occurring(freq, |freq|);
    LeavesFacts(freq, |freq|);
  }

  /** Bits per byte: one for a single distinct value, else the rounded-up logarithm of their number. */
  ghost function BitsPerByte(src: seq<byte>): nat {
    if |DistinctBytes(src)| <= 1 then 1 else CeilLog2(|DistinctBytes(src)|)
  }

  lemma BitsPerByteAtMostEight(src: seq<byte>)
    ensures BitsPerByte(src) <= 8
  {
    LeafCountIsDistinctBytes(src);
    CeilLog2Monotone(|DistinctBytes(src)|, 256);
    assert CeilLog2(4) == 2 && CeilLog2(16) == 4 && CeilLog2(64) == 6;
    assert CeilLog2(256) == 8;
  }

  /** The summed depths of a source never exceed BitsPerByte bits for each byte. */
  lemma SourceDepthBound(src: seq<byte>)
    ensures DepthSum(src, SourceTree(src)) <= BitsPerByte(src) * |src|
  {
    var freq := Frequencies(src);
    var ns, k := HuffmanNodes(freq), LeafCount(freq);
    LeafCountIsDistinctBytes(src);
    FrequencyTreeFacts(freq);
    DepthSumIsCost(src, SourceTree(src));
    NodesShaped(freq);
    if k >= 2 {
      hide HuffmanNodes, Frequencies, DepthSum, Forest;
      NodesForest(freq);
      SourceTreeWeight(src);
      TreeCostBound(ns, k);
    } else if k == 1 {
      SingleLeafCost(src);
    }
  }

  lemma SingleLeafCost(src: seq<byte>)
    requires LeafCount(Frequencies(src)) == 1
    ensures Cost(SourceTree(src)) == |src|
  {
    var freq := Frequencies(src);
    var leaves := Leaves(freq, |freq|);
    SingleLeafTree(freq);
    LeavesWeight(freq, |freq|);
    FrequenciesTotal(src);
    assert freq[..|freq|] == freq;
    hide Frequencies, Leaves, FrequencyTree;
    var leaf := Leaf(leaves[0].symbol, leaves[0].frequency);
    assert Cost(Join(leaf, Empty)) == Weight(leaf);
    assert Numbers(1) == {0};
    SumSingle(0, Weights(leaves));
  }
}
