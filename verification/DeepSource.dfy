/** A source whose tree is deeper than the length limit: each byte value twice as frequent as the one before. */
module DeepSource {
  import opened Basics
  import opened HuffmanTree
  import opened HuffmanShape
  import opened HuffmanSource
  import HuffmanCodec

  function Copies(b: byte, n: nat): (bytes: seq<byte>)
    ensures |bytes| == n
  {
    if n == 0 then [] else Copies(b, n - 1) + [b]
  }

  lemma {:induction false} CopiesCount(b: byte, n: nat, s: byte)
    ensures multiset(Copies(b, n))[s] == if s == b then n else 0
  {
    if n > 0 {
      CopiesCount(b, n - 1, s);
    }
  }

  /** Once byte 0, twice byte 1, four times byte 2, and so on, for k byte values. */
  function Doubling(k: nat): seq<byte>
    requires k <= 256
  {
    if k == 0 then [] else Doubling(k - 1) + Copies(k - 1, Pow2(k - 1))
  }

  lemma {:induction false} DoublingCounts(k: nat, s: byte)
    requires k <= 256
    ensures |Doubling(k)| == Pow2(k) - 1
    ensures multiset(Doubling(k))[s] == if s < k then Pow2(s) else 0
  {
    if k > 0 {
      DoublingCounts(k - 1, s);
      CopiesCount(k - 1, Pow2(k - 1), s);
      hide Copies;
      assert multiset(Doubling(k)) == multiset(Doubling(k - 1)) + multiset(Copies(k - 1, Pow2(k - 1)));
    }
  }

  /** The leaf of symbol j. */
  function DoublingLeaf(j: nat): Node {
    Node(Pow2(j), j, -1, -1)
  }

  lemma PowerGrows(m: nat, n: nat)
    requires m < n
    ensures 2 * Pow2(m) <= Pow2(n) && 0 < Pow2(m) < Pow2(n)
  {
    Pow2Monotone(m + 1, n);
  }

  lemma {:induction false} DoublingLeaves(freq: seq<nat>, k: nat, n: nat)
    requires |freq| == SYMBOL_COUNT && k <= SYMBOL_COUNT && n <= SYMBOL_COUNT
    requires forall s :: 0 <= s < SYMBOL_COUNT ==> freq[s] == if s < k then Pow2(s) else 0
    ensures |Leaves(freq, n)| == Min(n, k)
    ensures forall j :: 0 <= j < Min(n, k) ==> Leaves(freq, n)[j] == DoublingLeaf(j)
  {
    hide Pow2;
    if n > 0 {
      DoublingLeaves(freq, k, n - 1);
      assert freq[n - 1] > 0 <==> n - 1 < k;
    }
  }

  // ----- The chain -----

  /** After m merges: the node that holds the lightest m + 1 leaves. */
  function Chain(k: nat, m: nat): nat {
    if m == 0 then 0 else k + m - 1
  }

  /** The nodes that are free then: the chain so far and the leaves not yet merged. */
  ghost function ChainFree(k: nat, m: nat): set<int> {
    {Chain(k, m)} + (Numbers(k) - Numbers(m + 1))
  }

  ghost predicate Chained(ns: seq<Node>, k: nat, m: nat) {
    && m < k && k + m <= |ns| && Active(ns, k, k + m) == ChainFree(k, m)
    && Chain(k, m) < |ns| && ns[Chain(k, m)].frequency == 2 * Pow2(m) - 1
  }

  ghost predicate DoublingForest(ns: seq<Node>, k: nat) {
    Forest(ns, k) && Shaped(ns) && forall j :: 0 <= j < k ==> ns[j] == DoublingLeaf(j)
  }

  /** The chain is the lightest of the free nodes, the next leaf the second lightest. */
  lemma ChainWeights(ns: seq<Node>, k: nat, m: nat, j: int)
    requires k <= |ns| && forall i :: 0 <= i < k ==> ns[i] == DoublingLeaf(i)
    requires Chained(ns, k, m) && j in ChainFree(k, m) && j != Chain(k, m)
    ensures 0 <= j < |ns| && ns[Chain(k, m)].frequency < ns[j].frequency
    ensures j != m + 1 ==> ns[m + 1].frequency < ns[j].frequency
  {
    hide Active;
    PowerGrows(m, j);
    if j != m + 1 {
      PowerGrows(m + 1, j);
    }
  }

  lemma ChainMinima(ns: seq<Node>, k: nat, m: nat)
    requires DoublingForest(ns, k) && m + 1 < k && k + m < |ns| && Chained(ns, k, m)
    ensures ns[k + m].left == Chain(k, m) && ns[k + m].right == m + 1
    ensures ns[k + m].frequency == ns[Chain(k, m)].frequency + ns[m + 1].frequency
  {
    var A, c := Active(ns, k, k + m), Chain(k, m);
    assert Greedy(ns, k, k + m);
    hide Active, Greedy, Forest, Shaped;
    forall j | j in A && j != c && 0 <= j < |ns|
      ensures ns[c].frequency < ns[j].frequency && (j != m + 1 ==> ns[m + 1].frequency < ns[j].frequency)
    {
      ChainWeights(ns, k, m, j);
    }
    MinimumIs(ns, k, m, A, c);
  }

  lemma MinimumIs(ns: seq<Node>, k: nat, m: nat, A: set<int>, c: nat)
    requires k <= k + m < |ns| && A == Active(ns, k, k + m) && Greedy(ns, k, k + m)
    requires c in A && c < k + m && m + 1 in A && m + 1 < k && c != m + 1
    requires forall j :: j in A && j != c && 0 <= j < |ns| ==>
               ns[c].frequency < ns[j].frequency && (j != m + 1 ==> ns[m + 1].frequency < ns[j].frequency)
    ensures ns[k + m].left == c && ns[k + m].right == m + 1
    ensures ns[k + m].frequency == ns[c].frequency + ns[m + 1].frequency
  {
    hide Active;
    var l, r := ns[k + m].left, ns[k + m].right;
    assert IsFirstMinimum(ns[..k + m], A, l);
    assert ns[..k + m][c] == ns[c] && ns[..k + m][m + 1] == ns[m + 1];
    assert IsFirstMinimum(ns[..k + m], A - {l}, r);
  }

  lemma ChainGrows(ns: seq<Node>, k: nat, m: nat)
    requires DoublingForest(ns, k) && m + 1 < k && k + m < |ns| && Chained(ns, k, m)
    ensures Chained(ns, k, m + 1)
    ensures Height(TreeOf(ns, k + m)) > Height(TreeOf(ns, Chain(k, m)))
  {
    ChainMinima(ns, k, m);
    NewFree(ns, k, m);
    assert ns[m + 1] == DoublingLeaf(m + 1);
    assert Greedy(ns, k, k + m);
    hide Active, Forest, Shaped, ChainFree;
    InnerHeight(ns, k + m);
  }

  lemma FreeMember(k: nat, m: nat, j: int)
    ensures j in ChainFree(k, m) <==> j == Chain(k, m) || m + 1 <= j < k
  {
    hide Numbers, Chain;
  }

  lemma FreeStep(k: nat, m: nat)
    requires m + 1 < k
    ensures ChainFree(k, m) - {Chain(k, m), m + 1} + {k + m} == ChainFree(k, m + 1)
  {
    hide ChainFree;
    var a, b := ChainFree(k, m) - {Chain(k, m), m + 1} + {k + m}, ChainFree(k, m + 1);
    forall j: int | j in a ensures j in b {
      FreeMember(k, m, j);
      FreeMember(k, m + 1, j);
    }
    forall j: int | j in b ensures j in a {
      FreeMember(k, m, j);
      FreeMember(k, m + 1, j);
    }
  }

  lemma FirstFree(k: nat)
    requires k > 0
    ensures Numbers(k) == ChainFree(k, 0)
  {
    hide ChainFree;
    forall j: int | j in Numbers(k) ensures j in ChainFree(k, 0) {
      FreeMember(k, 0, j);
    }
    forall j: int | j in ChainFree(k, 0) ensures j in Numbers(k) {
      FreeMember(k, 0, j);
    }
  }

  lemma NewFree(ns: seq<Node>, k: nat, m: nat)
    requires k <= k + m < |ns| && m + 1 < k && Active(ns, k, k + m) == ChainFree(k, m)
    requires ns[k + m].left == Chain(k, m) && ns[k + m].right == m + 1
    ensures Active(ns, k, k + m + 1) == ChainFree(k, m + 1)
  {
    assert Active(ns, k, k + m + 1) == Active(ns, k, k + m) - {ns[k + m].left, ns[k + m].right} + {k + m};
    hide Active;
    FreeStep(k, m);
  }

  lemma ChainStart(ns: seq<Node>, k: nat)
    requires DoublingForest(ns, k)
    ensures Chained(ns, k, 0)
  {
    assert ns[0] == DoublingLeaf(0) && Active(ns, k, k) == Numbers(k);
    hide Active, Forest, Shaped, Numbers, ChainFree;
    FirstFree(k);
  }

  lemma {:induction false} ChainHeight(ns: seq<Node>, k: nat, m: nat)
    requires DoublingForest(ns, k) && m < k && k + m <= |ns|
    ensures Chained(ns, k, m) && Height(TreeOf(ns, Chain(k, m))) >= m
  {
    hide Height, TreeOf, Pow2, Active, Forest, Shaped, Chained;
    if m > 0 {
      ChainHeight(ns, k, m - 1);
      ChainGrows(ns, k, m - 1);
    } else {
      ChainStart(ns, k);
    }
  }

  lemma DoublingFrequencies(k: nat)
    requires k <= 256
    ensures forall s :: 0 <= s < SYMBOL_COUNT ==> Frequencies(Doubling(k))[s] == if s < k then Pow2(s) else 0
  {
    hide Doubling, Pow2;
    forall s | 0 <= s < SYMBOL_COUNT ensures Frequencies(Doubling(k))[s] == if s < k then Pow2(s) else 0 {
      DoublingCounts(k, s);
    }
  }

  lemma DoublingTree(freq: seq<nat>, k: nat)
    requires |freq| == SYMBOL_COUNT && 2 <= k <= SYMBOL_COUNT
    requires forall s :: 0 <= s < SYMBOL_COUNT ==> freq[s] == if s < k then Pow2(s) else 0
    ensures Height(FrequencyTree(freq)) >= k - 1
  {
    hide Pow2, Leaves, Forest, Shaped, HuffmanNodes, TreeOf, Height, Active, DoublingLeaf;
    DoublingLeaves(freq, k, |freq|);
    NodesForest(freq);
    var ns := HuffmanNodes(freq);
    forall j | 0 <= j < k ensures ns[j] == DoublingLeaf(j) {
      assert ns[j] == ns[..k][j];
    }
    ChainHeight(ns, k, k - 1);
  }

  /** The tree for k byte values, each twice as frequent as the one before, is a chain: its height is at least k - 1. */
  lemma DoublingIsDeep(k: nat)
    requires 2 <= k <= 256
    ensures Height(SourceTree(Doubling(k))) >= k - 1
  {
    hide Frequencies, Doubling, Pow2, FrequencyTree, Height;
    DoublingFrequencies(k);
    DoublingTree(Frequencies(Doubling(k)), k);
  }

  lemma SizeOfDoubling(k: nat)
    requires 18 <= k <= 32
    ensures Pow2(18) == 262144 && Pow2(k) - 1 <= UINT32_MAX
  {
    Pow2Values();
    Pow2Add(2, 16);
    Pow2Add(16, 16);
    Pow2Monotone(k, 32);
  }

  /** From 18 byte values on no buffers are large enough for the source to survive compression. */
  lemma DoublingIsLost(k: nat)
    requires 18 <= k <= 32
    ensures |Doubling(k)| == Pow2(k) - 1 <= UINT32_MAX && Height(SourceTree(Doubling(k))) > 16
    ensures forall capacity: nat, outCapacity: nat :: !HuffmanCodec.RoundTrips(Doubling(k), capacity, outCapacity)
  {
    hide Pow2, Doubling, Height, SourceTree, HuffmanCodec.RoundTrips, HuffmanCodec.PayloadSize;
    DoublingIsDeep(k);
    DoublingCounts(k, 0);
    SizeOfDoubling(k);
    forall capacity: nat, outCapacity: nat ensures !HuffmanCodec.RoundTrips(Doubling(k), capacity, outCapacity) {
      HuffmanCodec.RoundTripExactly(Doubling(k), capacity, outCapacity);
    }
  }

  /** There is such a source of 262143 bytes, less than 4 GiB. */
  lemma DeepSourceExists() returns (src: seq<byte>)
    ensures |src| == 262143 && Height(SourceTree(src)) > 16
    ensures forall capacity: nat, outCapacity: nat :: !HuffmanCodec.RoundTrips(src, capacity, outCapacity)
  {
    hide Pow2, Doubling, Height, SourceTree, HuffmanCodec.RoundTrips;
    var k: nat :| k == 18;
    src := Doubling(k);
    DoublingIsLost(k);
    SizeOfDoubling(k);
  }
}
