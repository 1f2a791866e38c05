/** The Huffman tree of a source buffer, and how deep it can get. */
module HuffmanSource {
  import opened Basics
  import opened HuffmanTree
  import opened HuffmanShape

  ghost function Frequencies(src: seq<byte>): (freq: seq<nat>)
    ensures |freq| == SYMBOL_COUNT
  {
    seq(SYMBOL_COUNT, s requires 0 <= s < SYMBOL_COUNT => multiset(src)[s])
  }

  /** Every leaf carries the frequency of its symbol. */
  ghost predicate LeafWeights(t: Tree, freq: seq<nat>) {
    match t
    case Empty => true
    case Leaf(s, w) => s < |freq| && w == freq[s] > 0
    case Join(l, r) => LeafWeights(l, freq) && LeafWeights(r, freq)
  }

  lemma {:induction false} TreeLeafWeights(ns: seq<Node>, k: nat, freq: seq<nat>, v: nat)
    requires Forest(ns, k) && Shaped(ns) && v < |ns|
    requires |freq| == SYMBOL_COUNT && k == |Leaves(freq, |freq|)| && ns[..k] == Leaves(freq, |freq|)
    ensures LeafWeights(TreeOf(ns, v), freq)
    decreases v
  {
    assert k <= |ns|;
    hide Forest;
    InnerNode(ns, k, v);
    if v < k {
      LeavesFacts(freq, |freq|);
      assert ns[v] == ns[..k][v];
    } else {
      MergeFacts(ns, k, v);
      TreeLeafWeights(ns, k, freq, ns[v].left);
      TreeLeafWeights(ns, k, freq, ns[v].right);
    }
  }

  lemma {:induction false} WeighedSymbolsOccur(t: Tree, freq: seq<nat>)
    requires LeafWeights(t, freq)
    ensures forall s :: s in Symbols(t) ==> 0 <= s < |freq| && freq[s] > 0
  {
    if t.Join? {
      WeighedSymbolsOccur(t.left, freq);
      WeighedSymbolsOccur(t.right, freq);
    }
  }

  /** Each leaf hangs below some free node at every stage of the merging. */
  lemma {:induction false} LeafStaysReachable(ns: seq<Node>, k: nat, i: nat, j: nat) returns (x: int)
    requires Forest(ns, k) && Shaped(ns) && j < k <= i <= |ns|
    ensures x in Active(ns, k, i) && 0 <= x < i && ns[j].symbol in Symbols(TreeOf(ns, x))
    decreases i
  {
    hide Forest;
    if i == k {
      InnerNode(ns, k, j);
      x := j;
    } else {
      x := LeafStaysReachable(ns, k, i - 1, j);
      MergeFacts(ns, k, i - 1);
      InnerNode(ns, k, i - 1);
      if x == ns[i - 1].left || x == ns[i - 1].right {
        x := i - 1;
      }
    }
  }

  ghost function LeafCount(freq: seq<nat>): nat
    requires |freq| == SYMBOL_COUNT
  {
    |Leaves(freq, |freq|)|
  }

  lemma NodesForest(freq: seq<nat>)
    requires |freq| == SYMBOL_COUNT && LeafCount(freq) >= 2
    ensures Forest(HuffmanNodes(freq), LeafCount(freq)) && Shaped(HuffmanNodes(freq))
    ensures |HuffmanNodes(freq)| == 2 * LeafCount(freq) - 1
    ensures HuffmanNodes(freq)[..LeafCount(freq)] == Leaves(freq, |freq|)
  {
    LeavesFacts(freq, |freq|);
    ForestShaped(HuffmanNodes(freq), LeafCount(freq));
  }

  lemma NodesShaped(freq: seq<nat>)
    requires |freq| == SYMBOL_COUNT
    ensures Shaped(HuffmanNodes(freq))
  {
    LeavesFacts(freq, |freq|);
    if LeafCount(freq) >= 2 {
      NodesForest(freq);
    }
  }

  ghost function FrequencyTree(freq: seq<nat>): Tree
    requires |freq| == SYMBOL_COUNT
  {
    NodesShaped(freq);
    TreeOf(HuffmanNodes(freq), |HuffmanNodes(freq)| - 1)
  }

  /** A single distinct symbol hangs below a root without a right child. */
  lemma SingleLeafTree(freq: seq<nat>)
    requires |freq| == SYMBOL_COUNT && LeafCount(freq) == 1
    ensures 0 <= Leaves(freq, |freq|)[0].symbol
    ensures var leaf := Leaves(freq, |freq|)[0];
            FrequencyTree(freq) == Join(Leaf(leaf.symbol, leaf.frequency), Empty)
  {
    LeavesFacts(freq, |freq|);
    NodesShaped(freq);
    var ns := HuffmanNodes(freq);
    var leaf := Leaves(freq, |freq|)[0];
    assert ns == Leaves(freq, |freq|) + [Node(leaf.frequency, -1, 0, -1)];
    assert TreeOf(ns, 0) == Leaf(leaf.symbol, leaf.frequency);
  }

  /** The tree has exactly one leaf for each symbol that occurs, carrying its frequency. */
  lemma FrequencyTreeFacts(freq: seq<nat>)
    requires |freq| == SYMBOL_COUNT
    ensures Distinct(FrequencyTree(freq)) && LeafWeights(FrequencyTree(freq), freq)
    ensures forall s :: s in Symbols(FrequencyTree(freq)) <==> 0 <= s < SYMBOL_COUNT && freq[s] > 0
    ensures FrequencyTree(freq).Empty? || FrequencyTree(freq).Join?
  {
    var t := FrequencyTree(freq);
    hide HuffmanNodes, LeafCount, FrequencyTree;
    if LeafCount(freq) == 0 {
      NoLeafTree(freq);
    } else if LeafCount(freq) == 1 {
      SingleLeafFacts(freq);
    } else {
      JoinedTreeFacts(freq);
    }
    WeighedSymbolsOccur(t, freq);
    forall s | 0 <= s < SYMBOL_COUNT && freq[s] > 0 ensures s in Symbols(t) {
      OccurringSymbolInTree(freq, s);
    }
  }

  lemma NoLeafTree(freq: seq<nat>)
    requires |freq| == SYMBOL_COUNT && LeafCount(freq) == 0
    ensures FrequencyTree(freq) == Empty
  {
  }

  lemma SingleLeafFacts(freq: seq<nat>)
    requires |freq| == SYMBOL_COUNT && LeafCount(freq) == 1
    ensures Distinct(FrequencyTree(freq)) && LeafWeights(FrequencyTree(freq), freq) && FrequencyTree(freq).Join?
  {
    SingleLeafTree(freq);
    LeavesFacts(freq, |freq|);
    hide FrequencyTree;
  }

  lemma JoinedTreeFacts(freq: seq<nat>)
    requires |freq| == SYMBOL_COUNT && LeafCount(freq) >= 2
    ensures Distinct(FrequencyTree(freq)) && LeafWeights(FrequencyTree(freq), freq) && FrequencyTree(freq).Join?
  {
    hide HuffmanNodes, Forest, Shaped, Leaves, LeafWeights, Distinct;
    var ns, k := HuffmanNodes(freq), LeafCount(freq);
    NodesShaped(freq);
    NodesForest(freq);
    TreeDistinct(ns, k, |ns| - 1);
    TreeLeafWeights(ns, k, freq, |ns| - 1);
    InnerNode(ns, k, |ns| - 1);
  }

  lemma OccurringSymbolInTree(freq: seq<nat>, s: nat)
    requires |freq| == SYMBOL_COUNT && s < SYMBOL_COUNT && freq[s] > 0
    ensures s in Symbols(FrequencyTree(freq))
  {
    hide Forest, Grow;
    var ns, k := HuffmanNodes(freq), LeafCount(freq);
    LeavesFacts(freq, |freq|);
    NodesShaped(freq);
    var j := LeafOf(freq, |freq|, s);
    if k == 1 {
      assert ns == Leaves(freq, |freq|) + [Node(ns[0].frequency, -1, 0, -1)];
      assert TreeOf(ns, 0) == Leaf(s, freq[s]);
    } else {
      NodesForest(freq);
      assert ns[j] == ns[..k][j];
      var x := LeafStaysReachable(ns, k, |ns|, j);
      RootIsLast(ns, k, x);
    }
  }

  /** At the end only the last node is free. */
  lemma RootIsLast(ns: seq<Node>, k: nat, x: int)
    requires Forest(ns, k) && |ns| == 2 * k - 1 && x in Active(ns, k, |ns|)
    ensures x == |ns| - 1
  {
    ActiveFacts(ns, k, |ns|);
    assert |ns| - 1 in Active(ns, k, |ns|);
    OnlyElement(Active(ns, k, |ns|), x, |ns| - 1);
  }

  lemma OnlyRootFree(ns: seq<Node>, k: nat)
    requires Forest(ns, k) && |ns| == 2 * k - 1
    ensures Active(ns, k, |ns|) == {|ns| - 1}
  {
    assert |ns| - 1 in Active(ns, k, |ns|);
    hide Forest, Active;
    forall x | x in Active(ns, k, |ns|) ensures x == |ns| - 1 {
      RootIsLast(ns, k, x);
    }
  }

  // ----- Weights -----

  lemma {:induction false} TotalUpdate(w: seq<nat>, s: nat, x: nat)
    requires s < |w|
    ensures Total(w[s := x]) + w[s] == Total(w) + x
  {
    var v, v' := w[..|w| - 1], w[s := x][..|w| - 1];
    if s == |w| - 1 {
      assert v' == v;
    } else {
      assert v' == v[s := x];
      TotalUpdate(v, s, x);
    }
  }

  lemma {:induction false} TotalZero(w: seq<nat>)
    requires forall j :: 0 <= j < |w| ==> w[j] == 0
    ensures Total(w) == 0
  {
    if w != [] {
      TotalZero(w[..|w| - 1]);
    }
  }

  /** The frequencies of a source add up to its length. */
  lemma {:induction false} FrequenciesTotal(src: seq<byte>)
    ensures Total(Frequencies(src)) == |src|
  {
    if src == [] {
      TotalZero(Frequencies(src));
    } else {
      var n := |src| - 1;
      var before, b := src[..n], src[n];
      FrequenciesTotal(before);
      assert src == before + [b];
      assert Frequencies(src) == Frequencies(before)[b := Frequencies(before)[b] + 1];
      TotalUpdate(Frequencies(before), b, Frequencies(before)[b] + 1);
    }
  }

  ghost function SourceTree(src: seq<byte>): Tree {
    FrequencyTree(Frequencies(src))
  }

  /** The root weighs as much as the source is long. */
  lemma SourceTreeWeight(src: seq<byte>)
    requires LeafCount(Frequencies(src)) >= 2
    ensures var ns := HuffmanNodes(Frequencies(src)); |ns| > 0 && ns[|ns| - 1].frequency == |src|
  {
    FrequenciesTotal(src);
    hide Frequencies;
    RootCarriesTotal(Frequencies(src));
  }

  lemma RootCarriesTotal(freq: seq<nat>)
    requires |freq| == SYMBOL_COUNT && LeafCount(freq) >= 2
    ensures var ns := HuffmanNodes(freq); |ns| > 0 && ns[|ns| - 1].frequency == Total(freq)
  {
    hide Forest, HuffmanNodes, Leaves, Shaped, Sum, Total, Numbers, Weights;
    NodesForest(freq);
    LeavesWeight(freq, |freq|);
    assert freq[..|freq|] == freq;
    RootWeight(HuffmanNodes(freq), LeafCount(freq));
  }

  lemma RootWeight(ns: seq<Node>, k: nat)
    requires Forest(ns, k) && |ns| == 2 * k - 1
    ensures ns[|ns| - 1].frequency == Sum(Numbers(k), Weights(ns[..k]))
  {
    assert k <= |ns|;
    assert Weights(ns)[..k] == Weights(ns[..k]);
    hide Forest, Active, Sum;
    ActiveWeight(ns, k, |ns|);
    SumPrefix(Numbers(k), Weights(ns), k);
    OnlyRootFree(ns, k);
    SumSingle(|ns| - 1, Weights(ns));
  }

  /** With at most one distinct byte the tree has height at most one; otherwise it is full. */
  lemma TallTreesAreFull(freq: seq<nat>)
    requires |freq| == SYMBOL_COUNT && Height(FrequencyTree(freq)) > 1
    ensures Full(FrequencyTree(freq))
  {
    var ns, k := HuffmanNodes(freq), LeafCount(freq);
    NodesShaped(freq);
    if k >= 2 {
      NodesForest(freq);
      hide HuffmanNodes, Forest;
      TreeFull(ns, k, |ns| - 1);
    } else if k == 1 {
      SingleLeafTree(freq);
    }
  }

  const DEPTH_SAFE_LENGTH := 4181

  /** A source of fewer than Fib(19) bytes never needs codes longer than 16 bits. */
  lemma ShortSourcesAreShallow(src: seq<byte>)
    requires |src| < 4181
    ensures Height(SourceTree(src)) <= 16
  {
    var freq := Frequencies(src);
    var ns, k := HuffmanNodes(freq), LeafCount(freq);
    NodesShaped(freq);
    if k >= 2 {
      hide Forest, HuffmanNodes, Frequencies;
      NodesForest(freq);
      SourceTreeWeight(src);
      LightRootIsShallow(ns, k);
    } else if k == 1 {
      hide Frequencies;
      SingleLeafTree(freq);
    }
  }

  lemma LightRootIsShallow(ns: seq<Node>, k: nat)
    requires Forest(ns, k) && Shaped(ns) && ns[|ns| - 1].frequency < DEPTH_SAFE_LENGTH
    ensures Height(TreeOf(ns, |ns| - 1)) <= 16
  {
    assert |ns| > 0;
    hide *;
    FibonacciWeight(ns, k, |ns| - 1);
    HeightFromWeight(Height(TreeOf(ns, |ns| - 1)), ns[|ns| - 1].frequency);
  }

  lemma HeightFromWeight(h: nat, weight: nat)
    requires Fib(h + 2) <= weight < DEPTH_SAFE_LENGTH
    ensures h <= 16
  {
    Fib19();
    hide Fib;
    if h > 16 {
      FibMonotone(19, h + 2);
    }
  }

  lemma Fib19()
    ensures Fib(19) == 4181
  {
    assert Fib(2) == 1 && Fib(3) == 2;
    assert Fib(4) == 3 && Fib(5) == 5;
    assert Fib(6) == 8 && Fib(7) == 13;
    assert Fib(8) == 21 && Fib(9) == 34;
    assert Fib(10) == 55 && Fib(11) == 89;
    assert Fib(12) == 144 && Fib(13) == 233;
    assert Fib(14) == 377 && Fib(15) == 610;
    assert Fib(16) == 987 && Fib(17) == 1597;
    assert Fib(18) == 2584;
  }
}
