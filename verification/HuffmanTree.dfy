/** The greedy Huffman tree builder: frequency counts, the node array, and the order of merges. */
module HuffmanTree {
  import opened Basics

  const MAX_NODES := 512

  /** A slot of the node array; a leaf has symbol >= 0, an inner node has symbol == -1. */
  datatype Node = Node(frequency: nat, symbol: int, left: int, right: int)

  /** Weights of all nodes, in array order. */
  ghost function Weights(ns: seq<Node>): (w: seq<nat>)
    ensures |w| == |ns|
  {
    seq(|ns|, i requires 0 <= i < |ns| => ns[i].frequency)
  }

  ghost function Numbers(k: nat): (A: set<int>)
    ensures forall j :: j in A <==> 0 <= j < k
    ensures |A| == k
  {
    if k == 0 then {} else Numbers(k - 1) + {k - 1}
  }

  /** The nodes that no inner node below position i has taken as a child yet. */
  ghost function Active(ns: seq<Node>, k: nat, i: nat): (A: set<int>)
    requires k <= i <= |ns|
    decreases i
  {
    if i == k then Numbers(k)
    else Active(ns, k, i - 1) - {ns[i - 1].left, ns[i - 1].right} + {i - 1}
  }

  /** m is the lowest index among the lightest nodes of A. */
  ghost predicate IsFirstMinimum(ns: seq<Node>, A: set<int>, m: int) {
    && m in A && 0 <= m < |ns|
    && forall j :: j in A && 0 <= j < |ns| ==>
         ns[m].frequency < ns[j].frequency || (ns[m].frequency == ns[j].frequency && m <= j)
  }

  /** Inner node i joins the two lightest nodes that were free when it was made. */
  ghost predicate Greedy(ns: seq<Node>, k: nat, i: nat)
    requires k <= i < |ns|
  {
    var A := Active(ns, k, i);
    && ns[i].symbol == -1
    && IsFirstMinimum(ns[..i], A, ns[i].left)
    && IsFirstMinimum(ns[..i], A - {ns[i].left}, ns[i].right)
    && ns[i].frequency == ns[ns[i].left].frequency + ns[ns[i].right].frequency
  }

  ghost predicate IsMerge(ns: seq<Node>, A: set<int>, i: nat)
    requires i < |ns|
  {
    && 0 <= ns[i].left < i && 0 <= ns[i].right < i && ns[i].left != ns[i].right
    && ns[i].left in A && ns[i].right in A
    && ns[i].frequency == ns[ns[i].left].frequency + ns[ns[i].right].frequency
  }

  lemma MergeFacts(ns: seq<Node>, k: nat, i: nat)
    requires Forest(ns, k) && k <= i < |ns|
    ensures IsMerge(ns, Active(ns, k, i), i) && i !in Active(ns, k, i)
  {
    ActiveFacts(ns, k, i);
    assert Greedy(ns, k, i);
  }

  ghost predicate IsLeaf(n: Node) {
    0 <= n.symbol < SYMBOL_COUNT && n.frequency > 0 && n.left == -1 && n.right == -1
  }

  /** k leaves with distinct symbols in increasing order, followed by greedy merges. */
  ghost predicate Forest(ns: seq<Node>, k: nat) {
    && 2 <= k <= |ns| <= 2 * k - 1
    && (forall j :: 0 <= j < k ==> IsLeaf(ns[j]))
    && (forall j, j' :: 0 <= j < j' < k ==> ns[j].symbol < ns[j'].symbol)
    && forall i :: k <= i < |ns| ==> Greedy(ns, k, i)
  }

  lemma {:induction false} ActivePrefix(ns: seq<Node>, ns': seq<Node>, k: nat, i: nat)
    requires k <= i <= |ns| <= |ns'| && ns'[..i] == ns[..i]
    ensures Active(ns, k, i) == Active(ns', k, i)
    decreases i
  {
    if i > k {
      assert ns[..i - 1] == ns[..i][..i - 1] == ns'[..i - 1];
      assert ns[i - 1] == ns[..i][i - 1] == ns'[i - 1];
      ActivePrefix(ns, ns', k, i - 1);
    }
  }

  /** Every merge takes two free nodes out and puts one in. */
  lemma {:induction false} ActiveFacts(ns: seq<Node>, k: nat, i: nat)
    requires Forest(ns, k) && k <= i <= |ns|
    ensures forall j :: j in Active(ns, k, i) ==> 0 <= j < i
    ensures |Active(ns, k, i)| == 2 * k - i
    decreases i
  {
    if i == k {
    } else {
      ActiveFacts(ns, k, i - 1);
      assert Greedy(ns, k, i - 1);
      var A := Active(ns, k, i - 1);
      var l, r := ns[i - 1].left, ns[i - 1].right;
      assert |A - {l, r}| == |A| - 2 by {
        assert A - {l, r} == A - {l} - {r};
      }
    }
  }

  lemma {:induction false} MinimumExists(ns: seq<Node>, A: set<int>) returns (m: int)
    requires A != {}
    requires forall j :: j in A ==> 0 <= j < |ns|
    ensures IsFirstMinimum(ns, A, m)
    decreases |A|
  {
    HasElement(A);
    var x :| x in A;
    if A == {x} {
      m := x;
    } else {
      var rest := A - {x};
      m := MinimumExists(ns, rest);
      if ns[x].frequency < ns[m].frequency || (ns[x].frequency == ns[m].frequency && x <= m) {
        m := x;
      }
    }
  }

  /** The inner node that the next merge appends. */
  ghost predicate IsNextMerge(ns: seq<Node>, k: nat, n: Node)
    requires k <= |ns|
  {
    var A := Active(ns, k, |ns|);
    && n.symbol == -1
    && IsFirstMinimum(ns, A, n.left)
    && IsFirstMinimum(ns, A - {n.left}, n.right)
    && n.frequency == ns[n.left].frequency + ns[n.right].frequency
  }

  lemma NextMergeExists(ns: seq<Node>, k: nat)
    requires Forest(ns, k) && |ns| < 2 * k - 1
    ensures exists n :: IsNextMerge(ns, k, n)
  {
    ActiveFacts(ns, k, |ns|);
    var A := Active(ns, k, |ns|);
    var l := MinimumExists(ns, A);
    assert |A - {l}| == |A| - 1;
    var r := MinimumExists(ns, A - {l});
    var n := Node(ns[l].frequency + ns[r].frequency, -1, l, r);
    assert IsNextMerge(ns, k, n);
  }

  lemma NextMergeUnique(ns: seq<Node>, k: nat, n: Node, n': Node)
    requires k <= |ns| && IsNextMerge(ns, k, n) && IsNextMerge(ns, k, n')
    ensures n == n'
  {
    var A := Active(ns, k, |ns|);
    assert n.left == n'.left;
    assert n.right == n'.right;
  }

  lemma NextMergeExtends(ns: seq<Node>, k: nat, n: Node)
    requires Forest(ns, k) && |ns| < 2 * k - 1 && IsNextMerge(ns, k, n)
    ensures Forest(ns + [n], k)
  {
    var ns' := ns + [n];
    forall i | k <= i < |ns'| ensures Greedy(ns', k, i) {
      ActivePrefix(ns, ns', k, i);
      assert ns'[..i] == ns[..i];
      if i < |ns| {
        assert Greedy(ns, k, i);
      } else {
        assert ns[..i] == ns;
      }
    }
  }

  /** The finished node array: merge until one node is free. */
  ghost function Grow(ns: seq<Node>, k: nat): (full: seq<Node>)
    requires Forest(ns, k)
    ensures Forest(full, k) && |full| == 2 * k - 1 && ns <= full
    decreases 2 * k - |ns|
  {
    if |ns| == 2 * k - 1 then ns
    else
      NextMergeExists(ns, k);
      var n :| IsNextMerge(ns, k, n);
      NextMergeExtends(ns, k, n);
      Grow(ns + [n], k)
  }

  /** The leaves of the symbols below n that occur, in symbol order. */
  ghost function Leaves(freq: seq<nat>, n: nat): (ls: seq<Node>)
    requires n <= |freq|
  {
    if n == 0 then []
    else if freq[n - 1] == 0 then Leaves(freq, n - 1)
    else Leaves(freq, n - 1) + [Node(freq[n - 1], n - 1, -1, -1)]
  }

  /** Each occurring symbol has one leaf, and the leaves come in symbol order. */
  lemma {:induction false} LeavesFacts(freq: seq<nat>, n: nat)
    requires n <= |freq| == SYMBOL_COUNT
    ensures |Leaves(freq, n)| <= n
    ensures forall j :: 0 <= j < |Leaves(freq, n)| ==> IsLeaf(Leaves(freq, n)[j])
    ensures forall j :: 0 <= j < |Leaves(freq, n)| ==> 0 <= Leaves(freq, n)[j].symbol < n
    ensures forall j :: 0 <= j < |Leaves(freq, n)| ==>
              Leaves(freq, n)[j].frequency == freq[Leaves(freq, n)[j].symbol]
    ensures forall j, j' :: 0 <= j < j' < |Leaves(freq, n)| ==>
              Leaves(freq, n)[j].symbol < Leaves(freq, n)[j'].symbol
  {
    if n > 0 {
      LeavesFacts(freq, n - 1);
    }
  }

  lemma {:induction false} LeafOf(freq: seq<nat>, n: nat, s: nat) returns (j: nat)
    requires s < n <= |freq| && freq[s] > 0
    ensures j < |Leaves(freq, n)| && Leaves(freq, n)[j] == Node(freq[s], s, -1, -1)
  {
    if s == n - 1 {
      j := |Leaves(freq, n - 1)|;
    } else {
      j := LeafOf(freq, n - 1, s);
    }
  }

  /** The whole node array for a frequency table; its last element is the root. */
  ghost function HuffmanNodes(freq: seq<nat>): (ns: seq<Node>)
    requires |freq| == SYMBOL_COUNT
  {
    var leaves := Leaves(freq, |freq|);
    if |leaves| == 0 then []
    else if |leaves| == 1 then leaves + [Node(leaves[0].frequency, -1, 0, -1)]
    else
      LeavesFacts(freq, |freq|);
      Grow(leaves, |leaves|)
  }

  ghost function Total(w: seq<nat>): (t: nat) {
    if w == [] then 0 else Total(w[..|w| - 1]) + w[|w| - 1]
  }

  lemma MergeWeight(ns: seq<Node>, k: nat, i: nat)
    requires k <= i < |ns| && IsMerge(ns, Active(ns, k, i), i) && i !in Active(ns, k, i)
    ensures Sum(Active(ns, k, i + 1), Weights(ns)) == Sum(Active(ns, k, i), Weights(ns))
  {
    var A := Active(ns, k, i);
    var w := Weights(ns);
    var l, r := ns[i].left, ns[i].right;
    var rest := A - {l} - {r};
    SumRemove(A, l, w);
    SumRemove(A - {l}, r, w);
    SumRemove(rest + {i}, i, w);
    assert rest + {i} - {i} == rest;
    assert A - {l, r} + {i} == rest + {i};
  }

  /** Merging moves weight around but creates none. */
  lemma {:induction false} ActiveWeight(ns: seq<Node>, k: nat, i: nat)
    requires Forest(ns, k) && k <= i <= |ns|
    ensures Sum(Active(ns, k, i), Weights(ns)) == Sum(Numbers(k), Weights(ns))
    decreases i
  {
    if i > k {
      ActiveWeight(ns, k, i - 1);
      MergeFacts(ns, k, i - 1);
      MergeWeight(ns, k, i - 1);
    }
  }

  lemma {:induction false} LeavesWeight(freq: seq<nat>, n: nat)
    requires n <= |freq|
    ensures Sum(Numbers(|Leaves(freq, n)|), Weights(Leaves(freq, n))) == Total(freq[..n])
  {
    if n > 0 {
      LeavesWeight(freq, n - 1);
      assert freq[..n][..n - 1] == freq[..n - 1];
      var before, ls := Leaves(freq, n - 1), Leaves(freq, n);
      if freq[n - 1] > 0 {
        assert Weights(ls)[..|before|] == Weights(before);
        SumCongruent(Numbers(|ls|), Numbers(|before|), Weights(before));
      }
    }
  }

  lemma {:induction false} SumPrefix(A: set<int>, w: seq<nat>, n: nat)
    requires n <= |w| && forall j :: j in A ==> j < n
    ensures Sum(A, w) == Sum(A, w[..n])
    decreases |w|
  {
    if n == |w| {
      assert w[..n] == w;
    } else {
      var v := w[..|w| - 1];
      SumPrefix(A, v, n);
      assert v[..n] == w[..n];
    }
  }

  /** While two nodes are free, each of them weighs less than the whole input. */
  lemma FreeNodesBelowTotal(ns: seq<Node>, k: nat, x: int, y: int)
    requires Forest(ns, k)
    requires x in Active(ns, k, |ns|) && y in Active(ns, k, |ns|) && x != y
    ensures 0 <= x < |ns| && 0 <= y < |ns|
    ensures ns[x].frequency + ns[y].frequency <= Sum(Numbers(k), Weights(ns[..k]))
  {
    var A := Active(ns, k, |ns|);
    ActiveFacts(ns, k, |ns|);
    ActiveWeight(ns, k, |ns|);
    SumRemove(A, x, Weights(ns));
    SumRemove(A - {x}, y, Weights(ns));
    SumPrefix(Numbers(k), Weights(ns), k);
    assert Weights(ns)[..k] == Weights(ns[..k]);
  }

  /** Every node of the array is positive, and its weight is at most the total. */
  lemma {:induction false} NodeWeights(ns: seq<Node>, k: nat, i: nat)
    requires Forest(ns, k) && i < |ns|
    ensures 0 < ns[i].frequency <= Sum(Numbers(k), Weights(ns[..k]))
  {
    assert Weights(ns)[..k] == Weights(ns[..k]);
    SumPrefix(Numbers(k), Weights(ns), k);
    if i < k {
      SumRemove(Numbers(k), i, Weights(ns));
      assert IsLeaf(ns[i]);
    } else {
      MergeFacts(ns, k, i);
      NodeWeights(ns, k, ns[i].left);
      ActiveWeight(ns, k, i + 1);
      SumRemove(Active(ns, k, i + 1), i, Weights(ns));
    }
  }

  method CountFrequencies(source: seq<byte>) returns (frequencyTable: array<nat>)
    ensures fresh(frequencyTable) && frequencyTable.Length == SYMBOL_COUNT
    ensures forall s :: 0 <= s < SYMBOL_COUNT ==> frequencyTable[s] == multiset(source)[s]
  {
    frequencyTable := new nat[SYMBOL_COUNT](_ => 0);
    for i := 0 to |source|
      invariant forall s :: 0 <= s < SYMBOL_COUNT ==> frequencyTable[s] == multiset(source[..i])[s]
    {
      assert source[..i + 1] == source[..i] + [source[i]];
      frequencyTable[source[i]] := frequencyTable[source[i]] + 1;
    }
    assert source[..|source|] == source;
  }

  /** The outcome of a search for the lightest unused node, -1 when there is none below UINT32_MAX. */
  ghost predicate IsSearchResult(ns: seq<Node>, used: seq<bool>, m: int)
    requires |ns| <= |used|
  {
    if m < 0 then
      forall j :: 0 <= j < |ns| && !used[j] ==> ns[j].frequency == 0 || ns[j].frequency >= UINT32_MAX
    else
      && m < |ns| && !used[m] && 0 < ns[m].frequency < UINT32_MAX
      && forall j :: 0 <= j < |ns| && !used[j] && ns[j].frequency > 0 ==>
           ns[m].frequency < ns[j].frequency || (ns[m].frequency == ns[j].frequency && m <= j)
  }

  method FindMinimumFrequency(nodes: array<Node>, nodeCount: nat, isUsed: array<bool>)
    returns (minimumIndex: int)
    requires nodeCount <= nodes.Length && nodeCount <= isUsed.Length
    ensures -1 <= minimumIndex < nodeCount
    ensures minimumIndex == -1 ==>
              forall j :: 0 <= j < nodeCount && !isUsed[j] ==> nodes[j].frequency == 0 || nodes[j].frequency >= 0xFFFF_FFFF
    ensures minimumIndex >= 0 ==>
              && !isUsed[minimumIndex] && 0 < nodes[minimumIndex].frequency < 0xFFFF_FFFF
              && forall j :: 0 <= j < nodeCount && !isUsed[j] && nodes[j].frequency > 0 ==>
                   || nodes[minimumIndex].frequency < nodes[j].frequency
                   || (nodes[minimumIndex].frequency == nodes[j].frequency && minimumIndex <= j)
    ensures IsSearchResult(nodes[..nodeCount], isUsed[..], minimumIndex)
  {
    minimumIndex := -1;
    var minimumFrequency := UINT32_MAX;
    for i := 0 to nodeCount
      invariant -1 <= minimumIndex < i
      invariant minimumIndex < 0 ==> minimumFrequency == UINT32_MAX
      invariant minimumIndex >= 0 ==>
                  && !isUsed[minimumIndex]
                  && 0 < nodes[minimumIndex].frequency == minimumFrequency < UINT32_MAX
      invariant forall j :: 0 <= j < i && !isUsed[j] && nodes[j].frequency > 0 ==>
                  || minimumFrequency < nodes[j].frequency
                  || (minimumFrequency == nodes[j].frequency && minimumIndex <= j)
    {
      if !isUsed[i] && nodes[i].frequency > 0 {
        if nodes[i].frequency < minimumFrequency {
          minimumFrequency := nodes[i].frequency;
          minimumIndex := i;
        }
      }
    }
  }

  /** Of the first n nodes exactly those in A are unused, and no flag is set beyond them. */
  ghost predicate Flags(used: seq<bool>, A: set<int>, n: nat) {
    && (forall j :: 0 <= j < n && j < |used| ==> (used[j] <==> j !in A))
    && (forall j :: n <= j < |used| ==> !used[j])
  }

  /** What the search finds when only the nodes of A are unused and every node is positive. */
  lemma SearchPicksMinimum(ns: seq<Node>, used: seq<bool>, A: set<int>, m: int)
    requires |ns| <= |used| && IsSearchResult(ns, used, m)
    requires Flags(used, A, |ns|)
    requires forall j :: 0 <= j < |ns| ==> ns[j].frequency > 0
    requires forall j :: j in A ==> 0 <= j < |ns|
    ensures m >= 0 ==> IsFirstMinimum(ns, A, m)
    ensures m < 0 ==> forall j :: j in A ==> ns[j].frequency >= UINT32_MAX
  {
  }

  method FillLeaves(freq: array<nat>, nodes: array<Node>) returns (nodeCount: nat)
    requires freq.Length == SYMBOL_COUNT && nodes.Length == MAX_NODES
    modifies nodes
    ensures nodeCount <= SYMBOL_COUNT
    ensures nodes[..nodeCount] == Leaves(freq[..], |freq[..]|)
  {
    nodeCount := 0;
    for symbol := 0 to SYMBOL_COUNT
      invariant nodeCount <= symbol
      invariant nodes[..nodeCount] == Leaves(freq[..], symbol)
    {
      if freq[symbol] > 0 {
        nodes[nodeCount] := Node(freq[symbol], symbol, -1, -1);
        nodeCount := nodeCount + 1;
        assert nodes[..nodeCount] == nodes[..nodeCount - 1] + [Node(freq[symbol], symbol, -1, -1)];
      }
    }
  }

  /** The state between two merges of the build loop. */
  ghost predicate Building(ns: seq<Node>, used: seq<bool>, k: nat) {
    && k <= SYMBOL_COUNT && |used| == MAX_NODES
    && Forest(ns, k)
    && Flags(used, Active(ns, k, |ns|), |ns|)
    && Sum(Numbers(k), Weights(ns[..k])) <= UINT32_MAX
  }

  lemma BuildingStart(ns: seq<Node>, used: seq<bool>, k: nat)
    requires k == |ns| <= SYMBOL_COUNT && |used| == MAX_NODES && Forest(ns, k)
    requires forall j :: 0 <= j < |used| ==> !used[j]
    requires Sum(Numbers(k), Weights(ns)) <= UINT32_MAX
    ensures Building(ns, used, k)
  {
    assert ns[..k] == ns;
  }

  lemma FlagsStep(used: seq<bool>, A: set<int>, n: nat, l: int, r: int)
    requires Flags(used, A, n) && n < |used| && 0 <= l < n && 0 <= r < n
    requires forall j :: j in A ==> 0 <= j < n
    ensures Flags(used[l := true][r := true], A - {l, r} + {n}, n + 1)
  {
  }

  lemma ForestLength(ns: seq<Node>, k: nat)
    requires Forest(ns, k)
    ensures 2 <= k <= |ns| <= 2 * k - 1
  {
  }

  lemma BuildingStep(ns: seq<Node>, used: seq<bool>, k: nat, l: int, r: int, n: Node)
    requires Building(ns, used, k) && |ns| < 2 * k - 1
    requires IsNextMerge(ns, k, n) && l == n.left && r == n.right && 0 <= l < |ns| && 0 <= r < |ns|
    ensures Building(ns + [n], used[l := true][r := true], k)
    ensures Grow(ns + [n], k) == Grow(ns, k)
  {
    hide Forest, Grow, Sum, Greedy, Weights, Numbers;
    ForestLength(ns, k);
    GrowStep(ns, k, n);
    ActivePrefix(ns, ns + [n], k, |ns|);
    assert (ns + [n])[..|ns|] == ns && (ns + [n])[..k] == ns[..k];
    ActiveFacts(ns, k, |ns|);
    FlagsStep(used, Active(ns, k, |ns|), |ns|, l, r);
  }

  /** The first search: it fails only when the root alone is free. */
  lemma FirstSearch(ns: seq<Node>, used: seq<bool>, k: nat, m: int)
    requires Building(ns, used, k) && IsSearchResult(ns, used, m)
    ensures m < 0 ==> |ns| == 2 * k - 1
    ensures m >= 0 ==> IsFirstMinimum(ns, Active(ns, k, |ns|), m)
  {
    ActiveFacts(ns, k, |ns|);
    forall j | 0 <= j < |ns| ensures ns[j].frequency > 0 {
      NodeWeights(ns, k, j);
    }
    SearchPicksMinimum(ns, used, Active(ns, k, |ns|), m);
    if m < 0 {
      OneFreeIfNoMinimum(ns, k, Active(ns, k, |ns|), m);
    }
  }

  lemma SecondSearch(ns: seq<Node>, used: seq<bool>, k: nat, l: int, m: int)
    requires Building(ns, used, k) && 0 <= l < |ns| && l in Active(ns, k, |ns|)
    requires IsSearchResult(ns, used[l := true], m)
    ensures m < 0 ==> |ns| == 2 * k - 1
    ensures m >= 0 ==> |ns| < 2 * k - 1 && IsFirstMinimum(ns, Active(ns, k, |ns|) - {l}, m)
  {
    var A := Active(ns, k, |ns|);
    ActiveFacts(ns, k, |ns|);
    forall j | 0 <= j < |ns| ensures ns[j].frequency > 0 {
      NodeWeights(ns, k, j);
    }
    SearchPicksMinimum(ns, used[l := true], A - {l}, m);
    if m < 0 {
      OneFreeIfNoMinimum(ns, k, A, l);
    } else {
      assert |A - {l} - {m}| == |A| - 2;
    }
  }

  /** Fills the node array exactly as the greedy specification says. */
  method BuildTree(freq: array<nat>, nodes: array<Node>) returns (nodeCount: nat)
    requires freq.Length == SYMBOL_COUNT && nodes.Length == MAX_NODES
    requires Total(freq[..]) <= UINT32_MAX
    modifies nodes
    ensures nodeCount <= MAX_NODES
    ensures nodes[..nodeCount] == HuffmanNodes(freq[..])
  {
    nodeCount := FillLeaves(freq, nodes);
    if nodeCount == 0 {
      return;
    }
    if nodeCount == 1 {
      nodes[1] := Node(nodes[0].frequency, -1, 0, -1);
      nodeCount := 2;
      assert nodes[..2] == nodes[..1] + [Node(nodes[0].frequency, -1, 0, -1)];
      return;
    }
    LeavesFacts(freq[..], |freq[..]|);
    LeavesWeight(freq[..], |freq[..]|);
    assert freq[..][..|freq[..]|] == freq[..];
    nodeCount := MergeAll(nodes, nodeCount);
  }

  /** The merge loop; the capacity test on MAX_NODES cannot fire, since 2 * 256 - 1 < 512. */
  method MergeAll(nodes: array<Node>, leafCount: nat) returns (nodeCount: nat)
    requires nodes.Length == MAX_NODES && 2 <= leafCount <= SYMBOL_COUNT
    requires Forest(nodes[..leafCount], leafCount)
    requires Sum(Numbers(leafCount), Weights(nodes[..leafCount])) <= UINT32_MAX
    modifies nodes
    ensures nodeCount <= MAX_NODES
    ensures nodes[..nodeCount] == Grow(old(nodes[..leafCount]), leafCount)
  {
    var isUsed := new bool[MAX_NODES](_ => false);
    nodeCount := leafCount;
    BuildingStart(nodes[..leafCount], isUsed[..], leafCount);
    var merged := true;
    while merged
      invariant nodeCount <= 2 * leafCount - 1
      invariant Building(nodes[..nodeCount], isUsed[..], leafCount)
      invariant Grow(nodes[..nodeCount], leafCount) == Grow(old(nodes[..leafCount]), leafCount)
      invariant !merged ==> nodeCount == 2 * leafCount - 1
      decreases 2 * leafCount - nodeCount, merged
    {
      merged := MergeTwoLightest(nodes, nodeCount, isUsed, leafCount);
      if merged {
        nodeCount := nodeCount + 1;
      }
    }
  }

  /** One turn of the merge loop: false when fewer than two nodes are free. */
  method MergeTwoLightest(nodes: array<Node>, nodeCount: nat, isUsed: array<bool>, ghost k: nat)
    returns (merged: bool)
    requires nodes.Length == isUsed.Length == MAX_NODES && nodeCount <= 2 * k - 1 && k <= SYMBOL_COUNT
    requires Building(nodes[..nodeCount], isUsed[..], k)
    modifies nodes, isUsed
    ensures merged <==> nodeCount < 2 * k - 1
    ensures !merged ==> Building(nodes[..nodeCount], isUsed[..], k)
    ensures !merged ==> nodes[..] == old(nodes[..])
    ensures merged ==> Building(nodes[..nodeCount + 1], isUsed[..], k)
    ensures merged ==> Grow(nodes[..nodeCount + 1], k) == Grow(old(nodes[..nodeCount]), k)
  {
    hide Building, Grow, Active;
    ghost var ns, used := nodes[..nodeCount], isUsed[..];
    var firstMinimum := FindMinimumFrequency(nodes, nodeCount, isUsed);
    FirstSearch(ns, used, k, firstMinimum);
    if firstMinimum < 0 {
      return false;
    }
    isUsed[firstMinimum] := true;
    assert isUsed[..] == used[firstMinimum := true];
    var secondMinimum := FindMinimumFrequency(nodes, nodeCount, isUsed);
    SecondSearch(ns, used, k, firstMinimum, secondMinimum);
    if secondMinimum < 0 {
      isUsed[firstMinimum] := false;
      assert isUsed[..] == used;
      return false;
    }
    isUsed[secondMinimum] := true;
    var n := Node(nodes[firstMinimum].frequency + nodes[secondMinimum].frequency,
                  -1, firstMinimum, secondMinimum);
    BuildingStep(ns, used, k, firstMinimum, secondMinimum, n);
    nodes[nodeCount] := n;
    assert nodes[..nodeCount + 1] == ns + [n];
    assert isUsed[..] == used[firstMinimum := true][secondMinimum := true];
    return true;
  }

  lemma GrowStep(ns: seq<Node>, k: nat, n: Node)
    requires Forest(ns, k) && |ns| < 2 * k - 1 && IsNextMerge(ns, k, n)
    ensures Forest(ns + [n], k) && Grow(ns + [n], k) == Grow(ns, k)
  {
    NextMergeExtends(ns, k, n);
    forall m | IsNextMerge(ns, k, m) ensures m == n {
      NextMergeUnique(ns, k, m, n);
    }
  }

  /** If the search finds no second candidate below UINT32_MAX, only the root is free. */
  lemma OneFreeIfNoMinimum(ns: seq<Node>, k: nat, A: set<int>, x: int)
    requires Forest(ns, k) && A == Active(ns, k, |ns|)
    requires Sum(Numbers(k), Weights(ns[..k])) <= UINT32_MAX
    requires forall j :: j in A && j != x ==> 0 <= j < |ns| && ns[j].frequency >= UINT32_MAX
    ensures |ns| == 2 * k - 1
  {
    ActiveFacts(ns, k, |ns|);
    if |A| >= 2 {
      assert A == A - {x} || |A - {x}| == |A| - 1;
      HasElement(A - {x});
      var y :| y in A - {x};
      assert |A - {y}| == |A| - 1;
      HasElement(A - {y});
      var z :| z in A - {y};
      FreeNodesBelowTotal(ns, k, y, z);
      NodeWeights(ns, k, z);
    }
  }

  // ----- The order of merges -----

  lemma ActiveStep(ns: seq<Node>, k: nat, i: nat, j: int)
    requires k < i <= |ns|
    ensures j in Active(ns, k, i) <==>
            j == i - 1 || (j in Active(ns, k, i - 1) && j != ns[i - 1].left && j != ns[i - 1].right)
  {
  }

  lemma ChildrenBefore(ns: seq<Node>, k: nat, i: nat)
    requires Forest(ns, k) && k <= i < |ns|
    ensures 0 <= ns[i].left < i && 0 <= ns[i].right < i && ns[i].left != ns[i].right
  {
    MergeFacts(ns, k, i);
  }

  /** A node is free as long as no inner node has taken it. */
  lemma {:induction false} FreeIsActive(ns: seq<Node>, k: nat, i: nat, j: int)
    requires Forest(ns, k) && k <= i <= |ns|
    ensures j in Active(ns, k, i) <==> 0 <= j < i && forall m :: k <= m < i ==> ns[m].left != j && ns[m].right != j
    decreases i
  {
    if i == k {
    } else {
      hide Forest, Active;
      FreeIsActive(ns, k, i - 1, j);
      ActiveStep(ns, k, i, j);
      if j == i - 1 {
        forall m | k <= m < i ensures ns[m].left != j && ns[m].right != j {
          ChildrenBefore(ns, k, m);
        }
      }
    }
  }

  /**
   With two symbols or more, every inner node joins two free nodes: the lightest, and the lightest of the others, the
   earlier one of two equally light ones. There are as many inner nodes as leaves, less one.
   */
  lemma MergesLightest(freq: seq<nat>, i: nat)
    requires |freq| == SYMBOL_COUNT
    requires var k := |Leaves(freq, 256)|; k >= 2 && k <= i < 2 * k - 1
    ensures var ns, k := HuffmanNodes(freq), |Leaves(freq, 256)|;
            && |ns| == 2 * k - 1 && ns[..k] == Leaves(freq, 256)
            && var left, right := ns[i].left, ns[i].right;
               && 0 <= left < i && 0 <= right < i && left != right && ns[i].symbol == -1
               && ns[i].frequency == ns[left].frequency + ns[right].frequency
               && (forall m :: k <= m < i ==> {left, right} !! {ns[m].left, ns[m].right})
               && (forall j :: 0 <= j < i && j != left && (forall m :: k <= m < i ==> ns[m].left != j && ns[m].right != j) ==>
                     && (ns[left].frequency < ns[j].frequency || (ns[left].frequency == ns[j].frequency && left < j))
                     && (j != right ==>
                           ns[right].frequency < ns[j].frequency || (ns[right].frequency == ns[j].frequency && right < j)))
  {
    var ns, k := HuffmanNodes(freq), |Leaves(freq, 256)|;
    NodesAre(freq);
    hide Forest, Active, Leaves, HuffmanNodes;
    ChildrenBefore(ns, k, i);
    MergeIsGreedy(ns, k, i);
    forall m | k <= m < i ensures {ns[i].left, ns[i].right} !! {ns[m].left, ns[m].right} {
      FreeIsActive(ns, k, i, ns[i].left);
      FreeIsActive(ns, k, i, ns[i].right);
    }
    forall j | 0 <= j < i && j != ns[i].left && forall m :: k <= m < i ==> ns[m].left != j && ns[m].right != j
      ensures j in Active(ns, k, i)
    {
      FreeIsActive(ns, k, i, j);
    }
  }

  lemma NodesAre(freq: seq<nat>)
    requires |freq| == SYMBOL_COUNT && |Leaves(freq, 256)| >= 2
    ensures var ns, k := HuffmanNodes(freq), |Leaves(freq, 256)|;
            Forest(ns, k) && |ns| == 2 * k - 1 && ns[..k] == Leaves(freq, 256)
  {
    LeavesFacts(freq, 256);
  }

  lemma MergeIsGreedy(ns: seq<Node>, k: nat, i: nat)
    requires Forest(ns, k) && k <= i < |ns|
    ensures 0 <= ns[i].left < i && 0 <= ns[i].right < i
    ensures var A, left, right := Active(ns, k, i), ns[i].left, ns[i].right;
            && left in A && right in A && ns[i].symbol == -1 && ns[i].frequency == ns[left].frequency + ns[right].frequency
            && (forall j :: j in A && 0 <= j < i ==>
                  ns[left].frequency < ns[j].frequency || (ns[left].frequency == ns[j].frequency && left <= j))
            && (forall j :: j in A && 0 <= j < i && j != left ==>
                  ns[right].frequency < ns[j].frequency || (ns[right].frequency == ns[j].frequency && right <= j))
  {
    MergeFacts(ns, k, i);
    assert Greedy(ns, k, i);
    hide Forest, Active;
    var A := Active(ns, k, i);
    forall j | j in A && 0 <= j < i && j != ns[i].left
      ensures ns[ns[i].right].frequency < ns[j].frequency || (ns[ns[i].right].frequency == ns[j].frequency && ns[i].right <= j)
    {
      assert j in A - {ns[i].left} && ns[..i][j] == ns[j];
    }
  }
}
