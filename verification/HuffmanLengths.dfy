/** Code lengths read off the tree, cut at sixteen, and why they leave room for a prefix code. */
module HuffmanLengths {
  import opened Basics
  import opened HuffmanTree
  import opened HuffmanShape
  import opened HuffmanSource
  import CanonicalCode

  /** The length given to a leaf at depth d: none beyond 16, and at least one bit. */
  ghost function LengthAtDepth(d: nat): (l: byte)
  {
    if d > CanonicalCode.MAX_CODE_LENGTH then 0 else if d > 0 then d else 1
  }

  ghost function LengthOf(t: Tree, s: int): (l: byte) {
    if s in Symbols(t) then LengthAtDepth(Depth(t, s)) else 0
  }

  ghost function LengthsOf(t: Tree): (lens: seq<byte>)
    ensures CanonicalCode.LengthTable(lens)
    ensures forall s :: 0 <= s < SYMBOL_COUNT ==> lens[s] == LengthOf(t, s)
  {
    seq(SYMBOL_COUNT, s requires 0 <= s < SYMBOL_COUNT => LengthOf(t, s))
  }

  /** The table after visiting t at the given depth: leaves within 16 levels are set, the rest kept. */
  ghost predicate Assigned(t: Tree, depth: nat, before: seq<byte>, after: seq<byte>) {
    && |before| == |after| == SYMBOL_COUNT
    && forall s :: 0 <= s < SYMBOL_COUNT ==>
         after[s] == if s in Symbols(t) && depth + Depth(t, s) <= CanonicalCode.MAX_CODE_LENGTH
                     then LengthAtDepth(depth + Depth(t, s)) else before[s]
  }

  lemma AssignedJoin(t: Tree, depth: nat, before: seq<byte>, middle: seq<byte>, after: seq<byte>)
    requires t.Join? && Symbols(t.left) !! Symbols(t.right)
    requires Assigned(t.left, depth + 1, before, middle) && Assigned(t.right, depth + 1, middle, after)
    ensures Assigned(t, depth, before, after)
  {
  }

  method ComputeCodeLengthsRecursive(nodes: seq<Node>, nodeIndex: int, currentDepth: nat, table: array<byte>)
    requires Shaped(nodes) && nodeIndex < |nodes| && table.Length == SYMBOL_COUNT
    requires Distinct(TreeOf(nodes, nodeIndex))
    modifies table
    ensures Assigned(TreeOf(nodes, nodeIndex), currentDepth, old(table[..]), table[..])
    decreases nodeIndex
  {
    if nodeIndex < 0 {
      return;
    }
    var node := nodes[nodeIndex];
    ghost var t := TreeOf(nodes, nodeIndex);
    if node.symbol >= 0 {
      if currentDepth <= CanonicalCode.MAX_CODE_LENGTH {
        table[node.symbol] := if currentDepth > 0 then currentDepth else 1;
      }
      return;
    }
    if currentDepth >= CanonicalCode.MAX_CODE_LENGTH {
      return;
    }
    ghost var before := table[..];
    ComputeCodeLengthsRecursive(nodes, node.left, currentDepth + 1, table);
    ghost var middle := table[..];
    ComputeCodeLengthsRecursive(nodes, node.right, currentDepth + 1, table);
    AssignedJoin(t, currentDepth, before, middle, table[..]);
  }

  method ComputeCodeLengths(nodes: seq<Node>) returns (table: array<byte>)
    requires Shaped(nodes) && Distinct(TreeOf(nodes, |nodes| - 1))
    ensures fresh(table)
    ensures table[..] == LengthsOf(TreeOf(nodes, |nodes| - 1))
  {
    table := new byte[SYMBOL_COUNT](_ => 0);
    if |nodes| == 0 {
      return;
    }
    ComputeCodeLengthsRecursive(nodes, |nodes| - 1, 0, table);
  }

  // ----- Kraft -----

  /** The 16-bit code space below a node at depth d. */
  ghost function DepthShare(d: nat): nat {
    if d <= 16 then Pow2(16 - d) else 0
  }

  lemma JoinDepths(l: Tree, r: Tree)
    requires Symbols(l) !! Symbols(r)
    ensures forall s :: s in Symbols(l) ==> s in Symbols(Join(l, r)) && Depth(Join(l, r), s) == 1 + Depth(l, s)
    ensures forall s :: s in Symbols(r) ==> s in Symbols(Join(l, r)) && Depth(Join(l, r), s) == 1 + Depth(r, s)
    ensures forall s :: s in Symbols(Join(l, r)) ==> Depth(Join(l, r), s) >= 1
  {
  }

  /** The leaves of a subtree at depth d take at most the code space of depth d. */
  lemma {:induction false} TreeKraft(t: Tree, d: nat, w: seq<nat>)
    requires Distinct(t) && d <= 16 && |w| == SYMBOL_COUNT
    requires forall s :: s in Symbols(t) ==> 0 <= s < SYMBOL_COUNT
    requires forall s :: s in Symbols(t) ==> w[s] <= DepthShare(d + Depth(t, s))
    ensures Sum(Symbols(t), w) <= Pow2(16 - d)
  {
    match t
    case Empty => SumZero({}, w);
    case Leaf(s, _) =>
      assert s in Symbols(t) && Depth(t, s) == 0;
      SumSingle(s, w);
    case Join(l, r) =>
      JoinDepths(l, r);
      if d == 16 {
        SumZero(Symbols(t), w);
      } else {
        TreeKraft(l, d + 1, w);
        TreeKraft(r, d + 1, w);
        SumSplit(Symbols(l), Symbols(r), w);
      }
  }

  lemma {:induction false} KraftIsSum(lens: seq<byte>, n: nat)
    requires n <= |lens|
    ensures CanonicalCode.KraftSum(lens, n) == Sum(Numbers(n), CanonicalCode.Shares(lens)[..n])
  {
    if n > 0 {
      KraftIsSum(lens, n - 1);
      var w := CanonicalCode.Shares(lens)[..n];
      assert w[..n - 1] == CanonicalCode.Shares(lens)[..n - 1];
      SumCongruent(Numbers(n), Numbers(n - 1), w[..n - 1]);
    }
  }

  /** The lengths of any tree without repeated symbols admit a prefix code, even when cut at 16. */
  lemma LengthsDecodable(t: Tree)
    requires Distinct(t) && forall s :: s in Symbols(t) ==> 0 <= s < SYMBOL_COUNT
    ensures CanonicalCode.Decodable(LengthsOf(t))
  {
    hide Numbers, Pow2, Sum, Symbols, LengthsOf, Distinct, Depth, DepthShare, CanonicalCode.Shares, CanonicalCode.Decodable;
    var lens := LengthsOf(t);
    var w := CanonicalCode.Shares(lens);
    forall s | s in Symbols(t) ensures w[s] <= DepthShare(0 + Depth(t, s)) {
      LengthShare(t, s);
    }
    forall s | s in Numbers(SYMBOL_COUNT) - Symbols(t) ensures w[s] == 0 {
      LengthShare(t, s);
    }
    SumOutsideZero(Symbols(t), w);
    TreeKraft(t, 0, w);
    DecodableIntro(t);
  }

  lemma DecodableIntro(t: Tree)
    requires Sum(Numbers(|LengthsOf(t)|), CanonicalCode.Shares(LengthsOf(t))) <= Pow2(16)
    ensures CanonicalCode.Decodable(LengthsOf(t))
  {
    hide Numbers, Pow2, Sum, CanonicalCode.KraftSum, CanonicalCode.Shares;
    var lens := LengthsOf(t);
    KraftIsSum(lens, |lens|);
    assert CanonicalCode.Shares(lens)[..SYMBOL_COUNT] == CanonicalCode.Shares(lens);
  }

  lemma SumOutsideZero(S: set<int>, w: seq<nat>)
    requires forall s :: s in S ==> 0 <= s < |w|
    requires forall s :: s in Numbers(|w|) - S ==> w[s] == 0
    ensures Sum(Numbers(|w|), w) == Sum(S, w)
  {
    var rest := Numbers(|w|) - S;
    SumSplit(S, rest, w);
    assert S + rest == Numbers(|w|);
    SumZero(rest, w);
  }

  lemma LengthShare(t: Tree, s: int)
    requires 0 <= s < SYMBOL_COUNT
    ensures s in Symbols(t) ==> CanonicalCode.Shares(LengthsOf(t))[s] <= DepthShare(Depth(t, s))
    ensures s !in Symbols(t) ==> CanonicalCode.Shares(LengthsOf(t))[s] == 0
  {
    assert CanonicalCode.Shares(LengthsOf(t))[s] == CanonicalCode.Share(LengthOf(t, s));
    hide Pow2, LengthsOf, CanonicalCode.Shares;
    Pow2Values();
  }

  ghost function SourceLengths(src: seq<byte>): (lens: seq<byte>)
    ensures CanonicalCode.LengthTable(lens)
  {
    LengthsOf(SourceTree(src))
  }

  lemma SourceLengthsDecodable(src: seq<byte>)
    ensures CanonicalCode.Decodable(SourceLengths(src))
  {
    FrequencyTreeFacts(Frequencies(src));
    LengthsDecodable(SourceTree(src));
  }

  lemma ByteInTree(src: seq<byte>, b: byte)
    ensures b in src <==> b in Symbols(SourceTree(src))
  {
    FrequencyTreeFacts(Frequencies(src));
    assert Frequencies(src)[b] == multiset(src)[b];
    assert b in multiset(src) <==> b in src;
  }

  /** In a tree of height at most 16 every byte of the source has a code. */
  lemma ShallowBytesHaveCodes(src: seq<byte>, b: byte)
    requires b in src && Height(SourceTree(src)) <= 16
    ensures 1 <= SourceLengths(src)[b]
  {
    ByteInTree(src, b);
    assert SourceLengths(src)[b] == LengthOf(SourceTree(src), b);
  }

  /** In a deeper tree some byte of the source has none. */
  lemma DeepByteWithoutCode(src: seq<byte>) returns (b: byte)
    requires Height(SourceTree(src)) > 16
    ensures b in src && SourceLengths(src)[b] == 0
  {
    var t := SourceTree(src);
    FrequencyTreeFacts(Frequencies(src));
    TallTreesAreFull(Frequencies(src));
    var s := DeepestLeaf(t);
    b := s;
    ByteInTree(src, b);
    assert SourceLengths(src)[b] == LengthOf(t, b);
  }
}
