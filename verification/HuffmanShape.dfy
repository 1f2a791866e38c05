/** The binary tree that a node array stands for: symbols, heights, depths and weights. */
module HuffmanShape {
  import opened Basics
  import opened HuffmanTree

  /** Empty is the absent child of the two-node array made for a single symbol. */
  datatype Tree = Empty | Leaf(symbol: nat, weight: nat) | Join(left: Tree, right: Tree)

  ghost function Symbols(t: Tree): set<int> {
    match t
    case Empty => {}
    case Leaf(s, _) => {s}
    case Join(l, r) => Symbols(l) + Symbols(r)
  }

  ghost function Weight(t: Tree): nat {
    match t
    case Empty => 0
    case Leaf(_, w) => w
    case Join(l, r) => Weight(l) + Weight(r)
  }

  ghost function Height(t: Tree): nat {
    match t
    case Empty => 0
    case Leaf(_, _) => 0
    case Join(l, r) => 1 + (if Height(l) >= Height(r) then Height(l) else Height(r))
  }

  /** No symbol has two leaves. */
  ghost predicate Distinct(t: Tree) {
    t.Join? ==> Symbols(t.left) !! Symbols(t.right) && Distinct(t.left) && Distinct(t.right)
  }

  /** The number of edges from the root to the leaf of s. */
  ghost function Depth(t: Tree, s: int): (d: nat)
    requires s in Symbols(t)
    ensures d <= Height(t)
  {
    match t
    case Leaf(_, _) => 0
    case Join(l, r) => 1 + (if s in Symbols(l) then Depth(l, s) else Depth(r, s))
  }

  ghost predicate Full(t: Tree) {
    match t
    case Empty => false
    case Leaf(_, _) => true
    case Join(l, r) => Full(l) && Full(r)
  }

  /** The height of a full tree is the depth of one of its leaves. */
  lemma {:induction false} DeepestLeaf(t: Tree) returns (s: int)
    requires Distinct(t) && Full(t)
    ensures s in Symbols(t) && Depth(t, s) == Height(t)
  {
    match t
    case Leaf(x, _) => s := x;
    case Join(l, r) =>
      if Height(l) >= Height(r) {
        s := DeepestLeaf(l);
      } else {
        s := DeepestLeaf(r);
      }
  }

  /** Every index other than a leaf points to smaller indices. */
  ghost predicate Shaped(ns: seq<Node>) {
    forall i :: 0 <= i < |ns| ==>
      if ns[i].symbol >= 0 then ns[i].symbol < SYMBOL_COUNT else ns[i].left < i && ns[i].right < i
  }

  ghost function TreeOf(ns: seq<Node>, v: int): Tree
    requires Shaped(ns) && v < |ns|
    decreases v
  {
    if v < 0 then Empty
    else if ns[v].symbol >= 0 then Leaf(ns[v].symbol, ns[v].frequency)
    else Join(TreeOf(ns, ns[v].left), TreeOf(ns, ns[v].right))
  }

  /** Inner nodes are exactly those from k on. */
  lemma InnerNode(ns: seq<Node>, k: nat, i: nat)
    requires Forest(ns, k) && i < |ns|
    ensures ns[i].symbol == -1 <==> k <= i
    ensures i < k ==> IsLeaf(ns[i])
  {
    if k <= i {
      assert Greedy(ns, k, i);
    } else {
      assert IsLeaf(ns[i]);
    }
  }

  lemma ForestShaped(ns: seq<Node>, k: nat)
    requires Forest(ns, k)
    ensures Shaped(ns)
  {
    forall i | 0 <= i < |ns|
      ensures if ns[i].symbol >= 0 then ns[i].symbol < SYMBOL_COUNT else ns[i].left < i && ns[i].right < i
    {
      InnerNode(ns, k, i);
      if i >= k {
        MergeFacts(ns, k, i);
      }
    }
  }

  lemma {:induction false} TreeWeight(ns: seq<Node>, k: nat, v: nat)
    requires Forest(ns, k) && v < |ns| && Shaped(ns)
    ensures Weight(TreeOf(ns, v)) == ns[v].frequency
    decreases v
  {
    hide Forest;
    InnerNode(ns, k, v);
    if k <= v {
      MergeFacts(ns, k, v);
      TreeWeight(ns, k, ns[v].left);
      TreeWeight(ns, k, ns[v].right);
    }
  }

  lemma {:induction false} TreeFull(ns: seq<Node>, k: nat, v: nat)
    requires Forest(ns, k) && v < |ns| && Shaped(ns)
    ensures Full(TreeOf(ns, v))
    decreases v
  {
    hide Forest;
    InnerNode(ns, k, v);
    if k <= v {
      MergeFacts(ns, k, v);
      TreeFull(ns, k, ns[v].left);
      TreeFull(ns, k, ns[v].right);
    }
  }

  // ----- Distinct symbols -----

  /** A free node was free at every earlier time at which it existed. */
  lemma {:induction false} FreeEarlier(ns: seq<Node>, k: nat, i: nat, j: nat, x: int)
    requires k <= j <= i <= |ns| && x in Active(ns, k, i) && x < j
    ensures x in Active(ns, k, j)
    decreases i
  {
    if j < i {
      FreeEarlier(ns, k, i - 1, j, x);
    }
  }

  /** The subtrees of two free nodes share no symbol. */
  lemma {:induction false} FreeTreesDisjoint(ns: seq<Node>, k: nat, i: nat, x: int, y: int)
    requires Forest(ns, k) && Shaped(ns) && k <= i <= |ns|
    requires x in Active(ns, k, i) && y in Active(ns, k, i) && x != y
    ensures 0 <= x < i && 0 <= y < i
    ensures Symbols(TreeOf(ns, x)) !! Symbols(TreeOf(ns, y))
    decreases i, 0
  {
    ActiveFacts(ns, k, i);
    if i == k {
      InnerNode(ns, k, x);
      InnerNode(ns, k, y);
      assert x < y ==> ns[x].symbol < ns[y].symbol;
      assert y < x ==> ns[y].symbol < ns[x].symbol;
    } else {
      hide Forest;
      if x == i - 1 {
        DisjointFromMerge(ns, k, i - 1, y);
      } else if y == i - 1 {
        DisjointFromMerge(ns, k, i - 1, x);
      } else {
        FreeTreesDisjoint(ns, k, i - 1, x, y);
      }
    }
  }

  lemma {:induction false} DisjointFromMerge(ns: seq<Node>, k: nat, i: nat, x: int)
    requires Forest(ns, k) && Shaped(ns) && k <= i < |ns|
    requires x in Active(ns, k, i) && x != ns[i].left && x != ns[i].right
    ensures 0 <= x < i && Symbols(TreeOf(ns, x)) !! Symbols(TreeOf(ns, i))
    decreases i, 1
  {
    hide Forest;
    MergeFacts(ns, k, i);
    InnerNode(ns, k, i);
    FreeTreesDisjoint(ns, k, i, x, ns[i].left);
    FreeTreesDisjoint(ns, k, i, x, ns[i].right);
  }

  /** No symbol occurs twice in a built tree. */
  lemma {:induction false} TreeDistinct(ns: seq<Node>, k: nat, v: nat)
    requires Forest(ns, k) && Shaped(ns) && v < |ns|
    ensures Distinct(TreeOf(ns, v))
    decreases v
  {
    hide Forest;
    InnerNode(ns, k, v);
    if v >= k {
      MergeFacts(ns, k, v);
      TreeDistinct(ns, k, ns[v].left);
      TreeDistinct(ns, k, ns[v].right);
      FreeTreesDisjoint(ns, k, v, ns[v].left, ns[v].right);
    }
  }

  // ----- The Fibonacci bound -----

  ghost function Fib(n: nat): nat {
    if n < 2 then n else Fib(n - 1) + Fib(n - 2)
  }

  lemma {:induction false} FibMonotone(a: nat, b: nat)
    requires a <= b
    ensures Fib(a) <= Fib(b)
    decreases b
  {
    if a < b {
      FibMonotone(a, b - 1);
    }
  }

  /** Nodes left free by merge i are at least as heavy as the two it took. */
  lemma LeftOverIsHeavier(ns: seq<Node>, k: nat, i: nat, x: int)
    requires Forest(ns, k) && k <= i < |ns|
    requires x in Active(ns, k, i) && x != ns[i].left && x != ns[i].right
    ensures 0 <= ns[i].left < i && 0 <= ns[i].right < i && 0 <= x < i
    ensures ns[ns[i].left].frequency <= ns[ns[i].right].frequency <= ns[x].frequency
  {
    ActiveFacts(ns, k, i);
    assert Greedy(ns, k, i);
    assert x in Active(ns, k, i) - {ns[i].left};
  }

  /** Merged weights never decrease. */
  lemma {:induction false} MergesNonDecreasing(ns: seq<Node>, k: nat, a: nat, b: nat)
    requires Forest(ns, k) && k <= a <= b < |ns|
    ensures ns[a].frequency <= ns[b].frequency
    decreases b
  {
    if a < b {
      hide Forest;
      MergesNonDecreasing(ns, k, a, b - 1);
      MergeFacts(ns, k, b);
      MergeFacts(ns, k, b - 1);
      var l, r := ns[b].left, ns[b].right;
      if l != b - 1 && r != b - 1 {
        LeftOverIsHeavier(ns, k, b - 1, l);
        LeftOverIsHeavier(ns, k, b - 1, r);
      }
    }
  }

  /** The sibling property: a child of c is no heavier than the sibling s of c. */
  lemma SiblingIsHeavier(ns: seq<Node>, k: nat, i: nat, c: int, s: int)
    requires Forest(ns, k) && k <= c < i < |ns|
    requires c in Active(ns, k, i) && s in Active(ns, k, i) && c != s
    ensures 0 <= ns[c].left < c && 0 <= ns[c].right < c && 0 <= s < i
    ensures ns[ns[c].left].frequency <= ns[s].frequency && ns[ns[c].right].frequency <= ns[s].frequency
  {
    ActiveFacts(ns, k, i);
    hide Forest;
    MergeFacts(ns, k, c);
    if s < c {
      FreeEarlier(ns, k, i, c + 1, s);
      FreeEarlier(ns, k, i, c, s);
      LeftOverIsHeavier(ns, k, c, s);
    } else {
      MergesNonDecreasing(ns, k, c, s);
    }
  }

  /** A node of height h weighs at least Fib(h + 2). */
  lemma {:induction false} FibonacciWeight(ns: seq<Node>, k: nat, v: nat)
    requires Forest(ns, k) && Shaped(ns) && v < |ns|
    ensures ns[v].frequency >= Fib(Height(TreeOf(ns, v)) + 2)
    decreases v
  {
    hide Forest;
    InnerNode(ns, k, v);
    if v >= k {
      MergeFacts(ns, k, v);
      var l, r := ns[v].left, ns[v].right;
      if Height(TreeOf(ns, l)) >= Height(TreeOf(ns, r)) {
        TallerChild(ns, k, v, l, r);
      } else {
        TallerChild(ns, k, v, r, l);
      }
    }
  }

  lemma {:induction false} TallerChild(ns: seq<Node>, k: nat, v: nat, c: nat, s: nat)
    requires Forest(ns, k) && Shaped(ns) && k <= v < |ns| && c < v && s < v && c != s
    requires c in Active(ns, k, v) && s in Active(ns, k, v)
    ensures ns[c].frequency + ns[s].frequency >= Fib(Height(TreeOf(ns, c)) + 3)
    decreases v, 0
  {
    hide Forest, Fib, TreeOf, Shaped;
    FibonacciWeight(ns, k, c);
    FibStep(Height(TreeOf(ns, c)) + 1);
    InnerNode(ns, k, c);
    if c < k {
      FibonacciWeight(ns, k, s);
      FibMonotone(2, Height(TreeOf(ns, s)) + 2);
      LeafHeight(ns, c);
      FibSmall();
    } else {
      SiblingIsHeavier(ns, k, v, c, s);
      InnerHeight(ns, c);
      FibonacciWeight(ns, k, ns[c].left);
      FibonacciWeight(ns, k, ns[c].right);
    }
  }

  lemma FibSmall()
    ensures Fib(1) == 1 && Fib(2) == 1 && Fib(3) == 2
  {
  }

  lemma FibStep(n: nat)
    ensures Fib(n + 2) == Fib(n + 1) + Fib(n)
  {
  }

  lemma LeafHeight(ns: seq<Node>, v: nat)
    requires Shaped(ns) && v < |ns| && ns[v].symbol >= 0
    ensures Height(TreeOf(ns, v)) == 0
  {
  }

  lemma InnerHeight(ns: seq<Node>, v: nat)
    requires Shaped(ns) && v < |ns| && ns[v].symbol < 0 
    requires 0 <= ns[v].left < v && 0 <= ns[v].right < v
    ensures var hl, hr := Height(TreeOf(ns, ns[v].left)), Height(TreeOf(ns, ns[v].right));
            Height(TreeOf(ns, v)) == 1 + (if hl >= hr then hl else hr)
  {
  }
}
