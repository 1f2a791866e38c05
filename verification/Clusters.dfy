/** Disk clusters as byte arrays, and the 32-bit cluster pointers stored inside them. */
module Clusters {
  import opened Basics

  const CLUSTER_SIZE := 4096
  const POINTERS_PER_CLUSTER := 1024
  const MAX_CLUSTERS := 0x1_0000_0000

  type Cluster = seq<byte>

  ghost predicate IsCluster(c: Cluster) {
    |c| == CLUSTER_SIZE
  }

  /** The i-th pointer of a pointer cluster. */
  function Ptr(c: Cluster, i: nat): nat
    requires IsCluster(c) && i < POINTERS_PER_CLUSTER
  {
    LittleEndian(c[4 * i..4 * i + 4])
  }

  function SetPtr(c: Cluster, i: nat, v: nat): (c': Cluster)
    requires IsCluster(c) && i < POINTERS_PER_CLUSTER
    ensures IsCluster(c')
  {
    c[..4 * i] + Encode(v, 4) + c[4 * i + 4..]
  }

  lemma SetPtrFacts(c: Cluster, i: nat, v: nat, j: nat)
    requires IsCluster(c) && i < POINTERS_PER_CLUSTER && j < POINTERS_PER_CLUSTER && v < MAX_CLUSTERS
    ensures Ptr(SetPtr(c, i, v), j) == if i == j then v else Ptr(c, j)
  {
    var c' := SetPtr(c, i, v);
    if i == j {
      assert c'[4 * i..4 * i + 4] == Encode(v, 4);
      assert Pow256(4) == MAX_CLUSTERS;
      EncodeRoundTrip(v, 4);
    } else if j < i {
      assert c'[4 * j..4 * j + 4] == c[4 * j..4 * j + 4];
    } else {
      assert c'[4 * j..4 * j + 4] == c[4 * j..4 * j + 4];
    }
  }

  function Zeros(n: nat): (z: seq<byte>)
    ensures |z| == n && forall i :: 0 <= i < n ==> z[i] == 0
  {
    seq(n, _ => 0)
  }

  function ZeroCluster(): (z: Cluster)
    ensures IsCluster(z) && forall i :: 0 <= i < CLUSTER_SIZE ==> z[i] == 0
  {
    Zeros(CLUSTER_SIZE)
  }

  lemma {:induction false} LittleEndianZero(bytes: seq<byte>)
    requires forall i :: 0 <= i < |bytes| ==> bytes[i] == 0
    ensures LittleEndian(bytes) == 0
  {
    if bytes != [] {
      LittleEndianZero(bytes[1..]);
    }
  }

  lemma ZeroPtr(i: nat)
    requires i < POINTERS_PER_CLUSTER
    ensures Ptr(ZeroCluster(), i) == 0
  {
    LittleEndianZero(ZeroCluster()[4 * i..4 * i + 4]);
  }

  /** A pointer is four bytes, the low one first. */
  lemma PointerBytes(c: Cluster, i: nat)
    requires IsCluster(c) && i < 1024
    ensures Ptr(c, i) ==
            c[4 * i] as int + 256 * c[4 * i + 1] as int + 65536 * c[4 * i + 2] as int + 16777216 * c[4 * i + 3] as int
  {
    DecodedBytes(c[4 * i..4 * i + 4]);
  }
}
