/** Bit strings, most significant bit first, and their packing into bytes. */
module Bits {
  import opened Basics

  type bit = x: int | 0 <= x < 2

  /** The low n bits of v. */
  ghost function BitsOf(v: nat, n: nat): (bs: seq<bit>)
    ensures |bs| == n
  {
    if n == 0 then [] else BitsOf(v / 2, n - 1) + [v % 2]
  }

  ghost function Value(bs: seq<bit>): nat {
    if bs == [] then 0 else 2 * Value(bs[..|bs| - 1]) + bs[|bs| - 1]
  }

  lemma {:induction false} ValueBound(bs: seq<bit>)
    ensures Value(bs) < Pow2(|bs|)
  {
    if bs != [] {
      ValueBound(bs[..|bs| - 1]);
    }
  }

  lemma {:induction false} ValueOfBits(v: nat, n: nat)
    requires v < Pow2(n)
    ensures Value(BitsOf(v, n)) == v
  {
    if n > 0 {
      ValueOfBits(v / 2, n - 1);
      assert BitsOf(v, n)[..n - 1] == BitsOf(v / 2, n - 1);
    }
  }

  lemma {:induction false} BitsOfValue(bs: seq<bit>)
    ensures BitsOf(Value(bs), |bs|) == bs
  {
    if bs != [] {
      BitsOfValue(bs[..|bs| - 1]);
      assert Value(bs) / 2 == Value(bs[..|bs| - 1]);
    }
  }

  /** Bit i of the n low bits of v. */
  lemma {:induction false} BitAt(v: nat, n: nat, i: nat)
    requires i < n
    ensures BitsOf(v, n)[i] == (v / Pow2(n - 1 - i)) % 2
  {
    if i < n - 1 {
      BitAt(v / 2, n - 1, i);
      DivideTwice(v, Pow2(n - 2 - i));
    }
  }

  lemma DivideTwice(v: nat, p: nat)
    requires p >= 1
    ensures (v / 2) / p == v / (2 * p)
  {
    var q := (v / 2) / p;
    assert v / 2 == q * p + (v / 2) % p;
    assert v == 2 * p * q + (2 * ((v / 2) % p) + v % 2);
    Quotient(v, 2 * p, q, 2 * ((v / 2) % p) + v % 2);
  }
}
