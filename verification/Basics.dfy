/** Bytes, powers of two and sums over index sets, shared by the other modules. */
module Basics {

  type byte = x: int | 0 <= x < 256

  function Min(a: int, b: int): int {
    if a <= b then a else b
  }

  const SYMBOL_COUNT := 256
  const UINT32_MAX := 0xFFFF_FFFF

  function Pow2(n: nat): (p: nat)
    ensures p >= 1
  {
    if n == 0 then 1 else 2 * Pow2(n - 1)
  }

  lemma Pow2Values()
    ensures Pow2(7) == 128 && Pow2(8) == 256 && Pow2(15) == 32768 && Pow2(16) == 65536
  {
  }

  lemma {:induction false} Pow2Add(a: nat, b: nat)
    ensures Pow2(a + b) == Pow2(a) * Pow2(b)
  {
    if a == 0 {
    } else {
      Pow2Add(a - 1, b);
      assert Pow2(a + b) == 2 * (Pow2(a - 1) * Pow2(b));
    }
  }

  lemma {:induction false} Pow2Monotone(a: nat, b: nat)
    requires a <= b
    ensures Pow2(a) <= Pow2(b)
  {
    if a < b {
      Pow2Monotone(a, b - 1);
    }
  }

  lemma MulMonotone(a: nat, b: nat, p: nat)
    requires a <= b
    ensures a * p <= b * p
  {
    assert b * p == a * p + (b - a) * p;
  }

  lemma CancelFactor(a: nat, b: nat, p: nat)
    requires p >= 1 && a * p <= b * p
    ensures a <= b
  {
    if a > b {
      MulMonotone(b + 1, a, p);
    }
  }

  lemma QuotientNonNegative(v: nat, d: nat)
    requires d >= 1
    ensures v / d >= 0
  {
    var e := v / d;
    assert v == d * e + v % d;
    assert d * (e + 1) == d * e + d;
    if e < 0 {
      NonPositiveProduct(d, e + 1);
    }
  }

  lemma NonPositiveProduct(d: nat, e: int)
    requires e <= 0
    ensures d * e <= 0
  {
  }

  lemma Quotient(v: nat, d: nat, q: nat, r: nat)
    requires d >= 1 && r < d && v == d * q + r
    ensures v / d == q && v % d == r
  {
    var e := v / d;
    assert v == d * e + v % d;
    if e < q {
      MulMonotone(e + 1, q, d);
    } else if q < e {
      MulMonotone(q + 1, e, d);
    }
  }

  lemma FloorAtLeast(v: nat, x: nat, p: nat)
    requires p >= 1 && v >= x * p
    ensures v / p >= x
  {
    var e := v / p;
    assert v == p * e + v % p;
    if e < x {
      MulMonotone(e + 1, x, p);
    }
  }

  lemma HasElement(A: set<int>)
    ensures A == {} || exists x :: x in A
  {
    if forall x :: x !in A {
      assert A == {};
    }
  }

  lemma OnlyElement(A: set<int>, x: int, y: int)
    requires |A| == 1 && x in A && y in A
    ensures x == y
  {
    assert |A - {x}| == 0;
    assert y !in A - {x};
  }

  /** The sum of w[j] over the indices j of w that lie in A. */
  ghost function Sum(A: set<int>, w: seq<nat>): (s: nat) {
    if w == [] then 0
    else Sum(A, w[..|w| - 1]) + (if |w| - 1 in A then w[|w| - 1] else 0)
  }

  lemma {:induction false} SumSplit(A: set<int>, B: set<int>, w: seq<nat>)
    requires forall j :: 0 <= j < |w| ==> !(j in A && j in B)
    ensures Sum(A + B, w) == Sum(A, w) + Sum(B, w)
  {
    if w != [] {
      SumSplit(A, B, w[..|w| - 1]);
    }
  }

  /** Sum sees only the indices of w. */
  lemma {:induction false} SumCongruent(A: set<int>, B: set<int>, w: seq<nat>)
    requires forall j :: 0 <= j < |w| ==> (j in A <==> j in B)
    ensures Sum(A, w) == Sum(B, w)
  {
    if w != [] {
      SumCongruent(A, B, w[..|w| - 1]);
    }
  }

  lemma {:induction false} SumZero(A: set<int>, w: seq<nat>)
    requires forall j :: 0 <= j < |w| && j in A ==> w[j] == 0
    ensures Sum(A, w) == 0
  {
    if w != [] {
      SumZero(A, w[..|w| - 1]);
    }
  }

  lemma {:induction false} SumSingle(x: int, w: seq<nat>)
    requires 0 <= x < |w|
    ensures Sum({x}, w) == w[x]
  {
    var v := w[..|w| - 1];
    if x == |w| - 1 {
      SumCongruent({x}, {}, v);
      SumZero({}, v);
    } else {
      SumSingle(x, v);
    }
  }

  /** Taking one index out of A takes its weight out of the sum. */
  lemma SumRemove(A: set<int>, x: int, w: seq<nat>)
    requires 0 <= x < |w| && x in A
    ensures Sum(A, w) == Sum(A - {x}, w) + w[x]
  {
    SumSplit(A - {x}, {x}, w);
    SumCongruent(A, A - {x} + {x}, w);
    SumSingle(x, w);
  }

  // ----- Numbers as little-endian bytes -----

  function LittleEndian(bytes: seq<byte>): nat {
    if bytes == [] then 0 else bytes[0] as nat + 256 * LittleEndian(bytes[1..])
  }

  function Encode(v: nat, n: nat): (bytes: seq<byte>)
    ensures |bytes| == n
  {
    if n == 0 then [] else [v % 256] + Encode(v / 256, n - 1)
  }

  function Pow256(n: nat): (p: nat)
    ensures p >= 1
  {
    if n == 0 then 1 else 256 * Pow256(n - 1)
  }

  lemma {:induction false} EncodeRoundTrip(v: nat, n: nat)
    requires v < Pow256(n)
    ensures LittleEndian(Encode(v, n)) == v
  {
    if n > 0 {
      EncodeRoundTrip(v / 256, n - 1);
      assert Encode(v, n)[1..] == Encode(v / 256, n - 1);
    }
  }

  /** Four bytes of a number, and two, the low one first. */
  lemma EncodedBytes(v: nat)
    ensures Encode(v, 4) == [v % 256, v / 256 % 256, v / 65536 % 256, v / 16777216 % 256]
    ensures Encode(v, 2) == [v % 256, v / 256 % 256]
  {
    assert v / 256 / 256 == v / 65536 && v / 65536 / 256 == v / 16777216;
    assert Encode(v / 16777216, 1) == [v / 16777216 % 256];
    assert Encode(v / 65536, 2) == [v / 65536 % 256] + Encode(v / 16777216, 1);
    assert Encode(v / 256, 3) == [v / 256 % 256] + Encode(v / 65536, 2);
    assert Encode(v / 256, 1) == [v / 256 % 256];
  }

  lemma DecodedBytes(b: seq<byte>)
    ensures |b| == 4 ==> LittleEndian(b) == b[0] as int + 256 * b[1] as int + 65536 * b[2] as int + 16777216 * b[3] as int
    ensures |b| == 2 ==> LittleEndian(b) == b[0] as int + 256 * b[1] as int
  {
    if |b| == 4 {
      assert LittleEndian(b[1..]) == b[1] as int + 256 * LittleEndian(b[2..]) by { assert b[1..][1..] == b[2..]; }
      assert LittleEndian(b[2..]) == b[2] as int + 256 * LittleEndian(b[3..]) by { assert b[2..][1..] == b[3..]; }
      assert LittleEndian(b[3..]) == b[3] by { assert b[3..][1..] == []; }
    } else if |b| == 2 {
      assert LittleEndian(b[1..]) == b[1] by { assert b[1..][1..] == []; }
    }
  }
}
