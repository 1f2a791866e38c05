/**
 Canonical prefix codes: the encoder's code table and the decoder's table, computed by separate
 code from the same 256 lengths, in the manner of section 3.2.2 of RFC 1951.
 */
module CanonicalCode {
  import opened Basics
  import opened Bits

  const MAX_CODE_LENGTH := 16

  // ----- Counting lengths -----

  /** The number of symbols below n whose length is l. */
  ghost function CountLen(lens: seq<byte>, l: nat, n: nat): (c: nat)
    requires n <= |lens|
    ensures c <= n
  {
    if n == 0 then 0 else CountLen(lens, l, n - 1) + (if lens[n - 1] == l then 1 else 0)
  }

  lemma {:induction false} CountLenMonotone(lens: seq<byte>, l: nat, m: nat, n: nat)
    requires m <= n <= |lens|
    ensures CountLen(lens, l, m) <= CountLen(lens, l, n)
    decreases n
  {
    if m < n {
      CountLenMonotone(lens, l, m, n - 1);
    }
  }

  ghost predicate LengthTable(lens: seq<byte>) {
    |lens| == SYMBOL_COUNT
  }

  ghost function Number(lens: seq<byte>, l: nat): nat
    requires LengthTable(lens)
  {
    CountLen(lens, l, |lens|)
  }

  /** The first code of length l: each length starts right after twice the codes before it. */
  ghost function First(lens: seq<byte>, l: nat): nat
    requires LengthTable(lens) && l >= 1
  {
    if l == 1 then 0 else 2 * (First(lens, l - 1) + Number(lens, l - 1))
  }

  ghost function Rank(lens: seq<byte>, s: nat): nat
    requires s < |lens|
  {
    CountLen(lens, lens[s], s)
  }

  lemma RankBelowNumber(lens: seq<byte>, s: nat)
    requires LengthTable(lens) && s < SYMBOL_COUNT
    ensures Rank(lens, s) < Number(lens, lens[s])
  {
    CountLenMonotone(lens, lens[s], s + 1, |lens|);
  }

  ghost function Code(lens: seq<byte>, s: nat): nat
    requires LengthTable(lens) && s < SYMBOL_COUNT && lens[s] >= 1
  {
    First(lens, lens[s]) + Rank(lens, s)
  }

  ghost function Codeword(lens: seq<byte>, s: nat): (word: seq<bit>)
    requires LengthTable(lens) && s < SYMBOL_COUNT
    ensures |word| == lens[s]
  {
    if lens[s] == 0 then [] else BitsOf(Code(lens, s), lens[s])
  }

  // ----- The Kraft sum and the size of codes -----

  /** The share of the 16-bit code space taken by a symbol of length l. */
  ghost function Share(l: nat): nat {
    if 1 <= l <= MAX_CODE_LENGTH then Pow2(MAX_CODE_LENGTH - l) else 0
  }

  ghost function Shares(lens: seq<byte>): (w: seq<nat>)
    ensures |w| == |lens|
  {
    seq(|lens|, s requires 0 <= s < |lens| => Share(lens[s]))
  }

  ghost function KraftSum(lens: seq<byte>, n: nat): nat
    requires n <= |lens|
  {
    if n == 0 then 0 else KraftSum(lens, n - 1) + Share(lens[n - 1])
  }

  /** Lengths a complete or incomplete prefix code can have. */
  ghost predicate Decodable(lens: seq<byte>) {
    && LengthTable(lens)
    && (forall s :: 0 <= s < SYMBOL_COUNT ==> lens[s] <= MAX_CODE_LENGTH)
    && KraftSum(lens, |lens|) <= Pow2(MAX_CODE_LENGTH)
  }

  /** The code space taken by the symbols below n with lengths 1 to l. */
  ghost function LevelSum(lens: seq<byte>, n: nat, l: nat): nat
    requires n <= |lens| && l <= MAX_CODE_LENGTH
  {
    if l == 0 then 0 else LevelSum(lens, n, l - 1) + CountLen(lens, l, n) * Pow2(MAX_CODE_LENGTH - l)
  }

  lemma {:induction false} LevelSumStep(lens: seq<byte>, n: nat, l: nat)
    requires n < |lens| && l <= MAX_CODE_LENGTH
    ensures LevelSum(lens, n + 1, l) == LevelSum(lens, n, l) + (if lens[n] <= l then Share(lens[n]) else 0)
  {
    if l > 0 {
      LevelSumStep(lens, n, l - 1);
      var p := Pow2(MAX_CODE_LENGTH - l);
      if lens[n] == l {
        assert (CountLen(lens, l, n) + 1) * p == CountLen(lens, l, n) * p + p;
      }
    }
  }

  lemma {:induction false} LevelSumEmpty(lens: seq<byte>, l: nat)
    requires l <= MAX_CODE_LENGTH
    ensures LevelSum(lens, 0, l) == 0
  {
    if l > 0 {
      LevelSumEmpty(lens, l - 1);
    }
  }

  /** Summing by symbol or by length gives the same Kraft sum. */
  lemma {:induction false} KraftByLevel(lens: seq<byte>, n: nat)
    requires n <= |lens| && forall s :: 0 <= s < |lens| ==> lens[s] <= MAX_CODE_LENGTH
    ensures KraftSum(lens, n) == LevelSum(lens, n, MAX_CODE_LENGTH)
  {
    if n == 0 {
      LevelSumEmpty(lens, MAX_CODE_LENGTH);
    } else {
      KraftByLevel(lens, n - 1);
      LevelSumStep(lens, n - 1, MAX_CODE_LENGTH);
    }
  }

  lemma DoubleBoth(f: nat, c: nat, p: nat)
    ensures (2 * (f + c)) * p == f * (2 * p) + c * (2 * p)
  {
  }

  lemma {:induction false} FirstByLevel(lens: seq<byte>, l: nat)
    requires LengthTable(lens) && 1 <= l <= MAX_CODE_LENGTH
    ensures First(lens, l) * Pow2(MAX_CODE_LENGTH - l) == LevelSum(lens, |lens|, l - 1)
  {
    if l > 1 {
      FirstByLevel(lens, l - 1);
      DoubleBoth(First(lens, l - 1), Number(lens, l - 1), Pow2(MAX_CODE_LENGTH - l));
    }
  }

  lemma {:induction false} LevelSumMonotone(lens: seq<byte>, n: nat, l: nat, m: nat)
    requires n <= |lens| && l <= m <= MAX_CODE_LENGTH
    ensures LevelSum(lens, n, l) <= LevelSum(lens, n, m)
    decreases m
  {
    if l < m {
      LevelSumMonotone(lens, n, l, m - 1);
    }
  }

  lemma CancelSum(f: nat, c: nat, q: nat, p: nat)
    requires p >= 1 && f * p + c * p <= q * p
    ensures f + c <= q
  {
    assert (f + c) * p == f * p + c * p;
    CancelFactor(f + c, q, p);
  }

  /** The codes of length l all fit in l bits. */
  lemma CodesFit(lens: seq<byte>, l: nat)
    requires Decodable(lens) && 1 <= l <= MAX_CODE_LENGTH
    ensures First(lens, l) + Number(lens, l) <= Pow2(l)
  {
    var p := Pow2(MAX_CODE_LENGTH - l);
    var f, c := First(lens, l), Number(lens, l);
    LevelSumWithin(lens, l);
    hide *;
    FirstByLevel(lens, l);
    Pow2Add(l, MAX_CODE_LENGTH - l);
    CancelSum(f, c, Pow2(l), p);
  }

  lemma LevelSumWithin(lens: seq<byte>, l: nat)
    requires Decodable(lens) && 1 <= l <= MAX_CODE_LENGTH
    ensures LevelSum(lens, |lens|, l - 1) + Number(lens, l) * Pow2(MAX_CODE_LENGTH - l) <= Pow2(MAX_CODE_LENGTH)
  {
    KraftByLevel(lens, |lens|);
    LevelSumMonotone(lens, |lens|, l, MAX_CODE_LENGTH);
  }

  lemma CodeFits(lens: seq<byte>, s: nat)
    requires Decodable(lens) && s < SYMBOL_COUNT && lens[s] >= 1
    ensures Code(lens, s) < Pow2(lens[s])
  {
    RankBelowNumber(lens, s);
    CodesFit(lens, lens[s]);
  }

  lemma FirstNext(lens: seq<byte>, l: nat)
    requires LengthTable(lens) && l >= 1
    ensures First(lens, l + 1) == 2 * (First(lens, l) + Number(lens, l))
  {
  }

  lemma DoubleProduct(x: nat, n: nat)
    ensures x * Pow2(n + 1) == 2 * (x * Pow2(n))
  {
    assert Pow2(n + 1) == 2 * Pow2(n);
  }

  /** Longer codes start beyond every extension of the shorter ones. */
  lemma {:induction false} LongerCodesStartLater(lens: seq<byte>, l: nat, m: nat)
    requires LengthTable(lens) && 1 <= l < m
    ensures First(lens, m) >= (First(lens, l) + Number(lens, l)) * Pow2(m - l)
    decreases m
  {
    FirstNext(lens, m - 1);
    if l + 1 < m {
      LongerCodesStartLater(lens, l, m - 1);
      hide First, Number;
      DoubleProduct(First(lens, l) + Number(lens, l), m - 1 - l);
    } else {
      hide First, Number;
      assert Pow2(1) == 2;
    }
  }

  // ----- Symbols by length and rank -----

  /** The symbol below n with length l and rank r. */
  ghost function SymbolAt(lens: seq<byte>, l: nat, r: nat, n: nat): (s: nat)
    requires n <= |lens| && r < CountLen(lens, l, n)
    ensures s < n && lens[s] == l && CountLen(lens, l, s) == r
  {
    if lens[n - 1] == l && CountLen(lens, l, n - 1) == r then n - 1 else SymbolAt(lens, l, r, n - 1)
  }

  /** Length and rank determine the symbol. */
  lemma SymbolAtRank(lens: seq<byte>, s: nat)
    requires LengthTable(lens) && s < SYMBOL_COUNT
    ensures Rank(lens, s) < Number(lens, lens[s])
    ensures SymbolAt(lens, lens[s], Rank(lens, s), |lens|) == s
  {
    RankBelowNumber(lens, s);
    var t := SymbolAt(lens, lens[s], Rank(lens, s), |lens|);
    if t < s {
      CountLenMonotone(lens, lens[s], t + 1, s);
    } else if s < t {
      CountLenMonotone(lens, lens[s], s + 1, t);
    }
  }

  // ----- Decoding one symbol -----

  datatype Decoded = Stuck | Symbol(symbol: nat, length: nat)

  ghost function LongestLength(lens: seq<byte>, n: nat): nat
    requires n <= |lens|
  {
    if n == 0 then 0
    else
      var m := LongestLength(lens, n - 1);
      if m < lens[n - 1] <= MAX_CODE_LENGTH then lens[n - 1] else m
  }

  lemma {:induction false} LongestLengthBound(lens: seq<byte>, n: nat, s: nat)
    requires s < n <= |lens| && lens[s] <= MAX_CODE_LENGTH
    ensures lens[s] <= LongestLength(lens, n) <= MAX_CODE_LENGTH
    decreases n
  {
    if s < n - 1 {
      LongestLengthBound(lens, n - 1, s);
    } else {
      LongestLengthCap(lens, n - 1);
    }
  }

  lemma {:induction false} LongestLengthCap(lens: seq<byte>, n: nat)
    requires n <= |lens|
    ensures LongestLength(lens, n) <= MAX_CODE_LENGTH
  {
    if n > 0 {
      LongestLengthCap(lens, n - 1);
    }
  }

  /** Reads bits into a growing code, from length l on, until the code lies in the range of its length. */
  ghost function DecodeFrom(lens: seq<byte>, bs: seq<bit>, l: nat, code: nat): Decoded
    requires LengthTable(lens) && l >= 1
    decreases |bs|
  {
    if l > LongestLength(lens, |lens|) || bs == [] then Stuck
    else
      var c := 2 * code + bs[0];
      if First(lens, l) <= c < First(lens, l) + Number(lens, l) then
        Symbol(SymbolAt(lens, l, c - First(lens, l), |lens|), l)
      else DecodeFrom(lens, bs[1..], l + 1, c)
  }

  ghost function DecodeOne(lens: seq<byte>, bs: seq<bit>): Decoded
    requires LengthTable(lens)
  {
    DecodeFrom(lens, bs, 1, 0)
  }

  lemma BitsOfSplit(v: nat, n: nat, l: nat)
    requires l < n
    ensures v / Pow2(n - 1 - l) == 2 * (v / Pow2(n - l)) + BitsOf(v, n)[l]
  {
    BitAt(v, n, l);
    var p := Pow2(n - 1 - l);
    assert Pow2(n - l) == 2 * p;
    HalveQuotient(v, p);
  }

  lemma HalveQuotient(v: nat, p: nat)
    requires p >= 1
    ensures (v / p) / 2 == v / (2 * p)
  {
    var q := v / p;
    assert v == p * q + v % p;
    assert v == (2 * p) * (q / 2) + (p * (q % 2) + v % p);
    assert p * (q % 2) <= p;
    Quotient(v, 2 * p, q / 2, p * (q % 2) + v % p);
  }

  /** The first l bits of the codeword of s, as a number. */
  ghost function Leading(lens: seq<byte>, s: nat, l: nat): nat
    requires LengthTable(lens) && s < SYMBOL_COUNT && 1 <= lens[s] && l <= lens[s]
  {
    ShiftRight(Code(lens, s), lens[s] - l)
  }

  ghost function ShiftRight(v: nat, n: nat): nat {
    QuotientNonNegative(v, Pow2(n));
    v / Pow2(n)
  }

  lemma LeadingNext(lens: seq<byte>, s: nat, l: nat)
    requires LengthTable(lens) && s < SYMBOL_COUNT && l < lens[s]
    ensures Leading(lens, s, l + 1) == 2 * Leading(lens, s, l) + Codeword(lens, s)[l]
  {
    BitsOfSplit(Code(lens, s), lens[s], l);
  }

  /** A proper prefix of a codeword lies beyond the codes of its own length. */
  lemma ProperPrefixIsNoCode(lens: seq<byte>, s: nat, l: nat)
    requires LengthTable(lens) && s < SYMBOL_COUNT && 1 <= l < lens[s]
    ensures Leading(lens, s, l) >= First(lens, l) + Number(lens, l)
  {
    LongerCodesStartLater(lens, l, lens[s]);
    hide First, Number, Pow2, Rank;
    FloorAtLeast(Code(lens, s), First(lens, l) + Number(lens, l), Pow2(lens[s] - l));
  }

  lemma WholeCodeword(lens: seq<byte>, s: nat)
    requires LengthTable(lens) && s < SYMBOL_COUNT && 1 <= lens[s]
    ensures Leading(lens, s, lens[s]) == Code(lens, s)
    ensures First(lens, lens[s]) <= Code(lens, s) < First(lens, lens[s]) + Number(lens, lens[s])
    ensures SymbolAt(lens, lens[s], Code(lens, s) - First(lens, lens[s]), |lens|) == s
  {
    SymbolAtRank(lens, s);
    assert Pow2(0) == 1;
  }

  lemma DecodeFromUnfold(lens: seq<byte>, b: bit, rest: seq<bit>, l: nat, code: nat)
    requires LengthTable(lens) && 1 <= l <= LongestLength(lens, |lens|)
    ensures var c := 2 * code + b;
            DecodeFrom(lens, [b] + rest, l, code) ==
            if First(lens, l) <= c < First(lens, l) + Number(lens, l) then
              Symbol(SymbolAt(lens, l, c - First(lens, l), |lens|), l)
            else DecodeFrom(lens, rest, l + 1, c)
  {
    assert ([b] + rest)[1..] == rest;
  }

  /** Having read the first l - 1 bits of a codeword, the decoder ends at that codeword's symbol. */
  lemma {:induction false} DecodeContinues(lens: seq<byte>, s: nat, rest: seq<bit>, l: nat)
    requires LengthTable(lens) && s < SYMBOL_COUNT && 1 <= l <= lens[s] <= MAX_CODE_LENGTH
    ensures DecodeFrom(lens, Codeword(lens, s)[l - 1..] + rest, l, Leading(lens, s, l - 1)) == Symbol(s, lens[s])
    decreases lens[s] - l
  {
    var m, word := lens[s], Codeword(lens, s);
    LongestLengthBound(lens, |lens|, s);
    LeadingNext(lens, s, l - 1);
    hide DecodeFrom, Codeword, Leading, First, Number, LongestLength, Code, SymbolAt;
    assert word[l - 1..] + rest == [word[l - 1]] + (word[l..] + rest);
    DecodeFromUnfold(lens, word[l - 1], word[l..] + rest, l, Leading(lens, s, l - 1));
    if l == m {
      WholeCodeword(lens, s);
    } else {
      ProperPrefixIsNoCode(lens, s, l);
      DecodeContinues(lens, s, rest, l + 1);
    }
  }

  lemma LeadingNone(lens: seq<byte>, s: nat)
    requires Decodable(lens) && s < SYMBOL_COUNT && lens[s] >= 1
    ensures Leading(lens, s, 0) == 0
  {
    CodeFits(lens, s);
    hide Code;
    Quotient(Code(lens, s), Pow2(lens[s]), 0, Code(lens, s));
  }

  /** The decoder, given a codeword and anything after it, returns its symbol and its length. */
  lemma DecodeCodeword(lens: seq<byte>, s: nat, rest: seq<bit>)
    requires Decodable(lens) && s < SYMBOL_COUNT && lens[s] >= 1
    ensures DecodeOne(lens, Codeword(lens, s) + rest) == Symbol(s, lens[s])
  {
    hide DecodeFrom, Codeword, Leading;
    LeadingNone(lens, s);
    assert Codeword(lens, s)[0..] == Codeword(lens, s);
    DecodeContinues(lens, s, rest, 1);
  }

  /** No codeword is a prefix of another. */
  lemma PrefixFree(lens: seq<byte>, s: nat, t: nat)
    requires Decodable(lens) && s < SYMBOL_COUNT && t < SYMBOL_COUNT && lens[s] >= 1 && lens[t] >= 1
    ensures Codeword(lens, s) <= Codeword(lens, t) ==> s == t
  {
    if Codeword(lens, s) <= Codeword(lens, t) {
      var rest := Codeword(lens, t)[|Codeword(lens, s)|..];
      assert Codeword(lens, s) + rest == Codeword(lens, t) + [];
      DecodeCodeword(lens, s, rest);
      DecodeCodeword(lens, t, []);
    }
  }

  /** Whatever the table and the bits, a decoded symbol is one that has a code. */
  lemma {:induction false} DecodedHasCode(lens: seq<byte>, bs: seq<bit>, l: nat, code: nat)
    requires LengthTable(lens) && l >= 1
    ensures var d := DecodeFrom(lens, bs, l, code);
            d.Symbol? ==> d.symbol < SYMBOL_COUNT && lens[d.symbol] == d.length && l <= d.length < l + |bs|
    decreases |bs|
  {
    if l <= LongestLength(lens, |lens|) && bs != [] {
      var c := 2 * code + bs[0];
      if !(First(lens, l) <= c < First(lens, l) + Number(lens, l)) {
        DecodedHasCode(lens, bs[1..], l + 1, c);
      }
    }
  }

  // ----- The order of codes -----

  /** The first coded symbol, by length and then by symbol, has the code 0. */
  lemma CodesStart(lens: seq<byte>, s: nat)
    requires LengthTable(lens) && s < SYMBOL_COUNT && lens[s] >= 1
    requires forall u :: 0 <= u < SYMBOL_COUNT && lens[u] >= 1 ==> lens[s] < lens[u] || (lens[s] == lens[u] && s <= u)
    ensures Code(lens, s) == 0
  {
    NoneBelow(lens, lens[s]);
    CountNone(lens, lens[s], 0, s);
  }

  /** Of two neighbours in that order the second has the next code, with as many zeros appended as it is longer. */
  lemma CodesFollow(lens: seq<byte>, s: nat, t: nat)
    requires LengthTable(lens) && s < SYMBOL_COUNT && t < SYMBOL_COUNT && lens[s] >= 1
    requires lens[s] < lens[t] || (lens[s] == lens[t] && s < t)
    requires forall u :: 0 <= u < SYMBOL_COUNT && lens[u] >= 1 ==>
               || lens[u] < lens[s] || (lens[u] == lens[s] && u <= s)
               || lens[t] < lens[u] || (lens[t] == lens[u] && t <= u)
    ensures Code(lens, t) == (Code(lens, s) + 1) * Pow2(lens[t] - lens[s])
  {
    if lens[s] == lens[t] {
      CountNone(lens, lens[s], s + 1, t);
      assert Pow2(0) == 1;
    } else {
      CountNone(lens, lens[s], s + 1, |lens|);
      CountNone(lens, lens[t], 0, t);
      FirstAfterGap(lens, lens[s], lens[t]);
    }
  }

  lemma {:induction false} CountNone(lens: seq<byte>, l: nat, m: nat, n: nat)
    requires m <= n <= |lens| && forall u :: m <= u < n ==> lens[u] != l
    ensures CountLen(lens, l, n) == CountLen(lens, l, m)
  {
    if m < n {
      CountNone(lens, l, m, n - 1);
    }
  }

  /** No shorter length is in use. */
  lemma {:induction false} NoneBelow(lens: seq<byte>, l: nat)
    requires LengthTable(lens) && l >= 1 && forall u :: 0 <= u < |lens| && lens[u] >= 1 ==> l <= lens[u]
    ensures First(lens, l) == 0
  {
    if l > 1 {
      NoneBelow(lens, l - 1);
      CountNone(lens, l - 1, 0, |lens|);
    }
  }

  lemma {:induction false} FirstAfterGap(lens: seq<byte>, l: nat, m: nat)
    requires LengthTable(lens) && 1 <= l < m && forall u :: 0 <= u < |lens| ==> lens[u] <= l || m <= lens[u]
    ensures First(lens, m) == (First(lens, l) + Number(lens, l)) * Pow2(m - l)
  {
    FirstNext(lens, m - 1);
    if l + 1 < m {
      FirstAfterGap(lens, l, m - 1);
      CountNone(lens, m - 1, 0, |lens|);
      hide First, Number;
      DoubleProduct(First(lens, l) + Number(lens, l), m - 1 - l);
    } else {
      hide First, Number;
      assert Pow2(1) == 2;
    }
  }

  /** A codeword is its code, most significant bit first. */
  lemma CodewordBit(lens: seq<byte>, s: nat, i: nat)
    requires LengthTable(lens) && s < SYMBOL_COUNT && i < lens[s]
    ensures |Codeword(lens, s)| == lens[s]
    ensures Codeword(lens, s)[i] == Code(lens, s) / Pow2(lens[s] - 1 - i) % 2
  {
    BitAt(Code(lens, s), lens[s], i);
  }
}
