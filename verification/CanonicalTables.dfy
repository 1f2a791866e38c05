/** The loops that fill the encoder's code table and the decoder's lookup table. */
module CanonicalTables {
  import opened Basics
  import opened CanonicalCode

  const UINT32_MODULUS := 0x1_0000_0000

  datatype HuffmanCode = HuffmanCode(bits: nat, length: nat)

  /** The code table entry of s: its canonical code, or nothing for a symbol without a length. */
  ghost function CodeOf(lens: seq<byte>, s: nat): HuffmanCode
    requires LengthTable(lens) && s < SYMBOL_COUNT
  {
    if lens[s] > 0 then HuffmanCode(Code(lens, s), lens[s]) else HuffmanCode(0, 0)
  }

  ghost predicate WithinMaximum(lens: seq<byte>) {
    && LengthTable(lens)
    && forall s :: 0 <= s < SYMBOL_COUNT ==> lens[s] <= MAX_CODE_LENGTH
  }

  method CountLengths(lens: seq<byte>) returns (lengthCount: array<nat>)
    requires LengthTable(lens)
    ensures fresh(lengthCount) && lengthCount.Length == MAX_CODE_LENGTH + 1
    ensures lengthCount[0] == 0
    ensures forall l :: 1 <= l <= MAX_CODE_LENGTH ==> lengthCount[l] == Number(lens, l)
  {
    lengthCount := new nat[MAX_CODE_LENGTH + 1](_ => 0);
    for symbol := 0 to SYMBOL_COUNT
      invariant lengthCount[0] == 0
      invariant forall l :: 1 <= l <= MAX_CODE_LENGTH ==> lengthCount[l] == CountLen(lens, l, symbol)
    {
      var length := lens[symbol];
      if 0 < length <= MAX_CODE_LENGTH {
        lengthCount[length] := lengthCount[length] + 1;
      }
    }
  }

  /** The running code of the encoder before it reaches length l. */
  ghost function LastCode(lens: seq<byte>, l: nat): nat
    requires LengthTable(lens)
  {
    if l <= 1 then 0 else First(lens, l - 1)
  }

  lemma LastCodeStep(lens: seq<byte>, l: nat)
    requires LengthTable(lens) && l >= 1
    ensures LastCode(lens, l + 1) == (LastCode(lens, l) + (if l == 1 then 0 else Number(lens, l - 1))) * 2
  {
  }

  /** The encoder's view of the first codes: the running code is shifted after adding the shorter lengths. */
  method FirstCodesForEncoder(lens: seq<byte>, lengthCount: array<nat>) returns (nextCode: array<nat>)
    requires LengthTable(lens) && lengthCount.Length == MAX_CODE_LENGTH + 1 && lengthCount[0] == 0
    requires forall l :: 1 <= l <= MAX_CODE_LENGTH ==> lengthCount[l] == Number(lens, l)
    ensures fresh(nextCode) && nextCode.Length == MAX_CODE_LENGTH + 1
    ensures forall l :: 1 <= l <= MAX_CODE_LENGTH ==> nextCode[l] == First(lens, l)
  {
    hide First, Number;
    nextCode := new nat[MAX_CODE_LENGTH + 1](_ => 0);
    var code := 0;
    for length := 1 to MAX_CODE_LENGTH + 1
      invariant code == LastCode(lens, length)
      invariant forall l :: 1 <= l < length ==> nextCode[l] == First(lens, l)
    {
      LastCodeStep(lens, length);
      code := (code + lengthCount[length - 1]) * 2;
      nextCode[length] := code;
    }
  }

  method GenerateCanonicalCodes(lens: seq<byte>) returns (codeTable: array<HuffmanCode>)
    requires WithinMaximum(lens)
    ensures fresh(codeTable) && codeTable.Length == SYMBOL_COUNT
    ensures forall s :: 0 <= s < SYMBOL_COUNT ==> codeTable[s] == CodeOf(lens, s)
  {
    hide First, Number;
    var lengthCount := CountLengths(lens);
    var nextCode := FirstCodesForEncoder(lens, lengthCount);
    codeTable := new HuffmanCode[SYMBOL_COUNT](_ => HuffmanCode(0, 0));
    for symbol := 0 to SYMBOL_COUNT
      invariant forall l :: 1 <= l <= MAX_CODE_LENGTH ==>
                  nextCode[l] == First(lens, l) + CountLen(lens, l, symbol)
      invariant forall s :: 0 <= s < symbol ==> codeTable[s] == CodeOf(lens, s)
    {
      var length := lens[symbol];
      if length > 0 {
        codeTable[symbol] := HuffmanCode(nextCode[length], length);
        nextCode[length] := nextCode[length] + 1;
      } else {
        codeTable[symbol] := HuffmanCode(0, 0);
      }
    }
  }

  // ----- The decoder's table -----

  datatype DecodeTable = DecodeTable(firstCode: seq<nat>, codeCount: seq<nat>,
                                     sortedSymbols: seq<byte>, maxCodeLength: nat)

  /** Where the symbols of length l start when symbols below n are sorted by length. */
  ghost function Base(lens: seq<byte>, l: nat, n: nat): nat
    requires n <= |lens| && l >= 1
  {
    if l == 1 then 0 else Base(lens, l - 1, n) + CountLen(lens, l - 1, n)
  }

  lemma {:induction false} BaseStep(lens: seq<byte>, l: nat, n: nat)
    requires n < |lens| && l >= 1
    ensures Base(lens, l, n + 1) == Base(lens, l, n) + (if 1 <= lens[n] < l then 1 else 0)
  {
    if l > 1 {
      BaseStep(lens, l - 1, n);
    }
  }

  lemma {:induction false} BaseEmpty(lens: seq<byte>, l: nat)
    requires l >= 1
    ensures Base(lens, l, 0) == 0
  {
    if l > 1 {
      BaseEmpty(lens, l - 1);
    }
  }

  lemma {:induction false} BaseBound(lens: seq<byte>, l: nat, n: nat)
    requires n <= |lens| && l >= 1
    ensures Base(lens, l, n) <= n
  {
    if n > 0 {
      BaseBound(lens, l, n - 1);
      BaseStep(lens, l, n - 1);
    } else {
      BaseEmpty(lens, l);
    }
  }

  /** The slots of one length end before those of any longer length begin. */
  lemma {:induction false} BasesOrdered(lens: seq<byte>, l: nat, m: nat)
    requires LengthTable(lens) && 1 <= l < m
    ensures Base(lens, l, |lens|) + Number(lens, l) <= Base(lens, m, |lens|)
    decreases m
  {
    if l + 1 < m {
      BasesOrdered(lens, l, m - 1);
    }
  }

  ghost function Slot(lens: seq<byte>, l: nat, r: nat): nat
    requires LengthTable(lens) && l >= 1
  {
    Base(lens, l, |lens|) + r
  }

  lemma SlotBound(lens: seq<byte>, l: nat, r: nat)
    requires LengthTable(lens) && l >= 1 && r < Number(lens, l)
    ensures Slot(lens, l, r) < SYMBOL_COUNT
  {
    BasesOrdered(lens, l, l + 1);
    BaseBound(lens, l + 1, |lens|);
  }

  lemma SlotsDiffer(lens: seq<byte>, l: nat, r: nat, m: nat, q: nat)
    requires LengthTable(lens) && l >= 1 && m >= 1
    requires r < Number(lens, l) && q < Number(lens, m) && (l != m || r != q)
    ensures Slot(lens, l, r) != Slot(lens, m, q)
  {
    if l < m {
      BasesOrdered(lens, l, m);
    } else if m < l {
      BasesOrdered(lens, m, l);
    }
  }

  /** Symbols below n stand in their slots. */
  ghost predicate Sorted(lens: seq<byte>, sorted: seq<byte>, n: nat)
    requires LengthTable(lens) && n <= SYMBOL_COUNT
  {
    && |sorted| == SYMBOL_COUNT
    && forall s :: 0 <= s < n && 1 <= lens[s] <= MAX_CODE_LENGTH ==>
         InSlot(lens, sorted, s)
  }

  ghost predicate InSlot(lens: seq<byte>, sorted: seq<byte>, s: nat)
    requires LengthTable(lens) && s < SYMBOL_COUNT && 1 <= lens[s] && |sorted| == SYMBOL_COUNT
  {
    && Slot(lens, lens[s], Rank(lens, s)) < SYMBOL_COUNT
    && sorted[Slot(lens, lens[s], Rank(lens, s))] == s
  }

  lemma SortedStep(lens: seq<byte>, sorted: seq<byte>, n: nat)
    requires LengthTable(lens) && n < SYMBOL_COUNT && Sorted(lens, sorted, n)
    requires 1 <= lens[n] <= MAX_CODE_LENGTH
    ensures Slot(lens, lens[n], Rank(lens, n)) < SYMBOL_COUNT
    ensures Sorted(lens, sorted[Slot(lens, lens[n], Rank(lens, n)) := n], n + 1)
  {
    RankBelowNumber(lens, n);
    SlotBound(lens, lens[n], Rank(lens, n));
    var sorted' := sorted[Slot(lens, lens[n], Rank(lens, n)) := n];
    forall s | 0 <= s < n + 1 && 1 <= lens[s] <= MAX_CODE_LENGTH
      ensures InSlot(lens, sorted', s)
    {
      if s < n {
        assert InSlot(lens, sorted, s);
        RankBelowNumber(lens, s);
        if lens[s] == lens[n] {
          CountLenMonotone(lens, lens[n], s + 1, n);
        }
        SlotsDiffer(lens, lens[s], Rank(lens, s), lens[n], Rank(lens, n));
      }
    }
  }

  /** What the decode table must hold for a given length table. */
  ghost predicate TableFor(t: DecodeTable, lens: seq<byte>) {
    && LengthTable(lens)
    && |t.firstCode| == |t.codeCount| == MAX_CODE_LENGTH + 1
    && (forall l :: 1 <= l <= MAX_CODE_LENGTH ==> t.firstCode[l] == First(lens, l))
    && (forall l :: 1 <= l <= MAX_CODE_LENGTH ==> t.codeCount[l] == Number(lens, l))
    && Sorted(lens, t.sortedSymbols, |lens|)
    && t.maxCodeLength == LongestLength(lens, |lens|)
  }

  /** The decoder's view of the first codes: stored before the shift. */
  method FirstCodesForDecoder(lens: seq<byte>, lengthCount: array<nat>) returns (firstCode: array<nat>)
    requires LengthTable(lens) && lengthCount.Length == MAX_CODE_LENGTH + 1
    requires forall l :: 1 <= l <= MAX_CODE_LENGTH ==> lengthCount[l] == Number(lens, l)
    ensures fresh(firstCode) && firstCode.Length == MAX_CODE_LENGTH + 1
    ensures forall l :: 1 <= l <= MAX_CODE_LENGTH ==> firstCode[l] == First(lens, l)
  {
    firstCode := new nat[MAX_CODE_LENGTH + 1](_ => 0);
    var code := 0;
    for length := 1 to MAX_CODE_LENGTH + 1
      invariant code == First(lens, length)
      invariant forall l :: 1 <= l < length ==> firstCode[l] == First(lens, l)
    {
      firstCode[length] := code;
      code := (code + lengthCount[length]) * 2;
    }
  }

  method SortSymbols(lens: seq<byte>, lengthCount: array<nat>) returns (sortedSymbols: array<byte>)
    requires LengthTable(lens) && lengthCount.Length == MAX_CODE_LENGTH + 1
    requires forall l :: 1 <= l <= MAX_CODE_LENGTH ==> lengthCount[l] == Number(lens, l)
    ensures fresh(sortedSymbols) && sortedSymbols.Length == SYMBOL_COUNT
    ensures Sorted(lens, sortedSymbols[..], |lens|)
  {
    sortedSymbols := new byte[SYMBOL_COUNT](_ => 0);
    var symbolOffset := new nat[MAX_CODE_LENGTH + 1](_ => 0);
    var runningOffset := 0;
    for length := 1 to MAX_CODE_LENGTH + 1
      invariant runningOffset == Base(lens, length, |lens|)
      invariant forall l :: 1 <= l < length ==> symbolOffset[l] == Slot(lens, l, 0)
    {
      symbolOffset[length] := runningOffset;
      runningOffset := runningOffset + lengthCount[length];
    }
    for symbol := 0 to SYMBOL_COUNT
      invariant forall l :: 1 <= l <= MAX_CODE_LENGTH ==>
                  symbolOffset[l] == Slot(lens, l, CountLen(lens, l, symbol))
      invariant Sorted(lens, sortedSymbols[..], symbol)
    {
      var length := lens[symbol];
      if 0 < length <= MAX_CODE_LENGTH {
        SortedStep(lens, sortedSymbols[..], symbol);
        var position := symbolOffset[length];
        ghost var before := sortedSymbols[..];
        sortedSymbols[position] := symbol;
        assert sortedSymbols[..] == before[position := symbol];
        symbolOffset[length] := symbolOffset[length] + 1;
      }
    }
  }

  method BuildDecodeTable(lens: seq<byte>) returns (table: DecodeTable)
    requires LengthTable(lens)
    ensures TableFor(table, lens)
  {
    var lengthCount := new nat[MAX_CODE_LENGTH + 1](_ => 0);
    var maxCodeLength := 0;
    for symbol := 0 to SYMBOL_COUNT
      invariant forall l :: 1 <= l <= MAX_CODE_LENGTH ==> lengthCount[l] == CountLen(lens, l, symbol)
      invariant maxCodeLength == LongestLength(lens, symbol)
    {
      var length := lens[symbol];
      if 0 < length <= MAX_CODE_LENGTH {
        lengthCount[length] := lengthCount[length] + 1;
        if length > maxCodeLength {
          maxCodeLength := length;
        }
      }
    }
    var firstCode := FirstCodesForDecoder(lens, lengthCount);
    var sortedSymbols := SortSymbols(lens, lengthCount);
    table := DecodeTable(firstCode[..], lengthCount[..], sortedSymbols[..], maxCodeLength);
  }

  /** Looking up base plus offset gives the symbol with that rank. */
  lemma LookupSymbol(t: DecodeTable, lens: seq<byte>, l: nat, r: nat)
    requires TableFor(t, lens) && 1 <= l <= MAX_CODE_LENGTH && r < Number(lens, l)
    ensures Slot(lens, l, r) < SYMBOL_COUNT
    ensures t.sortedSymbols[Slot(lens, l, r)] == SymbolAt(lens, l, r, |lens|)
  {
    var s := SymbolAt(lens, l, r, |lens|);
    assert InSlot(lens, t.sortedSymbols, s);
  }

  /** No first code comes near the 32-bit limit, whatever the lengths. */
  lemma {:induction false} FirstCodeBound(lens: seq<byte>, l: nat)
    requires LengthTable(lens) && 1 <= l <= MAX_CODE_LENGTH
    ensures First(lens, l) + 2 * SYMBOL_COUNT <= 2 * SYMBOL_COUNT * Pow2(l - 1)
  {
    if l > 1 {
      FirstCodeBound(lens, l - 1);
    }
  }
}
