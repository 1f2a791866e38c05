/** Compress and decompress, the byte format between them, and when one undoes the other. */
module HuffmanCodec {
  import opened Basics
  import opened Bits
  import opened BitIO
  import opened CanonicalTables
  import CanonicalCode
  import HuffmanTree
  import HuffmanShape
  import HuffmanSource
  import HuffmanLengths
  import HuffmanCost

  datatype Option<+T> = None | Some(value: T)

  const HUFFMAN_MAGIC := 0x31465548
  const HEADER_SIZE := 264

  // ----- Thirty-two-bit words in the header -----

  lemma Word32RoundTrip(v: nat)
    requires v <= UINT32_MAX
    ensures LittleEndian(Encode(v, 4)) == v
  {
    assert Pow256(4) == UINT32_MAX + 1;
    EncodeRoundTrip(v, 4);
  }

  // ----- The encoded bits -----

  ghost function EncodeBits(src: seq<byte>, lens: seq<byte>): seq<bit>
    requires CanonicalCode.LengthTable(lens)
  {
    if src == [] then []
    else EncodeBits(src[..|src| - 1], lens) + CanonicalCode.Codeword(lens, src[|src| - 1])
  }

  lemma {:induction false} EncodeFront(b: byte, rest: seq<byte>, lens: seq<byte>)
    requires CanonicalCode.LengthTable(lens)
    ensures EncodeBits([b] + rest, lens) == CanonicalCode.Codeword(lens, b) + EncodeBits(rest, lens)
  {
    hide CanonicalCode.Codeword, CanonicalCode.LengthTable;
    var whole := [b] + rest;
    if rest == [] {
      assert whole[..0] == [];
    } else {
      var front := rest[..|rest| - 1];
      assert whole[..|whole| - 1] == [b] + front;
      EncodeFront(b, front, lens);
    }
  }

  ghost function SourceBits(src: seq<byte>): seq<bit> {
    EncodeBits(src, HuffmanLengths.SourceLengths(src))
  }

  /** What compress leaves in the payload area of the given size, or None when it gives up. */
  ghost function Payload(bs: seq<bit>, room: nat): Option<seq<byte>> {
    if |bs| >= 8 * (room + 1) then None
    else if |bs| <= 8 * room then Some(Packed(bs))
    else Some(FullBytes(bs[..8 * (|bs| / 8)]))
  }

  ghost function Header(size: nat, lens: seq<byte>): (h: seq<byte>)
    requires CanonicalCode.LengthTable(lens)
    ensures |h| == HEADER_SIZE
  {
    Encode(HUFFMAN_MAGIC, 4) + Encode(size, 4) + lens
  }

  /** The compressed form of src in a buffer of the given capacity; None stands for a result of 0. */
  ghost function Compressed(src: seq<byte>, capacity: nat): Option<seq<byte>> {
    if capacity < HEADER_SIZE then None
    else
      match Payload(SourceBits(src), capacity - HEADER_SIZE)
      case None => None
      case Some(bytes) => Some(Header(|src|, HuffmanLengths.SourceLengths(src)) + bytes)
  }

  /** n symbols decoded one after the other. */
  ghost function DecodeAll(lens: seq<byte>, bs: seq<bit>, n: nat): Option<seq<byte>>
    requires CanonicalCode.LengthTable(lens)
    decreases n
  {
    if n == 0 then Some([])
    else
      match CanonicalCode.DecodeOne(lens, bs)
      case Stuck => None
      case Symbol(s, l) =>
        CanonicalCode.DecodedHasCode(lens, bs, 1, 0);
        match DecodeAll(lens, bs[l..], n - 1)
        case None => None
        case Some(rest) => Some([s] + rest)
  }

  /** The decompressed form of input for a buffer of the given capacity; None stands for a result of 0. */
  ghost function Decompressed(input: seq<byte>, capacity: nat): Option<seq<byte>> {
    if |input| < HEADER_SIZE then None
    else
      var size := LittleEndian(input[4..8]);
      var lens := input[8..HEADER_SIZE];
      if LittleEndian(input[..4]) != HUFFMAN_MAGIC then None
      else if size > capacity then None
      else if size == 0 then None
      else if CanonicalCode.LongestLength(lens, |lens|) == 0 then None
      else DecodeAll(lens, Unpack(input[HEADER_SIZE..]), size)
  }

  // ----- The methods -----

  method BuildLengths(source: seq<byte>) returns (table: array<byte>)
    requires |source| <= UINT32_MAX
    ensures fresh(table) && table[..] == HuffmanLengths.SourceLengths(source)
  {
    var frequencyTable := HuffmanTree.CountFrequencies(source);
    assert frequencyTable[..] == HuffmanSource.Frequencies(source);
    HuffmanSource.FrequenciesTotal(source);
    HuffmanSource.NodesShaped(frequencyTable[..]);
    HuffmanSource.FrequencyTreeFacts(frequencyTable[..]);
    var nodes := new HuffmanTree.Node[HuffmanTree.MAX_NODES](_ => HuffmanTree.Node(0, 0, 0, 0));
    var nodeCount := HuffmanTree.BuildTree(frequencyTable, nodes);
    table := HuffmanLengths.ComputeCodeLengths(nodes[..nodeCount]);
  }

  method CopyInto(bytes: seq<byte>, destination: array<byte>, offset: nat)
    requires offset + |bytes| <= destination.Length
    modifies destination
    ensures destination[..] == old(destination[..offset]) + bytes + old(destination[offset + |bytes|..])
  {
    for i := 0 to |bytes|
      invariant destination[..] == old(destination[..offset]) + bytes[..i] + old(destination[offset + i..])
    {
      destination[offset + i] := bytes[i];
    }
  }

  method WriteSymbols(source: seq<byte>, lens: seq<byte>, codeTable: array<HuffmanCode>, writer: BitWriter)
    returns (ok: bool)
    requires WithinMaximum(lens) && codeTable.Length == SYMBOL_COUNT
    requires forall s :: 0 <= s < SYMBOL_COUNT ==> codeTable[s] == CodeOf(lens, s)
    requires writer.Valid() && writer.written == []
    modifies writer, writer.output
    ensures ok <==> |EncodeBits(source, lens)| < 8 * (writer.capacity + 1)
    ensures ok ==> writer.Valid() && writer.written == EncodeBits(source, lens)
    ensures writer.output[..writer.origin] == old(writer.output[..writer.origin])
  {
    hide WriterState, CanonicalCode.Code;
    for i := 0 to |source|
      invariant writer.Valid() && writer.written == EncodeBits(source[..i], lens)
      invariant |EncodeBits(source[..i], lens)| < 8 * (writer.capacity + 1)
      invariant writer.output[..writer.origin] == old(writer.output[..writer.origin])
    {
      var code := codeTable[source[i]];
      assert source[..i + 1][..i] == source[..i];
      EncodePrefixLength(source, i + 1, lens);
      if code.length == 0 {
        continue;
      }
      ok := writer.WriteBits(code.bits, code.length);
      if !ok {
        return false;
      }
    }
    assert source[..|source|] == source;
    return true;
  }

  lemma {:induction false} EncodePrefixLength(source: seq<byte>, n: nat, lens: seq<byte>)
    requires n <= |source| && CanonicalCode.LengthTable(lens)
    ensures |EncodeBits(source[..n], lens)| <= |EncodeBits(source, lens)|
    decreases |source| - n
  {
    if n == |source| {
      assert source[..n] == source;
    } else {
      EncodePrefixLength(source, n + 1, lens);
      assert source[..n + 1][..n] == source[..n];
    }
  }

  method WriteHeader(size: nat, lens: seq<byte>, destination: array<byte>)
    requires destination.Length >= HEADER_SIZE && CanonicalCode.LengthTable(lens)
    modifies destination
    ensures destination[..HEADER_SIZE] == Header(size, lens)
  {
    CopyInto(Encode(HUFFMAN_MAGIC, 4), destination, 0);
    CopyInto(Encode(size, 4), destination, 4);
    assert destination[..8] == Encode(HUFFMAN_MAGIC, 4) + Encode(size, 4);
    CopyInto(lens, destination, 8);
  }

  method WritePayload(source: seq<byte>, lens: seq<byte>, destination: array<byte>)
    returns (ok: bool, payloadSize: nat)
    requires WithinMaximum(lens) && destination.Length >= HEADER_SIZE
    modifies destination
    ensures destination[..HEADER_SIZE] == old(destination[..HEADER_SIZE])
    ensures var payload := Payload(EncodeBits(source, lens), destination.Length - HEADER_SIZE);
            && ok == payload.Some?
            && (ok ==> HEADER_SIZE + payloadSize <= destination.Length &&
                       destination[HEADER_SIZE..HEADER_SIZE + payloadSize] == payload.value)
  {
    hide EncodeBits, CodeOf, Packed, FullBytes;
    var codeTable := GenerateCanonicalCodes(lens);
    var writer := new BitWriter(destination, HEADER_SIZE, destination.Length - HEADER_SIZE);
    ok := WriteSymbols(source, lens, codeTable, writer);
    payloadSize := 0;
    if ok {
      payloadSize := writer.Finalize();
    }
  }

  method Compress(source: seq<byte>, destination: array<byte>) returns (size: nat)
    requires |source| <= UINT32_MAX
    modifies destination
    ensures Compressed(source, destination.Length).None? ==> size == 0
    ensures Compressed(source, destination.Length).Some? ==>
              size <= destination.Length && destination[..size] == Compressed(source, destination.Length).value
  {
    if destination.Length < HEADER_SIZE {
      return 0;
    }
    hide HuffmanLengths.SourceLengths, Header, EncodeBits, Payload, CanonicalCode.KraftSum;
    var table := BuildLengths(source);
    var lens := table[..];
    HuffmanLengths.SourceLengthsDecodable(source);
    WriteHeader(|source|, lens, destination);
    var ok, payloadSize := WritePayload(source, lens, destination);
    if !ok {
      return 0;
    }
    size := HEADER_SIZE + payloadSize;
    assert destination[..size] == destination[..HEADER_SIZE] + destination[HEADER_SIZE..size];
  }

  method DecodeSymbol(reader: BitReader, table: DecodeTable, ghost lens: seq<byte>) returns (symbol: int)
    requires reader.Valid() && TableFor(table, lens)
    modifies reader
    ensures reader.Valid()
    ensures match CanonicalCode.DecodeOne(lens, old(reader.Remaining()))
            case Stuck => symbol == -1
            case Symbol(s, l) => symbol == s && l <= |old(reader.Remaining())| &&
                                 reader.Remaining() == old(reader.Remaining())[l..]
  {
    hide CanonicalCode.First, CanonicalCode.Number, CanonicalCode.SymbolAt, CanonicalCode.LongestLength;
    hide CanonicalCode.DecodeOne;
    hide BitReader.Remaining, BitReader.Valid, Sorted, CanonicalCode.DecodeFrom;
    ghost var all := reader.Remaining();
    DecodeStart(lens, all);
    var currentCode: nat := 0;
    var length := 1;
    CanonicalCode.LongestLengthCap(lens, |lens|);
    while length <= table.maxCodeLength
      invariant 1 <= length <= table.maxCodeLength + 1
      invariant reader.Valid() && length - 1 <= |all| && reader.Remaining() == all[length - 1..]
      invariant currentCode < Pow2(length - 1)
      invariant CanonicalCode.DecodeOne(lens, all) ==
                CanonicalCode.DecodeFrom(lens, reader.Remaining(), length, currentCode)
    {
      ghost var rest := reader.Remaining();
      var bit := reader.ReadBit();
      if bit < 0 {
        DecodeStuck(lens, rest, length, currentCode);
        return -1;
      }
      assert rest == [rest[0]] + rest[1..];
      CanonicalCode.DecodeFromUnfold(lens, rest[0], rest[1..], length, currentCode);
      currentCode := currentCode * 2 + bit;
      OffsetInRange(lens, length, currentCode);
      var offset := (currentCode - table.firstCode[length]) % UINT32_MODULUS;
      if offset < table.codeCount[length] {
        symbol := SymbolForOffset(table, length, offset, lens);
        return;
      }
      length := length + 1;
    }
    DecodeStuck(lens, reader.Remaining(), length, currentCode);
    return -1;
  }

  lemma DecodeStart(lens: seq<byte>, bs: seq<bit>)
    requires CanonicalCode.LengthTable(lens)
    ensures CanonicalCode.DecodeOne(lens, bs) == CanonicalCode.DecodeFrom(lens, bs, 1, 0)
    ensures Pow2(0) == 1
  {
  }

  lemma DecodeStuck(lens: seq<byte>, bs: seq<bit>, l: nat, code: nat)
    requires CanonicalCode.LengthTable(lens) && l >= 1
    requires bs == [] || l > CanonicalCode.LongestLength(lens, |lens|)
    ensures CanonicalCode.DecodeFrom(lens, bs, l, code) == CanonicalCode.Stuck
  {
  }

  method SymbolForOffset(table: DecodeTable, length: nat, offset: nat, ghost lens: seq<byte>) returns (symbol: byte)
    requires TableFor(table, lens) && 1 <= length <= CanonicalCode.MAX_CODE_LENGTH
    requires offset < CanonicalCode.Number(lens, length)
    ensures symbol == CanonicalCode.SymbolAt(lens, length, offset, |lens|)
  {
    var baseIndex := 0;
    for previousLength := 1 to length
      invariant baseIndex == Base(lens, previousLength, |lens|)
    {
      baseIndex := baseIndex + table.codeCount[previousLength];
    }
    LookupSymbol(table, lens, length, offset);
    symbol := table.sortedSymbols[baseIndex + offset];
  }

  /** The 32-bit subtraction puts a code below the first one far beyond any count. */
  lemma OffsetInRange(lens: seq<byte>, l: nat, code: nat)
    requires CanonicalCode.LengthTable(lens) && 1 <= l <= CanonicalCode.MAX_CODE_LENGTH && code < Pow2(l)
    ensures var offset := (code - CanonicalCode.First(lens, l)) % UINT32_MODULUS;
            && (offset < CanonicalCode.Number(lens, l) <==>
                CanonicalCode.First(lens, l) <= code < CanonicalCode.First(lens, l) + CanonicalCode.Number(lens, l))
            && (CanonicalCode.First(lens, l) <= code ==> offset == code - CanonicalCode.First(lens, l))
  {
    hide CanonicalCode.First, CanonicalCode.Number, Pow2;
    FirstCodeBound(lens, l);
    Pow2Monotone(l, 16);
    Pow2Monotone(l - 1, 15);
    Pow2Values();
    NumberBound(lens, l);
    WrappedDifference(CanonicalCode.First(lens, l), CanonicalCode.Number(lens, l), code);
  }

  lemma NumberBound(lens: seq<byte>, l: nat)
    requires CanonicalCode.LengthTable(lens)
    ensures CanonicalCode.Number(lens, l) <= 256
  {
  }

  lemma WrappedDifference(first: nat, count: nat, code: nat)
    requires code < 65536 && first <= 512 * 32768 && count <= 256
    ensures var offset := (code - first) % UINT32_MODULUS;
            && (offset < count <==> first <= code < first + count)
            && (first <= code ==> offset == code - first)
  {
    if code < first {
      assert (code - first + UINT32_MODULUS) % UINT32_MODULUS == code - first + UINT32_MODULUS;
    }
  }

  method Decompress(input: seq<byte>, destination: array<byte>) returns (size: nat)
    modifies destination
    ensures Decompressed(input, destination.Length).None? ==> size == 0
    ensures Decompressed(input, destination.Length).Some? ==>
              size <= destination.Length && destination[..size] == Decompressed(input, destination.Length).value
  {
    if |input| < HEADER_SIZE {
      return 0;
    }
    var magic := LittleEndian(input[..4]);
    var originalSize := LittleEndian(input[4..8]);
    if magic != HUFFMAN_MAGIC {
      return 0;
    }
    if originalSize > destination.Length {
      return 0;
    }
    var lens := input[8..HEADER_SIZE];
    var table := BuildDecodeTable(lens);
    if originalSize == 0 {
      return 0;
    }
    if table.maxCodeLength == 0 {
      return 0;
    }
    var reader := new BitReader(input[HEADER_SIZE..]);
    size := DecodeSymbols(reader, table, lens, originalSize, destination);
  }

  /** Decodes count symbols into the buffer; 0 when the bits run out or match no code. */
  method DecodeSymbols(reader: BitReader, table: DecodeTable, ghost lens: seq<byte>, count: nat, destination: array<byte>)
    returns (size: nat)
    requires reader.Valid() && TableFor(table, lens) && 0 < count <= destination.Length
    modifies reader, destination
    ensures var wanted := DecodeAll(lens, old(reader.Remaining()), count);
            && (wanted.None? ==> size == 0)
            && (wanted.Some? ==> size == count && destination[..count] == wanted.value)
    ensures destination[count..] == old(destination[count..])
  {
    assert CanonicalCode.LengthTable(lens);
    hide DecodeAll, TableFor;
    ghost var wanted := DecodeAll(lens, reader.Remaining(), count);
    PrependNothing(wanted);
    assert destination[..0] == [];
    for i := 0 to count
      invariant reader.Valid()
      invariant wanted == Prepend(destination[..i], DecodeAll(lens, reader.Remaining(), count - i))
      invariant destination[count..] == old(destination[count..])
    {
      DecodeAllStep(lens, reader.Remaining(), count - i, destination[..i]);
      var symbol := DecodeSymbol(reader, table, lens);
      if symbol < 0 {
        return 0;
      }
      destination[i] := symbol;
      assert destination[..i + 1] == destination[..i] + [symbol];
    }
    DecodeNone(lens, reader.Remaining());
    return count;
  }

  lemma DecodeNone(lens: seq<byte>, bs: seq<bit>)
    requires CanonicalCode.LengthTable(lens)
    ensures DecodeAll(lens, bs, 0) == Some([])
  {
  }

  ghost function Prepend(front: seq<byte>, rest: Option<seq<byte>>): Option<seq<byte>> {
    match rest
    case None => None
    case Some(r) => Some(front + r)
  }

  lemma PrependNothing(x: Option<seq<byte>>)
    ensures Prepend([], x) == x
  {
    if x.Some? {
      assert [] + x.value == x.value;
    }
  }

  /** Decoding one symbol moves it from the bits to the decoded front. */
  lemma DecodeAllStep(lens: seq<byte>, bs: seq<bit>, n: nat, front: seq<byte>)
    requires CanonicalCode.LengthTable(lens) && n > 0
    ensures match CanonicalCode.DecodeOne(lens, bs)
            case Stuck => DecodeAll(lens, bs, n) == None
            case Symbol(s, l) =>
              && s < SYMBOL_COUNT && l <= |bs|
              && Prepend(front, DecodeAll(lens, bs, n)) == Prepend(front + [s], DecodeAll(lens, bs[l..], n - 1))
  {
    var d := CanonicalCode.DecodeOne(lens, bs);
    CanonicalCode.DecodedHasCode(lens, bs, 1, 0);
    if d.Symbol? {
      var rest := DecodeAll(lens, bs[d.length..], n - 1);
      if rest.Some? {
        assert front + ([d.symbol] + rest.value) == front + [d.symbol] + rest.value;
      }
    }
  }

  // ----- The round trip -----

  ghost predicate AllHaveCodes(src: seq<byte>, lens: seq<byte>)
    requires CanonicalCode.LengthTable(lens)
  {
    forall i :: 0 <= i < |src| ==> lens[src[i]] >= 1
  }

  /** Decoding the encoded bits, whatever follows them, gives back the source. */
  lemma {:induction false} DecodeEncoded(src: seq<byte>, lens: seq<byte>, rest: seq<bit>)
    requires CanonicalCode.Decodable(lens) && AllHaveCodes(src, lens)
    ensures DecodeAll(lens, EncodeBits(src, lens) + rest, |src|) == Some(src)
  {
    hide CanonicalCode.Codeword, CanonicalCode.DecodeOne, CanonicalCode.KraftSum;
    if src != [] {
      var b, tail := src[0], src[1..];
      var word := CanonicalCode.Codeword(lens, b);
      var after := EncodeBits(tail, lens) + rest;
      assert src == [b] + tail;
      EncodeFront(b, tail, lens);
      DecodeEncoded(tail, lens, rest);
      CanonicalCode.DecodeCodeword(lens, b, after);
      assert EncodeBits(src, lens) + rest == word + after;
      assert (word + after)[lens[b]..] == after;
      DecodeAllStep(lens, word + after, |src|, []);
    }
  }

  lemma DecodedOne(lens: seq<byte>, bs: seq<bit>)
    requires CanonicalCode.LengthTable(lens)
    ensures var d := CanonicalCode.DecodeOne(lens, bs);
            d.Symbol? ==> d.symbol < SYMBOL_COUNT && lens[d.symbol] == d.length && 1 <= d.length <= |bs|
  {
    CanonicalCode.DecodedHasCode(lens, bs, 1, 0);
  }

  /** Decoded bytes all have codes, and their codes are no longer than the bits there were. */
  lemma {:induction false} DecodedFits(lens: seq<byte>, bs: seq<bit>, n: nat)
    requires CanonicalCode.LengthTable(lens)
    ensures var d := DecodeAll(lens, bs, n);
            d.Some? ==> |d.value| == n && AllHaveCodes(d.value, lens) && |EncodeBits(d.value, lens)| <= |bs|
    decreases n
  {
    hide CanonicalCode.Codeword, CanonicalCode.DecodeOne;
    var d := DecodeAll(lens, bs, n);
    if n > 0 && d.Some? {
      var first := CanonicalCode.DecodeOne(lens, bs);
      DecodedOne(lens, bs);
      DecodedFits(lens, bs[first.length..], n - 1);
      EncodeFront(d.value[0], d.value[1..], lens);
      assert d.value == [d.value[0]] + d.value[1..];
    }
  }

  ghost predicate RoundTrips(src: seq<byte>, capacity: nat, outCapacity: nat) {
    && Compressed(src, capacity).Some?
    && Decompressed(Compressed(src, capacity).value, outCapacity) == Some(src)
  }

  ghost function PayloadSize(src: seq<byte>): nat {
    (|SourceBits(src)| + 7) / 8
  }

  lemma HeaderFields(size: nat, lens: seq<byte>, payload: seq<byte>)
    requires size <= UINT32_MAX && CanonicalCode.LengthTable(lens)
    ensures var c := Header(size, lens) + payload;
            && LittleEndian(c[..4]) == HUFFMAN_MAGIC
            && LittleEndian(c[4..8]) == size
            && c[8..HEADER_SIZE] == lens
            && c[HEADER_SIZE..] == payload
  {
    var c := Header(size, lens) + payload;
    Word32RoundTrip(HUFFMAN_MAGIC);
    Word32RoundTrip(size);
    hide Encode, LittleEndian;
    assert c[..4] == Encode(HUFFMAN_MAGIC, 4);
    assert c[4..8] == Encode(size, 4);
  }

  /** Decompressing a header and payload decodes the payload under the header's lengths. */
  lemma DecompressHeader(src: seq<byte>, lens: seq<byte>, payload: seq<byte>, outCapacity: nat)
    requires |src| <= UINT32_MAX && CanonicalCode.LengthTable(lens)
    ensures Decompressed(Header(|src|, lens) + payload, outCapacity) ==
            if |src| > outCapacity || src == [] || CanonicalCode.LongestLength(lens, |lens|) == 0
            then None else DecodeAll(lens, Unpack(payload), |src|)
  {
    HeaderFields(|src|, lens, payload);
    hide Header, Encode, LittleEndian, DecodeAll, CanonicalCode.LongestLength;
  }

  /**
   Compress followed by decompress gives back the source exactly when the source is not empty,
   no leaf of its tree lies deeper than 16, and both buffers are large enough.
   */
  lemma RoundTripExactly(src: seq<byte>, capacity: nat, outCapacity: nat)
    requires |src| <= UINT32_MAX
    ensures RoundTrips(src, capacity, outCapacity) <==>
            && src != []
            && HuffmanShape.Height(HuffmanSource.SourceTree(src)) <= 16
            && capacity >= HEADER_SIZE + PayloadSize(src)
            && outCapacity >= |src|
  {
    var lens := HuffmanLengths.SourceLengths(src);
    if capacity >= HEADER_SIZE && Payload(SourceBits(src), capacity - HEADER_SIZE).Some? {
      var payload := Payload(SourceBits(src), capacity - HEADER_SIZE).value;
      DecompressHeader(src, lens, payload, outCapacity);
      if src != [] && |src| <= outCapacity {
        if HuffmanShape.Height(HuffmanSource.SourceTree(src)) > 16 {
          DeepNeverDecodes(src, Unpack(payload));
        } else if capacity < HEADER_SIZE + PayloadSize(src) {
          TruncatedNeverDecodes(src, capacity - HEADER_SIZE);
        } else {
          ShallowDecodes(src);
        }
      }
    }
  }

  lemma DeepNeverDecodes(src: seq<byte>, bs: seq<bit>)
    requires HuffmanShape.Height(HuffmanSource.SourceTree(src)) > 16
    ensures DecodeAll(HuffmanLengths.SourceLengths(src), bs, |src|) != Some(src)
  {
    var lens := HuffmanLengths.SourceLengths(src);
    var b := HuffmanLengths.DeepByteWithoutCode(src);
    DecodedFits(lens, bs, |src|);
    var i :| 0 <= i < |src| && src[i] == b;
    hide DecodeAll, EncodeBits, HuffmanLengths.SourceLengths;
    assert lens[src[i]] == 0;
  }

  lemma KeptIsShorter(bs: seq<bit>, room: nat)
    requires room < (|bs| + 7) / 8 && Payload(bs, room).Some?
    ensures |Unpack(Payload(bs, room).value)| < |bs|
  {
    hide FullBytes, Unpack, Packed;
  }

  lemma TruncatedNeverDecodes(src: seq<byte>, room: nat)
    requires room < PayloadSize(src) && Payload(SourceBits(src), room).Some?
    ensures DecodeAll(HuffmanLengths.SourceLengths(src), Unpack(Payload(SourceBits(src), room).value), |src|) != Some(src)
  {
    var lens := HuffmanLengths.SourceLengths(src);
    var kept := Unpack(Payload(SourceBits(src), room).value);
    hide DecodeAll, EncodeBits, HuffmanLengths.SourceLengths, Payload;
    KeptIsShorter(SourceBits(src), room);
    DecodedFits(lens, kept, |src|);
  }

  lemma ShallowDecodes(src: seq<byte>)
    requires src != [] && HuffmanShape.Height(HuffmanSource.SourceTree(src)) <= 16
    ensures var lens := HuffmanLengths.SourceLengths(src);
            && DecodeAll(lens, Unpack(Packed(SourceBits(src))), |src|) == Some(src)
            && CanonicalCode.LongestLength(lens, |lens|) > 0
  {
    var lens := HuffmanLengths.SourceLengths(src);
    HuffmanLengths.SourceLengthsDecodable(src);
    forall i | 0 <= i < |src| ensures lens[src[i]] >= 1 {
      HuffmanLengths.ShallowBytesHaveCodes(src, src[i]);
    }
    UnpackPacked(SourceBits(src));
    DecodeEncoded(src, lens, ZeroBits(Padding(|SourceBits(src)|)));
    CanonicalCode.LongestLengthBound(lens, |lens|, src[0]);
  }

  // ----- How large the payload is -----

  /** The encoded bits of a source are at most the summed depths of its bytes. */
  lemma {:induction false} BitsWithinDepths(src: seq<byte>, t: HuffmanShape.Tree)
    requires t.Empty? || t.Join?
    ensures |EncodeBits(src, HuffmanLengths.LengthsOf(t))| <= HuffmanCost.DepthSum(src, t)
  {
    if src != [] {
      BitsWithinDepths(src[..|src| - 1], t);
      var b := src[|src| - 1];
      assert HuffmanLengths.LengthsOf(t)[b] == HuffmanLengths.LengthOf(t, b);
    }
  }

  /** At most ceil(log2 k) bits per byte for k distinct byte values, hence at most one byte per byte. */
  lemma PayloadBound(src: seq<byte>)
    ensures |SourceBits(src)| <= HuffmanCost.BitsPerByte(src) * |src|
    ensures PayloadSize(src) <= |src|
  {
    var t := HuffmanSource.SourceTree(src);
    HuffmanSource.FrequencyTreeFacts(HuffmanSource.Frequencies(src));
    BitsWithinDepths(src, t);
    HuffmanCost.SourceDepthBound(src);
    HuffmanCost.BitsPerByteAtMostEight(src);
    MulMonotone(HuffmanCost.BitsPerByte(src), 8, |src|);
  }

  /** With the buffer sizes of the compress and decompress commands only emptiness and depth matter. */
  lemma CommandRoundTrip(src: seq<byte>)
    requires |src| <= UINT32_MAX
    ensures Compressed(src, |src| + HEADER_SIZE + 1024).Some?
    ensures RoundTrips(src, |src| + HEADER_SIZE + 1024, |src| + 1024) <==>
            src != [] && HuffmanShape.Height(HuffmanSource.SourceTree(src)) <= 16
  {
    PayloadBound(src);
    RoundTripExactly(src, |src| + HEADER_SIZE + 1024, |src| + 1024);
  }

  /** Sources shorter than Fib(19) bytes always survive. */
  lemma ShortRoundTrip(src: seq<byte>)
    requires 0 < |src| < 4181
    ensures RoundTrips(src, |src| + HEADER_SIZE + 1024, |src| + 1024)
  {
    HuffmanSource.ShortSourcesAreShallow(src);
    CommandRoundTrip(src);
  }
}
