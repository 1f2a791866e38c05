/** The bit writer and the bit reader, as objects that hold a growing and a shrinking bit string. */
module BitIO {
  import opened Basics
  import opened Bits

  /** The bytes of a bit string made of whole bytes. */
  ghost function FullBytes(bs: seq<bit>): (bytes: seq<byte>)
    requires |bs| % 8 == 0
    ensures |bytes| == |bs| / 8
  {
    if bs == [] then []
    else
      ValueBound(bs[..8]);
      [Value(bs[..8])] + FullBytes(bs[8..])
  }

  ghost function Unpack(bytes: seq<byte>): (bs: seq<bit>)
    ensures |bs| == 8 * |bytes|
  {
    if bytes == [] then [] else BitsOf(bytes[0], 8) + Unpack(bytes[1..])
  }

  lemma {:induction false} UnpackFullBytes(bs: seq<bit>)
    requires |bs| % 8 == 0
    ensures Unpack(FullBytes(bs)) == bs
  {
    if bs != [] {
      UnpackFullBytes(bs[8..]);
      BitsOfValue(bs[..8]);
      assert bs == bs[..8] + bs[8..];
    }
  }

  lemma {:induction false} FullBytesAppend(bs: seq<bit>, chunk: seq<bit>)
    requires |bs| % 8 == 0 && |chunk| == 8
    ensures Value(chunk) < 256
    ensures FullBytes(bs + chunk) == FullBytes(bs) + [Value(chunk)]
  {
    ValueBound(chunk);
    if bs == [] {
      assert chunk[8..] == [];
      assert chunk[..8] == chunk;
      assert bs + chunk == chunk;
    } else {
      FullBytesAppend(bs[8..], chunk);
      assert (bs + chunk)[8..] == bs[8..] + chunk;
      assert (bs + chunk)[..8] == bs[..8];
    }
  }

  ghost function ZeroBits(n: nat): (z: seq<bit>)
    ensures |z| == n
  {
    if n == 0 then [] else ZeroBits(n - 1) + [0]
  }

  lemma {:induction false} ValueShift(bs: seq<bit>, n: nat)
    ensures Value(bs + ZeroBits(n)) == Value(bs) * Pow2(n)
  {
    if n == 0 {
      assert bs + ZeroBits(0) == bs;
    } else {
      ValueShift(bs, n - 1);
      var padded := bs + ZeroBits(n);
      assert padded[..|padded| - 1] == bs + ZeroBits(n - 1) && padded[|padded| - 1] == 0;
      assert Value(padded) == 2 * Value(bs + ZeroBits(n - 1));
      DoublePower(Value(bs), Pow2(n - 1));
    }
  }

  lemma DoublePower(v: nat, p: nat)
    ensures v * (2 * p) == 2 * (v * p)
  {
  }

  lemma {:induction false} ValueFront(b: bit, rest: seq<bit>)
    ensures Value([b] + rest) == b * Pow2(|rest|) + Value(rest)
  {
    if rest == [] {
      assert [b] + rest == [b];
      assert [b][..0] == [];
    } else {
      var front := rest[..|rest| - 1];
      ValueFront(b, front);
      var whole := [b] + rest;
      assert whole[..|whole| - 1] == [b] + front;
      assert b * (2 * Pow2(|front|)) == 2 * (b * Pow2(|front|));
    }
  }

  ghost function Padding(n: nat): nat {
    (8 - n % 8) % 8
  }

  /** The bytes of any bit string, the last one filled up with zero bits. */
  ghost function Packed(bs: seq<bit>): (bytes: seq<byte>) {
    FullBytes(bs + ZeroBits(Padding(|bs|)))
  }

  lemma UnpackPacked(bs: seq<bit>)
    ensures Unpack(Packed(bs)) == bs + ZeroBits(Padding(|bs|))
  {
    UnpackFullBytes(bs + ZeroBits(Padding(|bs|)));
  }

  // ----- The writer -----

  /** The writer's buffer holds the n pending bits in its high positions. */
  ghost predicate Holds(buffer: nat, pending: seq<bit>) {
    && |pending| <= 8
    && buffer == Value(pending) * Pow2(8 - |pending|)
    && buffer < 256
  }

  lemma HoldsNothing()
    ensures Holds(0, [])
  {
  }

  lemma HoldsAppend(buffer: nat, pending: seq<bit>, b: bit)
    requires Holds(buffer, pending) && |pending| < 8
    ensures Holds(buffer + b * Pow2(7 - |pending|), pending + [b])
  {
    var all := pending + [b];
    assert all[..|all| - 1] == pending;
    ValueBound(all);
    ScaledBound(Value(all), |all|);
    ShiftIn(Value(pending), Pow2(7 - |pending|), b);
  }

  lemma ShiftIn(v: nat, p: nat, b: bit)
    ensures v * (2 * p) + b * p == (2 * v + b) * p
  {
  }

  lemma ScaledBound(v: nat, n: nat)
    requires n <= 8 && v < Pow2(n)
    ensures v * Pow2(8 - n) < 256
  {
    Pow2Add(n, 8 - n);
    assert Pow2(8) == 256;
    MulMonotone(v + 1, Pow2(n), Pow2(8 - n));
  }

  lemma HoldsPadded(buffer: nat, pending: seq<bit>)
    requires Holds(buffer, pending)
    ensures buffer == Value(pending + ZeroBits(8 - |pending|))
  {
    ValueShift(pending, 8 - |pending|);
  }

  /** What the bytes already stored and the buffer say about the bits written so far. */
  ghost predicate WriterState(stored: seq<byte>, buffer: nat, n: nat, written: seq<bit>) {
    && n < 8
    && |written| == 8 * |stored| + n
    && stored == FullBytes(written[..8 * |stored|])
    && Holds(buffer, written[8 * |stored|..])
  }

  lemma AppendToBuffer(stored: seq<byte>, buffer: nat, n: nat, written: seq<bit>, b: bit)
    requires WriterState(stored, buffer, n, written)
    ensures n < 7 ==> WriterState(stored, buffer + b * Pow2(7 - n), n + 1, written + [b])
    ensures n == 7 ==> buffer + b < 256 && WriterState(stored + [buffer + b], 0, 0, written + [b])
  {
    var cut := 8 * |stored|;
    var pending := written[cut..];
    var written' := written + [b];
    HoldsAppend(buffer, pending, b);
    assert written'[..cut] == written[..cut];
    assert written'[cut..] == pending + [b];
    if n == 7 {
      hide FullBytes;
      FullBytesAppend(written[..cut], pending + [b]);
      assert written' == written[..cut] + (pending + [b]);
      assert written'[..cut + 8] == written';
      assert written'[cut + 8..] == [];
    }
  }

  /** The final padding completes the packed form. */
  lemma PadLastByte(stored: seq<byte>, buffer: nat, n: nat, written: seq<bit>)
    requires WriterState(stored, buffer, n, written)
    ensures n == 0 ==> Packed(written) == stored
    ensures n > 0 ==> buffer < 256 && Packed(written) == stored + [buffer]
  {
    var cut := 8 * |stored|;
    var pending := written[cut..];
    HoldsPadded(buffer, pending);
    PaddingAfter(|stored|, n);
    hide FullBytes, ZeroBits, Holds, Padding;
    if n == 0 {
      assert written + ZeroBits(0) == written;
      assert written[..cut] == written;
    } else {
      PackWithTail(written, cut, n);
    }
  }

  lemma PaddingAfter(k: nat, n: nat)
    requires n < 8
    ensures Padding(8 * k + n) == if n == 0 then 0 else 8 - n
  {
  }

  lemma PackWithTail(written: seq<bit>, cut: nat, n: nat)
    requires 0 < n < 8 && |written| == cut + n && cut % 8 == 0 && Padding(|written|) == 8 - n
    ensures Value(written[cut..] + ZeroBits(8 - n)) < 256
    ensures Packed(written) == FullBytes(written[..cut]) + [Value(written[cut..] + ZeroBits(8 - n))]
  {
    hide FullBytes, ZeroBits, Padding, Value;
    var chunk := written[cut..] + ZeroBits(8 - n);
    FullBytesAppend(written[..cut], chunk);
    assert written[..cut] + chunk == written + ZeroBits(8 - n);
  }

  class BitWriter {
    const output: array<byte>
    const origin: nat
    const capacity: nat
    var bytePosition: nat
    var bitBuffer: nat
    var bitsInBuffer: nat
    ghost var written: seq<bit>

    ghost predicate Valid()
      reads this, output
    {
      && origin + capacity <= output.Length
      && bytePosition <= capacity
      && bitsInBuffer < 8
      && |written| == 8 * bytePosition + bitsInBuffer
      && WriterState(output[origin..origin + bytePosition], bitBuffer, bitsInBuffer, written)
    }

    constructor (buffer: array<byte>, start: nat, room: nat)
      requires start + room <= buffer.Length
      ensures Valid() && written == []
      ensures output == buffer && origin == start && capacity == room
    {
      output, origin, capacity := buffer, start, room;
      bytePosition, bitBuffer, bitsInBuffer := 0, 0, 0;
      written := [];
      new;
      HoldsNothing();
    }

    /** Appends one bit; false when a byte is complete but there is no room for it. */
    method WriteBit(currentBit: bit) returns (ok: bool)
      requires Valid()
      modifies this, output
      ensures ok <==> |old(written)| + 1 < 8 * (capacity + 1)
      ensures ok ==> Valid() && written == old(written) + [currentBit]
      ensures output[..origin] == old(output[..origin])
    {
      ghost var stored := output[origin..origin + bytePosition];
      AppendToBuffer(stored, bitBuffer, bitsInBuffer, written, currentBit);
      hide FullBytes, Holds;
      // The position 7 - bitsInBuffer is still clear, so setting it adds its weight.
      var weight := WeightOf(7 - bitsInBuffer);
      bitBuffer := bitBuffer + currentBit * weight;
      bitsInBuffer := bitsInBuffer + 1;
      written := written + [currentBit];
      if bitsInBuffer == 8 {
        if bytePosition >= capacity {
          return false;
        }
        output[origin + bytePosition] := bitBuffer;
        bytePosition := bytePosition + 1;
        assert output[origin..origin + bytePosition] == stored + [bitBuffer];
        bitBuffer := 0;
        bitsInBuffer := 0;
      }
      return true;
    }

    /** Appends the low bitCount bits of bits, most significant first. */
    method WriteBits(bits: nat, bitCount: nat) returns (ok: bool)
      requires Valid()
      modifies this, output
      ensures ok <==> |old(written)| + bitCount < 8 * (capacity + 1)
      ensures ok ==> Valid() && written == old(written) + BitsOf(bits, bitCount)
      ensures output[..origin] == old(output[..origin])
    {
      hide WriterState, BitsOf;
      ghost var word := BitsOf(bits, bitCount);
      assert word[..0] == [];
      for i := 0 to bitCount
        invariant Valid() && written == old(written) + word[..i]
        invariant output[..origin] == old(output[..origin])
      {
        BitAt(bits, bitCount, i);
        var divisor := WeightOf(bitCount - 1 - i);
        var currentBit := bits / divisor % 2;
        ok := WriteBit(currentBit);
        if !ok {
          return false;
        }
        assert word[..i + 1] == word[..i] + [word[i]];
      }
      assert word[..bitCount] == word;
      return true;
    }

    /** Pads the last byte with zero bits; silently drops it when the room is used up. */
    method Finalize() returns (size: nat)
      requires Valid()
      modifies this, output
      ensures size <= capacity
      ensures output[origin..origin + size] ==
              if |old(written)| <= 8 * capacity then Packed(old(written))
              else FullBytes(old(written)[..8 * (|old(written)| / 8)])
      ensures output[..origin] == old(output[..origin])
    {
      hide FullBytes, Packed, Holds;
      ghost var stored := output[origin..origin + bytePosition];
      PadLastByte(stored, bitBuffer, bitsInBuffer, written);
      if bitsInBuffer > 0 {
        if bytePosition < capacity {
          output[origin + bytePosition] := bitBuffer;
          bytePosition := bytePosition + 1;
          assert output[origin..origin + bytePosition] == stored + [bitBuffer];
        }
        bitBuffer := 0;
        bitsInBuffer := 0;
      }
      return bytePosition;
    }
  }

  /** 1 shifted left by n. */
  method WeightOf(n: nat) returns (w: nat)
    ensures w == Pow2(n)
  {
    w := 1;
    for i := 0 to n
      invariant w == Pow2(i)
    {
      w := w * 2;
    }
  }

  // ----- The reader -----

  class BitReader {
    const input: seq<byte>
    var bytePosition: nat
    var bitBuffer: nat
    var bitsInBuffer: nat
    ghost var pending: seq<bit>

    ghost predicate Valid()
      reads this
    {
      && bytePosition <= |input|
      && bitsInBuffer == |pending| <= 8
      && Holds(bitBuffer, pending)
    }

    /** The bits that have not been read yet. */
    ghost function Remaining(): seq<bit>
      reads this
      requires Valid()
    {
      pending + Unpack(input[bytePosition..])
    }

    constructor (buffer: seq<byte>)
      ensures Valid() && Remaining() == Unpack(buffer)
    {
      input := buffer;
      bytePosition, bitBuffer, bitsInBuffer := 0, 0, 0;
      pending := [];
      new;
      assert input[0..] == input;
      HoldsNothing();
    }

    /** The next bit, or -1 at the end of the input. */
    method ReadBit() returns (r: int)
      requires Valid()
      modifies this
      ensures Valid()
      ensures old(Remaining()) == [] ==> r == -1 && Remaining() == []
      ensures old(Remaining()) != [] ==> r == old(Remaining())[0] && Remaining() == old(Remaining())[1..]
    {
      hide Holds, BitsOf;
      if bitsInBuffer == 0 {
        if bytePosition >= |input| {
          return -1;
        }
        UnpackNext(input, bytePosition);
        bitBuffer := input[bytePosition];
        LoadByte(bitBuffer);
        pending := BitsOf(bitBuffer, 8);
        bytePosition := bytePosition + 1;
        bitsInBuffer := 8;
      }
      hide Unpack;
      ghost var later := Unpack(input[bytePosition..]);
      assert old(Remaining()) == pending + later;
      ShiftOut(bitBuffer, pending);
      r := bitBuffer / 128 % 2;
      bitBuffer := bitBuffer * 2 % 256;
      bitsInBuffer := bitsInBuffer - 1;
      assert (pending + later)[1..] == pending[1..] + later;
      pending := pending[1..];
    }
  }

  lemma UnpackNext(bytes: seq<byte>, i: nat)
    requires i < |bytes|
    ensures Unpack(bytes[i..]) == BitsOf(bytes[i], 8) + Unpack(bytes[i + 1..])
  {
    assert bytes[i..][1..] == bytes[i + 1..];
  }

  lemma LoadByte(b: byte)
    ensures Holds(b, BitsOf(b, 8))
  {
    assert Pow2(8) == 256;
    ValueOfBits(b, 8);
  }

  /** Shifting the buffer left drops its first pending bit. */
  lemma ShiftOut(buffer: nat, pending: seq<bit>)
    requires Holds(buffer, pending) && pending != []
    ensures buffer / 128 % 2 == pending[0]
    ensures Holds(buffer * 2 % 256, pending[1..])
  {
    hide Pow2, Value;
    var b, rest := pending[0], pending[1..];
    var n := |rest|;
    var p := Pow2(7 - n);
    assert pending == [b] + rest;
    ValueFront(b, rest);
    ValueBound(rest);
    Pow2Add(n, 7 - n);
    Pow2Values();
    Pow2Step(7 - n);
    SplitTopBit(b, Pow2(n), Value(rest), p);
    TopBitArithmetic(buffer, b, Value(rest) * p);
    DoubleFactor(Value(rest), p);
  }

  lemma Pow2Step(n: nat)
    ensures Pow2(n + 1) == 2 * Pow2(n)
  {
  }

  lemma TopBitArithmetic(buffer: nat, b: bit, low: nat)
    requires low < 128 && buffer == b * 128 + low
    ensures buffer / 128 % 2 == b && buffer * 2 % 256 == 2 * low
  {
  }

  lemma SplitTopBit(b: nat, q: nat, v: nat, p: nat)
    requires v < q && q * p == 128
    ensures (b * q + v) * p == b * 128 + v * p && v * p < 128
  {
    assert (b * q + v) * p == b * (q * p) + v * p;
    MulMonotone(v + 1, q, p);
    assert (v + 1) * p == v * p + p;
    assert p != 0;
  }

  lemma DoubleFactor(v: nat, p: nat)
    ensures v * (2 * p) == 2 * (v * p)
  {
  }
}
