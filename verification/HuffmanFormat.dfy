/** The bytes of a compressed file, one by one, and what is refused. */
module HuffmanFormat {
  import opened Basics
  import opened Bits
  import opened BitIO
  import opened HuffmanCodec
  import CanonicalCode
  import HuffmanLengths

  /** Every compressed file starts with "HUF1", the size of the source, low byte first, and the 256 code lengths. */
  lemma CompressedHeader(src: seq<byte>, capacity: nat)
    requires |src| <= 0xFFFF_FFFF && Compressed(src, capacity).Some?
    ensures var bytes := Compressed(src, capacity).value;
            && 264 <= |bytes| <= capacity
            && bytes[..4] == [0x48, 0x55, 0x46, 0x31]
            && bytes[4..8] == [|src| % 256, |src| / 256 % 256, |src| / 65536 % 256, |src| / 16777216 % 256]
            && bytes[8..264] == HuffmanLengths.SourceLengths(src)
  {
    var lens := HuffmanLengths.SourceLengths(src);
    EncodedBytes(0x31465548);
    EncodedBytes(|src|);
    hide Encode, HuffmanLengths.SourceLengths, EncodeBits;
    var bytes := Compressed(src, capacity).value;
    assert bytes[..264] == Header(|src|, lens);
    assert bytes[..4] == bytes[..264][..4] == Encode(0x31465548, 4);
    assert bytes[4..8] == bytes[..264][4..8] == Encode(|src|, 4);
    assert bytes[8..264] == bytes[..264][8..] == lens;
  }

  /**
   What decompress accepts: "HUF1", a size that is not zero and has room, and a payload that decodes under the code
   lengths. Anything else is refused.
   */
  lemma AcceptedExactly(input: seq<byte>, capacity: nat)
    ensures Decompressed(input, capacity).Some? <==>
            && |input| >= 264
            && input[..4] == [0x48, 0x55, 0x46, 0x31]
            && var size := input[4] as int + 256 * input[5] as int + 65536 * input[6] as int + 16777216 * input[7] as int;
               && 0 < size <= capacity
               && DecodeAll(input[8..264], Unpack(input[264..]), size).Some?
    ensures Decompressed(input, capacity).Some? ==>
              |Decompressed(input, capacity).value| ==
              input[4] as int + 256 * input[5] as int + 65536 * input[6] as int + 16777216 * input[7] as int
  {
    if |input| >= 264 {
      var size := input[4] as int + 256 * input[5] as int + 65536 * input[6] as int + 16777216 * input[7] as int;
      DecodedBytes(input[..4]);
      DecodedBytes(input[4..8]);
      assert input[4..8][0] == input[4] && input[4..8][1] == input[5] && input[4..8][2] == input[6] && input[4..8][3] == input[7];
      hide LittleEndian;
      MagicBytes(input[..4]);
      var lens := input[8..264];
      DecodedLength(lens, Unpack(input[264..]), size);
      if size > 0 && CanonicalCode.LongestLength(lens, |lens|) == 0 {
        NothingDecodes(lens, Unpack(input[264..]), size);
      }
    }
  }

  lemma MagicBytes(b: seq<byte>)
    requires |b| == 4
    ensures b[0] as int + 256 * b[1] as int + 65536 * b[2] as int + 16777216 * b[3] as int == 0x31465548 <==>
            b == [0x48, 0x55, 0x46, 0x31]
  {
  }

  lemma {:induction false} DecodedLength(lens: seq<byte>, bs: seq<bit>, n: nat)
    requires CanonicalCode.LengthTable(lens)
    ensures DecodeAll(lens, bs, n).Some? ==> |DecodeAll(lens, bs, n).value| == n
    decreases n
  {
    if n > 0 && DecodeAll(lens, bs, n).Some? {
      var l := CanonicalCode.DecodeOne(lens, bs).length;
      CanonicalCode.DecodedHasCode(lens, bs, 1, 0);
      DecodedLength(lens, bs[l..], n - 1);
    }
  }

  /** Without any code no symbol can be decoded. */
  lemma NothingDecodes(lens: seq<byte>, bs: seq<bit>, n: nat)
    requires CanonicalCode.LengthTable(lens) && n > 0 && CanonicalCode.LongestLength(lens, |lens|) == 0
    ensures DecodeAll(lens, bs, n).None?
  {
  }

  /** The bits of a byte, the most significant one first. */
  lemma ByteBits(b: byte, rest: seq<byte>)
    ensures Unpack([b] + rest) ==
            [b / 128 % 2, b / 64 % 2, b / 32 % 2, b / 16 % 2, b / 8 % 2, b / 4 % 2, b / 2 % 2, b % 2] + Unpack(rest)
  {
    assert ([b] + rest)[1..] == rest;
    Powers();
    forall i | 0 <= i < 8
      ensures BitsOf(b, 8)[i] ==
              [b / 128 % 2, b / 64 % 2, b / 32 % 2, b / 16 % 2, b / 8 % 2, b / 4 % 2, b / 2 % 2, b % 2][i]
    {
      BitAt(b, 8, i);
    }
    hide BitsOf;
    assert BitsOf(b, 8) ==
           [b / 128 % 2, b / 64 % 2, b / 32 % 2, b / 16 % 2, b / 8 % 2, b / 4 % 2, b / 2 % 2, b % 2];
  }

  lemma Powers()
    ensures Pow2(0) == 1 && Pow2(1) == 2 && Pow2(2) == 4 && Pow2(3) == 8
    ensures Pow2(4) == 16 && Pow2(5) == 32 && Pow2(6) == 64 && Pow2(7) == 128
  {
  }

  /**
   When compress succeeds, and the bits of the payload: all of them, filled up with zeros, or, when the last byte
   that is not full has no room, all but those of that byte.
   */
  lemma PayloadBits(src: seq<byte>, capacity: nat)
    requires |src| <= 0xFFFF_FFFF
    ensures Compressed(src, capacity).Some? <==> capacity >= 264 && |SourceBits(src)| < 8 * (capacity - 264) + 8
    ensures Compressed(src, capacity).Some? ==>
              var bits, bytes := SourceBits(src), Compressed(src, capacity).value;
              && |bytes| >= 264
              && var read := Unpack(bytes[264..]);
                 if |bits| <= 8 * (capacity - 264) then
                   && |bytes| == 264 + (|bits| + 7) / 8 && bits <= read
                   && forall i :: |bits| <= i < |read| ==> read[i] == 0
                 else
                   |bytes| == 264 + |bits| / 8 && read == bits[..8 * (|bits| / 8)]
  {
    var bits := SourceBits(src);
    hide SourceBits, HuffmanLengths.SourceLengths, Header, Packed, FullBytes, Unpack;
    if capacity >= 264 && Payload(bits, capacity - 264).Some? {
      var payload := Payload(bits, capacity - 264).value;
      var bytes := Compressed(src, capacity).value;
      assert bytes[264..] == payload;
      if |bits| <= 8 * (capacity - 264) {
        UnpackPacked(bits);
        PackedSize(bits);
        ZeroBitsAre(Padding(|bits|));
      } else {
        UnpackFullBytes(bits[..8 * (|bits| / 8)]);
      }
    }
  }

  lemma PackedSize(bits: seq<bit>)
    ensures |Packed(bits)| == (|bits| + 7) / 8
  {
  }

  lemma {:induction false} ZeroBitsAre(n: nat)
    ensures forall i :: 0 <= i < n ==> ZeroBits(n)[i] == 0
  {
    if n > 0 {
      ZeroBitsAre(n - 1);
    }
  }
}
