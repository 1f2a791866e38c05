/** The cluster bitmap: one bit per cluster, eight to a byte, changed in place. */
module Bitmap {

  datatype Status = Ok | NoSpace | OutOfBounds | InvalidArgument

  /** 1 shifted left by i. */
  function Mask(i: nat): bv8
    requires i < 8
  {
    if i == 0 then 1 else if i == 1 then 2 else if i == 2 then 4 else if i == 3 then 8
    else if i == 4 then 16 else if i == 5 then 32 else if i == 6 then 64 else 128
  }

  predicate Bit(b: bv8, i: nat)
    requires i < 8
  {
    b & Mask(i) != 0
  }

  lemma SetBit(b: bv8, i: nat, j: nat)
    requires i < 8 && j < 8
    ensures Bit(b | Mask(i), j) <==> i == j || Bit(b, j)
  {
  }

  lemma ClearBit(b: bv8, i: nat, j: nat)
    requires i < 8 && j < 8
    ensures Bit(b & !Mask(i), j) <==> i != j && Bit(b, j)
  {
  }

  lemma FullByte(b: bv8)
    ensures b == 0xFF <==> Bit(b, 0) && Bit(b, 1) && Bit(b, 2) && Bit(b, 3) && Bit(b, 4) && Bit(b, 5) && Bit(b, 6) && Bit(b, 7)
  {
  }

  /** The number of used clusters among the first n. */
  ghost function CountUsed(used: seq<bool>, n: nat): (c: nat)
    requires n <= |used|
    ensures c <= n
  {
    if n == 0 then 0 else CountUsed(used, n - 1) + (if used[n - 1] then 1 else 0)
  }

  /** n free clusters in a row from s on. */
  ghost predicate RunFree(used: seq<bool>, s: nat, n: nat) {
    s + n <= |used| && forall j :: s <= j < s + n ==> !used[j]
  }

  /** The first total bits of a byte buffer. */
  ghost function Flags(bytes: seq<bv8>, total: nat): (u: seq<bool>)
    requires |bytes| == (total + 7) / 8
    ensures |u| == total
  {
    seq(total, i requires 0 <= i < total => Bit(bytes[i / 8], i % 8))
  }

  /** The flag of cluster c is bit c % 8, counted from the lowest, of byte c / 8. */
  lemma FlagIsBit(bytes: seq<bv8>, total: nat, c: nat)
    requires |bytes| == (total + 7) / 8 && c < total
    ensures Flags(bytes, total)[c] <==> (bytes[c / 8] >> (c % 8)) & 1 == 1
  {
    BitIsShifted(bytes[c / 8], c % 8);
  }

  lemma BitIsShifted(b: bv8, i: nat)
    requires i < 8
    ensures Bit(b, i) <==> (b >> i) & 1 == 1
  {
    if i == 0 {
      assert b >> i == b >> 0;
    } else if i == 1 {
      assert b >> i == b >> 1;
    } else if i == 2 {
      assert b >> i == b >> 2;
    } else if i == 3 {
      assert b >> i == b >> 3;
    } else if i == 4 {
      assert b >> i == b >> 4;
    } else if i == 5 {
      assert b >> i == b >> 5;
    } else if i == 6 {
      assert b >> i == b >> 6;
    } else {
      assert b >> i == b >> 7;
    }
  }

  lemma FlagsSet(bytes: seq<bv8>, total: nat, c: nat)
    requires |bytes| == (total + 7) / 8 && c < total
    ensures Flags(bytes[c / 8 := bytes[c / 8] | Mask(c % 8)], total) == Flags(bytes, total)[c := true]
  {
    hide Bit, Mask;
    var bytes' := bytes[c / 8 := bytes[c / 8] | Mask(c % 8)];
    forall i | 0 <= i < total ensures Flags(bytes', total)[i] == Flags(bytes, total)[c := true][i] {
      SetBit(bytes[c / 8], c % 8, i % 8);
    }
  }

  lemma FlagsClear(bytes: seq<bv8>, total: nat, c: nat)
    requires |bytes| == (total + 7) / 8 && c < total
    ensures Flags(bytes[c / 8 := bytes[c / 8] & !Mask(c % 8)], total) == Flags(bytes, total)[c := false]
  {
    hide Bit, Mask;
    var bytes' := bytes[c / 8 := bytes[c / 8] & !Mask(c % 8)];
    forall i | 0 <= i < total ensures Flags(bytes', total)[i] == Flags(bytes, total)[c := false][i] {
      ClearBit(bytes[c / 8], c % 8, i % 8);
    }
  }

  /** A used cluster within the last n places before i + 1 rules out a run that ends there. */
  lemma LastIsUsed(used: seq<bool>, n: nat, i: nat, u: int)
    requires i + 1 - n <= u <= i < |used| && (u >= 0 ==> used[u])
    ensures forall s: nat :: s + n == i + 1 ==> !RunFree(used, s, n)
  {
  }

  lemma FreeRun(used: seq<bool>, s: nat, n: nat)
    requires s + n <= |used| && forall j :: s <= j < s + n ==> !used[j]
    ensures RunFree(used, s, n)
  {
  }

  /** A run of free clusters is a piece of the bitmap without a used one. */
  lemma RunIsPiece(used: seq<bool>, s: nat, n: nat)
    ensures RunFree(used, s, n) <==> s + n <= |used| && true !in used[s..s + n]
  {
    if s + n <= |used| && true !in used[s..s + n] {
      forall j | s <= j < s + n ensures !used[j] {
        assert used[s..s + n][j - s] == used[j];
      }
    }
  }

  lemma NoRunBefore(used: seq<bool>, n: nat, start: nat)
    requires forall s: nat :: s < start ==> !RunFree(used, s, n)
    ensures forall s: nat, e: nat :: s < start && s <= e <= |used| && e - s == n ==> true in used[s..e]
  {
    forall s: nat, e: nat | s < start && s <= e <= |used| && e - s == n ensures true in used[s..e] {
      RunIsPiece(used, s, n);
    }
  }

  lemma RunsAreShort(used: seq<bool>, n: nat)
    ensures forall s: nat :: RunFree(used, s, n) ==> s + n <= |used|
  {
  }

  class Bitmap {
    const total: nat
    const buffer: array<bv8>

    ghost predicate Valid() {
      total > 0 && buffer.Length == (total + 7) / 8
    }

    /** The bit array as a sequence of flags. */
    ghost function Used(): (u: seq<bool>)
      reads buffer
      requires Valid()
      ensures |u| == total
    {
      Flags(buffer[..], total)
    }

    constructor (totalClusterCount: nat)
      requires totalClusterCount > 0
      ensures Valid() && fresh(buffer) && total == totalClusterCount
      ensures forall i :: 0 <= i < total ==> !Used()[i]
    {
      total := totalClusterCount;
      buffer := new bv8[(totalClusterCount + 7) / 8](_ => 0);
    }

    method MarkUsed(cluster: nat) returns (status: Status)
      requires Valid()
      modifies buffer
      ensures cluster < total ==> status == Ok && Used() == old(Used())[cluster := true]
      ensures cluster >= total ==> status == OutOfBounds && Used() == old(Used())
    {
      if cluster >= total {
        return OutOfBounds;
      }
      hide Bit, Mask;
      ghost var bytes := buffer[..];
      FlagsSet(bytes, total, cluster);
      buffer[cluster / 8] := buffer[cluster / 8] | Mask(cluster % 8);
      assert buffer[..] == bytes[cluster / 8 := bytes[cluster / 8] | Mask(cluster % 8)];
      return Ok;
    }

    method MarkFree(cluster: nat) returns (status: Status)
      requires Valid()
      modifies buffer
      ensures cluster < total ==> status == Ok && Used() == old(Used())[cluster := false]
      ensures cluster >= total ==> status == OutOfBounds && Used() == old(Used())
    {
      if cluster >= total {
        return OutOfBounds;
      }
      hide Bit, Mask;
      ghost var bytes := buffer[..];
      FlagsClear(bytes, total, cluster);
      buffer[cluster / 8] := buffer[cluster / 8] & !Mask(cluster % 8);
      assert buffer[..] == bytes[cluster / 8 := bytes[cluster / 8] & !Mask(cluster % 8)];
      return Ok;
    }

    method IsFree(cluster: nat) returns (free: bool)
      requires Valid()
      ensures free <==> cluster < total && !Used()[cluster]
    {
      if cluster >= total {
        return false;
      }
      return !Bit(buffer[cluster / 8], cluster % 8);
    }

    /** The lowest free cluster, found a byte at a time. */
    method FindFree() returns (status: Status, cluster: nat)
      requires Valid()
      ensures status == Ok || status == NoSpace
      ensures status == Ok ==> cluster < total && !Used()[cluster] && forall j :: 0 <= j < cluster ==> Used()[j]
      ensures status == NoSpace ==> forall j :: 0 <= j < total ==> Used()[j]
    {
      cluster := 0;
      for byteIndex := 0 to buffer.Length
        invariant forall j :: 0 <= j < 8 * byteIndex && j < total ==> Used()[j]
      {
        var currentByte := buffer[byteIndex];
        if currentByte != 0xFF {
          for bitOffset := 0 to 8
            invariant forall j :: 0 <= j < 8 * byteIndex + bitOffset && j < total ==> Used()[j]
            invariant forall i :: 0 <= i < bitOffset ==> Bit(currentByte, i)
          {
            var candidate := byteIndex * 8 + bitOffset;
            if candidate >= total {
              return NoSpace, 0;
            }
            assert candidate / 8 == byteIndex && candidate % 8 == bitOffset;
            if !Bit(currentByte, bitOffset) {
              return Ok, candidate;
            }
          }
          FullByte(currentByte);
        } else {
          FullByte(currentByte);
          AllBits(currentByte);
        }
      }
      return NoSpace, 0;
    }

    /** The first run of count free clusters. */
    method FindContiguous(count: nat) returns (status: Status, start: nat)
      requires Valid()
      ensures count == 0 ==> status == InvalidArgument
      ensures count > 0 ==> status == Ok || status == NoSpace
      ensures status == Ok ==> RunFree(Used(), start, count) && forall s: nat :: s < start ==> !RunFree(Used(), s, count)
      ensures status == NoSpace ==> forall s: nat :: !RunFree(Used(), s, count)
      ensures status == Ok ==>
                && start + count <= |Used()| && true !in Used()[start..start + count]
                && forall s: nat, e: nat :: s < start && s <= e <= total && e - s == count ==> true in Used()[s..e]
      ensures status == NoSpace ==>
                forall s: nat, e: nat :: s <= e <= total && e - s == count ==> true in Used()[s..e]
    {
      if count == 0 {
        return InvalidArgument, 0;
      }
      hide Bit, Flags, RunFree, Used;
      ghost var used := Used();
      RunsAreShort(used, count);
      var consecutive := 0;
      start := 0;
      for i := 0 to total
        invariant 0 <= consecutive <= i && consecutive < count
        invariant consecutive > 0 ==> start == i - consecutive
        invariant forall j :: i - consecutive <= j < i ==> !used[j]
        invariant consecutive < i ==> used[i - consecutive - 1]
        invariant forall s: nat :: s + count <= i ==> !RunFree(used, s, count)
      {
        var free := IsFree(i);
        if !free {
          consecutive := 0;
          LastIsUsed(used, count, i, i);
          continue;
        }
        if consecutive == 0 {
          start := i;
        }
        consecutive := consecutive + 1;
        if consecutive == count {
          FreeRun(used, start, count);
          RunIsPiece(used, start, count);
          NoRunBefore(used, count, start);
          return Ok, start;
        }
        LastIsUsed(used, count, i, i - consecutive);
      }
      NoRunBefore(used, count, total + 1);
      return NoSpace, 0;
    }

    method CountUsedClusters() returns (count: nat)
      requires Valid()
      ensures count == CountUsed(Used(), total)
    {
      count := 0;
      for i := 0 to total
        invariant count == CountUsed(Used(), i)
      {
        if Bit(buffer[i / 8], i % 8) {
          count := count + 1;
        }
      }
    }
  }

  lemma AllBits(b: bv8)
    requires b == 0xFF
    ensures forall i :: 0 <= i < 8 ==> Bit(b, i)
  {
    forall i | 0 <= i < 8 ensures Bit(b, i) {
      FullByte(b);
    }
  }

  /** How many clusters are free. */
  ghost function FreeClusters(used: seq<bool>): nat {
    |used| - CountUsed(used, |used|)
  }

  /** The count reaches its bound exactly when every flag is set. */
  lemma {:induction false} FullCount(used: seq<bool>, n: nat)
    requires n <= |used|
    ensures CountUsed(used, n) == n <==> forall c :: 0 <= c < n ==> used[c]
  {
    if n > 0 {
      FullCount(used, n - 1);
    }
  }
}
