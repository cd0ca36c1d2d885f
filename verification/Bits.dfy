/** Packing flags into bytes, least significant bit first. */
module Bits {
  import opened Util

  /** The byte 1 << i. */
  function Bit(i: nat): bv8
    requires i < 8
  {
    if i == 0 then 1 else if i == 1 then 2 else if i == 2 then 4 else if i == 3 then 8
    else if i == 4 then 16 else if i == 5 then 32 else if i == 6 then 64 else 128
  }

  predicate HasBit(b: bv8, i: nat)
    requires i < 8
  {
    b & Bit(i) != 0
  }

  lemma SetBit(b: bv8, i: nat, p: nat)
    requires i < 8 && p < 8
    ensures HasBit(b | Bit(i), p) == (HasBit(b, p) || p == i)
  {
  }

  lemma NonzeroHasBit(b: bv8)
    ensures (b != 0) == exists p: nat | p < 8 :: HasBit(b, p)
  {
    if b != 0 {
      assert HasBit(b, 0) || HasBit(b, 1) || HasBit(b, 2) || HasBit(b, 3)
          || HasBit(b, 4) || HasBit(b, 5) || HasBit(b, 6) || HasBit(b, 7);
    }
  }

  /** Up to eight flags in one byte. */
  function PackByte(flags: seq<bool>): bv8
    requires |flags| <= 8
  {
    if flags == [] then 0
    else
      var i := |flags| - 1;
      if flags[i] then PackByte(flags[..i]) | Bit(i) else PackByte(flags[..i])
  }

  lemma {:induction false} PackByteBits(flags: seq<bool>, p: nat)
    requires |flags| <= 8 && p < 8
    ensures HasBit(PackByte(flags), p) == (p < |flags| && flags[p])
  {
    if flags != [] {
      var i := |flags| - 1;
      PackByteBits(flags[..i], p);
      if flags[i] { SetBit(PackByte(flags[..i]), i, p); }
    }
  }

  /** The number with the binary digits of the flags, the lowest first: the sum of 2^p over the set flags p. */
  function NumberOf(flags: seq<bool>): nat {
    if flags == [] then 0
    else NumberOf(flags[..|flags| - 1]) + if flags[|flags| - 1] then Pow2(|flags| - 1) else 0
  }

  lemma SmallPowers()
    ensures Pow2(0) == 1 && Pow2(1) == 2 && Pow2(2) == 4 && Pow2(3) == 8
    ensures Pow2(4) == 16 && Pow2(5) == 32 && Pow2(6) == 64 && Pow2(7) == 128
  {
    assert Pow2(4) == 2 * Pow2(3);
  }

  lemma OrAdds(b: bv8, i: nat)
    requires i < 8 && !HasBit(b, i)
    ensures (b | Bit(i)) as int == b as int + Pow2(i)
  {
    hide Pow2;
    SmallPowers();
    if i < 4 { OrAddsLow(b, i); } else { OrAddsHigh(b, i); }
  }

  lemma OrAddsLow(b: bv8, i: nat)
    requires i < 4 && !HasBit(b, i)
    ensures (b | Bit(i)) as int == b as int + if i == 0 then 1 else if i == 1 then 2 else if i == 2 then 4 else 8
  {
  }

  lemma OrAddsHigh(b: bv8, i: nat)
    requires 4 <= i < 8 && !HasBit(b, i)
    ensures (b | Bit(i)) as int == b as int + if i == 4 then 16 else if i == 5 then 32 else if i == 6 then 64 else 128
  {
  }

  /** A byte, as a number. */
  lemma {:induction false} PackByteNumber(flags: seq<bool>)
    requires |flags| <= 8
    ensures PackByte(flags) as int == NumberOf(flags)
  {
    if flags != [] {
      var i := |flags| - 1;
      PackByteNumber(flags[..i]);
      PackByteBits(flags[..i], i);
      if flags[i] { OrAdds(PackByte(flags[..i]), i); }
    }
  }

  /** A bit of a byte is a digit of the number. */
  lemma HasBitDigit(b: bv8, i: nat)
    requires i < 8
    ensures HasBit(b, i) <==> b as int / Pow2(i) % 2 == 1
  {
    hide Pow2;
    SmallPowers();
    if i == 0 { LowestDigit(b); } else if i == 1 { SecondDigit(b); } else if i == 2 { ThirdDigit(b); }
    else if i == 3 { FourthDigit(b); } else { HighDigits(b); }
  }

  lemma LowestDigit(b: bv8)
    ensures (b & 1 != 0) <==> b as int % 2 == 1
  {
  }

  lemma SecondDigit(b: bv8)
    ensures (b & 2 != 0) <==> b as int / 2 % 2 == 1
  {
  }

  lemma ThirdDigit(b: bv8)
    ensures (b & 4 != 0) <==> b as int / 4 % 2 == 1
  {
  }

  lemma FourthDigit(b: bv8)
    ensures (b & 8 != 0) <==> b as int / 8 % 2 == 1
  {
  }

  lemma HighDigits(b: bv8)
    ensures (b & 16 != 0) <==> b as int / 16 % 2 == 1
    ensures (b & 32 != 0) <==> b as int / 32 % 2 == 1
    ensures (b & 64 != 0) <==> b as int / 64 % 2 == 1
    ensures (b & 128 != 0) <==> b as int / 128 % 2 == 1
  {
  }

  lemma PackByteZero(flags: seq<bool>)
    requires |flags| <= 8
    ensures (PackByte(flags) == 0) == (true !in flags)
  {
    NonzeroHasBit(PackByte(flags));
    forall p: nat | p < 8 ensures HasBit(PackByte(flags), p) == (p < |flags| && flags[p]) {
      PackByteBits(flags, p);
    }
    if true in flags {
      var p :| 0 <= p < |flags| && flags[p];
      assert HasBit(PackByte(flags), p);
    }
  }

  function Unpack(b: bv8): (r: seq<bool>)
    ensures |r| == 8
  {
    [HasBit(b, 0), HasBit(b, 1), HasBit(b, 2), HasBit(b, 3), HasBit(b, 4), HasBit(b, 5), HasBit(b, 6), HasBit(b, 7)]
  }

  lemma UnpackAt(b: bv8, p: nat)
    requires p < 8
    ensures Unpack(b)[p] == HasBit(b, p)
  {
    assert p == 0 || p == 1 || p == 2 || p == 3 || p == 4 || p == 5 || p == 6 || p == 7;
  }

  /** All flags, eight to a byte; the last byte is padded with zero bits. */
  function PackAll(flags: seq<bool>): (r: seq<bv8>)
    ensures |r| == (|flags| + 7) / 8
  {
    if flags == [] then []
    else
      var n := Min(8, |flags|);
      [PackByte(flags[..n])] + PackAll(flags[n..])
  }

  function UnpackAll(bytes: seq<bv8>): (r: seq<bool>)
    ensures |r| == 8 * |bytes|
  {
    if bytes == [] then [] else Unpack(bytes[0]) + UnpackAll(bytes[1..])
  }

  lemma SliceOfRest(flags: seq<bool>, lo: nat, hi: nat)
    requires 8 <= lo <= hi <= |flags|
    ensures flags[8..][lo - 8..hi - 8] == flags[lo..hi]
  {
    var a, b := flags[8..][lo - 8..hi - 8], flags[lo..hi];
    forall i | 0 <= i < hi - lo ensures a[i] == b[i] { assert a[i] == flags[8..][lo - 8 + i] == flags[lo + i]; }
  }

  /** Byte b covers the flags 8b .. 8b + 7. */
  lemma {:induction false} PackAllAt(flags: seq<bool>, b: nat)
    requires 8 * b < |flags|
    ensures PackAll(flags)[b] == PackByte(flags[8 * b..Min(8 * b + 8, |flags|)])
  {
    hide PackByte, PackAll;
    PackAllStep(flags);
    if b > 0 {
      PackAllAt(flags[8..], b - 1);
      SliceOfRest(flags, 8 * b, Min(8 * b + 8, |flags|));
    }
  }

  lemma PackAllStep(flags: seq<bool>)
    requires flags != []
    ensures var n := Min(8, |flags|); PackAll(flags) == [PackByte(flags[..n])] + PackAll(flags[n..])
  {
  }

  lemma {:induction false} UnpackAllAt(bytes: seq<bv8>, p: nat)
    requires p < 8 * |bytes|
    ensures UnpackAll(bytes)[p] == HasBit(bytes[p / 8], p % 8)
  {
    if p < 8 {
      UnpackAt(bytes[0], p);
    } else {
      UnpackAllAt(bytes[1..], p - 8);
      assert (p - 8) / 8 == p / 8 - 1 && (p - 8) % 8 == p % 8;
      assert bytes[1..][p / 8 - 1] == bytes[p / 8];
    }
  }

  /** The flags of byte b that precede position p. */
  function Chunk(flags: seq<bool>, b: nat, p: nat): seq<bool>
    requires p <= |flags|
  {
    if p <= 8 * b then [] else flags[8 * b..Min(8 * b + 8, p)]
  }

  lemma ChunkStep(flags: seq<bool>, b: nat, p: nat)
    requires p < |flags|
    ensures var before := PackByte(Chunk(flags, b, p));
            PackByte(Chunk(flags, b, p + 1)) == if b == p / 8 && flags[p] then before | Bit(p % 8) else before
  {
    var x, y := Chunk(flags, b, p), Chunk(flags, b, p + 1);
    if b == p / 8 {
      assert y == x + [flags[p]] && |x| == p % 8;
      assert y[..p % 8] == x;
    } else {
      assert y == x;
    }
  }

  /** Every byte holds the flags before position p. */
  ghost predicate PackedUpTo(bytes: seq<bv8>, flags: seq<bool>, p: nat)
    requires p <= |flags|
  {
    |bytes| == (|flags| + 7) / 8 && forall b | 0 <= b < |bytes| :: bytes[b] == PackByte(Chunk(flags, b, p))
  }

  lemma PackedStep(bytes: seq<bv8>, flags: seq<bool>, p: nat)
    requires p < |flags| && PackedUpTo(bytes, flags, p)
    ensures p / 8 < |bytes|
    ensures PackedUpTo(bytes[p / 8 := bytes[p / 8] | if flags[p] then Bit(p % 8) else 0], flags, p + 1)
  {
    var after := bytes[p / 8 := bytes[p / 8] | if flags[p] then Bit(p % 8) else 0];
    forall b | 0 <= b < |after| ensures after[b] == PackByte(Chunk(flags, b, p + 1)) {
      ChunkStep(flags, b, p);
      assert bytes[b] == PackByte(Chunk(flags, b, p));
    }
  }

  lemma PackedNone(bytes: seq<bv8>, flags: seq<bool>)
    requires |bytes| == (|flags| + 7) / 8 && forall b | 0 <= b < |bytes| :: bytes[b] == 0
    ensures PackedUpTo(bytes, flags, 0)
  {
  }

  lemma PackedIsPackAll(bytes: seq<bv8>, flags: seq<bool>)
    requires PackedUpTo(bytes, flags, |flags|)
    ensures bytes == PackAll(flags)
  {
    forall b | 0 <= b < |bytes| ensures bytes[b] == PackAll(flags)[b] {
      PackAllAt(flags, b);
      assert bytes[b] == PackByte(Chunk(flags, b, |flags|));
    }
  }

  /** The writing loop: one bit at a time into zeroed bytes. */
  method PackBits(vBits: seq<bool>) returns (vBytes: seq<bv8>)
    ensures vBytes == PackAll(vBits)
    ensures |vBytes| == (|vBits| + 7) / 8
    ensures forall b | 0 <= b < |vBytes| :: vBytes[b] as int == NumberOf(vBits[8 * b..Min(8 * b + 8, |vBits|)])
  {
    hide PackByte, PackAll, PackedUpTo;
    vBytes := seq((|vBits| + 7) / 8, _ => 0);
    PackedNone(vBytes, vBits);
    for p := 0 to |vBits|
      invariant PackedUpTo(vBytes, vBits, p)
    {
      PackedStep(vBytes, vBits, p);
      vBytes := vBytes[p / 8 := vBytes[p / 8] | if vBits[p] then Bit(p % 8) else 0];
    }
    PackedIsPackAll(vBytes, vBits);
    forall b | 0 <= b < |vBytes| ensures vBytes[b] as int == NumberOf(vBits[8 * b..Min(8 * b + 8, |vBits|)]) {
      PackAllNumber(vBits, b);
    }
  }

  lemma PackAllNumber(flags: seq<bool>, b: nat)
    requires 8 * b < |flags|
    ensures PackAll(flags)[b] as int == NumberOf(flags[8 * b..Min(8 * b + 8, |flags|)])
  {
    PackAllAt(flags, b);
    PackByteNumber(flags[8 * b..Min(8 * b + 8, |flags|)]);
  }

  /** The reading loop. */
  method UnpackBits(vBytes: seq<bv8>) returns (vBits: seq<bool>)
    ensures vBits == UnpackAll(vBytes)
    ensures |vBits| == 8 * |vBytes|
    ensures forall p | 0 <= p < |vBits| :: vBits[p] <==> vBytes[p / 8] as int / Pow2(p % 8) % 2 == 1
  {
    hide Pow2, UnpackAll;
    vBits := seq(8 * |vBytes|, _ => false);
    for p := 0 to |vBits|
      invariant |vBits| == 8 * |vBytes|
      invariant vBits[..p] == UnpackAll(vBytes)[..p]
    {
      UnpackAllAt(vBytes, p);
      ghost var before := vBits[..p];
      vBits := vBits[p := HasBit(vBytes[p / 8], p % 8)];
      assert vBits[..p + 1] == before + [vBits[p]];
      assert UnpackAll(vBytes)[..p + 1] == UnpackAll(vBytes)[..p] + [UnpackAll(vBytes)[p]];
    }
    UnpackAllDigits(vBytes);
  }

  lemma UnpackAllDigits(bytes: seq<bv8>)
    ensures forall p | 0 <= p < 8 * |bytes| :: UnpackAll(bytes)[p] <==> bytes[p / 8] as int / Pow2(p % 8) % 2 == 1
  {
    hide HasBit, Pow2, UnpackAll;
    forall p | 0 <= p < 8 * |bytes| ensures UnpackAll(bytes)[p] <==> bytes[p / 8] as int / Pow2(p % 8) % 2 == 1 {
      UnpackAllAt(bytes, p);
      HasBitDigit(bytes[p / 8], p % 8);
    }
  }

  /** Flag i, or false beyond the end. */
  predicate Flag(flags: seq<bool>, i: nat) { i < |flags| && flags[i] }

  lemma UnpackPack(flags: seq<bool>)
    requires |flags| <= 8
    ensures forall p: nat | p < 8 :: Unpack(PackByte(flags))[p] == Flag(flags, p)
  {
    forall p: nat | p < 8 ensures HasBit(PackByte(flags), p) == Flag(flags, p) {
      PackByteBits(flags, p);
    }
  }

  /** Unpacking the packed flags gives them back, followed by fewer than eight padding zeroes. */
  lemma {:induction false} UnpackAllPackAll(flags: seq<bool>)
    ensures |flags| <= |UnpackAll(PackAll(flags))| < |flags| + 8
    ensures forall i: nat :: Flag(UnpackAll(PackAll(flags)), i) == Flag(flags, i)
  {
    if flags != [] {
      var n := Min(8, |flags|);
      var rest := flags[n..];
      UnpackAllPackAll(rest);
      UnpackPack(flags[..n]);
      var u := UnpackAll(PackAll(flags));
      assert PackAll(flags)[1..] == PackAll(rest);
      forall i: nat ensures Flag(u, i) == Flag(flags, i) {
        if i < 8 {
          assert Flag(u, i) == Unpack(PackByte(flags[..n]))[i];
        } else {
          assert Flag(u, i) == Flag(UnpackAll(PackAll(rest)), i - 8) == Flag(rest, i - 8);
        }
      }
    }
  }
}
