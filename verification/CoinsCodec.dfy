/**
  The serialized form of CCoins. Variable-length integers and compressed
  outputs are single tokens of the stream, a token of the former holding the
  number that its bytes encode; the availability bitmask is written byte by
  byte, and the reader learns its length only from the number of non-zero bytes.
 */
module CoinsCodec {
  import opened Bits
  import opened Coins
  import opened Util
  import V = VarInts

  datatype Token = VarInt(n: nat) | Byte(b: bv8) | Output(nValue: int, scriptPubKey: Script)

  /** What storage keeps of an output: nothing of a spent one, no annotation of the others. */
  function Stored(out: TxOut): TxOut {
    if out.IsNull() then NULL_OUT else TxOut(out.nValue, out.scriptPubKey, -10)
  }

  function StoredOuts(vout: seq<TxOut>): (r: seq<TxOut>)
    ensures |r| == |vout|
  {
    seq(|vout|, i requires 0 <= i < |vout| => Stored(vout[i]))
  }

  /** The coins as far as storage distinguishes them. */
  function StoredCoins(c: Coins): Coins { c.(vout := StoredOuts(c.vout), nVersion := V.Written(c.nVersion)) }

  // ----- the availability bitmask -----

  /** Availability of the outputs from the third one on. */
  function Avail(vout: seq<TxOut>): seq<bool> {
    if |vout| <= 2 then [] else seq(|vout| - 2, i requires 0 <= i < |vout| - 2 => !vout[i + 2].IsNull())
  }

  /** The mask without its trailing zero bytes. */
  function Trim(bytes: seq<bv8>): (r: seq<bv8>)
    ensures r <= bytes
    ensures r == [] || r[|r| - 1] != 0
    ensures forall i | |r| <= i < |bytes| :: bytes[i] == 0
  {
    if bytes != [] && bytes[|bytes| - 1] == 0 then Trim(bytes[..|bytes| - 1]) else bytes
  }

  function Nonzero(bytes: seq<bv8>): nat {
    if bytes == [] then 0 else Nonzero(bytes[..|bytes| - 1]) + if bytes[|bytes| - 1] != 0 then 1 else 0
  }

  lemma {:induction false} NonzeroPrepend(b: bv8, bytes: seq<bv8>)
    ensures Nonzero([b] + bytes) == (if b != 0 then 1 else 0) + Nonzero(bytes)
  {
    if bytes == [] {
      assert [b] + bytes == [b];
      assert [b][..0] == [];
    } else {
      NonzeroPrepend(b, bytes[..|bytes| - 1]);
      assert ([b] + bytes)[..|bytes|] == [b] + bytes[..|bytes| - 1];
    }
  }

  lemma {:induction false} NonzeroTrim(bytes: seq<bv8>)
    ensures Nonzero(Trim(bytes)) == Nonzero(bytes)
  {
    if bytes != [] && bytes[|bytes| - 1] == 0 { NonzeroTrim(bytes[..|bytes| - 1]); }
  }

  function Mask(vout: seq<TxOut>): seq<bv8> { PackAll(Avail(vout)) }

  /** The inner loop over one byte of the mask. */
  method MaskByte(vout: seq<TxOut>, b: nat) returns (chAvail: bv8)
    requires 2 + b * 8 < |vout|
    ensures b < |Mask(vout)| && chAvail == Mask(vout)[b]
  {
    hide PackAll, Bit;
    ghost var flags := Avail(vout);
    chAvail := 0;
    var i := 0;
    while i < 8 && 2 + b * 8 + i < |vout|
      invariant 0 <= i <= 8 && 2 + b * 8 + i <= |vout|
      invariant chAvail == PackByte(flags[8 * b..8 * b + i])
    {
      assert flags[8 * b..8 * b + i + 1][..i] == flags[8 * b..8 * b + i];
      assert |flags[8 * b..8 * b + i + 1]| == i + 1 && flags[8 * b..8 * b + i + 1][i] == flags[8 * b + i];
      if !vout[2 + b * 8 + i].IsNull() { chAvail := chAvail | Bit(i); }
      i := i + 1;
    }
    PackAllAt(flags, b);
  }

  method ByteIsZero(vout: seq<TxOut>, b: nat) returns (fZero: bool)
    requires 2 + b * 8 < |vout|
    ensures b < |Mask(vout)| && fZero == (Mask(vout)[b] == 0)
  {
    hide PackAll, PackByte;
    ghost var flags := Avail(vout);
    fZero := true;
    var i := 0;
    while i < 8 && 2 + b * 8 + i < |vout|
      invariant 0 <= i <= 8 && 2 + b * 8 + i <= |vout|
      invariant fZero == (true !in flags[8 * b..8 * b + i])
    {
      assert flags[8 * b..8 * b + i + 1] == flags[8 * b..8 * b + i] + [flags[8 * b + i]];
      if !vout[2 + b * 8 + i].IsNull() { fZero := false; }
      i := i + 1;
    }
    PackAllAt(flags, b);
    PackByteZero(flags[8 * b..8 * b + i]);
  }

  lemma MaskLength(vout: seq<TxOut>)
    ensures |Mask(vout)| == if |vout| <= 2 then 0 else (|vout| + 5) / 8
  {
  }

  method CalcMaskSize(vout: seq<TxOut>) returns (nBytes: nat, nNonzeroBytes: nat)
    ensures nBytes == |Trim(Mask(vout))| && nNonzeroBytes == Nonzero(Mask(vout))
  {
    hide PackAll, Mask;
    MaskLength(vout);
    var nLastUsedByte := 0;
    nNonzeroBytes := 0;
    var b := 0;
    ghost var mask := Mask(vout);
    while 2 + b * 8 < |vout|
      invariant 0 <= b <= |mask|
      invariant nLastUsedByte == |Trim(mask[..b])| && nNonzeroBytes == Nonzero(mask[..b])
    {
      var fZero := ByteIsZero(vout, b);
      assert mask[..b + 1][..b] == mask[..b];
      if !fZero {
        nLastUsedByte := b + 1;
        nNonzeroBytes := nNonzeroBytes + 1;
      }
      b := b + 1;
    }
    assert mask[..b] == mask;
    nBytes := nLastUsedByte;
  }

  // ----- writing -----

  function OutTokens(vout: seq<TxOut>): seq<Token> {
    if vout == [] then []
    else
      var last := vout[|vout| - 1];
      OutTokens(vout[..|vout| - 1]) + if last.IsNull() then [] else [Output(last.nValue, last.scriptPubKey)]
  }

  function ByteTokens(bytes: seq<bv8>): (r: seq<Token>)
    ensures |r| == |bytes|
  {
    seq(|bytes|, i requires 0 <= i < |bytes| => Byte(bytes[i]))
  }

  lemma NoByteTokens()
    ensures ByteTokens([]) == []
  {
  }

  lemma ByteTokensAppend(bytes: seq<bv8>, b: bv8)
    ensures ByteTokens(bytes + [b]) == ByteTokens(bytes) + [Byte(b)]
  {
  }

  /** The header code: four flag bits below the count of non-zero mask bytes. */
  function PackCode(nMaskCode: int, fCoinBase: bool, fCoinStake: bool, fFirst: bool, fSecond: bool): int {
    16 * (nMaskCode - (if fFirst || fSecond then 0 else 1))
    + (if fCoinBase then 1 else 0) + (if fCoinStake then 2 else 0)
    + (if fFirst then 4 else 0) + (if fSecond then 8 else 0)
  }

  function Code(c: Coins): int {
    PackCode(Nonzero(Mask(c.vout)), c.fCoinBase, c.fCoinStake, c.Unspent(0), c.Unspent(1))
  }

  function Encode(c: Coins): seq<Token>
    requires !c.IsPruned()
  {
    UnprunedHasCode(c);
    [VarInt(V.Written(c.nVersion)), VarInt(Code(c))] + ByteTokens(Trim(Mask(c.vout))) + OutTokens(c.vout)
    + [VarInt(c.nHeight)]
  }

  /** Coins that are not pruned have a flag for one of the first two outputs or a non-zero mask byte. */
  lemma UnprunedHasCode(c: Coins)
    requires !c.IsPruned()
    ensures c.Unspent(0) || c.Unspent(1) || Nonzero(Mask(c.vout)) > 0
  {
    hide PackAll, PackByte, Nonzero;
    if !c.Unspent(0) && !c.Unspent(1) {
      var i :| 0 <= i < |c.vout| && !c.vout[i].IsNull();
      FlagNonzero(Avail(c.vout), i - 2);
      NonzeroPositive(Mask(c.vout), (i - 2) / 8);
    }
  }

  lemma FlagNonzero(a: seq<bool>, k: nat)
    requires k < |a| && a[k]
    ensures k / 8 < |PackAll(a)| && PackAll(a)[k / 8] != 0
  {
    hide PackAll, PackByte;
    var b := k / 8;
    PackAllAt(a, b);
    var chunk := a[8 * b..Min(8 * b + 8, |a|)];
    assert chunk[k - 8 * b];
    PackByteZero(chunk);
  }

  lemma {:induction false} NonzeroPositive(bytes: seq<bv8>, i: nat)
    requires i < |bytes| && bytes[i] != 0
    ensures Nonzero(bytes) > 0
  {
    if i < |bytes| - 1 { NonzeroPositive(bytes[..|bytes| - 1], i); }
  }

  method SerializeMask(vout: seq<TxOut>, nMaskSize: nat) returns (s: seq<Token>)
    requires nMaskSize == |Trim(Mask(vout))|
    ensures s == ByteTokens(Trim(Mask(vout)))
  {
    hide PackAll, Mask, ByteTokens;
    MaskLength(vout);
    s := [];
    ghost var mask := Mask(vout);
    NoByteTokens();
    assert mask[..0] == [];
    for b := 0 to nMaskSize
      invariant s == ByteTokens(mask[..b])
    {
      var chAvail := MaskByte(vout, b);
      ByteTokensAppend(mask[..b], chAvail);
      assert mask[..b + 1] == mask[..b] + [chAvail];
      s := s + [Byte(chAvail)];
    }
    assert mask[..nMaskSize] == Trim(mask);
  }

  method SerializeOuts(vout: seq<TxOut>) returns (s: seq<Token>)
    ensures s == OutTokens(vout)
  {
    s := [];
    for i := 0 to |vout|
      invariant s == OutTokens(vout[..i])
    {
      assert vout[..i + 1][..i] == vout[..i];
      if !vout[i].IsNull() { s := s + [Output(vout[i].nValue, vout[i].scriptPubKey)]; }
    }
    assert vout[..|vout|] == vout;
  }

  /** The assert on the code in the source is the assert in the body; callers must not pass pruned coins. */
  method Serialize(c: Coins) returns (s: seq<Token>)
    requires !c.IsPruned()
    ensures s == Encode(c)
  {
    var nMaskSize, nMaskCode := CalcMaskSize(c.vout);
    var fFirst := |c.vout| > 0 && !c.vout[0].IsNull();
    var fSecond := |c.vout| > 1 && !c.vout[1].IsNull();
    UnprunedHasCode(c);
    assert fFirst || fSecond || nMaskCode != 0;
    var nCode := PackCode(nMaskCode, c.fCoinBase, c.fCoinStake, fFirst, fSecond);
    var mask := SerializeMask(c.vout, nMaskSize);
    var outs := SerializeOuts(c.vout);
    s := [VarInt(V.Written(c.nVersion)), VarInt(nCode)] + mask + outs + [VarInt(c.nHeight)];
  }

  // ----- reading -----

  /** A reader either fails on the stream or yields a value and what is left. */
  datatype Read<+T> = Fail | Got(value: T, rest: seq<Token>)

  function ReadMask(s: seq<Token>, nMaskCode: nat): (r: Read<seq<bool>>)
    decreases |s|
  {
    if nMaskCode == 0 then Got([], s)
    else if s == [] || !s[0].Byte? then Fail
    else
      match ReadMask(s[1..], if s[0].b != 0 then nMaskCode - 1 else nMaskCode)
      case Fail => Fail
      case Got(flags, rest) => Got(Unpack(s[0].b) + flags, rest)
  }

  function ReadOuts(s: seq<Token>, avail: seq<bool>): (r: Read<seq<TxOut>>)
    decreases |avail|
  {
    if avail == [] then Got([], s)
    else if avail[0] then
      if s == [] || !s[0].Output? then Fail
      else
        match ReadOuts(s[1..], avail[1..])
        case Fail => Fail
        case Got(outs, rest) => Got([TxOut(s[0].nValue, s[0].scriptPubKey, -10)] + outs, rest)
    else
      match ReadOuts(s, avail[1..])
      case Fail => Fail
      case Got(outs, rest) => Got([NULL_OUT] + outs, rest)
  }

  /** Bit number k of the header code is set, for b == 1 << k. */
  predicate CodeBit(nCode: nat, b: nat)
    requires b > 0
  {
    nCode / b % 2 == 1
  }

  function MaskCode(nCode: nat): nat { nCode / 16 + if CodeBit(nCode, 4) || CodeBit(nCode, 8) then 0 else 1 }

  function Decode(s: seq<Token>): Read<Coins> {
    if |s| < 2 || !s[0].VarInt? || !s[1].VarInt? then Fail
    else
      var nCode := s[1].n;
      match ReadMask(s[2..], MaskCode(nCode))
      case Fail => Fail
      case Got(flags, rest) => DecodeOuts(s[0].n, nCode, [CodeBit(nCode, 4), CodeBit(nCode, 8)] + flags, rest)
  }

  function DecodeOuts(nVersion: int, nCode: nat, avail: seq<bool>, s: seq<Token>): Read<Coins> {
    match ReadOuts(s, avail)
    case Fail => Fail
    case Got(vout, tail) =>
      if tail == [] || !tail[0].VarInt? then Fail
      else Got(Cleaned(Coins(CodeBit(nCode, 1), CodeBit(nCode, 2), vout, tail[0].n, nVersion)), tail[1..])
  }

  /** What a reader yields when items already read are put in front. */
  function Prepend<T>(items: seq<T>, r: Read<seq<T>>): Read<seq<T>> {
    match r
    case Fail => Fail
    case Got(more, rest) => Got(items + more, rest)
  }

  lemma PrependTwice<T>(a: seq<T>, b: seq<T>, r: Read<seq<T>>)
    ensures Prepend(a + b, r) == Prepend(a, Prepend(b, r))
    ensures Prepend([], r) == r
  {
    if r.Got? {
      assert a + b + r.value == a + (b + r.value);
      assert [] + r.value == r.value;
    }
  }

  /** The inner loop over one byte. */
  method AppendBits(flags: seq<bool>, chAvail: bv8) returns (r: seq<bool>)
    ensures r == flags + Unpack(chAvail)
  {
    r := flags;
    var p := 0;
    while p < 8
      invariant 0 <= p <= 8
      invariant r == flags + Unpack(chAvail)[..p]
    {
      UnpackAt(chAvail, p);
      assert Unpack(chAvail)[..p + 1] == Unpack(chAvail)[..p] + [HasBit(chAvail, p)];
      r := r + [HasBit(chAvail, p)];
      p := p + 1;
    }
    assert Unpack(chAvail)[..8] == Unpack(chAvail);
  }

  method UnserializeMask(s: seq<Token>, code: nat) returns (r: Read<seq<bool>>)
    ensures r == ReadMask(s, code)
  {
    var nMaskCode: nat := code;
    var flags: seq<bool> := [];
    var pos := 0;
    PrependTwice([], [], ReadMask(s, code));
    while nMaskCode > 0
      invariant 0 <= pos <= |s|
      invariant ReadMask(s, code) == Prepend(flags, ReadMask(s[pos..], nMaskCode))
      decreases |s| - pos
    {
      if pos == |s| || !s[pos].Byte? { return Fail; }
      var chAvail := s[pos].b;
      ghost var before := flags;
      flags := AppendBits(flags, chAvail);
      assert s[pos..][1..] == s[pos + 1..];
      if chAvail != 0 { nMaskCode := nMaskCode - 1; }
      pos := pos + 1;
      PrependTwice(before, Unpack(chAvail), ReadMask(s[pos..], nMaskCode));
    }
    r := Got(flags, s[pos..]);
    assert flags + [] == flags;
  }

  method UnserializeOuts(s: seq<Token>, vAvail: seq<bool>) returns (r: Read<seq<TxOut>>)
    ensures r == ReadOuts(s, vAvail)
  {
    var vout: seq<TxOut> := seq(|vAvail|, _ => NULL_OUT);
    var pos := 0;
    PrependTwice([], [], ReadOuts(s, vAvail));
    assert vAvail[0..] == vAvail && s[0..] == s;
    for i := 0 to |vAvail|
      invariant |vAvail| == |vout| && 0 <= pos <= |s|
      invariant forall k | i <= k < |vout| :: vout[k] == NULL_OUT
      invariant ReadOuts(s, vAvail) == Prepend(vout[..i], ReadOuts(s[pos..], vAvail[i..]))
    {
      assert vAvail[i..][1..] == vAvail[i + 1..];
      ghost var prefix := vout[..i];
      if vAvail[i] {
        if pos == |s| || !s[pos].Output? { return Fail; }
        assert s[pos..][1..] == s[pos + 1..];
        vout := vout[i := TxOut(s[pos].nValue, s[pos].scriptPubKey, -10)];
        pos := pos + 1;
      }
      assert vout[..i + 1] == prefix + [vout[i]];
      PrependTwice(prefix, [vout[i]], ReadOuts(s[pos..], vAvail[i + 1..]));
    }
    assert vout[..|vAvail|] + [] == vout;
    r := Got(vout, s[pos..]);
  }

  method Unserialize(s: seq<Token>) returns (r: Read<Coins>)
    ensures r == Decode(s)
  {
    if |s| < 2 || !s[0].VarInt? || !s[1].VarInt? { return Fail; }
    var nCode := s[1].n;
    var vAvail := [CodeBit(nCode, 4), CodeBit(nCode, 8)];
    var mask := UnserializeMask(s[2..], nCode / 16 + (if vAvail[0] || vAvail[1] then 0 else 1));
    if mask.Fail? { return Fail; }
    vAvail := vAvail + mask.value;
    var outs := UnserializeOuts(mask.rest, vAvail);
    if outs.Fail? || outs.rest == [] || !outs.rest[0].VarInt? { return Fail; }
    var c := Cleanup(Coins(CodeBit(nCode, 1), CodeBit(nCode, 2), outs.value, outs.rest[0].n, s[0].n));
    r := Got(c, outs.rest[1..]);
  }

  // ----- the round trip -----

  /** The reader stops exactly after the last byte written, because that byte is not zero. */
  lemma {:induction false} ReadMaskConsumesTrim(bytes: seq<bv8>, rest: seq<Token>)
    requires bytes == [] || bytes[|bytes| - 1] != 0
    ensures ReadMask(ByteTokens(bytes) + rest, Nonzero(bytes)) == Got(UnpackAll(bytes), rest)
  {
    if bytes == [] {
      assert ByteTokens(bytes) + rest == rest;
    } else {
      var tail := bytes[1..];
      ReadMaskConsumesTrim(tail, rest);
      assert bytes == [bytes[0]] + tail;
      NonzeroPrepend(bytes[0], tail);
      NonzeroPositive(bytes, |bytes| - 1);
      assert (ByteTokens(bytes) + rest)[1..] == ByteTokens(tail) + rest;
    }
  }

  lemma {:induction false} OutTokensPrepend(out: TxOut, vout: seq<TxOut>)
    ensures OutTokens([out] + vout) == (if out.IsNull() then [] else [Output(out.nValue, out.scriptPubKey)]) +
            OutTokens(vout)
  {
    if vout == [] {
      assert [out] + vout == [out] && [out][..0] == [];
    } else {
      OutTokensPrepend(out, vout[..|vout| - 1]);
      assert ([out] + vout)[..|vout|] == [out] + vout[..|vout| - 1];
    }
  }

  /** Output i, or a spent one beyond the end. */
  function At(vout: seq<TxOut>, i: nat): TxOut { if i < |vout| then vout[i] else NULL_OUT }

  /** Flags that agree with the outputs' availability read back the stored outputs. */
  lemma {:induction false} ReadOutsOfTokens(vout: seq<TxOut>, avail: seq<bool>, rest: seq<Token>)
    requires forall i: nat :: Flag(avail, i) == !At(vout, i).IsNull()
    ensures var r := ReadOuts(OutTokens(vout) + rest, avail);
            r.Got? && r.rest == rest && |r.value| == |avail| && forall i: nat :: At(r.value, i) == Stored(At(vout, i))
  {
    if avail == [] {
      assert forall i: nat :: At(vout, i).IsNull();
      OutTokensNull(vout);
      assert OutTokens(vout) + rest == rest;
    } else {
      var tail := if vout == [] then [] else vout[1..];
      forall i: nat ensures Flag(avail[1..], i) == !At(tail, i).IsNull() {
        assert Flag(avail, i + 1) == !At(vout, i + 1).IsNull();
      }
      ReadOutsOfTokens(tail, avail[1..], rest);
      assert Flag(avail, 0) == !At(vout, 0).IsNull();
      OutTokensStart(vout, tail, rest);
      var r, t := ReadOuts(OutTokens(vout) + rest, avail), ReadOuts(OutTokens(tail) + rest, avail[1..]);
      forall i: nat ensures At(r.value, i) == Stored(At(vout, i)) {
        if i > 0 { assert At(t.value, i - 1) == Stored(At(tail, i - 1)); }
      }
    }
  }

  /** The token of the first output, if it has one, stands at the front. */
  lemma OutTokensStart(vout: seq<TxOut>, tail: seq<TxOut>, rest: seq<Token>)
    requires tail == if vout == [] then [] else vout[1..]
    ensures var s := OutTokens(vout) + rest;
            if At(vout, 0).IsNull() then s == OutTokens(tail) + rest
            else |s| > 0 && s[0] == Output(vout[0].nValue, vout[0].scriptPubKey) && s[1..] == OutTokens(tail) + rest
  {
    if vout != [] {
      assert vout == [vout[0]] + tail;
      OutTokensPrepend(vout[0], tail);
    }
  }

  lemma {:induction false} OutTokensNull(vout: seq<TxOut>)
    requires forall i | 0 <= i < |vout| :: At(vout, i).IsNull()
    ensures OutTokens(vout) == []
  {
    if vout != [] {
      assert At(vout, |vout| - 1).IsNull();
      var init := vout[..|vout| - 1];
      forall i | 0 <= i < |init| ensures At(init, i).IsNull() { assert At(vout, i).IsNull(); }
      OutTokensNull(init);
    }
  }

  /** Output lists that agree everywhere are the same once their spent tails are dropped. */
  lemma DropNullTailAgrees(a: seq<TxOut>, b: seq<TxOut>)
    requires forall i: nat :: At(a, i) == At(b, i)
    ensures DropNullTail(a) == DropNullTail(b)
  {
    var x, y := DropNullTail(a), DropNullTail(b);
    assert y != [] ==> At(a, |y| - 1) == At(b, |y| - 1);
    assert x != [] ==> At(a, |x| - 1) == At(b, |x| - 1);
    forall i | 0 <= i < |x| ensures x[i] == y[i] { assert At(a, i) == At(b, i); }
  }

  /** The flags the reader rebuilds are exactly the availability of the outputs. */
  lemma MaskFlags(c: Coins)
    ensures forall i: nat ::
            Flag([c.Unspent(0), c.Unspent(1)] + UnpackAll(Trim(Mask(c.vout))), i) == !At(c.vout, i).IsNull()
  {
    hide UnpackAll, Trim, PackAll;
    var flags := Avail(c.vout);
    var mask := Mask(c.vout);
    UnpackAllPackAll(flags);
    forall i: nat ensures Flag([c.Unspent(0), c.Unspent(1)] + UnpackAll(Trim(mask)), i) == !At(c.vout, i).IsNull() {
      if i >= 2 {
        UnpackTrim(mask, i - 2);
        assert Flag(UnpackAll(mask), i - 2) == Flag(flags, i - 2);
      }
    }
  }

  lemma {:induction false} UnpackTrim(bytes: seq<bv8>, i: nat)
    ensures Flag(UnpackAll(Trim(bytes)), i) == Flag(UnpackAll(bytes), i)
  {
    if bytes != [] && bytes[|bytes| - 1] == 0 {
      var init := bytes[..|bytes| - 1];
      UnpackTrim(init, i);
      assert bytes == init + [0];
      UnpackAppendZero(init);
    }
  }

  lemma {:induction false} UnpackAppendZero(bytes: seq<bv8>)
    ensures forall i: nat :: Flag(UnpackAll(bytes + [0]), i) == Flag(UnpackAll(bytes), i)
  {
    if bytes == [] {
      assert bytes + [0] == [0];
      assert UnpackAll([0]) == Unpack(0) + UnpackAll([]);
    } else {
      UnpackAppendZero(bytes[1..]);
      assert (bytes + [0])[1..] == bytes[1..] + [0];
      forall i: nat ensures Flag(UnpackAll(bytes + [0]), i) == Flag(UnpackAll(bytes), i) {
        if i >= 8 { assert Flag(UnpackAll(bytes[1..] + [0]), i - 8) == Flag(UnpackAll(bytes[1..]), i - 8); }
      }
    }
  }

  lemma Sixteenth(m: nat, low: nat)
    requires low < 16
    ensures (16 * m + low) / 16 == m
  {
  }

  /** Dividing by a half, a quarter or an eighth of sixteen leaves an even part. */
  lemma Parity(m: nat, low: nat)
    ensures (2 * m + low) % 2 == low % 2
  {
  }

  lemma Eighth(m: nat, low: nat)
    ensures (16 * m + low) / 2 == 2 * (4 * m) + low / 2
  {
  }

  lemma Quarter(m: nat, low: nat)
    ensures (16 * m + low) / 4 == 2 * (2 * m) + low / 4
  {
  }

  lemma Half(m: nat, low: nat)
    ensures (16 * m + low) / 8 == 2 * m + low / 8
  {
  }

  lemma LowBits(m: nat, low: nat)
    requires low < 16
    ensures (16 * m + low) / 16 == m && (16 * m + low) % 2 == low % 2 && (16 * m + low) / 2 % 2 == low / 2 % 2
    ensures (16 * m + low) / 4 % 2 == low / 4 % 2 && (16 * m + low) / 8 % 2 == low / 8 % 2
  {
    Sixteenth(m, low);
    Eighth(m, low);
    Quarter(m, low);
    Half(m, low);
    Parity(8 * m, low);
    Parity(4 * m, low / 2);
    Parity(2 * m, low / 4);
    Parity(m, low / 8);
  }

  lemma CodeRoundTrip(n: nat, fCoinBase: bool, fCoinStake: bool, fFirst: bool, fSecond: bool)
    requires fFirst || fSecond || n > 0
    ensures var code := PackCode(n, fCoinBase, fCoinStake, fFirst, fSecond);
            code >= 0 && MaskCode(code) == n &&
            CodeBit(code, 1) == fCoinBase && CodeBit(code, 2) == fCoinStake && CodeBit(code, 4) == fFirst &&
            CodeBit(code, 8) == fSecond
  {
    var low: nat := (if fCoinBase then 1 else 0) + (if fCoinStake then 2 else 0) + (if fFirst then 4 else 0) +
        (if fSecond then 8 else 0);
    var m: nat := if fFirst || fSecond then n else n - 1;
    assert PackCode(n, fCoinBase, fCoinStake, fFirst, fSecond) == 16 * m + low;
    assert fCoinBase == (low % 2 == 1) && fCoinStake == (low / 2 % 2 == 1);
    assert fFirst == (low / 4 % 2 == 1) && fSecond == (low / 8 % 2 == 1);
    LowBits(m, low);
  }

  lemma DecodeOutsOfTokens(c: Coins, nCode: nat, avail: seq<bool>, rest: seq<Token>)
    requires CodeBit(nCode, 1) == c.fCoinBase && CodeBit(nCode, 2) == c.fCoinStake
    requires forall i: nat :: Flag(avail, i) == !At(c.vout, i).IsNull()
    ensures DecodeOuts(V.Written(c.nVersion), nCode, avail, OutTokens(c.vout) + ([VarInt(c.nHeight)] + rest)) ==
            Got(Cleaned(StoredCoins(c)), rest)
  {
    var end := [VarInt(c.nHeight)] + rest;
    ReadOutsOfTokens(c.vout, avail, end);
    var vout := ReadOuts(OutTokens(c.vout) + end, avail).value;
    forall i: nat ensures At(vout, i) == At(StoredOuts(c.vout), i) { assert At(vout, i) == Stored(At(c.vout, i)); }
    DropNullTailAgrees(vout, StoredOuts(c.vout));
    assert end[0] == VarInt(c.nHeight) && end[1..] == rest;
  }

  /**
    Unserializing what was serialized yields the cleaned-up coins and leaves
    exactly the bytes that followed, whatever they are.
   */
  lemma RoundTrip(c: Coins, rest: seq<Token>)
    requires !c.IsPruned()
    ensures Decode(Encode(c) + rest) == Got(Cleaned(StoredCoins(c)), rest)
  {
    UnprunedHasCode(c);
    var n := Nonzero(Mask(c.vout));
    CodeRoundTrip(n, c.fCoinBase, c.fCoinStake, c.Unspent(0), c.Unspent(1));
    var bytes := Trim(Mask(c.vout));
    NonzeroTrim(Mask(c.vout));
    var tail := OutTokens(c.vout) + ([VarInt(c.nHeight)] + rest);
    EncodeSplit(c, rest);
    ReadMaskConsumesTrim(bytes, tail);
    MaskFlags(c);
    DecodeOutsOfTokens(c, Code(c), [c.Unspent(0), c.Unspent(1)] + UnpackAll(bytes), rest);
  }

  lemma EncodeSplit(c: Coins, rest: seq<Token>)
    requires !c.IsPruned()
    ensures var s := Encode(c) + rest;
            |s| >= 2 && s[0] == VarInt(V.Written(c.nVersion)) && Code(c) >= 0 && s[1] == VarInt(Code(c)) &&
            s[2..] == ByteTokens(Trim(Mask(c.vout))) + (OutTokens(c.vout) + ([VarInt(c.nHeight)] + rest))
  {
    UnprunedHasCode(c);
    Regroup([VarInt(V.Written(c.nVersion)), VarInt(Code(c))], ByteTokens(Trim(Mask(c.vout))), OutTokens(c.vout),
        [VarInt(c.nHeight)], rest);
  }

  lemma Regroup<T>(head: seq<T>, a: seq<T>, b: seq<T>, end: seq<T>, rest: seq<T>)
    requires |head| == 2
    ensures var s := head + a + b + end + rest;
            |s| >= 2 && s[0] == head[0] && s[1] == head[1] && s[2..] == a + (b + (end + rest))
  {
    assert head + a + b + end + rest == head + (a + (b + (end + rest)));
  }

  /** For coins as the node holds them the round trip is Cleanup, exactly if the version is not negative. */
  lemma RoundTripPlain(c: Coins, rest: seq<Token>)
    requires !c.IsPruned()
    requires forall i | 0 <= i < |c.vout| :: c.vout[i].nRounds == -10 && (c.vout[i].IsNull() ==> c.vout[i] == NULL_OUT)
    ensures Decode(Encode(c) + rest) == Got(Cleaned(c.(nVersion := V.Written(c.nVersion))), rest)
    ensures Decode(Encode(c) + rest) == Got(Cleaned(c), rest) <==> c.nVersion >= 0
  {
    hide Decode, Encode;
    RoundTrip(c, rest);
    assert StoredOuts(c.vout) == c.vout;
  }

  /** A version of -1 comes back as 127. */
  lemma VersionLost(out: TxOut, nHeight: nat, rest: seq<Token>)
    requires !out.IsNull() && out.nRounds == -10
    ensures var c := Coins(false, false, [out], nHeight, -1);
            !c.IsPruned() && Decode(Encode(c) + rest) == Got(c.(nVersion := 127), rest)
  {
    hide Decode, Encode;
    var c := Coins(false, false, [out], nHeight, -1);
    assert c.Unspent(0);
    RoundTripPlain(c, rest);
  }
}
