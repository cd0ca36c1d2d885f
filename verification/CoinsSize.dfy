/**
  The size that CCoins announces for its serialized form. The header code is
  computed with a factor of 8 there and of 16 by the writer, so that the size
  is one byte short for some coins; this module says for which.
 */
module CoinsSize {
  import opened Bits
  import opened Coins
  import opened CoinsCodec
  import opened Util
  import V = VarInts

  /** The size of a compressed output; any function will do. */
  type OutputSize = (int, Script) -> nat

  function TokenSize(t: Token, output: OutputSize): nat {
    match t
    case VarInt(n) => |V.Encode(n)|
    case Byte(_) => 1
    case Output(nValue, script) => output(nValue, script)
  }

  /** The number of bytes of a stream. */
  function StreamSize(s: seq<Token>, output: OutputSize): nat {
    if s == [] then 0 else StreamSize(s[..|s| - 1], output) + TokenSize(s[|s| - 1], output)
  }

  lemma {:induction false} StreamSizeAppend(s: seq<Token>, t: seq<Token>, output: OutputSize)
    ensures StreamSize(s + t, output) == StreamSize(s, output) + StreamSize(t, output)
  {
    if t == [] {
      assert s + t == s;
    } else {
      StreamSizeAppend(s, t[..|t| - 1], output);
      assert (s + t)[..|s + t| - 1] == s + t[..|t| - 1];
    }
  }

  lemma {:induction false} MaskBytesSize(bytes: seq<bv8>, output: OutputSize)
    ensures StreamSize(ByteTokens(bytes), output) == |bytes|
  {
    if bytes != [] {
      var init := bytes[..|bytes| - 1];
      MaskBytesSize(init, output);
      assert ByteTokens(bytes)[..|bytes| - 1] == ByteTokens(init);
    }
  }

  lemma VarIntSize(n: nat, output: OutputSize)
    ensures StreamSize([VarInt(n)], output) == |V.Encode(n)|
  {
    assert [VarInt(n)][..0] == [];
  }

  /** The multiple of 16 in the header code, as a count. */
  function Masks(c: Coins): int { Nonzero(Mask(c.vout)) - if c.Unspent(0) || c.Unspent(1) then 0 else 1 }

  /** The four flags of the header code. */
  function Flags(c: Coins): (r: nat)
    ensures r < 16
  {
    (if c.fCoinBase then 1 else 0) + (if c.fCoinStake then 2 else 0) + (if c.Unspent(0) then 4 else 0)
    + if c.Unspent(1) then 8 else 0
  }

  /** The code of the writer, and its parts. */
  lemma CodeParts(c: Coins)
    requires !c.IsPruned()
    ensures Masks(c) >= 0 && Code(c) == 16 * Masks(c) + Flags(c)
  {
    hide Mask, Nonzero;
    UnprunedHasCode(c);
  }

  /** Some number of bytes is enough for the header code with the factor 8, but not with 16. */
  ghost predicate Straddles(masks: nat, flags: nat) {
    exists k: nat :: 8 * masks + flags < V.Threshold(k) <= 16 * masks + flags
  }

  lemma {:induction false} ThresholdsApart(j: nat, k: nat)
    requires j < k
    ensures V.Threshold(k) >= 128 * (V.Threshold(j) + 1)
    decreases k
  {
    if j < k - 1 { ThresholdsApart(j, k - 1); }
  }

  /** Twice a number takes at most one byte more, exactly if a threshold lies between. */
  lemma CodeSizes(masks: nat, flags: nat)
    requires flags < 16
    ensures |V.Encode(16 * masks + flags)| == |V.Encode(8 * masks + flags)| + if Straddles(masks, flags) then 1 else 0
  {
    hide V.Encode, V.Threshold;
    var a, b := 8 * masks + flags, 16 * masks + flags;
    var m, n := |V.Encode(a)|, |V.Encode(b)|;
    V.SizeIs(a, m);
    V.SizeIs(b, m);
    V.SizeIs(b, m + 1);
    ThresholdsApart(m, m + 1);
    V.SizeIs(a, m - 1);
    V.SizeIs(b, m - 1);
    if Straddles(masks, flags) {
      var k: nat :| a < V.Threshold(k) <= b;
      V.SizeIs(a, k);
      V.SizeIs(b, k);
    } else {
      assert !(a < V.Threshold(m) <= b);
    }
  }

  /** For up to a thousand masks: between 8 masks and a code of 128 with the factor 8. */
  lemma StraddlesMeans(masks: nat, flags: nat)
    requires flags < 16 && masks < 1032
    ensures Straddles(masks, flags) <==> 8 <= masks && 8 * masks + flags < 128
  {
    V.Thresholds();
    assert V.Threshold(0) == 0;
    hide V.Threshold;
    if 8 <= masks && 8 * masks + flags < 128 {
      assert 8 * masks + flags < V.Threshold(1) <= 16 * masks + flags;
    }
    if Straddles(masks, flags) {
      var k: nat :| 8 * masks + flags < V.Threshold(k) <= 16 * masks + flags;
      if k > 2 { ThresholdsApart(2, k); }
      assert k == 1;
    }
  }

  /** The bytes of the serialized form. */
  lemma BytesWritten(c: Coins, output: OutputSize)
    requires !c.IsPruned()
    ensures Code(c) >= 0
    ensures StreamSize(Encode(c), output) ==
            |V.Encode(V.Written(c.nVersion))| + |V.Encode(Code(c))| + |Trim(Mask(c.vout))|
            + StreamSize(OutTokens(c.vout), output) + |V.Encode(c.nHeight)|
  {
    hide V.Encode, V.Written, Trim, Mask, OutTokens, StreamSize, ByteTokens, Code, Nonzero;
    UnprunedHasCode(c);
    assert Code(c) >= 0 by { CodeParts(c); }
    var version, code, end := [VarInt(V.Written(c.nVersion))], [VarInt(Code(c))], [VarInt(c.nHeight)];
    var mask, outs := ByteTokens(Trim(Mask(c.vout))), OutTokens(c.vout);
    assert Encode(c) == version + code + mask + outs + end;
    StreamSizeAppend(version + code + mask + outs, end, output);
    StreamSizeAppend(version + code + mask, outs, output);
    StreamSizeAppend(version + code, mask, output);
    StreamSizeAppend(version, code, output);
    VarIntSize(V.Written(c.nVersion), output);
    VarIntSize(Code(c), output);
    VarIntSize(c.nHeight, output);
    MaskBytesSize(Trim(Mask(c.vout)), output);
  }

  /** The header code as GetSerializeSize computes it. */
  method HeaderCode(c: Coins, nMaskCode: nat) returns (nCode: nat)
    requires !c.IsPruned() && nMaskCode == Nonzero(Mask(c.vout))
    ensures Masks(c) >= 0 && nCode == 8 * Masks(c) + Flags(c)
  {
    hide Mask, Nonzero;
    var fFirst := |c.vout| > 0 && !c.vout[0].IsNull();
    var fSecond := |c.vout| > 1 && !c.vout[1].IsNull();
    UnprunedHasCode(c);
    assert fFirst || fSecond || nMaskCode != 0;
    nCode := 8 * (nMaskCode - (if fFirst || fSecond then 0 else 1))
        + (if c.fCoinBase then 1 else 0) + (if c.fCoinStake then 2 else 0)
        + (if fFirst then 4 else 0) + (if fSecond then 8 else 0);
  }

  /** The size is that of what is written, or one byte short. */
  method GetSerializeSize(c: Coins, output: OutputSize) returns (nSize: nat)
    requires !c.IsPruned()
    ensures Masks(c) >= 0
    ensures StreamSize(Encode(c), output) == nSize + if Straddles(Masks(c), Flags(c)) then 1 else 0
  {
    hide V.Encode, Encode, Trim, Mask, StreamSize, Straddles, Nonzero, OutTokens, Code, Masks, Flags;
    BytesWritten(c, output);
    CodeParts(c);
    CodeSizes(Masks(c), Flags(c));
    var nMaskSize, nMaskCode := CalcMaskSize(c.vout);
    var nCode := HeaderCode(c, nMaskCode);
    nSize := V.GetSizeOfVarInt(c.nVersion);
    var nCodeSize := V.GetSizeOfVarInt(nCode);
    var nOuts := OutsSize(c.vout, output);
    var nHeightSize := V.GetSizeOfVarInt(c.nHeight);
    nSize := nSize + nCodeSize + nMaskSize + nOuts + nHeightSize;
  }

  lemma NoOuts(output: OutputSize)
    ensures StreamSize(OutTokens([]), output) == 0
  {
  }

  lemma OutsSizeStep(vout: seq<TxOut>, i: nat, output: OutputSize)
    requires i < |vout|
    ensures StreamSize(OutTokens(vout[..i + 1]), output) == StreamSize(OutTokens(vout[..i]), output)
            + if vout[i].IsNull() then 0 else output(vout[i].nValue, vout[i].scriptPubKey)
  {
    var token := Output(vout[i].nValue, vout[i].scriptPubKey);
    assert vout[..i + 1][..i] == vout[..i];
    if vout[i].IsNull() {
      assert OutTokens(vout[..i]) + [] == OutTokens(vout[..i]);
    } else {
      assert OutTokens(vout[..i + 1]) == OutTokens(vout[..i]) + [token];
      assert (OutTokens(vout[..i]) + [token])[..|OutTokens(vout[..i])|] == OutTokens(vout[..i]);
    }
  }

  method OutsSize(vout: seq<TxOut>, output: OutputSize) returns (nSize: nat)
    ensures nSize == StreamSize(OutTokens(vout), output)
  {
    hide OutTokens, StreamSize;
    NoOuts(output);
    nSize := 0;
    for i := 0 to |vout|
      invariant nSize == StreamSize(OutTokens(vout[..i]), output)
    {
      OutsSizeStep(vout, i, output);
      if !vout[i].IsNull() { nSize := nSize + output(vout[i].nValue, vout[i].scriptPubKey); }
    }
    assert vout[..|vout|] == vout;
  }

  lemma {:induction false} NoneZero(bytes: seq<bv8>)
    requires 0 !in bytes
    ensures Nonzero(bytes) == |bytes|
  {
    if bytes != [] { NoneZero(bytes[..|bytes| - 1]); }
  }

  /** For 59 unspent outputs the size is one byte short. */
  lemma OneByteShort(c: Coins)
    requires |c.vout| == 59 && forall i | 0 <= i < 59 :: !c.vout[i].IsNull()
    ensures !c.IsPruned() && Masks(c) == 8 && Straddles(8, Flags(c))
  {
    hide PackAll, PackByte, Straddles, Nonzero, Flags;
    assert c.Unspent(0);
    MaskLength(c.vout);
    var mask := Mask(c.vout);
    forall b | 0 <= b < |mask| ensures mask[b] != 0 { FlagNonzero(Avail(c.vout), 8 * b); }
    NoneZero(mask);
    StraddlesMeans(8, Flags(c));
  }
}
