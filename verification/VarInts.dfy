/**
  Variable-length integers: base 128, most significant digit first, every digit
  but the last with the high bit set and one less than in plain base 128.
 */
module VarInts {
  import opened Util

  type Byte = b: nat | b < 256

  /** Digits that are not the last. */
  function Leading(n: nat): (r: seq<Byte>)
    ensures r != []
  {
    if n <= 127 then [128 + n] else Leading(n / 128 - 1) + [128 + n % 128]
  }

  function Encode(n: nat): (r: seq<Byte>)
    ensures r != []
  {
    if n <= 127 then [n] else Leading(n / 128 - 1) + [n % 128]
  }

  /** The number whose encoding is written for n: of a negative one only the lowest seven bits are. */
  function Written(n: int): nat { if n < 0 then n % 128 else n }

  /** What the reader makes of a stream, given the digits so far; nothing if the stream ends too early. */
  function ReadFrom(n: nat, s: seq<Byte>): Option<(nat, seq<Byte>)>
    decreases |s|
  {
    if s == [] then None
    else
      var m := n * 128 + s[0] % 128;
      if s[0] >= 128 then ReadFrom(m + 1, s[1..]) else Some((m, s[1..]))
  }

  function Read(s: seq<Byte>): Option<(nat, seq<Byte>)> { ReadFrom(0, s) }

  // ----- one encoding for every number -----

  lemma {:induction false} ReadLeading(n: nat, s: seq<Byte>)
    ensures ReadFrom(0, Leading(n) + s) == ReadFrom(n + 1, s)
  {
    var last: Byte := 128 + n % 128;
    assert ([last] + s)[1..] == s;
    if n > 127 {
      ReadLeading(n / 128 - 1, [last] + s);
      assert Leading(n) + s == Leading(n / 128 - 1) + ([last] + s);
    }
  }

  /** Reading gives back what was written, and leaves what follows. */
  lemma RoundTrip(n: nat, rest: seq<Byte>)
    ensures Read(Encode(n) + rest) == Some((n, rest))
  {
    var last: Byte := n % 128;
    assert ([last] + rest)[1..] == rest;
    if n > 127 {
      ReadLeading(n / 128 - 1, [last] + rest);
      assert Encode(n) + rest == Leading(n / 128 - 1) + ([last] + rest);
    }
  }

  /** Of the numbers of a signed type, exactly those that are not negative come back. */
  lemma SignedRoundTrip(n: int, rest: seq<Byte>)
    ensures Read(Encode(Written(n)) + rest) == Some((Written(n), rest))
    ensures Written(n) == n <==> n >= 0
  {
    RoundTrip(Written(n), rest);
  }

  lemma {:induction false} ReadsEncoding(p: nat, s: seq<Byte>)
    requires ReadFrom(p + 1, s).Some?
    ensures var (n, rest) := ReadFrom(p + 1, s).value; Leading(p) + s == Encode(n) + rest
    decreases |s|
  {
    var m := (p + 1) * 128 + s[0] % 128;
    assert m / 128 == p + 1 && m % 128 == s[0] % 128;
    assert s == [s[0]] + s[1..];
    if s[0] >= 128 {
      ReadsEncoding(m, s[1..]);
      assert Leading(m) == Leading(p) + [s[0]];
      assert Leading(p) + s == Leading(m) + s[1..];
    } else {
      assert Encode(m) == Leading(p) + [s[0]];
      assert Leading(p) + s == Encode(m) + s[1..];
    }
  }

  /** Whatever can be read is the encoding of the number read: there is no other. */
  lemma OneEncoding(s: seq<Byte>)
    ensures Read(s).Some? <==> exists n: nat, rest :: s == Encode(n) + rest
    ensures forall n: nat, rest :: s == Encode(n) + rest <==> Read(s) == Some((n, rest))
  {
    if Read(s).Some? {
      var (n, rest) := Read(s).value;
      assert s == [s[0]] + s[1..];
      if s[0] >= 128 {
        ReadsEncoding(s[0] % 128, s[1..]);
        assert Leading(s[0] % 128) == [s[0]];
      }
      assert s == Encode(n) + rest;
    }
    forall n: nat, rest | s == Encode(n) + rest ensures Read(s) == Some((n, rest)) { RoundTrip(n, rest); }
  }

  /** Every stream with a last digit somewhere can be read. */
  lemma {:induction false} ReadsToLastDigit(n: nat, s: seq<Byte>)
    ensures ReadFrom(n, s).Some? <==> exists i | 0 <= i < |s| :: s[i] < 128
    decreases |s|
  {
    if s != [] {
      ReadsToLastDigit(n * 128 + s[0] % 128 + 1, s[1..]);
      if s[0] >= 128 && exists i | 0 <= i < |s| :: s[i] < 128 {
        var i :| 0 <= i < |s| && s[i] < 128;
        assert s[1..][i - 1] == s[i];
      }
    }
  }

  // ----- sizes -----

  /** The first number that takes more than k bytes. */
  function Threshold(k: nat): nat { if k == 0 then 0 else 128 * (Threshold(k - 1) + 1) }

  lemma ShorterByOne(n: nat)
    requires n > 127
    ensures |Encode(n)| == 1 + |Encode(n / 128 - 1)| == |Leading(n)|
  {
  }

  lemma {:induction false} SizeIs(n: nat, k: nat)
    ensures |Encode(n)| <= k <==> n < Threshold(k)
  {
    if n > 127 {
      ShorterByOne(n);
      if k > 0 { SizeIs(n / 128 - 1, k - 1); }
    }
  }

  /** The documented sizes. */
  lemma Thresholds()
    ensures Threshold(1) == 128 && Threshold(2) == 16512 && Threshold(3) == 2113664
  {
    assert Threshold(1) == 128 && Threshold(2) == 16512;
  }

  lemma {:induction false} ThresholdGrows(k: nat)
    requires k > 0
    ensures Threshold(k) >= Pow2(7 * k)
  {
    Pow2Sum(7 * (k - 1), 7);
    assert Pow2(3) == 8 && Pow2(7) == 16 * Pow2(3);
    if k > 1 { ThresholdGrows(k - 1); }
  }

  lemma Pow2Mono(a: nat, b: nat)
    requires a <= b
    ensures Pow2(a) <= Pow2(b)
  {
    Pow2Sum(a, b - a);
    MulMono(1, Pow2(b - a), Pow2(a));
  }

  /** The buffer of the writer suffices for a type of any width. */
  lemma BufferFits(n: nat, width: nat)
    requires width > 0 && n < Pow2(8 * width)
    ensures |Encode(n)| <= (width * 8 + 6) / 7
  {
    hide Pow2, Threshold, Encode;
    var k := (width * 8 + 6) / 7;
    ThresholdGrows(k);
    Pow2Mono(8 * width, 7 * k);
    SizeIs(n, k);
  }

  // ----- the loops -----

  method GetSizeOfVarInt(k: int) returns (nRet: nat)
    ensures nRet == |Encode(Written(k))|
  {
    var n := k;
    nRet := 0;
    while true
      invariant n == k || n >= 0
      invariant nRet + |Encode(Written(n))| == |Encode(Written(k))|
      decreases n
    {
      nRet := nRet + 1;
      if n <= 0x7F { break; }
      ShorterByOne(n);
      n := n / 128 - 1;
    }
  }

  /** What is left to put in front of the digits already in the buffer. */
  function Front(n: int, len: nat): seq<Byte>
    requires len > 0 ==> n >= 0
  {
    if len == 0 then Encode(Written(n)) else Leading(n)
  }

  lemma FrontIsLeading(n: nat, len: nat)
    requires len > 0
    ensures Front(n, len) == Leading(n)
  {
  }

  lemma WrittenFits(k: int, width: nat)
    requires width > 0 && k < Pow2(8 * width)
    ensures |Encode(Written(k))| <= (width * 8 + 6) / 7 && Front(k, 0) == Encode(Written(k))
  {
    hide Pow2;
    if k >= 0 { BufferFits(k, width); }
  }

  lemma FrontStep(n: int, len: nat)
    requires len > 0 ==> n >= 0
    ensures var digit: Byte := n % 128 + if len > 0 then 128 else 0;
            Front(n, len) == (if n <= 127 then [] else Leading(n / 128 - 1)) + [digit]
  {
  }

  /** The digits go into a buffer from the last one on; width is the number of bytes of the integer type. */
  method WriteVarInt(k: int, width: nat) returns (os: seq<Byte>)
    requires width > 0 && k < Pow2(8 * width)
    ensures os == Encode(Written(k))
  {
    hide Pow2, Encode, Leading, Front, Written;
    var tmp := new Byte[(width * 8 + 6) / 7];
    ghost var all := Encode(Written(k));
    var n, len := k, 0;
    WrittenFits(k, width);
    while true
      invariant (n == k && len == 0) || n >= 0
      invariant len < |all| <= tmp.Length && all[..|all| - len] == Front(n, len)
      invariant forall j | 0 <= j < len :: tmp[j] == all[|all| - 1 - j]
      decreases n
    {
      tmp[len] := n % 128 + if len > 0 then 128 else 0;
      FrontStep(n, len);
      assert all[..|all| - len][|all| - 1 - len] == all[|all| - 1 - len];
      if n <= 0x7F { break; }
      assert all[..|all| - len - 1] == all[..|all| - len][..|all| - len - 1];
      FrontIsLeading(n / 128 - 1, len + 1);
      n := n / 128 - 1;
      len := len + 1;
    }
    os := [];
    while true
      invariant 0 <= len < |all| && os == all[..|all| - 1 - len]
      invariant forall j | 0 <= j <= len :: tmp[j] == all[|all| - 1 - j]
      decreases len
    {
      os := os + [tmp[len]];
      if len == 0 { break; }
      len := len - 1;
    }
  }

  method ReadVarInt(s: seq<Byte>) returns (r: Option<(nat, seq<Byte>)>)
    ensures r == Read(s)
  {
    var n: nat, pos := 0, 0;
    while true
      invariant 0 <= pos <= |s| && Read(s) == ReadFrom(n, s[pos..])
      decreases |s| - pos
    {
      if pos == |s| { return None; }
      var chData := s[pos];
      assert s[pos..][1..] == s[pos + 1..];
      pos := pos + 1;
      n := n * 128 + chData % 128;
      if chData >= 128 { n := n + 1; } else { return Some((n, s[pos..])); }
    }
  }

  // ----- examples -----

  /** The documented examples, with the encodings the program produces where the documentation has others. */
  lemma KnownEncodings()
    ensures Encode(0) == [0x00] && Encode(1) == [0x01] && Encode(127) == [0x7F]
    ensures Encode(128) == [0x80, 0x00] && Encode(255) == [0x80, 0x7F] && Encode(256) == [0x81, 0x00]
    ensures Encode(16383) == [0xFE, 0x7F] && Encode(16384) == [0xFF, 0x00] && Encode(16511) == [0xFF, 0x7F]
    ensures Encode(65535) == [0x82, 0xFE, 0x7F] && Encode(0x1_0000_0000) == [0x8E, 0xFE, 0xFE, 0xFF, 0x00]
  {
    assert Leading(510) == Leading(2) + [0xFE];
    assert Leading(2046) == Leading(14) + [0xFE] && Leading(262142) == Leading(2046) + [0xFE];
    assert Leading(33554431) == Leading(262142) + [0xFF];
  }
}
