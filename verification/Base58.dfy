/**
  Base58: byte strings as text without easily confused characters, with and
  without a checksum. The buffers in which the digits are computed are always
  large enough.
 */
module Base58 {
  import opened Radix
  import opened Util

  type Byte = x: nat | x < 256

  const DIGITS: string := "123456789"
  const UPPER: string := "ABCDEFGH" + "JKLMN" + "PQRSTUVWXYZ"
  const LOWER: string := "abcdefghijk" + "mnopqrstuvwxyz"
  const ALPHABET: string := DIGITS + UPPER + LOWER

  // ----- characters -----

  /** Where a character first occurs, or the length. */
  function Strchr(s: string, c: char): (k: nat)
    ensures k <= |s| && (k < |s| <==> c in s) && (k < |s| ==> s[k] == c)
  {
    if s == [] then 0 else if s[0] == c then 0 else 1 + Strchr(s[1..], c)
  }

  predicate IsSpace(c: char) { c == ' ' || '\t' <= c <= '\r' }

  lemma SpaceCodes(c: char)
    ensures IsSpace(c) <==> c as int == 32 || 9 <= c as int <= 13
  {
  }

  lemma NextChar(k: nat)
    requires k < 57
    ensures |ALPHABET| == 58 && ALPHABET[k] < ALPHABET[k + 1]
  {
    if k < 8 { NextDigit(k); }
    else if 9 <= k < 32 { NextUpper(k - 9); }
    else if 33 <= k { NextLower(k - 33); }
    else if k == 8 { assert DIGITS[8] < UPPER[0]; }
    else { assert UPPER[23] < LOWER[0]; }
  }

  lemma NextDigit(k: nat)
    requires k < 8
    ensures |DIGITS| == 9 && DIGITS[k] < DIGITS[k + 1]
  {
  }

  lemma NextUpper(k: nat)
    requires k < 23
    ensures |UPPER| == 24 && UPPER[k] < UPPER[k + 1]
  {
  }

  lemma NextLower(k: nat)
    requires k < 24
    ensures |LOWER| == 25 && LOWER[k] < LOWER[k + 1]
  {
  }

  /** The alphabet is in the order of the character codes, so no character occurs twice. */
  lemma {:induction false} AlphabetAscends(i: nat, j: nat)
    requires i < j < 58
    ensures |ALPHABET| == 58 && ALPHABET[i] < ALPHABET[j]
  {
    NextChar(j - 1);
    if i + 1 < j { AlphabetAscends(i, j - 1); }
  }

  lemma InDigits(c: char)
    ensures c in DIGITS <==> '1' <= c <= '9'
  {
    if '1' <= c <= '9' { assert DIGITS[c as int - '1' as int] == c; }
  }

  lemma InUpper(c: char)
    ensures c in UPPER <==> 'A' <= c <= 'Z' && c != 'I' && c != 'O'
  {
    var k := c as int - 'A' as int;
    if 'A' <= c <= 'H' { assert UPPER[k] == c; }
    if 'J' <= c <= 'N' { assert UPPER[k - 1] == c; }
    if 'P' <= c <= 'Z' { assert UPPER[k - 2] == c; }
  }

  lemma InLower(c: char)
    ensures c in LOWER <==> 'a' <= c <= 'z' && c != 'l'
  {
    var k := c as int - 'a' as int;
    if 'a' <= c <= 'k' { assert LOWER[k] == c; }
    if 'm' <= c <= 'z' { assert LOWER[k - 1] == c; }
  }

  /** The alphabet is the digits and letters without those easily confused. */
  lemma AlphabetIs(c: char)
    ensures c in ALPHABET <==>
            && ('0' <= c <= '9' || 'A' <= c <= 'Z' || 'a' <= c <= 'z')
            && c != '0' && c != 'O' && c != 'I' && c != 'l'
  {
    hide DIGITS, UPPER, LOWER;
    InDigits(c);
    InUpper(c);
    InLower(c);
  }

  lemma FirstAndSpaces()
    ensures |ALPHABET| == 58 && ALPHABET[0] == '1' && '1' in ALPHABET
  {
    assert DIGITS[0] == '1';
    assert ALPHABET[0] == DIGITS[0];
  }

  lemma {:induction false} StrchrFirst(s: string, k: nat)
    requires k < |s| && forall i | 0 <= i < k :: s[i] != s[k]
    ensures Strchr(s, s[k]) == k
  {
    if k > 0 {
      assert s[1..][k - 1] == s[k];
      StrchrFirst(s[1..], k - 1);
    }
  }

  /** A digit, written and looked up again. */
  lemma CharDigit(d: nat)
    requires d < 58
    ensures |ALPHABET| == 58 && Strchr(ALPHABET, ALPHABET[d]) == d && !IsSpace(ALPHABET[d]) &&
            (ALPHABET[d] == '1' <==> d == 0)
  {
    hide ALPHABET;
    FirstAndSpaces();
    forall i | 0 <= i < d ensures ALPHABET[i] != ALPHABET[d] { AlphabetAscends(i, d); }
    StrchrFirst(ALPHABET, d);
    if d > 0 { AlphabetAscends(0, d); }
  }

  predicate Valid(s: string) { forall i | 0 <= i < |s| :: s[i] in ALPHABET }

  function ToDigits(s: string): (r: seq<nat>)
    requires Valid(s)
    ensures |r| == |s| && DigitsOf(r, 58)
  {
    seq(|s|, i requires 0 <= i < |s| => Strchr(ALPHABET, s[i]))
  }

  function ToChars(d: seq<nat>): (s: string)
    requires DigitsOf(d, 58)
    ensures |s| == |d| && Valid(s)
  {
    seq(|d|, i requires 0 <= i < |d| => ALPHABET[d[i]])
  }

  lemma ToCharsToDigits(d: seq<nat>)
    requires DigitsOf(d, 58)
    ensures ToDigits(ToChars(d)) == d
  {
    forall i | 0 <= i < |d| ensures ToDigits(ToChars(d))[i] == d[i] { CharDigit(d[i]); }
  }

  lemma ToDigitsToChars(s: string)
    requires Valid(s)
    ensures ToChars(ToDigits(s)) == s
  {
  }

  // ----- counting at the front -----

  /** How many times x stands at the front. */
  function Lead<T(==)>(s: seq<T>, x: T): (k: nat)
    ensures k <= |s| && (forall i | 0 <= i < k :: s[i] == x) && (k < |s| ==> s[k] != x)
  {
    if s == [] || s[0] != x then 0 else 1 + Lead(s[1..], x)
  }

  lemma {:induction false} LeadOf<T>(k: nat, s: seq<T>, x: T)
    requires s != [] ==> s[0] != x
    ensures Lead(Repeat(k, x) + s, x) == k && (Repeat(k, x) + s)[k..] == s
  {
    if k > 0 {
      assert (Repeat(k, x) + s)[1..] == Repeat(k - 1, x) + s;
      LeadOf(k - 1, s, x);
    } else {
      assert Repeat(k, x) + s == s;
    }
  }

  lemma LeadSplit<T>(s: seq<T>, x: T)
    ensures s == Repeat(Lead(s, x), x) + s[Lead(s, x)..]
  {
  }

  function Spaces(s: string): (k: nat)
    ensures k <= |s| && (forall i | 0 <= i < k :: IsSpace(s[i])) && (k < |s| ==> !IsSpace(s[k]))
  {
    if s == [] || !IsSpace(s[0]) then 0 else 1 + Spaces(s[1..])
  }

  /** How many characters stand before the first space. */
  function Word(s: string): (k: nat)
    ensures k <= |s| && (forall i | 0 <= i < k :: !IsSpace(s[i])) && (k < |s| ==> IsSpace(s[k]))
  {
    if s == [] || IsSpace(s[0]) then 0 else 1 + Word(s[1..])
  }

  // ----- what is computed -----

  function Encode(v: seq<Byte>): (s: string)
    ensures Valid(s)
  {
    var k := Lead(v, 0);
    DigitsAre(Value(v[k..], 256), 58);
    FirstAndSpaces();
    Repeat(k, '1') + ToChars(Digits(Value(v[k..], 256), 58))
  }

  /** The text without the spaces around it, if nothing but spaces follows its first word. */
  function Stripped(s: string): Option<string> {
    var t := s[Spaces(s)..];
    if Spaces(t[Word(t)..]) == |t| - Word(t) then Some(t[..Word(t)]) else None
  }

  function DecodeWord(w: string): seq<Byte>
    requires Valid(w)
  {
    var k := Lead(w, '1');
    DigitsAre(Value(ToDigits(w[k..]), 58), 256);
    Repeat(k, 0) + Digits(Value(ToDigits(w[k..]), 58), 256)
  }

  function Decode(s: string): Option<seq<Byte>> {
    match Stripped(s)
    case None => None
    case Some(w) => if Valid(w) then Some(DecodeWord(w)) else None
  }

  /** Encodings the node's tests fix. */
  lemma KnownEncodings()
    ensures Encode([]) == "" && Encode([0x61]) == "2g" && Encode([0x62, 0x62, 0x62]) == "a3gV"
    ensures Encode([0, 0, 0]) == "111"
  {
    KnownNumbers();
    hide Digits, Value, ALPHABET;
    KnownChars();
    EncodeSome([0x61], [1, 39]);
    EncodeSome([0x62, 0x62, 0x62], [33, 2, 39, 28]);
    assert ToChars([1, 39]) == ['2', 'g'] && ToChars([33, 2, 39, 28]) == ['a', '3', 'g', 'V'];
    assert Lead<Byte>([0], 0) == 1 && Lead<Byte>([0, 0], 0) == 2;
    assert Repeat(1, '1') == ['1'] && Repeat(2, '1') == ['1', '1'];
  }

  lemma EncodeSome(v: seq<Byte>, d: seq<nat>)
    requires v != [] && v[0] != 0 && DigitsOf(d, 58) && Digits(Value(v, 256), 58) == d
    ensures Encode(v) == ToChars(d)
  {
    assert v[0..] == v && Repeat(0, '1') + ToChars(d) == ToChars(d);
  }

  lemma KnownNumbers()
    ensures Value([], 256) == 0 && Digits(0, 58) == []
    ensures Value([0x61], 256) == 97 && Digits(97, 58) == [1, 39]
    ensures Value([0x62, 0x62, 0x62], 256) == 6447714 && Digits(6447714, 58) == [33, 2, 39, 28]
  {
    assert Pow(256, 2) == 65536;
    assert [0x62, 0x62, 0x62][1..] == [0x62, 0x62] && [0x62, 0x62][1..] == [0x62];
    assert Digits(33, 58) == [33] && Digits(1, 58) == [1];
    assert Digits(1916, 58) == [33, 2] && Digits(111167, 58) == [33, 2, 39];
  }

  lemma KnownChars()
    ensures |ALPHABET| == 58 && ALPHABET[1] == '2' && ALPHABET[2] == '3' && ALPHABET[28] == 'V'
    ensures ALPHABET[33] == 'a' && ALPHABET[39] == 'g'
  {
    assert ALPHABET[1] == DIGITS[1] && ALPHABET[2] == DIGITS[2] && ALPHABET[28] == UPPER[19];
    assert ALPHABET[33] == LOWER[0] && ALPHABET[39] == LOWER[6];
  }

  // ----- round trips -----

  lemma ValidWord(w: string)
    requires Valid(w)
    ensures Stripped(w) == Some(w)
  {
    forall i | 0 <= i < |w| ensures !IsSpace(w[i]) { CharDigit(Strchr(ALPHABET, w[i])); }
    assert Spaces(w) == 0 && w[0..] == w;
    assert Word(w) == |w| && w[..|w|] == w;
  }

  lemma FirstChar(d: seq<nat>)
    requires DigitsOf(d, 58) && d != []
    ensures ToChars(d)[0] == '1' <==> d[0] == 0
  {
    CharDigit(d[0]);
  }

  lemma EncodedWord(v: seq<Byte>)
    ensures DecodeWord(Encode(v)) == v
  {
    hide Value, Digits, ToChars, ToDigits;
    var k := Lead(v, 0);
    var p: seq<Byte> := v[k..];
    DigitsAre(Value(p, 256), 58);
    var d := Digits(Value(p, 256), 58);
    if d != [] { FirstChar(d); }
    LeadOf(k, ToChars(d), '1');
    ToCharsToDigits(d);
    DigitsUnique(p, 256);
    LeadSplit(v, 0);
  }

  /** Decoding what was encoded gives the bytes back. */
  lemma DecodeEncode(v: seq<Byte>)
    ensures Decode(Encode(v)) == Some(v)
  {
    ValidWord(Encode(v));
    EncodedWord(v);
  }

  lemma WordStart(w: string, k: nat)
    requires Valid(w) && k < |w| && w[k] != '1'
    ensures ToDigits(w[k..])[0] != 0
  {
    CharDigit(Strchr(ALPHABET, w[k]));
  }

  lemma DecodedWord(w: string)
    requires Valid(w)
    ensures Encode(DecodeWord(w)) == w
  {
    hide ALPHABET, Digits, Value, ToChars, Strchr, Lead;
    var k := Lead(w, '1');
    var d := ToDigits(w[k..]);
    if d != [] { WordStart(w, k); }
    DigitsUnique(d, 58);
    ToDigitsToChars(w[k..]);
    assert ToChars(Digits(Value(d, 58), 58)) == w[k..];
    DigitsAre(Value(d, 58), 256);
    var p: seq<Byte> := Digits(Value(d, 58), 256);
    LeadOf(k, p, 0);
    LeadSplit(w, '1');
    assert DecodeWord(w) == Repeat(k, 0) + p;
    assert DecodeWord(w)[k..] == p;
  }

  /**
    Exactly the strings that are one word of the alphabet between spaces decode, and
    encoding the result gives the word back.
   */
  lemma EncodeDecode(s: string)
    ensures Decode(s).Some? <==> Stripped(s).Some? && Valid(Stripped(s).value)
    ensures Decode(s).Some? ==> Stripped(s) == Some(Encode(Decode(s).value))
  {
    if Decode(s).Some? { DecodedWord(Stripped(s).value); }
  }

  /** Nothing but the spaces around a word is lost. */
  lemma StrippedWord(s: string)
    ensures Stripped(s).Some? ==>
      exists i, j :: 0 <= i <= j <= |s| && s[i..j] == Stripped(s).value &&
        (forall k | 0 <= k < |s| && !(i <= k < j) :: IsSpace(s[k])) && forall k | i <= k < j :: !IsSpace(s[k])
  {
    var i := Spaces(s);
    var t := s[i..];
    if Stripped(s).Some? {
      var j := i + Word(t);
      assert s[i..j] == t[..Word(t)];
      forall k | j <= k < |s| ensures IsSpace(s[k]) { assert s[k] == t[Word(t)..][k - j]; }
      forall k | i <= k < j ensures !IsSpace(s[k]) { assert s[k] == t[k - i]; }
    }
  }

  // ----- the computation -----

  /** Without its leading zeros, a string of digits is the shortest one for its value. */
  lemma StripZeros(s: seq<nat>, b: nat)
    requires b > 1 && DigitsOf(s, b)
    ensures s[Lead(s, 0)..] == Digits(Value(s, b), b)
  {
    hide Value, Digits, Pow;
    var k := Lead(s, 0);
    LeadSplit(s, 0);
    assert DigitsOf(s[k..], b) by {
      forall i | 0 <= i < |s[k..]| ensures s[k..][i] < b { assert s[k..][i] == s[k + i]; }
    }
    ValueZeros(k, s[k..], b);
    DigitsUnique(s[k..], b);
  }

  /** How many of the elements from a position on equal x. */
  method CountLead<T(==)>(s: seq<T>, x: T) returns (k: nat)
    ensures k == Lead(s, x)
  {
    k := 0;
    while k < |s| && s[k] == x
      invariant k <= |s| && Lead(s, x) == k + Lead(s[k..], x)
    {
      assert s[k..][1..] == s[k + 1..];
      k := k + 1;
    }
  }

  /** The digits of p in base 58, computed in a buffer of zeros. */
  method ToBase58(p: seq<Byte>, b58: array<nat>)
    requires b58.Length == EncodeSize(|p|) && forall i | 0 <= i < b58.Length :: b58[i] == 0
    modifies b58
    ensures DigitsOf(b58[..], 58) && Value(b58[..], 58) == Value(p, 256)
  {
    hide Value, Pow, EncodeSize;
    ZeroBuffer(b58[..], 58);
    var i := 0;
    assert p[..i] == [];
    while i < |p|
      invariant i <= |p| && DigitsOf(b58[..], 58)
      invariant Value(b58[..], 58) == Value(p[..i], 256)
    {
      EncodeRoom(p[..i], p[i], |p|);
      assert p[..i + 1] == p[..i] + [p[i]];
      var carry := MulAdd(b58, 58, 256, p[i]);
      NoCarry(Value(b58[..], 58), carry, Pow(58, b58.Length), Value(p[..i + 1], 256));
      assert carry == 0;
      i := i + 1;
    }
    assert p[..i] == p;
  }

  method EncodeBase58(v: seq<Byte>) returns (str: string)
    ensures str == Encode(v)
  {
    hide Value, Digits, ALPHABET;
    var zeroes := CountLead(v, 0);
    var b58 := new nat[EncodeSize(|v| - zeroes)](i => 0);
    ToBase58(v[zeroes..], b58);
    StripZeros(b58[..], 58);
    var it := CountLead(b58[..], 0);
    DigitsAre(Value(v[zeroes..], 256), 58);
    var chars := Translate(b58[..][it..]);
    str := Repeat(zeroes, '1') + chars;
  }

  method Translate(d: seq<nat>) returns (str: string)
    requires DigitsOf(d, 58)
    ensures str == ToChars(d)
  {
    hide ALPHABET;
    FirstAndSpaces();
    str := "";
    for it := 0 to |d|
      invariant |str| == it && forall i | 0 <= i < it :: str[i] == ALPHABET[d[i]]
    {
      str := str + [ALPHABET[d[it]]];
    }
  }

  lemma {:induction false} ZeroBuffer(s: seq<nat>, b: nat)
    requires b > 0 && forall i | 0 <= i < |s| :: s[i] == 0
    ensures DigitsOf(s, b) && Value(s, b) == 0 && Value([], b) == 0
    ensures forall c: nat :: Value([], c) == 0
  {
    if s != [] { ZeroBuffer(s[1..], b); }
  }

  /** One byte more still fits the buffer. */
  lemma EncodeRoom(p: seq<Byte>, d: Byte, n: nat)
    requires |p| < n
    ensures Value(p + [d], 256) == Value(p, 256) * 256 + d < Pow(58, EncodeSize(n))
  {
    ValueAppend(p, d, 256);
    ValueBound(p + [d], 256);
    PowMono(256, |p| + 1, n);
    EncodeFits(n);
  }

  /** One character more still fits the buffer. */
  lemma DecodeRoom(p: seq<nat>, d: nat, n: nat)
    requires DigitsOf(p, 58) && d < 58 && |p| < n
    ensures Value(p + [d], 58) == Value(p, 58) * 58 + d < Pow(256, DecodeSize(n))
  {
    ValueAppend(p, d, 58);
    ValueBound(p + [d], 58);
    PowMono(58, |p| + 1, n);
    DecodeFits(n);
  }

  method SkipSpaces(psz: string) returns (k: nat)
    ensures k == Spaces(psz)
  {
    k := 0;
    while k < |psz| && IsSpace(psz[k])
      invariant k <= |psz| && Spaces(psz) == k + Spaces(psz[k..])
    {
      assert psz[k..][1..] == psz[k + 1..];
      k := k + 1;
    }
  }

  /**
    The digits up to the next space, computed in b256. Answers how far it got, or
    nothing at the first character outside the alphabet.
   */
  method ReadDigits(psz: string, b256: array<nat>) returns (at: Option<nat>)
    requires b256.Length == DecodeSize(|psz|) && forall i | 0 <= i < b256.Length :: b256[i] == 0
    modifies b256
    ensures DigitsOf(b256[..], 256)
    ensures at.None? ==> !Valid(psz[..Word(psz)])
    ensures at.Some? ==>
            at.value == Word(psz) && Valid(psz[..at.value]) &&
            Value(b256[..], 256) == Value(ToDigits(psz[..at.value]), 58)
  {
    hide Value, Pow, ALPHABET;
    ZeroBuffer(b256[..], 256);
    FirstAndSpaces();
    var p := 0;
    assert psz[..0] == "" && ToDigits(psz[..0]) == [];
    while p < |psz| && !IsSpace(psz[p])
      invariant p <= |psz| && (forall i | 0 <= i < p :: !IsSpace(psz[i])) && Word(psz) == p + Word(psz[p..])
      invariant DigitsOf(b256[..], 256) && Valid(psz[..p]) && Value(b256[..], 256) == Value(ToDigits(psz[..p]), 58)
    {
      assert psz[p..][1..] == psz[p + 1..];
      var ch := Strchr(ALPHABET, psz[p]);
      if ch == |ALPHABET| {
        assert psz[..Word(psz)][p] == psz[p];
        return None;
      }
      assert psz[..p + 1] == psz[..p] + [psz[p]];
      ghost var done := ToDigits(psz[..p]);
      assert ToDigits(psz[..p + 1]) == done + [ch];
      DecodeRoom(done, ch, |psz|);
      var carry := MulAdd(b256, 256, 58, ch);
      NoCarry(Value(b256[..], 256), carry, Pow(256, b256.Length), Value(done + [ch], 58));
      assert carry == 0;
      p := p + 1;
    }
    at := Some(p);
  }

  /** What decoding comes to, once the spaces and the ones in front are passed. */
  lemma DecodeIs(psz: string, t: string, rest: string)
    requires t == psz[Spaces(psz)..] && rest == t[Lead(t, '1')..]
    ensures var ends, valid := Spaces(rest[Word(rest)..]) == |rest| - Word(rest), Valid(rest[..Word(rest)]);
            && (Decode(psz).Some? <==> ends && valid)
            && (ends && valid ==> Valid(t[..Word(t)]) && Decode(psz) == Some(DecodeWord(t[..Word(t)])))
    ensures Lead(t[..Word(t)], '1') == Lead(t, '1') && t[..Word(t)][Lead(t, '1')..] == rest[..Word(rest)]
  {
    hide DecodeWord, Word, Lead, Spaces, Valid;
    WordSplit(t);
  }

  method DecodeBase58(psz: string) returns (vch: Option<seq<Byte>>)
    ensures vch == Decode(psz)
  {
    hide Decode, DecodeWord, Word, Lead, Spaces, Valid, ALPHABET, Value, Digits, ToDigits;
    var start := SkipSpaces(psz);
    ghost var t := psz[start..];
    var zeroes := CountLead(psz[start..], '1');
    var rest := psz[start..][zeroes..];
    DecodeIs(psz, t, rest);
    var b256 := new nat[DecodeSize(|rest|)](i => 0);
    var at := ReadDigits(rest, b256);
    if at.None? { return None; }
    var after := SkipSpaces(rest[at.value..]);
    if at.value + after != |rest| { return None; }
    StripZeros(b256[..], 256);
    var it := CountLead(b256[..], 0);
    assert b256[..][it..] == b256[it..];
    DigitsAre(Value(b256[..], 256), 256);
    Assembled(t[..Word(t)], zeroes, b256[it..]);
    vch := Some(Bytes(zeroes, b256[it..]));
  }

  function Bytes(zeroes: nat, d: seq<nat>): seq<Byte>
    requires DigitsOf(d, 256)
  {
    Repeat(zeroes, 0) + d
  }

  /** The ones at the front belong to the word, and what follows them is the rest of it. */
  lemma WordSplit(t: string)
    ensures var k := Lead(t, '1');
            && Word(t) == k + Word(t[k..]) && t[..Word(t)][k..] == t[k..][..Word(t[k..])] &&
               Lead(t[..Word(t)], '1') == k
            && t[Word(t)..] == t[k..][Word(t[k..])..]
            && (Valid(t[..Word(t)]) <==> Valid(t[k..][..Word(t[k..])]))
  {
    OnesAreWord(t);
    var k := Lead(t, '1');
    FirstAndSpaces();
    LeadPrefix(t, Word(t), '1');
    var w := t[..Word(t)];
    assert t[..Word(t)][k..] == t[k..][..Word(t[k..])];
    if Valid(w[k..]) {
      forall i | 0 <= i < |w| ensures w[i] in ALPHABET { if i >= k { assert w[i] == w[k..][i - k]; } }
    }
  }

  lemma {:induction false} OnesAreWord(t: string)
    ensures Word(t) == Lead(t, '1') + Word(t[Lead(t, '1')..])
  {
    if t != [] && t[0] == '1' {
      OnesAreWord(t[1..]);
      assert t[1..][Lead(t[1..], '1')..] == t[Lead(t, '1')..];
    } else {
      assert t[0..] == t;
    }
  }

  lemma {:induction false} LeadPrefix(t: string, n: nat, x: char)
    requires Lead(t, x) <= n <= |t|
    ensures Lead(t[..n], x) == Lead(t, x)
  {
    if n > 0 && t[0] == x {
      LeadPrefix(t[1..], n - 1, x);
      assert t[..n][1..] == t[1..][..n - 1];
    }
  }

  lemma Assembled(w: string, zeroes: nat, d: seq<nat>)
    requires Valid(w) && zeroes == Lead(w, '1') && DigitsOf(d, 256)
    requires d == Digits(Value(ToDigits(w[zeroes..]), 58), 256)
    ensures Bytes(zeroes, d) == DecodeWord(w)
  {
  }

  // ----- with a checksum -----

  /** The double hash, of which the first four bytes are used; any function will do. */
  type HashFunction = seq<Byte> -> seq<Byte>

  ghost predicate LongEnough(hash: HashFunction) { forall v: seq<Byte> :: |hash(v)| >= 4 }

  function EncodeCheck(hash: HashFunction, v: seq<Byte>): string
    requires LongEnough(hash)
  {
    Encode(v + hash(v)[..4])
  }

  function DecodeCheck(hash: HashFunction, s: string): Option<seq<Byte>>
    requires LongEnough(hash)
  {
    match Decode(s)
    case None => None
    case Some(v) =>
      if |v| < 4 || hash(v[..|v| - 4])[..4] != v[|v| - 4..] then None else Some(v[..|v| - 4])
  }

  /** What was encoded with a checksum decodes to itself. */
  lemma DecodeEncodeCheck(hash: HashFunction, v: seq<Byte>)
    requires LongEnough(hash)
    ensures DecodeCheck(hash, EncodeCheck(hash, v)) == Some(v)
  {
    var w := v + hash(v)[..4];
    DecodeEncode(w);
    assert w[..|w| - 4] == v && w[|w| - 4..] == hash(v)[..4];
  }

  /** Only what is, apart from spaces around it, the encoding of the result with its checksum decodes. */
  lemma EncodeDecodeCheck(hash: HashFunction, s: string)
    requires LongEnough(hash)
    ensures DecodeCheck(hash, s).Some? ==> Stripped(s) == Some(EncodeCheck(hash, DecodeCheck(hash, s).value))
    ensures forall v :: Stripped(s) == Some(EncodeCheck(hash, v)) ==> DecodeCheck(hash, s) == Some(v)
  {
    hide Encode;
    EncodeDecode(s);
    if DecodeCheck(hash, s).Some? {
      var v := Decode(s).value;
      assert v == v[..|v| - 4] + hash(v[..|v| - 4])[..4];
    }
    forall v | Stripped(s) == Some(EncodeCheck(hash, v)) ensures DecodeCheck(hash, s) == Some(v) {
      var w := EncodeCheck(hash, v);
      DecodeEncodeCheck(hash, v);
      ValidWord(w);
      assert Decode(s) == Decode(w);
    }
  }

  method EncodeBase58Check(hash: HashFunction, vchIn: seq<Byte>) returns (str: string)
    requires LongEnough(hash)
    ensures str == EncodeCheck(hash, vchIn)
  {
    var vch := vchIn;
    var h := hash(vch);
    vch := vch + h[..4];
    str := EncodeBase58(vch);
  }

  method DecodeBase58Check(hash: HashFunction, psz: string) returns (vchRet: Option<seq<Byte>>)
    requires LongEnough(hash)
    ensures vchRet == DecodeCheck(hash, psz)
  {
    vchRet := DecodeBase58(psz);
    if vchRet.None? || |vchRet.value| < 4 { return None; }
    var v := vchRet.value;
    // re-calculate the checksum
    var h := hash(v[..|v| - 4]);
    if h[..4] != v[|v| - 4..] { return None; }
    vchRet := Some(v[..|v| - 4]);
  }
}
