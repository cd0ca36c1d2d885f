/**
  Amounts compressed for storage: trailing zeros go into an exponent, the last
  digit into a factor of nine. On natural numbers the two directions are inverse
  to each other; on 64-bit words as long as the compressed amount fits.
 */
module Compressor {
  /** The amount without its trailing zeros, but at most nine of them, and how many those are. */
  function Shift(n: nat, e: nat): (r: (nat, nat))
    requires n > 0 && e <= 9
    ensures r.0 > 0 && e <= r.1 <= 9 && (r.1 < 9 ==> r.0 % 10 != 0)
  {
    if n % 10 == 0 && e < 9 then Shift(n / 10, e + 1) else (n, e)
  }

  function Compress(n: nat): nat {
    if n == 0 then 0
    else
      var (m, e) := Shift(n, 0);
      if e < 9 then 1 + (m / 10 * 9 + m % 10 - 1) * 10 + e else 1 + (m - 1) * 10 + 9
  }

  /** n followed by e zeros. */
  function Times10(n: nat, e: nat): nat
    decreases e
  {
    if e == 0 then n else Times10(n * 10, e - 1)
  }

  function Decompress(x: nat): nat {
    if x == 0 then 0
    else
      var e, y := (x - 1) % 10, (x - 1) / 10;
      Times10(if e < 9 then y / 9 * 10 + y % 9 + 1 else y + 1, e)
  }

  lemma {:induction false} ShiftTimes(n: nat, e: nat)
    requires n > 0 && e <= 9
    ensures var (m, f) := Shift(n, e); Times10(m, f - e) == n
  {
    if n % 10 == 0 && e < 9 {
      ShiftTimes(n / 10, e + 1);
      var (m, f) := Shift(n / 10, e + 1);
      TimesTail(m, f - e - 1);
    }
  }

  lemma {:induction false} TimesTail(n: nat, e: nat)
    ensures Times10(n, e + 1) == Times10(n, e) * 10
    decreases e
  {
    if e > 0 { TimesTail(n * 10, e - 1); }
  }

  lemma {:induction false} TimesShift(m: nat, f: nat, e: nat)
    requires m > 0 && e <= f <= 9 && (f < 9 ==> m % 10 != 0)
    ensures Times10(m, f - e) > 0 && Shift(Times10(m, f - e), e) == (m, f)
    decreases f - e
  {
    if e < f {
      TimesShift(m, f, e + 1);
      TimesTail(m, f - e - 1);
    }
  }

  /** Decompressing undoes compressing. */
  lemma DecompressCompress(n: nat)
    ensures Decompress(Compress(n)) == n
  {
    if n > 0 {
      ShiftTimes(n, 0);
      var (m, e) := Shift(n, 0);
      if e < 9 {
        var y := m / 10 * 9 + m % 10 - 1;
        assert y / 9 == m / 10 && y % 9 == m % 10 - 1;
        assert (Compress(n) - 1) / 10 == y && (Compress(n) - 1) % 10 == e;
      } else {
        assert (Compress(n) - 1) / 10 == m - 1 && (Compress(n) - 1) % 10 == 9;
      }
    }
  }

  /** Every number is the compressed form of one amount. */
  lemma CompressDecompress(x: nat)
    ensures Compress(Decompress(x)) == x
  {
    if x > 0 {
      hide Times10, Shift;
      var e, y := (x - 1) % 10, (x - 1) / 10;
      var m := if e < 9 then y / 9 * 10 + y % 9 + 1 else y + 1;
      if e < 9 { DigitAbove(y / 9, y % 9); }
      TimesShift(m, e, 0);
    }
  }

  lemma DigitAbove(q: nat, r: nat)
    requires r < 9
    ensures (q * 10 + r + 1) % 10 == r + 1 && (q * 10 + r + 1) / 10 == q
  {
  }

  /** The stored form of some amounts: a hundredth of a coin, one coin, fifty and 21 million. */
  lemma KnownAmounts()
    ensures Compress(0) == 0 && Compress(1) == 0x1 && Compress(1000000) == 0x7
    ensures Compress(100000000) == 0x9 && Compress(5000000000) == 0x32
    ensures Compress(2100000000000000) == 0x1406f40
  {
    KnownZeros();
    hide Times10, Shift;
    TimesShift(1, 0, 0);
    TimesShift(1, 6, 0);
    TimesShift(1, 8, 0);
    TimesShift(5, 9, 0);
    TimesShift(2100000, 9, 0);
  }

  lemma KnownZeros()
    ensures Times10(1, 0) == 1 && Times10(1, 6) == 1000000 && Times10(1, 8) == 100000000
    ensures Times10(5, 9) == 5000000000 && Times10(2100000, 9) == 2100000000000000
  {
    assert Times10(1, 6) == Times10(1000, 3) && Times10(1, 8) == Times10(10000, 4);
    assert Times10(5, 9) == Times10(50000, 5) == Times10(5000000, 3);
    assert Times10(2100000, 9) == Times10(21000000000, 5) == Times10(2100000000000, 3);
  }

  // ----- 64-bit words -----

  const WORD: nat := 0x1_0000_0000_0000_0000

  type uint64 = x: nat | x < WORD

  function Wrap(n: nat): uint64 { n % WORD }

  lemma {:induction false} ShiftBound(n: nat, e: nat)
    requires n > 0 && e <= 9
    ensures var (m, f) := Shift(n, e); m <= n && (f > e ==> m <= n / 10)
  {
    if n % 10 == 0 && e < 9 { ShiftBound(n / 10, e + 1); }
  }

  /** The last amount up to which all compressed amounts fit a word; it is (2^64 - 1) / 9 + 1. */
  const LAST_SAFE: nat := 2049638230412172402

  lemma CompressFits(n: nat)
    requires n <= LAST_SAFE
    ensures Compress(n) < WORD
  {
    if n > 0 {
      ShiftBound(n, 0);
      var (m, e) := Shift(n, 0);
      if e < 9 { assert m / 10 * 9 * 10 == m * 9 - m % 10 * 9; }
    }
  }

  lemma FirstUnsafe()
    ensures Compress(LAST_SAFE + 1) == WORD + 5 && Decompress(5) == 10000
  {
    assert Shift(LAST_SAFE + 1, 0) == (LAST_SAFE + 1, 0);
    assert Decompress(5) == Times10(1, 4);
  }

  lemma WrapSmall(n: nat)
    requires n < WORD
    ensures Wrap(n) == n && Wrap(n + WORD) == n
  {
  }

  /** Without a trailing zero, only the last digit is set apart. */
  lemma CompressPlain(n: nat)
    requires n % 10 != 0
    ensures Compress(n) == 9 * n + n % 10 - 9
  {
    assert Shift(n, 0) == (n, 0);
  }

  lemma ShortFits(n: nat)
    requires n < WORD && n % 10 == 0
    ensures Compress(n) < WORD
  {
    if n > 0 {
      ShiftBound(n, 0);
      var (m, e) := Shift(n, 0);
      if e < 9 { assert m / 10 * 9 * 10 == m * 9 - m % 10 * 9; }
    }
  }

  lemma {:induction false} TimesIs(m: nat, e: nat)
    ensures Times10(m, e) == m * Times10(1, e)
    decreases e
  {
    if e > 0 {
      TimesTail(m, e - 1);
      TimesTail(1, e - 1);
      TimesIs(m, e - 1);
    }
  }

  lemma Powers()
    ensures Times10(1, 0) == 1 && Times10(1, 2) == 100 && Times10(1, 4) == 10000
    ensures Times10(1, 6) == 1000000 && Times10(1, 8) == 100000000
  {
    assert Times10(1, 2) == Times10(100, 0);
    assert Times10(1, 4) == Times10(100, 2) == Times10(10000, 0);
    assert Times10(1, 6) == Times10(100, 4) == Times10(10000, 2) == Times10(1000000, 0);
    assert Times10(1, 8) == Times10(100, 6) == Times10(10000, 4) == Times10(1000000, 2) == Times10(100000000, 0);
  }

  /**
    Factors p with an inverse u modulo 2^64 can be cancelled: below 2^64, x * p is a
    multiple of it only for x == 0.
   */
  lemma Cancel(p: nat, u: nat, v: nat, x: int, y: int)
    requires u * p == 1 + v * WORD && x * p == y * WORD && x < WORD && 0 < x + WORD
    ensures x == 0
  {
    var z := u * y - v * x;
    calc {
      x;
      x * (u * p - v * WORD);
      u * (x * p) - v * x * WORD;
      u * (y * WORD) - v * x * WORD;
      z * WORD;
    }
    assert z == 0;
  }

  /**
    The compressed amount n exceeds k words by the compressed form of m followed by
    e zeros, and that agrees with n in its low 64 bits; s and r are the last digits.
   */
  ghost predicate Rival(n: nat, k: nat, m: nat, e: nat, s: nat, r: nat, t: int) {
    && 1 <= s <= 9 && 1 <= r <= 9 && n < WORD && m < WORD
    && k * WORD <= 9 * n + s - 9 < (k + 1) * WORD
    && 9 * (n - m) == k * WORD + e + r - s
    && m * Times10(1, e) == n + t * WORD
  }

  // In each case the difference n - m is one of two numbers, as r - s is at most
  // eight; with it n is determined modulo 2^64, and that n is not in its range.

  lemma NoRival0(n: nat, m: nat, s: nat, r: nat, t: int)
    ensures !Rival(n, 5, m, 0, s, r, t)
  {
    Powers();
  }

  lemma NoRival2(n: nat, k: nat, m: nat, s: nat, r: nat, t: int)
    requires k == 3 || k == 8
    ensures !Rival(n, k, m, 2, s, r, t)
  {
    Powers();
    if Rival(n, k, m, 2, s, r, t) {
      if n - m == 6148914691236517205 {
        Cancel(99, 12670490878911611211, 68, n - 1925417731599313468, t + 23);
      } else if n - m == 6148914691236517206 {
        Cancel(99, 12670490878911611211, 68, n - 14595908610510924680, t - 45);
      } else if n - m == 16397105843297379214 {
        Cancel(99, 12670490878911611211, 68, n - 7432526512302726184, t + 49);
      } else {
        Cancel(99, 12670490878911611211, 68, n - 1656273317504785780, t + 80);
      }
      assert false;
    }
  }

  lemma NoRival4(n: nat, k: nat, m: nat, s: nat, r: nat, t: int)
    requires k == 1 || k == 6
    ensures !Rival(n, k, m, 4, s, r, t)
  {
    Powers();
    if Rival(n, k, m, 4, s, r, t) {
      if n - m == 2049638230412172402 {
        Cancel(9999, 13458245626333751279, 7295, n - 15288550632769423584, t - 7176);
      } else if n - m == 2049638230412172403 {
        Cancel(9999, 13458245626333751279, 7295, n - 10300052185393623248, t - 4472);
      } else if n - m == 12297829382473034411 {
        Cancel(9999, 13458245626333751279, 7295, n - 4486081875444583760, t + 4235);
      } else {
        Cancel(9999, 13458245626333751279, 7295, n - 17944327501778335040, t - 3060);
      }
      assert false;
    }
  }

  lemma NoRival6(n: nat, m: nat, s: nat, r: nat, t: int)
    ensures !Rival(n, 4, m, 6, s, r, t)
  {
    Powers();
    if Rival(n, 4, m, 6, s, r, t) {
      if n - m == 8198552921648689607 {
        Cancel(999999, 1672254362768354751, 90653, n - 14161661572577611840, t - 323260);
      } else {
        Cancel(999999, 1672254362768354751, 90653, n - 15833915935345966592, t - 413913);
      }
      assert false;
    }
  }

  lemma NoRival8(n: nat, k: nat, m: nat, s: nat, r: nat, t: int)
    requires k == 2 || k == 7
    ensures !Rival(n, k, m, 8, s, r, t)
  {
    Powers();
    if Rival(n, k, m, 8, s, r, t) {
      if n - m == 4099276460824344804 {
        Cancel(99999999, 300153063250403071, 1627133, n - 14480868974329830400, t - 56278725);
      } else if n - m == 4099276460824344805 {
        Cancel(99999999, 300153063250403071, 1627133, n - 14781022037580233472, t - 57905858);
      } else if n - m == 14347467612885206813 {
        Cancel(99999999, 300153063250403071, 1627133, n - 4266028162630124288, t + 54651593);
      } else {
        Cancel(99999999, 300153063250403071, 1627133, n - 4566181225880527360, t + 53024460);
      }
      assert false;
    }
  }

  /** The compressed form in terms of the shifted amount. */
  lemma CompressParts(w: nat)
    requires w > 0
    ensures var (m, e) := Shift(w, 0); Compress(w) == if e < 9 then 9 * m + m % 10 - 9 + e else 10 * m
  {
  }

  /** The last digits decide the exponent. */
  lemma LastDigits(n: nat, k: nat, m: nat, e: nat)
    requires 1 <= k <= 8 && e <= 9
    requires 9 * n + n % 10 - 9 == k * WORD + if e < 9 then 9 * m + m % 10 - 9 + e else 10 * m
    ensures e < 9 && e == 4 * k % 10
  {
    var z := 9 * (n / 10) + n % 10 - k * (WORD / 10);
    if e < 9 {
      Tens(k, e, z - 9 * (m / 10) - m % 10);
    } else {
      Odd(k, z - m);
      assert false;
    }
  }

  lemma Odd(k: nat, z: int)
    ensures 10 * z != 6 * k + 9
  {
  }

  lemma Tens(k: nat, e: nat, z: int)
    requires 6 * k + e == 10 * z && k <= 8 && e < 9
    ensures e == 4 * k % 10
  {
    assert 4 * k == 10 * (k - z) + e;
  }

  /** What an amount that wraps when compressed and still comes back would have to be. */
  lemma RivalOf(n: nat, k: nat, w: nat)
    requires n < WORD && n % 10 != 0 && 1 <= k <= 8 && w > 0
    requires Compress(n) == k * WORD + Compress(w) && Compress(w) < WORD && Wrap(w) == n
    ensures var (m, e) := Shift(w, 0);
            e < 9 && e == 4 * k % 10 && Rival(n, k, m, e, n % 10, m % 10, w / WORD)
  {
    hide Compress, Shift;
    var (m, e) := Shift(w, 0);
    CompressPlain(n);
    CompressParts(w);
    LastDigits(n, k, m, e);
    ShiftTimes(w, 0);
    TimesIs(m, e);
    assert w == n + w / WORD * WORD;
  }

  lemma NoSurvivor(n: nat)
    requires LAST_SAFE < n < WORD && n % 10 != 0
    ensures Wrap(Decompress(Wrap(Compress(n)))) != n
  {
    hide Rival, Compress, Decompress, Shift;
    CompressPlain(n);
    var k, x := Compress(n) / WORD, Wrap(Compress(n));
    var w := Decompress(x);
    assert Compress(n) == k * WORD + x && 1 <= k <= 8;
    CompressDecompress(x);
    WrapSmall(0);
    if Wrap(w) == n {
      RivalOf(n, k, w);
      var (m, e) := Shift(w, 0);
      var t := w / WORD;
      if k == 5 { NoRival0(n, m, n % 10, m % 10, t); }
      else if k == 3 || k == 8 { NoRival2(n, k, m, n % 10, m % 10, t); }
      else if k == 1 || k == 6 { NoRival4(n, k, m, n % 10, m % 10, t); }
      else if k == 4 { NoRival6(n, m, n % 10, m % 10, t); }
      else { NoRival8(n, k, m, n % 10, m % 10, t); }
      assert false;
    }
  }

  /** On words exactly the amounts up to the last safe one come back, and those that end in a zero. */
  lemma WordRoundTrip(n: uint64)
    ensures Wrap(Decompress(Wrap(Compress(n)))) == n <==> n <= LAST_SAFE || n % 10 == 0
  {
    hide Wrap, Compress, Decompress;
    if n <= LAST_SAFE || n % 10 == 0 {
      if n <= LAST_SAFE { CompressFits(n); } else { ShortFits(n); }
      DecompressCompress(n);
      WrapSmall(Compress(n));
      WrapSmall(n);
    } else {
      NoSurvivor(n);
    }
  }

  /** The largest amount the main network allows, in the smallest unit. */
  const MAX_MONEY_OUT: nat := 21148191990 * 100000000

  /** So not every allowed amount survives: the first that does not is one more than the last safe one. */
  lemma AllowedAmountLost()
    ensures forall n: nat | n <= LAST_SAFE :: Wrap(Decompress(Wrap(Compress(n)))) == n
    ensures LAST_SAFE + 1 <= MAX_MONEY_OUT
    ensures Wrap(Compress(LAST_SAFE + 1)) == 5 && Wrap(Decompress(5)) == 10000 != LAST_SAFE + 1
  {
    forall n: nat | n <= LAST_SAFE ensures Wrap(Decompress(Wrap(Compress(n)))) == n { WordRoundTrip(n); }
    FirstUnsafe();
  }

  /** Wrapping on the way and wrapping at the end come to the same. */
  lemma WrapLine(a: nat, e: nat)
    ensures Wrap(1 + Wrap(a * 10) + e) == Wrap(1 + a * 10 + e)
  {
    var q := a * 10 / WORD;
    assert a * 10 == q * WORD + Wrap(a * 10);
  }

  method CompressAmount(amount: uint64) returns (x: uint64)
    ensures x == Wrap(Compress(amount))
  {
    hide Wrap, Shift;
    if amount == 0 { ZeroWord(); return 0; }
    var word, e := Trailing(amount);
    var n: nat := word;
    if e < 9 {
      var d: nat := n % 10;
      assert 1 <= d <= 9;
      n := n / 10;
      Line9(n, d);
      WrapLine(n * 9 + d - 1, e);
      x := Wrap(1 + Wrap(Wrap(n * 9 + d - 1) * 10) + e);
    } else {
      WrapLine(n - 1, 9);
      x := Wrap(1 + Wrap((n - 1) * 10) + 9);
    }
  }

  lemma ZeroWord()
    ensures Wrap(0) == 0
  {
  }

  lemma Line9(n: nat, d: nat)
    requires 1 <= d <= 9 && n * 10 + d < WORD
    ensures Wrap(n * 9 + d - 1) == n * 9 + d - 1
  {
  }

  method Trailing(amount: uint64) returns (n: uint64, e: nat)
    requires amount > 0
    ensures Shift(amount, 0) == (n, e)
  {
    n, e := amount, 0;
    while n % 10 == 0 && e < 9
      invariant 0 < n <= amount && 0 <= e <= 9 && Shift(amount, 0) == Shift(n, e)
    {
      n := n / 10;
      e := e + 1;
    }
  }

  lemma {:induction false} TimesWrap(n: nat, e: nat)
    ensures Wrap(Times10(Wrap(n), e)) == Wrap(Times10(n, e))
    decreases e
  {
    if e > 0 {
      TimesWrap(n * 10, e - 1);
      TimesWrap(Wrap(n) * 10, e - 1);
      WrapTen(n);
    }
  }

  lemma WrapTen(n: nat)
    ensures Wrap(Wrap(n) * 10) == Wrap(n * 10)
  {
  }

  method AppendZeros(start: uint64, zeros: nat) returns (n: uint64)
    ensures n == Wrap(Times10(start, zeros))
  {
    hide Wrap;
    n := start;
    var e := zeros;
    TimesWrap(start, zeros);
    while e > 0
      invariant 0 <= e && Wrap(Times10(n, e)) == Wrap(Times10(start, zeros))
    {
      TimesWrap(n * 10, e - 1);
      n := Wrap(n * 10);
      e := e - 1;
    }
    Small(n);
  }

  lemma Small(n: uint64)
    ensures Wrap(n) == n
  {
  }

  method DecompressAmount(word: uint64) returns (n: uint64)
    ensures n == Wrap(Decompress(word))
  {
    hide Wrap, Times10;
    if word == 0 { ZeroWord(); return 0; }
    var x: nat := word - 1;
    var e: nat := x % 10;
    x := x / 10;
    if e < 9 {
      var d: nat := x % 9 + 1;
      x := x / 9;
      n := Wrap(x * 10 + d);
      TimesWrap(x * 10 + d, e);
    } else {
      n := x + 1;
    }
    n := AppendZeros(n, e);
  }
}
