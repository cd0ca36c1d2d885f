/**
  Numbers as big-endian digits: values, shortest digit strings, multiplying and
  adding in place, and how many digits of one base make up for those of another.
 */
module Radix {
  // ----- powers -----

  function Pow(b: nat, e: nat): nat { if e == 0 then 1 else b * Pow(b, e - 1) }

  lemma {:induction false} PowAdd(b: nat, d: nat, e: nat)
    ensures Pow(b, d + e) == Pow(b, d) * Pow(b, e)
  {
    if d > 0 {
      PowAdd(b, d - 1, e);
      Assoc(b, Pow(b, d - 1), Pow(b, e));
    }
  }

  lemma Assoc(a: int, b: int, c: int)
    ensures a * (b * c) == (a * b) * c
  {
  }

  lemma ProductMono(a: nat, b: nat, c: nat, d: nat)
    requires a <= c && b <= d
    ensures a * b <= c * d
  {
    assert a * b <= c * b;
    assert c * b <= c * d;
  }

  lemma {:induction false} PowPositive(b: nat, e: nat)
    requires b > 0
    ensures Pow(b, e) >= 1
  {
    if e > 0 { PowPositive(b, e - 1); ProductMono(1, 1, b, Pow(b, e - 1)); }
  }

  lemma PowMono(b: nat, d: nat, e: nat)
    requires b > 0 && d <= e
    ensures Pow(b, d) <= Pow(b, e)
  {
    PowAdd(b, d, e - d);
    PowPositive(b, e - d);
    PowPositive(b, d);
    ProductMono(Pow(b, d), 1, Pow(b, d), Pow(b, e - d));
  }

  /** If one block of digits fits, and what is left fits, the whole fits. */
  lemma FitMore(b: nat, n: nat, m: nat, c: nat, k: nat, l: nat)
    requires b > 0 && c > 0 && Pow(b, n) <= Pow(c, k) && Pow(b, m) <= Pow(c, l)
    ensures Pow(b, n + m) <= Pow(c, k + l)
  {
    PowAdd(b, n, m);
    PowAdd(c, k, l);
    ProductMono(Pow(b, n), Pow(b, m), Pow(c, k), Pow(c, l));
  }

  /** The size of the buffer for n bytes in base 58. */
  function EncodeSize(n: nat): nat { n * 138 / 100 + 1 }

  /** The size of the buffer for n characters in base 256. */
  function DecodeSize(n: nat): nat { n * 733 / 1000 + 1 }

  lemma EightBytes()
    ensures Pow(256, 8) <= Pow(58, 11)
  {
  }

  lemma NoBytes()
    ensures Pow(256, 0) <= Pow(58, 1)
  {
  }

  lemma OneByte()
    ensures Pow(256, 1) <= Pow(58, 2)
  {
  }

  lemma TwoBytes()
    ensures Pow(256, 2) <= Pow(58, 3)
  {
  }

  lemma FiveBytes()
    ensures Pow(256, 5) <= Pow(58, 7)
  {
  }

  /** Fewer than eight bytes, in blocks of five, two and one. */
  lemma FewBytes(n: nat)
    requires n < 8
    ensures Pow(256, n) <= Pow(58, EncodeSize(n))
  {
    NoBytes();
    OneByte();
    TwoBytes();
    FiveBytes();
    hide Pow;
    FitMore(256, 2, 1, 58, 3, 2);
    FitMore(256, 2, 2, 58, 3, 3);
    FitMore(256, 5, 1, 58, 7, 2);
    FitMore(256, 5, 2, 58, 7, 3);
  }

  lemma {:induction false} EncodeFits(n: nat)
    ensures Pow(256, n) <= Pow(58, EncodeSize(n)) && EncodeSize(n) == n * 138 / 100 + 1
  {
    hide Pow;
    if n < 8 { FewBytes(n); }
    else {
      EncodeFits(n - 8);
      EightBytes();
      FitMore(256, n - 8, 8, 58, EncodeSize(n - 8), 11);
      PowMono(58, EncodeSize(n - 8) + 11, EncodeSize(n));
    }
  }

  /** Powers of both bases, by repeated squaring. */
  lemma BigPowers()
    ensures Pow(58, 7) == 2207984167552 && Pow(58, 8) == 128063081718016
    ensures Pow(58, 64) ==
      72342179355466901471258927612150153907721848234316445933056526044582001260898145151856420451025374266490194231296
    ensures Pow(256, 4) == 4294967296 && Pow(256, 11) == 309485009821345068724781056
    ensures Pow(256, 16) == 340282366920938463463374607431768211456
  {
    assert Pow(58, 7) == 2207984167552;
    PowAdd(58, 8, 8); PowAdd(58, 16, 16); PowAdd(58, 32, 32);
    assert Pow(256, 8) == 18446744073709551616 && Pow(256, 3) == 16777216;
    PowAdd(256, 8, 8); PowAdd(256, 8, 3);
  }

  lemma SeventyOneChars()
    ensures Pow(58, 71) <= Pow(256, 52)
  {
    BigPowers();
    PowAdd(58, 64, 7);
    PowAdd(256, 16, 16); PowAdd(256, 32, 16); PowAdd(256, 48, 4);
  }

  lemma FifteenChars()
    ensures Pow(58, 15) <= Pow(256, 11)
  {
    BigPowers();
    PowAdd(58, 8, 7);
  }

  lemma {:induction false} FitBlocks(b: nat, n: nat, c: nat, k: nat, times: nat)
    requires b > 0 && c > 0 && Pow(b, n) <= Pow(c, k)
    ensures Pow(b, n * times) <= Pow(c, k * times)
  {
    if times == 0 {
      assert n * times == 0 && k * times == 0;
    } else {
      FitBlocks(b, n, c, k, times - 1);
      assert n * times == n * (times - 1) + n && k * times == k * (times - 1) + k;
      FitMore(b, n * (times - 1), n, c, k * (times - 1), k);
    }
  }

  lemma FourChars()
    ensures Pow(58, 4) <= Pow(256, 3)
  {
  }

  lemma OneChar()
    ensures Pow(58, 1) <= Pow(256, 1)
  {
  }

  /** Blocks of fifteen, four and one. */
  lemma InBlocks(a: nat, x: nat, y: nat)
    ensures Pow(58, 15 * a + 4 * x + y) <= Pow(256, 11 * a + 3 * x + y)
  {
    FifteenChars();
    FourChars();
    OneChar();
    hide Pow;
    FitBlocks(58, 15, 256, 11, a);
    FitBlocks(58, 4, 256, 3, x);
    FitBlocks(58, 1, 256, 1, y);
    FitMore(58, 15 * a, 4 * x, 256, 11 * a, 3 * x);
    FitMore(58, 15 * a + 4 * x, y, 256, 11 * a + 3 * x, y);
  }

  lemma MoreChars(n: nat)
    requires n < 71
    ensures Pow(58, n) <= Pow(256, DecodeSize(n))
  {
    hide Pow;
    var a, x, y := n / 15, n % 15 / 4, n % 15 % 4;
    InBlocks(a, x, y);
    BlocksFit(n);
    PowMono(256, 11 * a + 3 * x + y, DecodeSize(n));
  }

  lemma BlocksFit(n: nat)
    requires n < 71
    ensures 11 * (n / 15) + 3 * (n % 15 / 4) + n % 15 % 4 <= DecodeSize(n)
  {
  }

  lemma SizeStep(n: nat)
    requires n >= 71
    ensures DecodeSize(n - 71) + 52 <= DecodeSize(n)
  {
  }

  lemma {:induction false} DecodeFits(n: nat)
    ensures Pow(58, n) <= Pow(256, DecodeSize(n)) && DecodeSize(n) == n * 733 / 1000 + 1
  {
    hide Pow;
    if n < 71 {
      MoreChars(n);
    } else {
      DecodeFits(n - 71);
      SeventyOneChars();
      SizeStep(n);
      FitMore(58, n - 71, 71, 256, DecodeSize(n - 71), 52);
      PowMono(256, DecodeSize(n - 71) + 52, DecodeSize(n));
    }
  }

  // ----- digits -----

  predicate DigitsOf(s: seq<nat>, b: nat) { forall i | 0 <= i < |s| :: s[i] < b }

  /** The number a string of digits stands for. */
  function Value(s: seq<nat>, b: nat): nat { if s == [] then 0 else s[0] * Pow(b, |s| - 1) + Value(s[1..], b) }

  function Div(n: nat, b: nat): (q: nat)
    requires b > 0
  {
    n / b
  }

  function Mod(n: nat, b: nat): (r: nat)
    requires b > 0
    ensures r < b
  {
    n % b
  }

  lemma DivideBy(n: nat, b: nat)
    requires b > 0
    ensures n == Div(n, b) * b + Mod(n, b)
  {
  }

  lemma DivSmaller(n: nat, b: nat)
    requires b > 1 && n > 0
    ensures Div(n, b) < n
  {
    DivideBy(n, b);
    if Div(n, b) >= n { ProductMono(n, 2, Div(n, b), b); }
  }

  /** The shortest digits of a number. */
  function Digits(n: nat, b: nat): seq<nat>
    requires b > 1
    decreases n
  {
    if n == 0 then [] else DivSmaller(n, b); Digits(Div(n, b), b) + [Mod(n, b)]
  }

  lemma Distribute(a: int, b: int, c: int)
    ensures (a + b) * c == a * c + b * c && c * (a + b) == c * a + c * b
  {
  }

  /** A digit more at the end. */
  lemma {:induction false} ValueAppend(s: seq<nat>, d: nat, b: nat)
    ensures Value(s + [d], b) == Value(s, b) * b + d
  {
    if s == [] {
      assert s + [d] == [d];
    } else {
      assert (s + [d])[1..] == s[1..] + [d];
      ValueAppend(s[1..], d, b);
      Distribute(s[0] * Pow(b, |s| - 1), Value(s[1..], b), b);
      Assoc(s[0], Pow(b, |s| - 1), b);
    }
  }

  lemma {:induction false} ValueBound(s: seq<nat>, b: nat)
    requires DigitsOf(s, b) && b > 0
    ensures Value(s, b) < Pow(b, |s|)
  {
    if s != [] {
      ValueBound(s[1..], b);
      ProductMono(s[0] + 1, Pow(b, |s| - 1), b, Pow(b, |s| - 1));
      Distribute(s[0], 1, Pow(b, |s| - 1));
    }
  }

  function Repeat<T>(k: nat, x: T): (r: seq<T>)
    ensures |r| == k && forall i | 0 <= i < k :: r[i] == x
  {
    seq(k, i => x)
  }

  lemma {:induction false} ValueZeros(k: nat, s: seq<nat>, b: nat)
    ensures Value(Repeat(k, 0) + s, b) == Value(s, b)
  {
    if k == 0 {
      assert Repeat(k, 0) + s == s;
    } else {
      var t := Repeat(k, 0) + s;
      assert t[1..] == Repeat(k - 1, 0) + s;
      ValueZeros(k - 1, s, b);
    }
  }

  lemma DivMod(n: nat, b: nat, d: nat)
    requires d < b
    ensures Div(n * b + d, b) == n && Mod(n * b + d, b) == d
  {
    hide Div, Mod;
    var m := n * b + d;
    DivideBy(m, b);
    if Div(m, b) < n { ProductMono(Div(m, b) + 1, b, n, b); Distribute(Div(m, b), 1, b); }
    if Div(m, b) > n { ProductMono(n + 1, b, Div(m, b), b); Distribute(n, 1, b); }
  }

  lemma {:induction false} DigitsAre(n: nat, b: nat)
    requires b > 1
    ensures DigitsOf(Digits(n, b), b) && Value(Digits(n, b), b) == n
    ensures Digits(n, b) != [] ==> Digits(n, b)[0] != 0
    decreases n
  {
    hide Div, Mod, Value;
    if n == 0 {
      EmptyValue(b);
    } else {
      DivSmaller(n, b);
      DigitsAre(Div(n, b), b);
      ValueAppend(Digits(Div(n, b), b), Mod(n, b), b);
      DivideBy(n, b);
      if Div(n, b) == 0 { assert 0 * b == 0; }
    }
  }

  lemma EmptyValue(b: nat)
    ensures Value([], b) == 0
  {
  }

  /** Digits without a leading zero are the digits of their value. */
  lemma {:induction false} DigitsUnique(s: seq<nat>, b: nat)
    requires b > 1 && DigitsOf(s, b) && (s != [] ==> s[0] != 0)
    ensures Digits(Value(s, b), b) == s
  {
    if s != [] {
      var t, d := s[..|s| - 1], s[|s| - 1];
      assert s == t + [d];
      DigitsUnique(t, b);
      ValueAppend(t, d, b);
      DivMod(Value(t, b), b, d);
      if t == [] { assert s[0] == d; } else { ValuePositive(t, b); ProductMono(1, 1, Value(t, b), b); }
    }
  }

  lemma ValuePositive(s: seq<nat>, b: nat)
    requires b > 0 && s != [] && s[0] != 0
    ensures Value(s, b) > 0
  {
    PowPositive(b, |s| - 1);
    ProductMono(1, 1, s[0], Pow(b, |s| - 1));
  }

  // ----- multiplying and adding in place -----

  /** One digit of the carry loop: what is done so far, the old digit and the new one. */
  lemma CarryStep(old_: nat, mul: nat, carry: nat, b: nat, p: nat, done: nat, rest: nat, c: nat)
    requires b > 0 && done + carry * p == rest * mul + c
    ensures var t := carry + mul * old_;
            Mod(t, b) * p + done + Div(t, b) * (b * p) == (old_ * p + rest) * mul + c
  {
    hide Div, Mod;
    var t := carry + mul * old_;
    DivideBy(t, b);
    Distribute(Div(t, b) * b, Mod(t, b), p);
    Assoc(Div(t, b), b, p);
    Distribute(carry, mul * old_, p);
    Assoc(mul, old_, p);
    Distribute(old_ * p, rest, mul);
  }

  lemma {:induction false} ValueSuffix(s: seq<nat>, j: nat, b: nat)
    requires j < |s|
    ensures Value(s[j..], b) == s[j] * Pow(b, |s| - 1 - j) + Value(s[j + 1..], b)
  {
    assert s[j..][1..] == s[j + 1..];
  }

  /**
    The carry loop: the digits in a are multiplied by mul and c is added, from the
    last digit to the first. A carry is left over exactly when the result does not fit.
   */
  method MulAdd(a: array<nat>, b: nat, mul: nat, c: nat) returns (carry: nat)
    requires b > 1 && DigitsOf(a[..], b)
    modifies a
    ensures DigitsOf(a[..], b)
    ensures Value(a[..], b) + carry * Pow(b, a.Length) == old(Value(a[..], b)) * mul + c
  {
    hide Pow, Value, Div, Mod;
    ghost var s := a[..];
    carry := c;
    var j := a.Length;
    assert a[j..] == [] && s[j..] == [];
    Start(b, mul, c);
    while j > 0
      invariant 0 <= j <= a.Length
      invariant DigitsOf(a[..], b) && a[..j] == s[..j]
      invariant Value(a[j..], b) + carry * Pow(b, a.Length - j) == Value(s[j..], b) * mul + c
    {
      ghost var rest := a[j..];
      j := j - 1;
      CarryStep(s[j], mul, carry, b, Pow(b, a.Length - 1 - j), Value(rest, b), Value(s[j + 1..], b), c);
      assert a[j] == a[..j + 1][j] == s[j];
      carry := carry + mul * a[j];
      a[j] := Mod(carry, b);
      carry := Div(carry, b);
      assert a[j + 1..] == rest && a[..j] == s[..j];
      ValueSuffix(s, j, b);
      ValueSuffix(a[..], j, b);
      assert a[..][j..] == a[j..] && a[..][j + 1..] == rest;
      PowStep(b, a.Length - 1 - j);
    }
    assert a[0..] == a[..] && s[0..] == s;
  }

  lemma Start(b: nat, mul: nat, c: nat)
    ensures Value([], b) + c * Pow(b, 0) == Value([], b) * mul + c
  {
  }

  lemma PowStep(b: nat, e: nat)
    ensures Pow(b, e + 1) == b * Pow(b, e)
  {
  }

  /** What fits leaves no carry. */
  lemma NoCarry(value: nat, carry: nat, p: nat, total: nat)
    requires value + carry * p == total && total < p
    ensures carry == 0 && value == total
  {
    if carry > 0 { ProductMono(1, p, carry, p); }
  }
}
