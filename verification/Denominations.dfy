/**
  Sums of coins over a chain of denominations in which each value divides the
  next, and the theorem the coin selection relies on: taking the largest coins
  first reaches a target exactly whenever any choice does, with fewest coins.
 */
module Denominations {
  import opened Util

  /** Values in ascending order, each a multiple of the one before. */
  ghost predicate Chain(d: seq<nat>) {
    && (forall i | 0 <= i < |d| :: d[i] > 0)
    && (forall i | 0 < i < |d| :: d[i - 1] < d[i] && d[i] % d[i - 1] == 0)
  }

  const COIN: nat := 100000000

  /** The denomination table of the node: 1, 5, 10, 50, 100, 500, 1000 and 5000 coins. */
  const TABLE: seq<nat> := [1 * COIN, 5 * COIN, 10 * COIN, 50 * COIN, 100 * COIN, 500 * COIN, 1000 * COIN, 5000 * COIN]

  lemma TableIsChain()
    ensures Chain(TABLE)
    ensures TABLE == [100000000, 500000000, 1000000000, 5000000000,
                      10000000000, 50000000000, 100000000000, 500000000000]
  {
    assert TABLE[0] > 0 && TABLE[1] % TABLE[0] == 0 && TABLE[2] % TABLE[1] == 0 && TABLE[3] % TABLE[2] == 0;
    assert TABLE[4] % TABLE[3] == 0 && TABLE[5] % TABLE[4] == 0 && TABLE[6] % TABLE[5] == 0 && TABLE[7] % TABLE[6] == 0;
  }

  /** How many coins of each denomination, by position in the table. */
  type Counts = seq<nat>

  /** Value of the coins of the first i denominations. */
  function Worth(d: seq<nat>, u: Counts, i: nat): nat
    requires i <= |d| && i <= |u|
  {
    if i == 0 then 0 else Worth(d, u, i - 1) + u[i - 1] * d[i - 1]
  }

  /** Number of coins of the first i denominations. */
  function Count(u: Counts, i: nat): nat
    requires i <= |u|
  {
    if i == 0 then 0 else Count(u, i - 1) + u[i - 1]
  }

  predicate Within(u: Counts, held: Counts) {
    |u| == |held| && forall i | 0 <= i < |u| :: u[i] <= held[i]
  }

  function Total(d: seq<nat>, u: Counts): nat
    requires |u| == |d|
  {
    Worth(d, u, |d|)
  }

  // ----- arithmetic -----

  lemma DivTimes(a: nat, v: nat)
    requires v > 0
    ensures a / v * v <= a < (a / v + 1) * v
  {
  }

  lemma Distribute(a: int, b: int, v: int)
    ensures (a - b) * v == a * v - b * v
  {
  }

  lemma MulCancel(a: nat, b: nat, v: nat)
    requires v > 0 && a * v <= b * v
    ensures a <= b
  {
    if b < a { MulMono(b + 1, a, v); }
  }

  /** A multiple of a multiple of v is a multiple of v. */
  lemma MultipleTransitive(m: nat, w: nat, v: nat)
    requires v > 0 && w > 0 && m % w == 0 && w % v == 0
    ensures m % v == 0
  {
    var a, b := m / w, w / v;
    assert m == a * w && w == b * v;
    assert m == (a * b) * v by { assert a * (b * v) == (a * b) * v; }
    DivIs(m, v, a * b);
  }

  lemma MultipleMinus(m: nat, k: nat, v: nat)
    requires v > 0 && m % v == 0 && k * v <= m
    ensures (m - k * v) % v == 0
  {
    var a := m / v;
    assert m == a * v;
    assert m - k * v == (a - k) * v;
    DivIs(m - k * v, v, a - k);
  }

  lemma TimesIsMultiple(k: nat, v: nat)
    requires v > 0
    ensures k * v % v == 0
  {
    DivIs(k * v, v, k);
  }

  lemma {:induction false} ChainOrder(d: seq<nat>, i: nat, j: nat)
    requires Chain(d) && i <= j < |d|
    ensures d[i] <= d[j]
    decreases j
  {
    if i < j { ChainOrder(d, i, j - 1); }
  }

  // ----- sums -----

  lemma {:induction false} WorthAgrees(d: seq<nat>, u: Counts, w: Counts, i: nat)
    requires i <= |d| && i <= |u| && i <= |w| && u[..i] == w[..i]
    ensures Worth(d, u, i) == Worth(d, w, i) && Count(u, i) == Count(w, i)
  {
    if i > 0 {
      assert u[..i][i - 1] == w[..i][i - 1];
      assert u[..i - 1] == u[..i][..i - 1] == w[..i][..i - 1] == w[..i - 1];
      WorthAgrees(d, u, w, i - 1);
    }
  }

  lemma {:induction false} WorthMono(d: seq<nat>, u: Counts, w: Counts, i: nat)
    requires i <= |d| && i <= |u| && i <= |w| && forall j | 0 <= j < i :: u[j] <= w[j]
    ensures Worth(d, u, i) <= Worth(d, w, i)
  {
    if i > 0 {
      WorthMono(d, u, w, i - 1);
      MulMono(u[i - 1], w[i - 1], d[i - 1]);
    }
  }

  lemma {:induction false} WorthZero(d: seq<nat>, u: Counts, i: nat)
    requires i <= |d| && i <= |u| && forall j | 0 <= j < i :: u[j] == 0
    ensures Worth(d, u, i) == 0 && Count(u, i) == 0
  {
    if i > 0 { WorthZero(d, u, i - 1); }
  }

  /** Adding k coins of one denomination. */
  lemma {:induction false} WorthUpdate(d: seq<nat>, u: Counts, j: nat, k: nat, i: nat)
    requires i <= |d| && i <= |u| && j < |u|
    ensures Worth(d, u[j := u[j] + k], i) == Worth(d, u, i) + if j < i then k * d[j] else 0
    ensures Count(u[j := u[j] + k], i) == Count(u, i) + if j < i then k else 0
  {
    if i > 0 {
      WorthUpdate(d, u, j, k, i - 1);
      if j == i - 1 { assert (u[j] + k) * d[j] == u[j] * d[j] + k * d[j]; }
    }
  }

  function Minus(u: Counts, s: Counts): Counts
    requires |s| <= |u| && forall i | 0 <= i < |s| :: s[i] <= u[i]
  {
    seq(|s|, i requires 0 <= i < |s| => u[i] - s[i])
  }

  lemma {:induction false} WorthMinus(d: seq<nat>, u: Counts, s: Counts, i: nat)
    requires i <= |d| && i <= |s| <= |u| && forall j | 0 <= j < |s| :: s[j] <= u[j]
    ensures Worth(d, Minus(u, s), i) == Worth(d, u, i) - Worth(d, s, i)
    ensures Count(Minus(u, s), i) == Count(u, i) - Count(s, i)
  {
    if i > 0 {
      WorthMinus(d, u, s, i - 1);
      assert (u[i - 1] - s[i - 1]) * d[i - 1] == u[i - 1] * d[i - 1] - s[i - 1] * d[i - 1];
    }
  }

  /** Coins below denomination i are worth at most their number times that denomination. */
  lemma {:induction false} WorthBound(d: seq<nat>, s: Counts, i: nat, top: nat)
    requires Chain(d) && i <= top < |d| && i <= |s|
    ensures Worth(d, s, i) <= Count(s, i) * d[top]
  {
    if i > 0 {
      WorthBound(d, s, i - 1, top);
      ChainOrder(d, i - 1, top);
      MulMono(d[i - 1], d[top], s[i - 1]);
      assert Count(s, i) * d[top] == Count(s, i - 1) * d[top] + s[i - 1] * d[top];
    }
  }

  // ----- the exchange argument -----

  /**
    Coins of the first i denominations worth at least m, a multiple of all of
    them, contain a sub-collection worth exactly m.
   */
  lemma {:induction false} SubCollection(d: seq<nat>, w: Counts, i: nat, m: nat) returns (s: Counts)
    requires Chain(d) && i <= |d| && i <= |w|
    requires i > 0 ==> m % d[i - 1] == 0
    requires Worth(d, w, i) >= m
    ensures |s| == i && (forall j | 0 <= j < i :: s[j] <= w[j]) && Worth(d, s, i) == m
  {
    if i == 0 { return []; }
    var j := i - 1;
    var v := d[j];
    if w[j] * v >= m {
      s := seq(j, _ => 0) + [m / v];
      WorthZero(d, s, j);
      assert m / v * v == m;
      MulCancel(m / v, w[j], v);
    } else {
      MultipleMinus(m, w[j], v);
      if j > 0 { MultipleTransitive(m - w[j] * v, v, d[j - 1]); }
      var t := SubCollection(d, w, j, m - w[j] * v);
      s := t + [w[j]];
      WorthAgrees(d, s, t, j);
    }
  }

  /** How many coins of value v, of h held, fit into the amount. */
  function Take(h: nat, rem: int, v: nat): nat
    requires v > 0
  {
    Min(h, if rem > 0 then rem / v else 0)
  }

  /** Take is the largest number that is held and fits. */
  lemma TakeIsLargest(h: nat, rem: nat, v: nat, x: nat)
    requires v > 0
    ensures var k := Take(h, rem, v);
            k <= h && k * v <= rem && (k < h ==> rem - k * v < v) && (x <= h && x * v <= rem ==> x <= k)
  {
    var q := rem / v;
    DivTimes(rem, v);
    MulMono(Take(h, rem, v), q, v);
    if x > q { MulMono(q + 1, x, v); }
  }

  /** Largest coins first: how many of each of the first i denominations, for an amount to fill. */
  function Greedy(d: seq<nat>, held: Counts, i: nat, rem: int): (g: Counts)
    requires i <= |d| && i <= |held| && forall j | 0 <= j < |d| :: d[j] > 0
    ensures |g| == i
  {
    if i == 0 then []
    else
      var k := Take(held[i - 1], rem, d[i - 1]);
      Greedy(d, held, i - 1, rem - k * d[i - 1]) + [k]
  }

  /**
    If some choice within the holdings sums exactly to the amount, largest
    coins first sums exactly to it too, with no more coins.
   */
  lemma {:induction false} GreedyExact(d: seq<nat>, held: Counts, u: Counts, i: nat, rem: nat)
    requires Chain(d) && i <= |d| && i <= |held| && i <= |u|
    requires (forall j | 0 <= j < i :: u[j] <= held[j]) && Worth(d, u, i) == rem
    ensures var g := Greedy(d, held, i, rem); Worth(d, g, i) == rem && Count(g, i) <= Count(u, i)
    decreases i
  {
    if i > 0 {
      var j := i - 1;
      var k := Take(held[j], rem, d[j]);
      var rest := MakeRoom(d, held, u, j, rem);
      GreedyExact(d, held, rest, j, rem - k * d[j]);
      GreedyStep(d, held, i, rem);
    }
  }

  lemma GreedyStep(d: seq<nat>, held: Counts, i: nat, rem: int)
    requires 0 < i <= |d| && i <= |held| && forall j | 0 <= j < |d| :: d[j] > 0
    ensures var k := Take(held[i - 1], rem, d[i - 1]);
            var g, low := Greedy(d, held, i, rem), Greedy(d, held, i - 1, rem - k * d[i - 1]);
            g == low + [k] && Worth(d, g, i) == Worth(d, low, i - 1) + k * d[i - 1] &&
            Count(g, i) == Count(low, i - 1) + k
  {
    var k := Take(held[i - 1], rem, d[i - 1]);
    WorthAgrees(d, Greedy(d, held, i, rem), Greedy(d, held, i - 1, rem - k * d[i - 1]), i - 1);
  }

  /** A choice worth rem can be changed to one that takes as many coins of denomination j as largest-first does. */
  lemma MakeRoom(d: seq<nat>, held: Counts, u: Counts, j: nat, rem: nat) returns (rest: Counts)
    requires Chain(d) && j < |d| && j < |held| && j < |u| && u[j] <= held[j] && Worth(d, u, j) + u[j] * d[j] == rem
    ensures var k := Take(held[j], rem, d[j]);
            |rest| == j && (forall l | 0 <= l < j :: rest[l] <= u[l]) && k * d[j] <= rem &&
            Worth(d, rest, j) == rem - k * d[j] && Count(rest, j) + k <= Count(u, j) + u[j]
  {
    var k := Take(held[j], rem, d[j]);
    TakeIsLargest(held[j], rem, d[j], u[j]);
    Distribute(k, u[j], d[j]);
    rest := Exchange(d, u, j, k - u[j]);
  }

  /** Coins below denomination j worth at least n coins of it can give way to n such coins; at least n of them go. */
  lemma Exchange(d: seq<nat>, u: Counts, j: nat, n: nat) returns (rest: Counts)
    requires Chain(d) && j < |d| && j <= |u| && Worth(d, u, j) >= n * d[j]
    ensures |rest| == j && (forall l | 0 <= l < j :: rest[l] <= u[l])
    ensures Worth(d, rest, j) == Worth(d, u, j) - n * d[j] && Count(rest, j) + n <= Count(u, j)
  {
    TimesIsMultiple(n, d[j]);
    if j > 0 { MultipleTransitive(n * d[j], d[j], d[j - 1]); }
    var s := SubCollection(d, u, j, n * d[j]);
    WorthBound(d, s, j, j);
    MulCancel(n, Count(s, j), d[j]);
    rest := Minus(u, s);
    WorthMinus(d, u, s, j);
  }

  /** What largest-first leaves: never more than asked, and a coin not taken is worth more than the remainder. */
  ghost predicate Leaves(d: seq<nat>, held: Counts, i: nat, rem: int, g: Counts)
    requires i <= |d| && i <= |held| && i <= |g|
  {
    && Worth(d, g, i) <= rem
    && forall j | 0 <= j < i ::
         g[j] <= held[j] && (g[j] < held[j] ==> rem - Worth(d, g, i) + Worth(d, g, j) < d[j])
  }

  lemma {:induction false} GreedyLeft(d: seq<nat>, held: Counts, i: nat, rem: nat)
    requires Chain(d) && i <= |d| && i <= |held|
    ensures Leaves(d, held, i, rem, Greedy(d, held, i, rem))
  {
    if i > 0 {
      hide Greedy, Leaves, Take;
      var v := d[i - 1];
      var k := Take(held[i - 1], rem, v);
      TakeIsLargest(held[i - 1], rem, v, 0);
      GreedyLeft(d, held, i - 1, rem - k * v);
      GreedyStep(d, held, i, rem);
      LeavesMore(d, held, i, rem, k, Greedy(d, held, i - 1, rem - k * v));
    } else {
      hide Greedy;
    }
  }

  lemma LeavesMore(d: seq<nat>, held: Counts, i: nat, rem: nat, k: nat, low: Counts)
    requires 0 < i <= |d| && i <= |held| && |low| == i - 1
    requires k <= held[i - 1] && k * d[i - 1] <= rem && (k < held[i - 1] ==> rem - k * d[i - 1] < d[i - 1])
    requires Leaves(d, held, i - 1, rem - k * d[i - 1], low)
    ensures Leaves(d, held, i, rem, low + [k])
  {
    var g := low + [k];
    forall j | 0 <= j < i ensures Worth(d, g, j) == Worth(d, low, j) { WorthAgrees(d, g, low, j); }
  }

  lemma {:induction false} GreedyNothing(d: seq<nat>, held: Counts, i: nat, rem: int)
    requires i <= |d| && i <= |held| && (forall j | 0 <= j < |d| :: d[j] > 0) && rem <= 0
    ensures forall j | 0 <= j < i :: Greedy(d, held, i, rem)[j] == 0
  {
    if i > 0 { GreedyNothing(d, held, i - 1, rem); }
  }

  lemma GreedyWithin(d: seq<nat>, held: Counts, i: nat, rem: int)
    requires Chain(d) && i <= |d| && i <= |held|
    ensures forall j | 0 <= j < i :: Greedy(d, held, i, rem)[j] <= held[j]
  {
    if rem >= 0 { GreedyLeft(d, held, i, rem); } else { GreedyNothing(d, held, i, rem); }
  }

  // ----- change -----

  /** Largest coins first without a limit on how many there are. */
  function Change(d: seq<nat>, i: nat, rem: int): (g: Counts)
    requires i <= |d| && forall j | 0 <= j < |d| :: d[j] > 0
    ensures |g| == i
  {
    if i == 0 then []
    else
      var k: nat := if rem > 0 then rem / d[i - 1] else 0;
      Change(d, i - 1, rem - k * d[i - 1]) + [k]
  }

  function ChangeCount(d: seq<nat>, amount: int): nat
    requires forall j | 0 <= j < |d| :: d[j] > 0
  {
    Count(Change(d, |d|, amount), |d|)
  }

  /** The largest multiple of v up to a. */
  function RoundTo(a: nat, v: nat): (r: nat)
    requires v > 0
    ensures r <= a < r + v
  {
    a / v * v
  }

  /** The amount without what is too small for the smallest denomination. */
  function RoundedDown(d: seq<nat>, amount: nat): (r: nat)
    requires Chain(d)
    ensures r <= amount
  {
    if d == [] then 0 else RoundTo(amount, d[0])
  }

  lemma ChainAt(d: seq<nat>, i: nat)
    requires Chain(d) && i < |d|
    ensures d[i] > 0 && d[0] > 0 && (i > 0 ==> d[i] % d[i - 1] == 0) && (i == 0 ==> d[i] % d[0] == 0)
  {
  }

  lemma {:induction false} ChainMultiple(d: seq<nat>, i: nat)
    requires Chain(d) && i < |d|
    ensures d[i] % d[0] == 0
  {
    hide Chain;
    ChainAt(d, i);
    if i > 0 {
      ChainMultiple(d, i - 1);
      ChainAt(d, i - 1);
      MultipleTransitive(d[i], d[i - 1], d[0]);
    }
  }

  /** Taking off a multiple of v takes off as much after rounding down. */
  lemma RoundMinus(a: nat, k: nat, w: nat, v: nat)
    requires v > 0 && w % v == 0 && k * w <= a
    ensures RoundTo(a - k * w, v) == RoundTo(a, v) - k * w
  {
    var q, c := a / v, w / v;
    assert k * w == k * c * v by { assert w == c * v; }
    Distribute(q, k * c, v);
    DivTimes(a, v);
    DivIs(a - k * w, v, q - k * c);
  }

  /** Change is worth the amount, as far as the smallest denomination allows. */
  lemma {:induction false} ChangeWorth(d: seq<nat>, i: nat, rem: nat)
    requires Chain(d) && 0 < i <= |d|
    ensures Worth(d, Change(d, i, rem), i) == RoundedDown(d, rem)
  {
    var v := d[i - 1];
    var k := rem / v;
    var left := rem - k * v;
    DivTimes(rem, v);
    WorthAgrees(d, Change(d, i, rem), Change(d, i - 1, left), i - 1);
    if i > 1 {
      ChangeWorth(d, i - 1, left);
      ChainMultiple(d, i - 1);
      RoundMinus(rem, k, v, d[0]);
    }
  }

  lemma ChangeLeft(d: seq<nat>, i: nat, rem: nat)
    requires Chain(d) && i <= |d|
    ensures Worth(d, Change(d, i, rem), i) <= rem
  {
    if i > 0 { ChangeWorth(d, i, rem); }
  }

  lemma ChangeStep(d: seq<nat>, i: nat, rem: nat, k: nat)
    requires Chain(d) && 0 < i <= |d| && 0 <= rem - k * d[i - 1] < d[i - 1]
    ensures Change(d, i, rem) == Change(d, i - 1, rem - k * d[i - 1]) + [k]
  {
    DivIs(rem, d[i - 1], k);
  }

  /** What is rounded off makes no difference to the change. */
  lemma {:induction false} ChangeRounded(d: seq<nat>, i: nat, rem: nat)
    requires Chain(d) && i <= |d|
    ensures Change(d, i, rem) == Change(d, i, RoundedDown(d, rem))
  {
    if i > 0 {
      hide Change, RoundTo;
      var v := d[i - 1];
      var k := rem / v;
      DivTimes(rem, v);
      Distribute(k + 1, k, v);
      ChainMultiple(d, i - 1);
      RoundMinus(rem, k, v, d[0]);
      ChangeStep(d, i, rem, k);
      ChangeStep(d, i, RoundedDown(d, rem), k);
      ChangeRounded(d, i - 1, rem - k * v);
    } else {
      hide RoundTo;
    }
  }

  /** With holdings that never run out, largest-first is the change. */
  lemma {:induction false} ChangeIsGreedy(d: seq<nat>, held: Counts, i: nat, rem: nat)
    requires Chain(d) && i <= |d| && i <= |held| && forall j | 0 <= j < i :: held[j] >= rem
    ensures Change(d, i, rem) == Greedy(d, held, i, rem)
  {
    if i > 0 {
      var v := d[i - 1];
      var k := rem / v;
      DivTimes(rem, v);
      MulMono(1, v, k);
      assert k == Take(held[i - 1], rem, v);
      ChangeIsGreedy(d, held, i - 1, rem - k * v);
    }
  }

  /** Change without some of its coins is the change for what the others are worth. */
  lemma {:induction false} ChangeLess(d: seq<nat>, i: nat, rem: nat, c: Counts)
    requires Chain(d) && i <= |d| && i <= |c| && forall j | 0 <= j < i :: c[j] <= Change(d, i, rem)[j]
    ensures Worth(d, c, i) <= rem
    ensures forall j | 0 <= j < i :: Change(d, i, rem - Worth(d, c, i))[j] == Change(d, i, rem)[j] - c[j]
  {
    if i > 0 {
      hide Change;
      var v, k := d[i - 1], rem / d[i - 1];
      var low := rem - k * v;
      DivTimes(rem, v);
      Distribute(k + 1, k, v);
      ChangeStep(d, i, rem, k);
      ChangeLess(d, i - 1, low, c);
      LessStep(rem, k, v, c[i - 1], Worth(d, c, i - 1));
      ChangeStep(d, i, rem - Worth(d, c, i), k - c[i - 1]);
    }
  }

  lemma LessStep(rem: nat, k: nat, v: nat, n: nat, w: nat)
    requires n <= k && w <= rem - k * v < v
    ensures w + n * v <= rem && (rem - (w + n * v)) - (k - n) * v == rem - k * v - w
  {
    MulMono(n, k, v);
    Distribute(k, n, v);
  }

  /** The least number of coins that are worth the amount. */
  ghost predicate FewestCoins(d: seq<nat>, amount: nat, n: nat) {
    && (exists u: Counts | |u| == |d| :: Total(d, u) == amount && Count(u, |d|) == n)
    && (forall u: Counts | |u| == |d| && Total(d, u) == amount :: n <= Count(u, |d|))
  }

  /** The change is worth the amount, rounded down, and no coins worth that much are fewer. */
  lemma ChangeIsFewest(d: seq<nat>, rem: nat)
    requires Chain(d)
    ensures Total(d, Change(d, |d|, rem)) == RoundedDown(d, rem)
    ensures FewestCoins(d, RoundedDown(d, rem), ChangeCount(d, rem))
  {
    var change, amount := Change(d, |d|, rem), RoundedDown(d, rem);
    if d != [] { ChangeWorth(d, |d|, rem); }
    ChangeRounded(d, |d|, rem);
    forall u: Counts | |u| == |d| && Total(d, u) == amount ensures Count(change, |d|) <= Count(u, |d|) {
      var ample := seq(|d|, i requires 0 <= i < |d| => u[i] + amount);
      ChangeIsGreedy(d, ample, |d|, amount);
      GreedyExact(d, ample, u, |d|, amount);
    }
  }

  lemma {:induction false} ChangeNothing(d: seq<nat>, i: nat, rem: int)
    requires i <= |d| && (forall j | 0 <= j < |d| :: d[j] > 0) && rem <= 0
    ensures forall j | 0 <= j < i :: Change(d, i, rem)[j] == 0
    ensures Count(Change(d, i, rem), i) == 0
  {
    if i > 0 {
      ChangeNothing(d, i - 1, rem);
      WorthZero(d, Change(d, i, rem), i);
    }
  }
}
