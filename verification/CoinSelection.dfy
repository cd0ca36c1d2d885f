/**
  Choosing zerocoin mints for a spend (denomination_functions.cpp). Maps keyed
  by denomination are sequences indexed by the position in the denomination
  table d; the error denomination is position -1.
 */
module CoinSelection {
  import opened Denominations
  import opened Util

  function Zeroes(n: nat): (z: Counts)
    ensures |z| == n
  {
    seq(n, _ => 0)
  }

  method getNumberOfCoinsUsed(u: Counts) returns (n: nat)
    ensures n == Count(u, |u|)
  {
    n := 0;
    for i := 0 to |u|
      invariant n == Count(u, i)
    {
      n := n + u[i];
    }
  }

  method getMaxDenomHeld(held: Counts) returns (m: int)
    ensures -1 <= m < |held|
    ensures m >= 0 ==> held[m] != 0
    ensures forall i | m < i < |held| :: held[i] == 0
  {
    m := -1;
    for i := |held| downto 0
      invariant m == -1 && forall j | i <= j < |held| :: held[j] == 0
    {
      if held[i] != 0 { return i; }
    }
  }

  method getNextLowerDenomHeld(this_denom: int, held: Counts) returns (m: int)
    requires this_denom <= |held|
    ensures -1 <= m < |held| && (m >= 0 ==> m < this_denom && held[m] != 0)
    ensures forall i | m < i < this_denom && 0 <= i :: held[i] == 0
  {
    m := -1;
    for i := |held| downto 0
      invariant m == -1 && forall j | i <= j < this_denom :: held[j] == 0
    {
      if i < this_denom && held[i] != 0 { return i; }
    }
  }

  /** The highest position held below position i, or -1. */
  function HighestBelow(held: Counts, i: int): (m: int)
    requires i <= |held|
    ensures -1 <= m < |held| && (m >= 0 ==> m < i && held[m] != 0)
  {
    if i <= 0 then -1 else if held[i - 1] != 0 then i - 1 else HighestBelow(held, i - 1)
  }

  lemma {:induction false} HighestIs(held: Counts, i: int, m: int)
    requires -1 <= m < |held| && i <= |held| && (m >= 0 ==> m < i && held[m] != 0)
    requires forall j | m < j < i && 0 <= j :: held[j] == 0
    ensures m == HighestBelow(held, i)
  {
    if i > 0 && held[i - 1] == 0 { HighestIs(held, i - 1, m); }
  }

  /** One denomination of a largest-first loop: take while it fits and is held. */
  method takeCoins(remaining: int, nValue: nat, nHeld: nat) returns (nUsed: nat, nRemaining: int)
    requires nValue > 0
    ensures nUsed == Take(nHeld, remaining, nValue) && nRemaining == remaining - nUsed * nValue
  {
    nUsed, nRemaining := 0, remaining;
    while nRemaining >= nValue && nUsed < nHeld
      invariant nUsed <= nHeld && nRemaining == remaining - nUsed * nValue
      invariant nUsed > 0 ==> nRemaining >= 0
      decreases nHeld - nUsed
    {
      nUsed := nUsed + 1;
      nRemaining := nRemaining - nValue;
    }
    TakeIs(nHeld, remaining, nValue, nUsed);
  }

  lemma TakeIs(h: nat, rem: int, v: nat, k: nat)
    requires v > 0 && k <= h && (k > 0 ==> rem - k * v >= 0) && (rem - k * v < v || k == h)
    ensures k == Take(h, rem, v)
  {
    if rem > 0 {
      TakeIsLargest(h, rem, v, k);
      var t := Take(h, rem, v);
      if k < t { MulMono(k + 1, t, v); }
    }
  }

  /** The same without a limit. */
  method takeUnlimited(remaining: int, nValue: nat) returns (nUsed: nat, nRemaining: int)
    requires nValue > 0
    ensures nUsed == if remaining > 0 then remaining / nValue else 0
    ensures nRemaining == remaining - nUsed * nValue
  {
    nUsed, nRemaining := 0, remaining;
    while nRemaining >= nValue
      invariant nRemaining == remaining - nUsed * nValue && (nUsed > 0 ==> nRemaining >= 0)
      decreases nRemaining
    {
      nUsed := nUsed + 1;
      nRemaining := nRemaining - nValue;
    }
    if remaining > 0 { DivIs(remaining, nValue, nUsed); }
  }

  /** Exact amount with the coins held, largest first. */
  method getSpendCoins(d: seq<nat>, nValueTarget: int, held: Counts) returns (used: Counts)
    requires Chain(d) && |held| == |d|
    ensures used == Greedy(d, held, |d|, nValueTarget)
  {
    used := Zeroes(|d|);
    var nRemainingValue := nValueTarget;
    for i := |d| downto 0
      invariant |used| == |d|
      invariant Greedy(d, held, |d|, nValueTarget) == Greedy(d, held, i, nRemainingValue) + used[i..]
    {
      var k;
      ghost var rem := nRemainingValue;
      k, nRemainingValue := takeCoins(nRemainingValue, d[i], held[i]);
      used := used[i := k];
      GreedyStep(d, held, i + 1, rem);
      assert used[i..] == [k] + used[i + 1..];
    }
  }

  /** Change for an amount, without limits. */
  method getChange(d: seq<nat>, nValueTarget: int) returns (change: Counts)
    requires Chain(d)
    ensures change == Change(d, |d|, nValueTarget)
    ensures nValueTarget >= 0 ==> Total(d, change) == RoundedDown(d, nValueTarget)
    ensures nValueTarget >= 0 ==> FewestCoins(d, RoundedDown(d, nValueTarget), Count(change, |d|))
  {
    hide FewestCoins, RoundedDown, Worth, Count;
    change := Zeroes(|d|);
    var nRemainingValue := nValueTarget;
    for i := |d| downto 0
      invariant |change| == |d|
      invariant Change(d, |d|, nValueTarget) == Change(d, i, nRemainingValue) + change[i..]
    {
      var k;
      k, nRemainingValue := takeUnlimited(nRemainingValue, d[i]);
      change := change[i := k];
      assert change[i..] == [k] + change[i + 1..];
    }
    if nValueTarget >= 0 { ChangeIsFewest(d, nValueTarget); }
  }

  // ----- minimizeChange -----

  /** The coins above the first i denominations, as a prefix sum of the whole. */
  lemma {:induction false} WorthSplit(d: seq<nat>, u: Counts, w: Counts, i: nat, n: nat)
    requires i <= n <= |d| && n <= |u| && n <= |w| && forall j | i <= j < n :: u[j] == w[j]
    ensures Worth(d, u, n) - Worth(d, u, i) == Worth(d, w, n) - Worth(d, w, i)
  {
    if i < n { WorthSplit(d, u, w, i, n - 1); }
  }

  /** Padding with unused denominations adds nothing. */
  lemma {:induction false} WorthPadded(d: seq<nat>, u: Counts, m: nat, n: nat)
    requires m <= n <= |d| && n <= |u| && forall j | m <= j < n :: u[j] == 0
    ensures Worth(d, u, n) == Worth(d, u, m) && Count(u, n) == Count(u, m)
  {
    if m < n { WorthPadded(d, u, m, n - 1); }
  }

  /**
    First stage: coins close to the target but below it, largest first,
    starting at position top. What is taken is largest-first for one unit less.
   */
  method approachFromBelow(d: seq<nat>, top: int, nValueTarget: int, held: Counts)
    returns (used: Counts, nRemaining: int)
    requires Chain(d) && |held| == |d| && -1 <= top < |d|
    ensures Approach(d, held, top, nValueTarget, used)
    ensures Within(used, held) && nRemaining == nValueTarget - Total(d, used)
  {
    hide Greedy, Worth, Take;
    used := Zeroes(|d|);
    nRemaining := nValueTarget;
    WorthZero(d, used, |d|);
    ghost var goal := Greedy(d, held, top + 1, nValueTarget - 1);
    for i := top + 1 downto 0
      invariant |used| == |d| && forall j | 0 <= j < i || top < j < |d| :: used[j] == 0
      invariant goal[..i] == Greedy(d, held, i, nRemaining - 1) && goal[i..] == used[i..top + 1]
      invariant nRemaining == nValueTarget - Total(d, used)
    {
      ghost var rem, before := nRemaining, used;
      var k;
      k, nRemaining := takeBelow(nRemaining, d[i], held[i]);
      GreedyNext(d, held, goal, i, rem - 1, nRemaining - 1, k);
      WorthUpdate(d, before, i, k, |d|);
      used := used[i := k];
      assert goal[i..] == [k] + goal[i + 1..];
    }
    assert used[..top + 1] == used[0..top + 1];
    GreedyWithin(d, held, top + 1, nValueTarget - 1);
    forall j | 0 <= j < |used| ensures used[j] <= held[j] {
      if j <= top { assert used[j] == used[..top + 1][j]; }
    }
  }

  lemma GreedyNext(d: seq<nat>, held: Counts, goal: Counts, i: nat, rem: int, left: int, k: nat)
    requires Chain(d) && i < |d| == |held| && i < |goal|
    requires goal[..i + 1] == Greedy(d, held, i + 1, rem) && k == Take(held[i], rem, d[i]) && left == rem - k * d[i]
    ensures goal[..i] == Greedy(d, held, i, left) && goal[i] == k
  {
    GreedyStep(d, held, i + 1, rem);
    assert goal[..i] == goal[..i + 1][..i];
    assert goal[i] == goal[..i + 1][i];
  }

  /** The outcome of the first stage: largest-first for one unit less, up to position top. */
  ghost predicate Approach(d: seq<nat>, held: Counts, top: int, target: int, used: Counts)
    requires Chain(d) && |held| == |d| && -1 <= top < |d|
  {
    && |used| == |d| && used[..top + 1] == Greedy(d, held, top + 1, target - 1)
    && forall j | top < j < |d| :: used[j] == 0
  }

  /** A coin the first stage left is worth at least what remains, even after the smaller ones. */
  lemma ApproachLeft(d: seq<nat>, held: Counts, top: int, target: nat, used: Counts, j: nat)
    requires Chain(d) && |held| == |d| && -1 <= top < |d| && target > 0
    requires Approach(d, held, top, target, used)
    requires j <= top && used[j] < held[j]
    ensures target - Total(d, used) + Worth(d, used, j) <= d[j]
  {
    var m := top + 1;
    var g := Greedy(d, held, m, target - 1);
    GreedyLeft(d, held, m, target - 1);
    assert used[j] == used[..m][j] == g[j];
    assert used[..j] == used[..m][..j] == g[..j];
    WorthAgrees(d, used, g, j);
    WorthAgrees(d, used, g, m);
    WorthPadded(d, used, m, |d|);
  }

  lemma ApproachBelow(d: seq<nat>, held: Counts, top: int, target: nat, used: Counts)
    requires Chain(d) && |held| == |d| && -1 <= top < |d| && target > 0
    requires Approach(d, held, top, target, used)
    ensures Total(d, used) < target
  {
    var m := top + 1;
    var g := Greedy(d, held, m, target - 1);
    GreedyLeft(d, held, m, target - 1);
    WorthAgrees(d, used, g, m);
    WorthPadded(d, used, m, |d|);
  }

  /** Take while strictly more than one coin's value remains. */
  method takeBelow(remaining: int, nValue: nat, nHeld: nat) returns (nUsed: nat, nRemaining: int)
    requires nValue > 0
    ensures nUsed == Take(nHeld, remaining - 1, nValue) && nRemaining == remaining - nUsed * nValue
  {
    nUsed, nRemaining := 0, remaining;
    while nRemaining > nValue && nUsed < nHeld
      invariant nUsed <= nHeld && nRemaining == remaining - nUsed * nValue
      invariant nUsed > 0 ==> nRemaining >= 1
      decreases nHeld - nUsed
    {
      nUsed := nUsed + 1;
      nRemaining := nRemaining - nValue;
    }
    TakeIs(nHeld, remaining - 1, nValue, nUsed);
  }

  /** The selection with one more coin: the first from position i on that is left and passes what remains. */
  function OneMore(d: seq<nat>, held: Counts, used: Counts, rem: int, i: nat): (r: Counts)
    requires |held| == |d| == |used| && i <= |d|
    ensures |r| == |d|
    decreases |d| - i
  {
    if i == |d| then used
    else if d[i] > rem && used[i] < held[i] then used[i := used[i] + 1]
    else if rem < 0 then used
    else OneMore(d, held, used, rem, i + 1)
  }

  /** Second stage: one more coin, the smallest unused one that is worth more than what remains. */
  method addOneCoin(d: seq<nat>, used0: Counts, remaining: int, held: Counts) returns (used: Counts, nRemaining: int)
    requires Chain(d) && |held| == |d| && Within(used0, held)
    ensures Within(used, held) && nRemaining == remaining - (Total(d, used) - Total(d, used0))
    ensures used == OneMore(d, held, used0, remaining, 0)
    ensures used == used0 || exists j: nat | j < |d| ::
      && used == used0[j := used0[j] + 1] && used0[j] < held[j] && d[j] > remaining
      && forall i | 0 <= i < j && used0[i] < held[i] :: d[i] <= remaining
    ensures nRemaining < 0 || (used == used0 && forall j | 0 <= j < |d| && used0[j] < held[j] :: d[j] <= remaining)
  {
    used, nRemaining := used0, remaining;
    for i := 0 to |d|
      invariant used == used0 && nRemaining == remaining
      invariant OneMore(d, held, used0, remaining, 0) == OneMore(d, held, used0, remaining, i)
      invariant forall j | 0 <= j < i && used0[j] < held[j] :: d[j] <= remaining
    {
      if d[i] > nRemaining && used[i] < held[i] {
        WorthUpdate(d, used, i, 1, |d|);
        used := used[i := used[i] + 1];
        nRemaining := nRemaining - d[i];
        assert Within(used, held);
      }
      if nRemaining < 0 { return; }
    }
  }

  /** Of every denomination, the coins that are not also in the change. */
  function Without(used: Counts, change: Counts): (r: Counts)
    requires |used| == |change|
    ensures |r| == |used|
  {
    seq(|used|, i requires 0 <= i < |used| => used[i] - Min(used[i], change[i]))
  }

  /** As many coins of each denomination are taken from what is spent as from the change, until one of them has none. */
  predicate Cancelled(used0: Counts, change0: Counts, used: Counts, change: Counts)
    requires |used0| == |change0|
  {
    && |used| == |change| == |used0|
    && forall j | 0 <= j < |used| ::
         && used[j] <= used0[j] && used0[j] + change[j] == used[j] + change0[j]
         && (used[j] == 0 || change[j] == 0)
  }

  /** Third stage: a coin that is both spent and returned as change is neither. */
  method removeOverlap(d: seq<nat>, used0: Counts, change0: Counts, amount0: int)
    returns (used: Counts, change: Counts, nAmount: int)
    requires Chain(d) && |used0| == |d| == |change0|
    ensures Within(used, used0) && nAmount - amount0 == Total(d, used) - Total(d, used0)
    ensures Cancelled(used0, change0, used, change) && used == Without(used0, change0)
    ensures Total(d, used) - Total(d, change) == Total(d, used0) - Total(d, change0)
  {
    used, change, nAmount := used0, change0, amount0;
    for i := 0 to |d|
      invariant Within(used, used0) && Within(change, change0)
      invariant Total(d, used) - Total(d, change) == Total(d, used0) - Total(d, change0)
      invariant nAmount - amount0 == Total(d, used) - Total(d, used0)
      invariant forall j | 0 <= j < |d| ::
        used[j] == if j < i then used0[j] - Min(used0[j], change0[j]) else used0[j]
      invariant forall j | i <= j < |d| :: change[j] == change0[j]
      invariant forall j | 0 <= j < i :: used0[j] + change[j] == used[j] + change0[j]
    {
      while change[i] > 0 && used[i] > 0
        invariant Within(used, used0) && Within(change, change0)
        invariant forall j | 0 <= j < |d| && j != i ::
          used[j] == if j < i then used0[j] - Min(used0[j], change0[j]) else used0[j]
        invariant forall j | i < j < |d| :: change[j] == change0[j]
        invariant forall j | 0 <= j < i :: used0[j] + change[j] == used[j] + change0[j]
        invariant used0[i] + change[i] == change0[i] + used[i]
        invariant Total(d, used) - Total(d, change) == Total(d, used0) - Total(d, change0)
        invariant nAmount - amount0 == Total(d, used) - Total(d, used0)
        decreases used[i]
      {
        ghost var u, c := used, change;
        used := used[i := used[i] - 1];
        change := change[i := change[i] - 1];
        nAmount := nAmount - d[i];
        WorthUpdate(d, used, i, 1, |d|);
        WorthUpdate(d, change, i, 1, |d|);
        assert used[i := used[i] + 1] == u && change[i := change[i] + 1] == c;
      }
    }
  }

  /**
    The coins held above position j together with m coins at j: the amounts a
    largest-first loop that stops at the target passes through.
   */
  function TopWorth(d: seq<nat>, held: Counts, j: nat, m: nat): int
    requires j < |d| == |held|
  {
    Total(d, held) - Worth(d, held, j + 1) + m * d[j]
  }

  /** The target is one of those amounts. */
  ghost predicate TopExact(d: seq<nat>, held: Counts, target: int)
    requires |d| == |held|
  {
    exists j: nat, m: nat | j < |d| && 0 < m <= held[j] :: TopWorth(d, held, j, m) == target
  }

  /** No coin is left that is worth more than what remains, though the holdings would suffice. */
  ghost predicate Stuck(d: seq<nat>, held: Counts, top: int, target: nat, used: Counts)
    requires Chain(d) && |held| == |d| && -1 <= top < |d|
  {
    && target > 0 && Approach(d, held, top, target, used) && Within(used, held) && Total(d, held) >= target
    && (forall j | top < j < |d| :: held[j] == 0)
    && (forall j | 0 <= j < |d| && used[j] < held[j] :: d[j] <= target - Total(d, used))
  }

  /** When stuck, every left coin is worth exactly what remains, and nothing smaller is held or used. */
  lemma StuckLeft(d: seq<nat>, held: Counts, top: int, target: nat, used: Counts, j: nat)
    requires Chain(d) && |held| == |d| && -1 <= top < |d| && Stuck(d, held, top, target, used)
    requires j < |d| && used[j] < held[j]
    ensures d[j] == target - Total(d, used) && forall l | 0 <= l < |d| && l != j :: used[l] == held[l]
    ensures Worth(d, used, j) == 0
  {
    ApproachLeft(d, held, top, target, used, j);
    forall l | 0 <= l < |d| && l != j ensures used[l] == held[l] {
      if used[l] < held[l] {
        ApproachLeft(d, held, top, target, used, l);
        if j < l { ChainOrder(d, j, l - 1); }
      }
    }
  }

  /**
    When stuck, the target is a top amount: all coins above some denomination,
    and some of that denomination.
   */
  lemma StuckIsTopExact(d: seq<nat>, held: Counts, top: int, target: nat, used: Counts)
    requires Chain(d) && |held| == |d| && -1 <= top < |d| && Stuck(d, held, top, target, used)
    ensures TopExact(d, held, target)
  {
    ApproachBelow(d, held, top, target, used);
    if forall j | 0 <= j < |d| :: used[j] >= held[j] { WorthMono(d, held, used, |d|); }
    var j: nat :| j < |d| && used[j] < held[j];
    StuckLeft(d, held, top, target, used, j);
    hide Stuck, Approach, Chain, TopWorth, Worth;
    TopWorthNext(d, held, used, j);
    assert TopWorth(d, held, j, used[j] + 1) == target;
  }

  lemma TopWorthNext(d: seq<nat>, held: Counts, used: Counts, j: nat)
    requires j < |d| == |held| == |used| && Worth(d, used, j) == 0 && forall l | j < l < |d| :: used[l] == held[l]
    ensures TopWorth(d, held, j, used[j] + 1) == Total(d, used) + d[j]
  {
    hide Worth;
    WorthSplit(d, used, held, j + 1, |d|);
    WorthNext(d, used, j);
    Distribute(used[j] + 1, 1, d[j]);
  }

  lemma WorthNext(d: seq<nat>, u: Counts, j: nat)
    requires j < |d| && j < |u|
    ensures Worth(d, u, j + 1) == Worth(d, u, j) + u[j] * d[j]
  {
  }

  /** The holdings reach past the target, so the alternative minimizeChange looks for exists. */
  ghost predicate Coverable(d: seq<nat>, held: Counts, top: int, target: int)
    requires Chain(d) && |held| == |d| && -1 <= top < |d|
  {
    || (exists i | top < i < |d| :: held[i] > 0 && d[i] > target)
    || ((forall i | top < i < |d| :: held[i] == 0) && Total(d, held) >= target && !TopExact(d, held, target))
  }

  /** When the holdings allow it, the first stage leaves a coin that passes the target. */
  lemma TwoStagesCover(d: seq<nat>, held: Counts, top: int, target: nat, used: Counts)
    requires Chain(d) && |held| == |d| && -1 <= top < |d| && target > 0 && Coverable(d, held, top, target)
    requires Approach(d, held, top, target, used) && Within(used, held)
    ensures exists j | 0 <= j < |d| && used[j] < held[j] :: d[j] > target - Total(d, used)
  {
    if i :| top < i < |d| && held[i] > 0 && d[i] > target {
      assert used[i] < held[i];
    } else if Stuck(d, held, top, target, used) {
      StuckIsTopExact(d, held, top, target, used);
    }
  }

  /** The first stage as a selection over all denominations. */
  function Below(d: seq<nat>, held: Counts, top: int, target: int): (used: Counts)
    requires Chain(d) && |held| == |d| && -1 <= top < |d|
    ensures |used| == |d|
  {
    Greedy(d, held, top + 1, target - 1) + Zeroes(|d| - top - 1)
  }

  lemma ApproachIs(d: seq<nat>, held: Counts, top: int, target: int, used: Counts)
    requires Chain(d) && |held| == |d| && -1 <= top < |d| && Approach(d, held, top, target, used)
    ensures used == Below(d, held, top, target)
  {
    assert used == used[..top + 1] + used[top + 1..];
    assert used[top + 1..] == Zeroes(|d| - top - 1);
  }

  /** The selection after the first two stages: close to the target from below, and one more coin. */
  function TwoStages(d: seq<nat>, held: Counts, top: int, target: int): (used: Counts)
    requires Chain(d) && |held| == |d| && -1 <= top < |d|
    ensures |used| == |d|
  {
    var below := Below(d, held, top, target);
    OneMore(d, held, below, target - Total(d, below), 0)
  }

  /**
    The selection minimizeChange considers: close to the target from below, one more
    coin, without the coins that would come back as change, and with its worth made
    up anew from the largest coins.
   */
  function Alternative(d: seq<nat>, held: Counts, top: int, target: int): (alt: Counts)
    requires Chain(d) && |held| == |d| && -1 <= top < |d|
    ensures |alt| == |d|
  {
    var used := TwoStages(d, held, top, target);
    var kept := Without(used, Change(d, |d|, Total(d, used) - target));
    Greedy(d, held, |d|, Total(d, kept))
  }

  /**
    A selection worth what is kept of the two stages, in the fewest coins held. What is kept
    and what comes back as change have no denomination in common, and the change is that
    of the two stages without the coins in common.
   */
  ghost predicate Settles(d: seq<nat>, held: Counts, staged: Counts, target: int, alt: Counts)
    requires Chain(d) && |held| == |d| == |staged| == |alt|
  {
    exists kept: Counts, returned: Counts |
      Cancelled(staged, Change(d, |d|, Total(d, staged) - target), kept, returned) ::
      && Change(d, |d|, Total(d, alt) - target) == returned
      && Total(d, alt) == Total(d, kept)
      && (forall u: Counts | Within(u, held) && Total(d, u) == Total(d, kept) :: Count(alt, |d|) <= Count(u, |d|))
      && Count(returned, |d|) ==
         ChangeCount(d, Total(d, staged) - target) - (Count(staged, |d|) - Count(kept, |d|))
  }

  lemma {:induction false} CancelledCount(used0: Counts, change0: Counts, used: Counts, change: Counts, i: nat)
    requires |used0| == |change0| && Cancelled(used0, change0, used, change) && i <= |used|
    ensures Count(change, i) == Count(change0, i) - (Count(used0, i) - Count(used, i))
  {
    if i > 0 { CancelledCount(used0, change0, used, change, i - 1); }
  }

  /** What remains of the change is the change for what is kept. */
  lemma CancelledChange(d: seq<nat>, staged: Counts, target: int, kept: Counts, returned: Counts)
    requires Chain(d) && |staged| == |d|
    requires Cancelled(staged, Change(d, |d|, Total(d, staged) - target), kept, returned)
    ensures Change(d, |d|, Total(d, kept) - target) == returned
  {
    hide RoundTo;
    var surplus := Total(d, staged) - target;
    var change := Change(d, |d|, surplus);
    var both := seq(|d|, i requires 0 <= i < |d| => staged[i] - kept[i]);
    assert Minus(staged, kept) == both;
    WorthMinus(d, staged, kept, |d|);
    if surplus >= 0 {
      ChangeLess(d, |d|, surplus, both);
    } else {
      ChangeNothing(d, |d|, surplus);
      ChangeNothing(d, |d|, Total(d, kept) - target);
    }
  }

  lemma SettledBy(d: seq<nat>, held: Counts, staged: Counts, target: int, kept: Counts, returned: Counts, alt: Counts)
    requires Chain(d) && |held| == |d| == |staged|
    requires Cancelled(staged, Change(d, |d|, Total(d, staged) - target), kept, returned) && Within(kept, held)
    requires alt == Greedy(d, held, |d|, Total(d, kept))
    ensures Settles(d, held, staged, target, alt)
  {
    hide Worth, Count, Greedy, Change, Cancelled;
    CancelledChange(d, staged, target, kept, returned);
    CancelledCount(staged, Change(d, |d|, Total(d, staged) - target), kept, returned, |d|);
    forall u: Counts | Within(u, held) && Total(d, u) == Total(d, kept)
      ensures Total(d, alt) == Total(d, kept) && Count(alt, |d|) <= Count(u, |d|)
    {
      GreedyExact(d, held, u, |d|, Total(d, kept));
    }
  }

  lemma AlternativeSettles(d: seq<nat>, held: Counts, top: int, target: int)
    requires Chain(d) && |held| == |d| && -1 <= top < |d| && Within(TwoStages(d, held, top, target), held)
    ensures Settles(d, held, TwoStages(d, held, top, target), target, Alternative(d, held, top, target))
  {
    hide Settles, TwoStages, Greedy, Change, Worth;
    var staged := TwoStages(d, held, top, target);
    var change := Change(d, |d|, Total(d, staged) - target);
    var kept, returned := Without(staged, change), Without(change, staged);
    assert forall j | 0 <= j < |d| :: kept[j] == staged[j] - Min(staged[j], change[j]);
    SettledBy(d, held, staged, target, kept, returned, Alternative(d, held, top, target));
  }

  /** A selection that is preferred to one with n coins of change. */
  predicate Better(d: seq<nat>, alt: Counts, nMaxNumberOfSpends: int, n: nat, target: int)
    requires Chain(d) && |alt| == |d|
  {
    ChangeCount(d, Total(d, alt) - target) < n && Count(alt, |d|) <= nMaxNumberOfSpends
  }

  /** The two stages, the removal of the overlap, and the amount found made up anew. */
  method findAlternative(d: seq<nat>, nextToMaxDenom: int, nValueTarget: int, held: Counts)
    returns (used: Counts, nAmountUsed: int)
    requires Chain(d) && |held| == |d| && -1 <= nextToMaxDenom < |d|
    ensures used == Alternative(d, held, nextToMaxDenom, nValueTarget)
    ensures Within(used, held) && nAmountUsed == Total(d, used)
    ensures nValueTarget > 0 && Coverable(d, held, nextToMaxDenom, nValueTarget) ==> nAmountUsed >= nValueTarget
    ensures Settles(d, held, TwoStages(d, held, nextToMaxDenom, nValueTarget), nValueTarget, used)
  {
    hide FewestCoins, RoundedDown, Worth, Count, Greedy, Coverable, Approach, Below, OneMore, Without, Change, Settles;
    var nRemainingValue;
    used, nRemainingValue := approachFromBelow(d, nextToMaxDenom, nValueTarget, held);
    ghost var first := used;
    ApproachIs(d, held, nextToMaxDenom, nValueTarget, first);
    used, nRemainingValue := addOneCoin(d, used, nRemainingValue, held);
    if nValueTarget > 0 && Coverable(d, held, nextToMaxDenom, nValueTarget) {
      TwoStagesCover(d, held, nextToMaxDenom, nValueTarget, first);
      assert nRemainingValue < 0;
    }
    nAmountUsed := nValueTarget - nRemainingValue;
    var altChange := getChange(d, nAmountUsed - nValueTarget);
    if nAmountUsed >= nValueTarget { ChangeLeft(d, |d|, nAmountUsed - nValueTarget); }
    assert Within(TwoStages(d, held, nextToMaxDenom, nValueTarget), held);
    used, altChange, nAmountUsed := removeOverlap(d, used, altChange, nAmountUsed);
    assert Within(used, held);
    GreedyExact(d, held, used, |d|, Total(d, used));
    used := getSpendCoins(d, nAmountUsed, held);
    AlternativeSettles(d, held, nextToMaxDenom, nValueTarget);
    GreedyWithin(d, held, |d|, nAmountUsed);
  }

  /**
    Looks for a selection with less change. The alternative is taken exactly when
    its change has fewer coins and it keeps the limit on spends; otherwise the given
    selection stays.
   */
  method minimizeChange(d: seq<nat>, nMaxNumberOfSpends: int, nChangeCount: nat, nextToMaxDenom: int, nValueTarget: int,
                        held: Counts, used0: Counts) returns (n: nat, used: Counts)
    requires Chain(d) && |held| == |d| && -1 <= nextToMaxDenom < |d| && Within(used0, held)
    ensures n <= nChangeCount && Within(used, held)
    ensures n == nChangeCount ==> used == used0
    ensures n < nChangeCount ==>
            n == ChangeCount(d, Total(d, used) - nValueTarget) && Count(used, |d|) <= nMaxNumberOfSpends
    ensures n < nChangeCount && nValueTarget > 0 && Coverable(d, held, nextToMaxDenom, nValueTarget)
            ==> Total(d, used) >= nValueTarget
    ensures var alt := Alternative(d, held, nextToMaxDenom, nValueTarget);
            if Better(d, alt, nMaxNumberOfSpends, nChangeCount, nValueTarget)
            then used == alt && n == ChangeCount(d, Total(d, alt) - nValueTarget)
            else used == used0 && n == nChangeCount
    ensures n < nChangeCount ==>
            Settles(d, held, TwoStages(d, held, nextToMaxDenom, nValueTarget), nValueTarget, used)
  {
    hide FewestCoins, RoundedDown, Worth, Count, Coverable, Alternative, Change, Settles, TwoStages;
    var nAmountUsed;
    used, nAmountUsed := findAlternative(d, nextToMaxDenom, nValueTarget, held);
    var nCoinCount := getNumberOfCoinsUsed(used);
    var altChange := getChange(d, nAmountUsed - nValueTarget);
    var altChangeCount := getNumberOfCoinsUsed(altChange);
    if altChangeCount < nChangeCount && nCoinCount <= nMaxNumberOfSpends {
      n := altChangeCount;
    } else {
      used := used0;
      n := nChangeCount;
    }
  }

  // ----- calculateChange -----

  lemma {:induction false} WorthGrows(d: seq<nat>, u: Counts, i: nat, n: nat)
    requires i <= n <= |d| && n <= |u|
    ensures Worth(d, u, i) <= Worth(d, u, n)
  {
    if i < n { WorthGrows(d, u, i, n - 1); }
  }

  /** A selection that stopped at the first top amount not below the target. */
  ghost predicate StoppedAt(d: seq<nat>, held: Counts, target: int, amount: int)
    requires |d| == |held|
  {
    exists j: nat, m: nat | j < |d| && 0 < m <= held[j] ::
      TopWorth(d, held, j, m) == amount && amount >= target && amount - d[j] < target
  }

  /** If the target is itself a top amount, stopping at the first one not below it is exact. */
  lemma StopIsExact(d: seq<nat>, held: Counts, target: int, amount: int)
    requires Chain(d) && |held| == |d| && StoppedAt(d, held, target, amount) && TopExact(d, held, target)
    ensures amount == target
  {
    var j: nat, m: nat :| j < |d| && 0 < m <= held[j] && TopWorth(d, held, j, m) == amount && amount - d[j] < target;
    var k: nat, l: nat :| k < |d| && 0 < l <= held[k] && TopWorth(d, held, k, l) == target;
    if k > j {
      WorthGrows(d, held, j + 1, k);
      MulMono(l, held[k], d[k]);
      MulMono(1, m, d[j]);
    } else if k < j {
      WorthGrows(d, held, k + 1, j);
      MulMono(m, held[j], d[j]);
      MulMono(1, l, d[k]);
    } else {
      if l < m { MulMono(l, m - 1, d[j]); Distribute(m, 1, d[j]); }
      if m < l { MulMono(m, l, d[j]); }
    }
  }

  /** Coins of one denomination until nothing remains to be covered. */
  method takeUntilCovered(nRemaining: int, coin: nat, available: nat) returns (k: nat, nLeft: int)
    requires coin > 0
    ensures k == UntilCovered(nRemaining, coin, available) && nLeft == nRemaining - k * coin
  {
    k, nLeft := 0, nRemaining;
    while nLeft > 0 && k < available
      invariant 0 <= k <= available && nLeft == nRemaining - k * coin
      invariant nRemaining <= 0 ==> k == 0
      invariant k > 0 ==> nLeft + coin > 0
      decreases available - k
    {
      k := k + 1;
      nLeft := nLeft - coin;
    }
    UntilCoveredIs(nRemaining, coin, available, k);
  }

  /** How many coins of value v, of h available, until nothing remains. */
  function UntilCovered(rem: int, v: nat, h: nat): (k: nat)
    requires v > 0
    ensures k <= h
  {
    if rem <= 0 then 0 else Min(h, (rem + v - 1) / v)
  }

  lemma UntilCoveredIs(rem: int, v: nat, h: nat, k: nat)
    requires v > 0 && k <= h && (rem <= 0 ==> k == 0) && (k > 0 ==> rem - k * v + v > 0)
    requires rem - k * v <= 0 || k == h
    ensures k == UntilCovered(rem, v, h)
  {
    if rem > 0 {
      var q := (rem + v - 1) / v;
      assert rem + v - 1 == q * v + (rem + v - 1) % v;
      if k < q { MulMono(k + 1, q, v); }
      if q < k { MulMono(q + 1, k, v); }
    }
  }

  /** Largest coins first until the amount is reached or passed, of the first i denominations. */
  function Cover(d: seq<nat>, held: Counts, i: nat, rem: int): (u: Counts)
    requires i <= |d| && i <= |held| && forall j | 0 <= j < |d| :: d[j] > 0
    ensures |u| == i
  {
    if i == 0 then []
    else
      var k := UntilCovered(rem, d[i - 1], held[i - 1]);
      Cover(d, held, i - 1, rem - k * d[i - 1]) + [k]
  }

  lemma {:induction false} CoverNothing(d: seq<nat>, held: Counts, i: nat, rem: int)
    requires i <= |d| && i <= |held| && (forall j | 0 <= j < |d| :: d[j] > 0) && rem <= 0
    ensures Cover(d, held, i, rem) == Zeroes(i)
  {
    if i > 0 { CoverNothing(d, held, i - 1, rem); }
  }

  /** The loop stopped in denomination i, with everything above taken and nothing below. */
  lemma StopsHere(d: seq<nat>, held: Counts, used: Counts, i: nat, k: nat, target: int)
    requires |d| == |held| == |used| && i < |d| && 0 < k <= held[i] && used[i] == k
    requires (forall j | 0 <= j < i :: used[j] == 0) && (forall j | i < j < |d| :: used[j] == held[j])
    requires Total(d, used) >= target && Total(d, used) - d[i] < target
    ensures StoppedAt(d, held, target, Total(d, used))
  {
    WorthSplit(d, used, held, i + 1, |d|);
    WorthZero(d, used, i);
    assert TopWorth(d, held, i, k) == Total(d, used);
  }

  /** The state of the covering loop before denomination i - 1. */
  ghost predicate Covering(d: seq<nat>, held: Counts, used: Counts, i: nat, target: int)
    requires |d| == |held| == |used| && i <= |d|
  {
    && Within(used, held) && (forall j | 0 <= j < i :: used[j] == 0)
    && (target > Total(d, used) ==> forall j | i <= j < |d| :: used[j] == held[j])
    && (Total(d, used) >= target > 0 ==> StoppedAt(d, held, target, Total(d, used)))
  }

  lemma CoveringStart(d: seq<nat>, held: Counts, target: int)
    requires |d| == |held|
    ensures Covering(d, held, Zeroes(|d|), |d|, target) && Total(d, Zeroes(|d|)) == 0 == Count(Zeroes(|d|), |d|)
  {
    WorthZero(d, Zeroes(|d|), |d|);
  }

  lemma CoveringNext(d: seq<nat>, held: Counts, used: Counts, i: nat, k: nat, target: int)
    requires Chain(d) && |d| == |held| == |used| && i < |d| && Covering(d, held, used, i + 1, target)
    requires k == UntilCovered(target - Total(d, used), d[i], held[i])
    ensures Total(d, used[i := k]) == Total(d, used) + k * d[i] && Count(used[i := k], |d|) == Count(used, |d|) + k
    ensures Covering(d, held, used[i := k], i, target)
  {
    hide StoppedAt, Worth, Count;
    WorthUpdate(d, used, i, k, |d|);
    var rem := target - Total(d, used);
    if rem > 0 {
      UntilCoveredMeans(rem, d[i], held[i]);
      if k > 0 && k * d[i] >= rem { StopsHere(d, held, used[i := k], i, k, target); }
    }
  }

  lemma UntilCoveredMeans(rem: int, v: nat, h: nat)
    requires v > 0 && rem > 0
    ensures var k := UntilCovered(rem, v, h); (k * v < rem ==> k == h) && k * v - v < rem && (k * v >= rem ==> k > 0)
  {
    var q, k := (rem + v - 1) / v, UntilCovered(rem, v, h);
    DivTimes(rem + v - 1, v);
    MulMono(k, q, v);
  }

  /** Largest coins first until the target is reached or passed. */
  method coverTarget(d: seq<nat>, nValueTarget: int, held: Counts)
    returns (used: Counts, nAmountUsed: int, nCoinCount: nat)
    requires Chain(d) && |held| == |d|
    ensures Within(used, held) && nAmountUsed == Total(d, used) && nCoinCount == Count(used, |d|)
    ensures used == Cover(d, held, |d|, nValueTarget)
    ensures nAmountUsed < nValueTarget ==> used == held
    ensures nAmountUsed >= nValueTarget > 0 ==> StoppedAt(d, held, nValueTarget, nAmountUsed)
  {
    hide Worth, Count, StoppedAt, UntilCovered, Covering, Cover, Zeroes;
    used, nAmountUsed, nCoinCount := Zeroes(|d|), 0, 0;
    var nRemainingValue := nValueTarget;
    CoveringStart(d, held, nValueTarget);
    for i := |d| downto 0
      invariant |used| == |d| && nRemainingValue == nValueTarget - nAmountUsed
      invariant nAmountUsed == Total(d, used) && nCoinCount == Count(used, |d|)
      invariant Covering(d, held, used, i, nValueTarget)
      invariant Cover(d, held, |d|, nValueTarget) == Cover(d, held, i, nRemainingValue) + used[i..]
    {
      ghost var before := used;
      var k;
      k, nRemainingValue := takeUntilCovered(nRemainingValue, d[i], held[i]);
      used := used[i := k];
      assert used[i..] == [k] + before[i + 1..];
      nAmountUsed, nCoinCount := nAmountUsed + k * d[i], nCoinCount + k;
      CoveringNext(d, held, before, i, k, nValueTarget);
      CoverNext(d, held, i, nRemainingValue + k * d[i]);
      if nRemainingValue < 0 {
        CoverNothing(d, held, i, nRemainingValue);
        CoveringEnd(d, held, used, i, nValueTarget);
        return;
      }
    }
    CoverNothing(d, held, 0, 0);
    CoveringEnd(d, held, used, 0, nValueTarget);
  }

  lemma CoverNext(d: seq<nat>, held: Counts, i: nat, rem: int)
    requires Chain(d) && i < |d| == |held|
    ensures var k := UntilCovered(rem, d[i], held[i]);
            Cover(d, held, i + 1, rem) == Cover(d, held, i, rem - k * d[i]) + [k]
  {
  }

  lemma CoveringEnd(d: seq<nat>, held: Counts, used: Counts, i: nat, target: int)
    requires |d| == |held| == |used| && i <= |d| && Covering(d, held, used, i, target)
    requires i == 0 || Total(d, used) > target
    ensures used == Zeroes(i) + used[i..] && Within(used, held) && (Total(d, used) < target ==> used == held)
    ensures Total(d, used) >= target > 0 ==> StoppedAt(d, held, target, Total(d, used))
  {
    hide StoppedAt, Worth;
  }

  /** The first held denomination above the target, from position i on, or -1. */
  function FirstAbove(d: seq<nat>, target: int, held: Counts, i: nat): (m: int)
    requires |held| == |d| && i <= |d|
    ensures -1 <= m < |d|
    decreases |d| - i
  {
    if i == |d| then -1 else if d[i] > target && held[i] > 0 then i else FirstAbove(d, target, held, i + 1)
  }

  lemma {:induction false} FirstAboveIs(d: seq<nat>, target: int, held: Counts, i: nat)
    requires |held| == |d| && i <= |d|
    ensures var m := FirstAbove(d, target, held, i);
            && (m >= 0 ==> i <= m && d[m] > target && held[m] > 0)
            && forall j | i <= j < if m >= 0 then m else |d| :: d[j] <= target || held[j] == 0
    decreases |d| - i
  {
    if i < |d| { FirstAboveIs(d, target, held, i + 1); }
  }

  /** The first held denomination above the target, if any: one coin is a solution. */
  method minDenomAbove(d: seq<nat>, nValueTarget: int, held: Counts) returns (m: int)
    requires |held| == |d|
    ensures -1 <= m < |d| && (m >= 0 ==> d[m] > nValueTarget && held[m] > 0)
    ensures forall i | 0 <= i < if m >= 0 then m else |d| :: !(d[i] > nValueTarget && held[i] > 0)
    ensures m == FirstAbove(d, nValueTarget, held, 0)
  {
    m := -1;
    for i := 0 to |d|
      invariant FirstAbove(d, nValueTarget, held, 0) == FirstAbove(d, nValueTarget, held, i)
      invariant m == -1 && forall j | 0 <= j < i :: !(d[j] > nValueTarget && held[j] > 0)
    {
      if nValueTarget < d[i] && held[i] != 0 { return i; }
    }
  }

  lemma OneCoin(d: seq<nat>, m: nat)
    requires m < |d|
    ensures Total(d, Zeroes(|d|)[m := 1]) == d[m] && Count(Zeroes(|d|)[m := 1], |d|) == 1
  {
    WorthZero(d, Zeroes(|d|), |d|);
    WorthUpdate(d, Zeroes(|d|), m, 1, |d|);
  }

  /** What is said of the change count of a selection: the change is worth the surplus, in the fewest coins. */
  ghost predicate ChangeOf(d: seq<nat>, used: Counts, target: int, n: nat)
    requires Chain(d) && |used| == |d|
  {
    && n == ChangeCount(d, Total(d, used) - target)
    && (Total(d, used) >= target ==> FewestCoins(d, RoundedDown(d, Total(d, used) - target), n))
  }

  lemma ChangeOfIs(d: seq<nat>, used: Counts, target: int)
    requires Chain(d) && |used| == |d|
    ensures ChangeOf(d, used, target, ChangeCount(d, Total(d, used) - target))
  {
    if Total(d, used) >= target { ChangeIsFewest(d, Total(d, used) - target); }
  }

  /** The selection made without looking for less change. */
  function PlainSelection(d: seq<nat>, target: int, held: Counts): (u: Counts)
    requires Chain(d) && |held| == |d|
    ensures |u| == |d|
  {
    var m := FirstAbove(d, target, held, 0);
    if m >= 0 then Zeroes(|d|)[m := 1] else Cover(d, held, |d|, target)
  }

  /** Where the search for less change starts: below the one coin, or at the highest denomination held. */
  function SearchTop(d: seq<nat>, target: int, held: Counts): (top: int)
    requires |held| == |d|
    ensures -1 <= top < |d|
  {
    var m := FirstAbove(d, target, held, 0);
    HighestBelow(held, if m >= 0 then m else |d|)
  }

  lemma {:induction false} HighestCovers(held: Counts, i: int)
    requires i <= |held|
    ensures forall j | 0 <= j < i && held[j] > 0 :: j <= HighestBelow(held, i)
  {
    if i > 0 && held[i - 1] == 0 { HighestCovers(held, i - 1); }
  }

  /** The search takes part exactly in the coins held that do not pass the target, up to the largest of them. */
  lemma SearchTopIs(d: seq<nat>, target: int, held: Counts)
    requires Chain(d) && |held| == |d|
    ensures var top := SearchTop(d, target, held);
            && (top >= 0 ==> held[top] > 0 && d[top] <= target)
            && forall i | 0 <= i < |d| && held[i] > 0 :: i <= top <==> d[i] <= target
  {
    var m := FirstAbove(d, target, held, 0);
    FirstAboveIs(d, target, held, 0);
    HighestCovers(held, if m >= 0 then m else |d|);
    if m >= 0 {
      forall i | m <= i < |d| ensures d[i] > target { ChainOrder(d, m, i); }
    }
  }

  /** The selection for a target that cannot be met exactly. */
  function ChangeSelection(d: seq<nat>, nMaxNumberOfSpends: int, fMinimizeChange: bool, target: int, held: Counts)
    : (u: Counts)
    requires Chain(d) && |held| == |d|
    ensures |u| == |d|
  {
    var plain := PlainSelection(d, target, held);
    var alt := Alternative(d, held, SearchTop(d, target, held), target);
    if !Better(d, alt, nMaxNumberOfSpends, ChangeCount(d, Total(d, plain) - target), target) then plain
    else if fMinimizeChange then alt
    else if FirstAbove(d, target, held, 0) >= 0 || Count(plain, |d|) < Count(alt, |d|) then plain
    else alt
  }

  ghost predicate AnyAbove(d: seq<nat>, target: int, held: Counts)
    requires |held| == |d|
  {
    exists i | 0 <= i < |d| :: d[i] > target && held[i] > 0
  }

  /** One coin, the smallest held that is worth more than the target. */
  ghost predicate LeastAbove(d: seq<nat>, target: int, held: Counts, u: Counts)
    requires |held| == |d|
  {
    exists m: nat | m < |d| :: d[m] > target && held[m] > 0 && u == Zeroes(|d|)[m := 1] &&
      forall i | 0 <= i < m :: !(d[i] > target && held[i] > 0)
  }

  /** The plain selection: the smallest coin above the target, or the covering loop's if there is none. */
  ghost predicate Plain(d: seq<nat>, held: Counts, target: int, u: Counts)
    requires Chain(d) && |held| == |d| == |u|
  {
    if AnyAbove(d, target, held) then LeastAbove(d, target, held, u)
    else
      && Within(u, held) && (Total(d, u) < target ==> u == held)
      && (Total(d, u) >= target > 0 ==> StoppedAt(d, held, target, Total(d, u)))
  }

  /** The case of one coin above the target. */
  method changeOneCoin(d: seq<nat>, nMaxNumberOfSpends: int, fMinimizeChange: bool, nValueTarget: int, held: Counts,
                       minDenomOverTarget: nat)
    returns (n: nat, used: Counts)
    requires Chain(d) && |held| == |d| && minDenomOverTarget < |d|
    requires held[minDenomOverTarget] > 0 && d[minDenomOverTarget] > nValueTarget
    requires minDenomOverTarget == FirstAbove(d, nValueTarget, held, 0)
    ensures Within(used, held) && n == ChangeCount(d, Total(d, used) - nValueTarget)
    ensures nValueTarget > 0 ==> Total(d, used) >= nValueTarget
    ensures n <= ChangeCount(d, d[minDenomOverTarget] - nValueTarget)
    ensures Total(d, PlainSelection(d, nValueTarget, held)) == d[minDenomOverTarget]
    ensures used == ChangeSelection(d, nMaxNumberOfSpends, fMinimizeChange, nValueTarget, held)
  {
    hide Settles, TwoStages, TopExact, Worth, Count, FewestCoins, RoundedDown, StoppedAt, Alternative, FirstAbove;
    hide HighestBelow;
    used := Zeroes(|d|)[minDenomOverTarget := 1];
    OneCoin(d, minDenomOverTarget);
    var change := getChange(d, d[minDenomOverTarget] - nValueTarget);
    var nChangeCount := getNumberOfCoinsUsed(change);
    n := nChangeCount;
    if fMinimizeChange {
      var nextToMaxDenom := getNextLowerDenomHeld(minDenomOverTarget, held);
      HighestIs(held, minDenomOverTarget, nextToMaxDenom);
      var newChangeCount;
      newChangeCount, used :=
        minimizeChange(d, nMaxNumberOfSpends, nChangeCount, nextToMaxDenom, nValueTarget, held, used);
      if newChangeCount < nChangeCount { return newChangeCount, used; }
      used := Zeroes(|d|)[minDenomOverTarget := 1];
    }
  }

  /** The case of several coins. */
  method changeCovering(d: seq<nat>, nMaxNumberOfSpends: int, fMinimizeChange: bool, nValueTarget: int, held: Counts)
    returns (n: nat, used: Counts)
    requires Chain(d) && |held| == |d| && FirstAbove(d, nValueTarget, held, 0) == -1
    ensures Within(used, held) && n == ChangeCount(d, Total(d, used) - nValueTarget)
    ensures nValueTarget > 0 && Total(d, held) >= nValueTarget ==> Total(d, used) >= nValueTarget
    ensures Total(d, held) < nValueTarget ==> n == 0 && used == held
    ensures used == ChangeSelection(d, nMaxNumberOfSpends, fMinimizeChange, nValueTarget, held)
    ensures var plain := Cover(d, held, |d|, nValueTarget);
            && Within(plain, held) && n <= ChangeCount(d, Total(d, plain) - nValueTarget)
            && (Total(d, plain) < nValueTarget ==> plain == held)
            && (Total(d, plain) >= nValueTarget > 0 ==> StoppedAt(d, held, nValueTarget, Total(d, plain)))
  {
    hide Settles, TwoStages, StoppedAt, TopExact, Worth, Count, FewestCoins, RoundedDown, Alternative, FirstAbove;
    hide HighestBelow, Cover;
    var nAmountUsed, nCoinCount;
    used, nAmountUsed, nCoinCount := coverTarget(d, nValueTarget, held);
    var change := getChange(d, nAmountUsed - nValueTarget);
    var nMaxChangeCount := getNumberOfCoinsUsed(change);
    if nAmountUsed <= nValueTarget { ChangeNothing(d, |d|, nAmountUsed - nValueTarget); }
    if nAmountUsed >= nValueTarget > 0 && TopExact(d, held, nValueTarget) {
      StopIsExact(d, held, nValueTarget, nAmountUsed);
    }
    var maxDenomHeld := getMaxDenomHeld(held);
    HighestIs(held, |held|, maxDenomHeld);
    var nChangeCount, mapOfMinDenomsUsed :=
      minimizeChange(d, nMaxNumberOfSpends, nMaxChangeCount, maxDenomHeld, nValueTarget, held, used);
    var nNumSpends := getNumberOfCoinsUsed(mapOfMinDenomsUsed);
    WorthMono(d, used, held, |d|);
    if !fMinimizeChange && nCoinCount < nNumSpends { return nMaxChangeCount, used; }
    used := mapOfMinDenomsUsed;
    n := nChangeCount;
  }

  /**
    A selection for a target that cannot be met exactly, and how many coins its
    change takes: never more than for the plain selection.
   */
  method calculateChange(d: seq<nat>, nMaxNumberOfSpends: int, fMinimizeChange: bool, nValueTarget: int, held: Counts)
    returns (n: nat, used: Counts)
    requires Chain(d) && |held| == |d|
    ensures Within(used, held) && ChangeOf(d, used, nValueTarget, n)
    ensures nValueTarget > 0 && Total(d, held) >= nValueTarget ==> Total(d, used) >= nValueTarget
    ensures Total(d, held) < nValueTarget ==> n == 0 && used == held
    ensures var plain := PlainSelection(d, nValueTarget, held);
            Plain(d, held, nValueTarget, plain) && n <= ChangeCount(d, Total(d, plain) - nValueTarget)
    ensures used == ChangeSelection(d, nMaxNumberOfSpends, fMinimizeChange, nValueTarget, held)
  {
    hide StoppedAt, Worth, Count, FewestCoins, RoundedDown, ChangeSelection, Cover, FirstAbove;
    var minDenomOverTarget := minDenomAbove(d, nValueTarget, held);
    if minDenomOverTarget != -1 {
      n, used := changeOneCoin(d, nMaxNumberOfSpends, fMinimizeChange, nValueTarget, held, minDenomOverTarget);
      HeldWorth(d, held, minDenomOverTarget);
    } else {
      n, used := changeCovering(d, nMaxNumberOfSpends, fMinimizeChange, nValueTarget, held);
    }
    ChangeOfIs(d, used, nValueTarget);
  }

  lemma {:induction false} HeldWorth(d: seq<nat>, held: Counts, m: nat)
    requires m < |d| == |held| && held[m] > 0
    ensures Total(d, held) >= d[m]
  {
    WorthGrows(d, held, m + 1, |d|);
    MulMono(1, held[m], d[m]);
  }

  // ----- mints -----

  /** A mint by the position of its denomination, -1 for the error denomination. */
  datatype Mint = Mint(denom: int, isUsed: bool)

  /** Positions of the unused mints of one denomination, among the first n. */
  function Positions(mints: seq<Mint>, n: nat, coin: int): (r: seq<nat>)
    requires n <= |mints|
  {
    if n == 0 then []
    else if !mints[n - 1].isUsed && mints[n - 1].denom == coin then Positions(mints, n - 1, coin) + [n - 1]
    else Positions(mints, n - 1, coin)
  }

  /** Ascending positions of unused mints of one denomination. */
  ghost predicate Proper(mints: seq<Mint>, r: seq<nat>, n: nat, coin: int) {
    && AllUnused(mints, r, coin, coin + 1)
    && (forall a | 0 <= a < |r| :: r[a] < n)
    && (forall a, b | 0 <= a < b < |r| :: r[a] < r[b])
  }

  lemma {:induction false} PositionsProper(mints: seq<Mint>, n: nat, coin: int)
    requires n <= |mints|
    ensures Proper(mints, Positions(mints, n, coin), n, coin)
  {
    if n > 0 { PositionsProper(mints, n - 1, coin); }
  }

  /** Number of unused mints of one denomination, among the first n. */
  function SupplyOf(mints: seq<Mint>, n: nat, coin: int): nat
    requires n <= |mints|
  {
    if n == 0 then 0
    else SupplyOf(mints, n - 1, coin) + if !mints[n - 1].isUsed && mints[n - 1].denom == coin then 1 else 0
  }

  lemma {:induction false} SupplyIsPositions(mints: seq<Mint>, n: nat, coin: int)
    requires n <= |mints|
    ensures SupplyOf(mints, n, coin) == |Positions(mints, n, coin)|
  {
    if n > 0 { SupplyIsPositions(mints, n - 1, coin); }
  }

  lemma {:induction false} SupplyGrows(mints: seq<Mint>, p: nat, n: nat, coin: int)
    requires p <= n <= |mints|
    ensures SupplyOf(mints, p, coin) <= SupplyOf(mints, n, coin)
  {
    if p < n { SupplyGrows(mints, p, n - 1, coin); }
  }

  /** How many unused mints there are of each denomination. */
  function Supply(d: seq<nat>, mints: seq<Mint>): (s: Counts)
    ensures |s| == |d|
  {
    seq(|d|, i requires 0 <= i < |d| => SupplyOf(mints, |mints|, i))
  }

  /** One denomination of getIdealSpends: the first unused mints as long as they fit. */
  method takeMints(mints: seq<Mint>, coin: nat, nValue: nat, remaining: int) returns (nUsed: nat, nRemaining: int)
    requires nValue > 0
    ensures nUsed == Take(SupplyOf(mints, |mints|, coin), remaining, nValue) && nRemaining == remaining - nUsed * nValue
  {
    nUsed, nRemaining := 0, remaining;
    ghost var spent := 0;
    for p := 0 to |mints|
      invariant nUsed <= SupplyOf(mints, p, coin) && nRemaining == remaining - spent && spent == nUsed * nValue
      invariant nUsed > 0 ==> nRemaining >= 0
      invariant nRemaining >= nValue ==> nUsed == SupplyOf(mints, p, coin)
    {
      SupplyGrows(mints, p + 1, |mints|, coin);
      if mints[p].isUsed { continue; }
      if nRemaining >= nValue && coin == mints[p].denom {
        nUsed := nUsed + 1;
        nRemaining := nRemaining - nValue;
        spent := spent + nValue;
        Distribute(nUsed, 1, nValue);
      }
      if nRemaining < nValue { break; }
    }
    assert nUsed <= SupplyOf(mints, |mints|, coin);
    TakeIs(SupplyOf(mints, |mints|, coin), remaining, nValue, nUsed);
  }

  /** Largest-first over the supply meets the target exactly when some choice does, and then with fewest coins. */
  lemma LargestFirstIsIdeal(d: seq<nat>, supply: Counts, target: int, used: Counts)
    requires Chain(d) && |supply| == |d| && used == Greedy(d, supply, |d|, target)
    ensures Within(used, supply)
    ensures Total(d, used) == target <==> exists u: Counts | Within(u, supply) :: Total(d, u) == target
    ensures forall u: Counts | Within(u, supply) && Total(d, u) == target :: Count(used, |d|) <= Count(u, |d|)
  {
    GreedyWithin(d, supply, |d|, target);
    assert Within(used, supply);
    forall u: Counts | Within(u, supply) && Total(d, u) == target
      ensures Total(d, used) == target && Count(used, |d|) <= Count(u, |d|)
    {
      GreedyExact(d, supply, u, |d|, target);
    }
  }

  /** True exactly when some choice of unused mints sums to the target; then the choice found has the fewest coins. */
  method getIdealSpends(d: seq<nat>, nValueTarget: int, mints: seq<Mint>) returns (ok: bool, used: Counts)
    requires Chain(d)
    ensures Within(used, Supply(d, mints))
    ensures ok == exists u: Counts | Within(u, Supply(d, mints)) :: Total(d, u) == nValueTarget
    ensures ok ==> Total(d, used) == nValueTarget
    ensures ok ==>
      forall u: Counts | Within(u, Supply(d, mints)) && Total(d, u) == nValueTarget :: Count(used, |d|) <= Count(u, |d|)
  {
    ghost var supply := Supply(d, mints);
    used := Zeroes(|d|);
    var nRemainingValue := nValueTarget;
    WorthZero(d, used, |d|);
    ghost var goal := Greedy(d, supply, |d|, nValueTarget);
    for i := |d| downto 0
      invariant |used| == |d| && forall j | 0 <= j < i :: used[j] == 0
      invariant goal[..i] == Greedy(d, supply, i, nRemainingValue) && goal[i..] == used[i..]
      invariant nRemainingValue == nValueTarget - Total(d, used)
    {
      ghost var rem, before := nRemainingValue, used;
      var k;
      k, nRemainingValue := takeMints(mints, i, d[i], nRemainingValue);
      GreedyNext(d, supply, goal, i, rem, nRemainingValue, k);
      WorthUpdate(d, before, i, k, |d|);
      used := used[i := k];
      assert goal[i..] == [k] + goal[i + 1..];
    }
    ok := nRemainingValue == 0;
    LargestFirstIsIdeal(d, supply, nValueTarget, used);
  }

  // ----- picking the mints -----

  /** What the do-while loop picks for one denomination: pass after pass over the same positions. */
  function Passes(pos: seq<nat>, k: nat): (r: seq<nat>)
    requires k > 0 ==> pos != []
    ensures |r| == k
    decreases k
  {
    if k <= |pos| then pos[..k] else pos + Passes(pos, k - |pos|)
  }

  /** Every denomination that is wanted has an unused mint. */
  ghost predicate Available(mints: seq<Mint>, used: Counts) {
    forall j | 0 <= j < |used| && used[j] > 0 :: Positions(mints, |mints|, j) != []
  }

  /** What is left to pick of one denomination after a number of passes over its unused mints. */
  function LeftAfter(pos: seq<nat>, nWanted: nat, passes: nat): nat
  {
    if passes == 0 then nWanted
    else
      var n := LeftAfter(pos, nWanted, passes - 1);
      n - Min(n, |pos|)
  }

  lemma {:induction false} LeftIs(pos: seq<nat>, nWanted: nat, passes: nat)
    ensures LeftAfter(pos, nWanted, passes) == if passes * |pos| >= nWanted then 0 else nWanted - passes * |pos|
  {
    if passes > 0 {
      LeftIs(pos, nWanted, passes - 1);
      assert passes * |pos| == (passes - 1) * |pos| + |pos|;
    }
  }

  /** The do-while loop for one denomination comes to an end. */
  ghost predicate LoopEnds(pos: seq<nat>, nWanted: nat) {
    exists n: nat :: LeftAfter(pos, nWanted, n) == 0
  }

  lemma LoopEndsIff(pos: seq<nat>, nWanted: nat)
    ensures LoopEnds(pos, nWanted) <==> nWanted == 0 || pos != []
  {
    hide LeftAfter;
    LeftIs(pos, nWanted, nWanted);
    if pos == [] {
      forall n: nat ensures LeftAfter(pos, nWanted, n) == nWanted { LeftIs(pos, nWanted, n); }
    } else {
      MulMono(1, |pos|, nWanted);
      assert LeftAfter(pos, nWanted, nWanted) == 0;
    }
  }

  /** The do-while loops of getSpends come to an end exactly when every denomination wanted has an unused mint. */
  lemma LoopsEnd(mints: seq<Mint>, used: Counts)
    ensures Available(mints, used) <==>
            forall j | 0 <= j < |used| :: LoopEnds(Positions(mints, |mints|, j), used[j])
  {
    hide Positions, LoopEnds;
    forall j | 0 <= j < |used|
      ensures LoopEnds(Positions(mints, |mints|, j), used[j]) <==> used[j] == 0 || Positions(mints, |mints|, j) != []
    {
      LoopEndsIff(Positions(mints, |mints|, j), used[j]);
    }
  }

  /** One coin wanted of a denomination that has no unused mint: however many passes are made, one is left. */
  lemma LoopForever()
    ensures !Available([], [1]) && !LoopEnds(Positions([], 0, 0), 1)
    ensures forall n: nat :: LeftAfter(Positions([], 0, 0), 1, n) == 1
  {
    forall n: nat ensures LeftAfter([], 1, n) == 1 { LeftIs([], 1, n); }
    LoopEndsIff([], 1);
    assert Positions([], 0, 0) == [] && [1][0] > 0;
  }

  /** All picks, highest denomination first, down to position i. */
  ghost function Picks(mints: seq<Mint>, used: Counts, i: nat): seq<nat>
    requires i <= |used| && Available(mints, used)
    decreases |used| - i
  {
    if i == |used| then [] else Picks(mints, used, i + 1) + Passes(Positions(mints, |mints|, i), used[i])
  }

  /** One pass of the inner loop. */
  method onePass(mints: seq<Mint>, coin: nat, nWanted: nat) returns (vSelected: seq<nat>, nLeft: nat)
    ensures var pos := Positions(mints, |mints|, coin);
            vSelected == pos[..Min(nWanted, |pos|)] && nLeft == nWanted - |vSelected| == LeftAfter(pos, nWanted, 1)
  {
    vSelected, nLeft := [], nWanted;
    for p := 0 to |mints|
      invariant var pos := Positions(mints, p, coin);
                vSelected == pos[..Min(nWanted, |pos|)] && nLeft == nWanted - |vSelected|
    {
      if mints[p].isUsed { continue; }
      if coin == mints[p].denom && nLeft != 0 {
        vSelected := vSelected + [p];
        nLeft := nLeft - 1;
      }
    }
  }

  /** The do-while loop for one denomination. */
  method spendDenomination(mints: seq<Mint>, coin: nat, nWanted: nat) returns (vSelected: seq<nat>)
    requires nWanted > 0 ==> Positions(mints, |mints|, coin) != []
    ensures vSelected == Passes(Positions(mints, |mints|, coin), nWanted)
  {
    ghost var pos := Positions(mints, |mints|, coin);
    vSelected := [];
    var nLeft := nWanted;
    var again := true;
    while again
      invariant !again ==> nLeft == 0
      invariant nLeft > 0 ==> pos != []
      invariant vSelected + Passes(pos, nLeft) == Passes(pos, nWanted)
      decreases again, nLeft
    {
      var some;
      ghost var before, left := vSelected, nLeft;
      some, nLeft := onePass(mints, coin, nLeft);
      assert Passes(pos, left) == some + Passes(pos, nLeft);
      vSelected := vSelected + some;
      assert vSelected + Passes(pos, nLeft) == before + Passes(pos, left);
      again := nLeft != 0;
    }
    assert vSelected + Passes(pos, 0) == vSelected;
  }

  /**
    Picks mints for the counts. What is required is, by LoopsEnd, exactly that the
    do-while loops end.
   */
  method getSpends(d: seq<nat>, mints: seq<Mint>, used0: Counts)
    returns (vSelected: seq<nat>, nCoinsSpentValue: int, used: Counts)
    requires |used0| == |d| && Available(mints, used0)
    ensures vSelected == Picks(mints, used0, 0) && nCoinsSpentValue == Total(d, used0)
    ensures used == Zeroes(|d|)
  {
    vSelected, nCoinsSpentValue, used := [], 0, used0;
    for i := |d| downto 0
      invariant |used| == |d| && vSelected == Picks(mints, used0, i)
      invariant nCoinsSpentValue == Total(d, used0) - Worth(d, used0, i)
      invariant forall j | 0 <= j < |d| :: used[j] == if j < i then used0[j] else 0
    {
      var some := spendDenomination(mints, i, used[i]);
      vSelected := vSelected + some;
      nCoinsSpentValue := nCoinsSpentValue + used[i] * d[i];
      used := used[i := 0];
    }
    assert used == Zeroes(|d|);
  }

  /** Every pick is an unused mint of the table. */
  lemma {:induction false} PicksAreUnused(mints: seq<Mint>, used: Counts, i: nat)
    requires i <= |used| && Available(mints, used)
    ensures AllUnused(mints, Picks(mints, used, i), i, |used|)
    decreases |used| - i
  {
    if i < |used| {
      PicksAreUnused(mints, used, i + 1);
      PositionsProper(mints, |mints|, i);
      PassesWithin(Positions(mints, |mints|, i), used[i]);
      var high, pos := Picks(mints, used, i + 1), Positions(mints, |mints|, i);
      var low := Passes(pos, used[i]);
      forall a | 0 <= a < |low| ensures low[a] < |mints| && !mints[low[a]].isUsed && mints[low[a]].denom == i {
        assert low[a] in pos;
      }
      var r := Picks(mints, used, i);
      forall a | 0 <= a < |r| ensures r[a] < |mints| && !mints[r[a]].isUsed && i <= mints[r[a]].denom < |used| {
        if a < |high| { assert r[a] == high[a]; } else { assert r[a] == low[a - |high|]; }
      }
    }
  }

  /** The picks are unused mints of denominations in the range. */
  ghost predicate AllUnused(mints: seq<Mint>, r: seq<nat>, lo: int, hi: int) {
    forall a | 0 <= a < |r| :: r[a] < |mints| && !mints[r[a]].isUsed && lo <= mints[r[a]].denom < hi
  }

  lemma {:induction false} PassesWithin(pos: seq<nat>, k: nat)
    requires k > 0 ==> pos != []
    ensures forall a | 0 <= a < k :: Passes(pos, k)[a] in pos
    decreases k
  {
    if k > |pos| { PassesWithin(pos, k - |pos|); }
  }

  ghost predicate Distinct(r: seq<nat>) { forall a, b | 0 <= a < b < |r| :: r[a] != r[b] }

  /** No mint is picked twice, provided no more are wanted than there are. */
  lemma {:induction false} PicksDistinct(mints: seq<Mint>, used: Counts, i: nat)
    requires i <= |used| && Available(mints, used)
    requires forall j | 0 <= j < |used| :: used[j] <= |Positions(mints, |mints|, j)|
    ensures Distinct(Picks(mints, used, i))
    decreases |used| - i
  {
    if i < |used| {
      hide Positions;
      PicksDistinct(mints, used, i + 1);
      PicksAreUnused(mints, used, i + 1);
      PositionsProper(mints, |mints|, i);
      var pos := Positions(mints, |mints|, i);
      assert Passes(pos, used[i]) == pos[..used[i]];
      DistinctJoin(mints, Picks(mints, used, i + 1), pos[..used[i]], i);
    }
  }

  lemma DistinctJoin(mints: seq<Mint>, high: seq<nat>, low: seq<nat>, i: int)
    requires AllUnused(mints, low, i, i + 1) && forall a, b | 0 <= a < b < |low| :: low[a] < low[b]
    requires Distinct(high) && forall a | 0 <= a < |high| :: high[a] < |mints| && mints[high[a]].denom > i
    ensures Distinct(high + low)
  {
    var r := high + low;
    forall a, b | 0 <= a < b < |r| ensures r[a] != r[b] {
      if b >= |high| {
        assert mints[r[b]].denom == i;
        if a < |high| { assert mints[r[a]].denom > i; }
      }
    }
  }

  /** Distinct picks are distinct within every denomination. */
  lemma {:induction false} PartDistinct(mints: seq<Mint>, used: Counts, i: nat, j: nat)
    requires i <= j < |used| && Available(mints, used) && Distinct(Picks(mints, used, i))
    ensures Distinct(Passes(Positions(mints, |mints|, j), used[j]))
    decreases |used| - i
  {
    hide Positions, Passes;
    var high, low := Picks(mints, used, i + 1), Passes(Positions(mints, |mints|, i), used[i]);
    var r := Picks(mints, used, i);
    assert r[..|high|] == high && r[|high|..] == low;
    if i < j { PartDistinct(mints, used, i + 1, j); }
  }

  /** A second pass picks the first mint again. */
  lemma PassesRepeat(pos: seq<nat>, k: nat)
    requires pos != [] && k > |pos|
    ensures !Distinct(Passes(pos, k))
  {
    var r := Passes(pos, k);
    assert r[|pos|] == Passes(pos, k - |pos|)[0] == pos[0] == r[0];
  }

  /** The picks are distinct mints exactly when no more are wanted of a denomination than there are unused mints. */
  lemma PicksRepeat(d: seq<nat>, mints: seq<Mint>, used: Counts)
    requires |used| == |d| && Available(mints, used)
    ensures Distinct(Picks(mints, used, 0)) <==> Within(used, Supply(d, mints))
  {
    hide Positions, Passes, Picks;
    forall j | 0 <= j < |used|
      ensures Supply(d, mints)[j] == |Positions(mints, |mints|, j)|
      ensures Distinct(Picks(mints, used, 0)) ==> used[j] <= |Positions(mints, |mints|, j)|
    {
      SupplyIsPositions(mints, |mints|, j);
      var pos := Positions(mints, |mints|, j);
      if Distinct(Picks(mints, used, 0)) && used[j] > |pos| {
        PartDistinct(mints, used, 0, j);
        PassesRepeat(pos, used[j]);
      }
    }
    if Within(used, Supply(d, mints)) { PicksDistinct(mints, used, 0); }
  }

  /** Two coins wanted of a denomination with one unused mint: it is picked twice. */
  lemma PickedTwice()
    ensures var mints := [Mint(0, false)];
            Available(mints, [2]) && Picks(mints, [2], 0) == [0, 0] && !Distinct(Picks(mints, [2], 0))
  {
    var mints := [Mint(0, false)];
    assert Positions(mints, 0, 0) == [] && Positions(mints, 1, 0) == [0];
    assert Passes([0], 2) == [0] + Passes([0], 1) == [0, 0];
    assert Picks(mints, [2], 1) == [];
    var r := Picks(mints, [2], 0);
    assert r[0] == r[1];
  }

  lemma {:induction false} PicksCount(mints: seq<Mint>, used: Counts, i: nat)
    requires i <= |used| && Available(mints, used)
    ensures |Picks(mints, used, i)| == Count(used, |used|) - Count(used, i)
    decreases |used| - i
  {
    hide Positions;
    if i < |used| { PicksCount(mints, used, i + 1); }
  }

  /** What holds of the picks for counts within the supply. */
  lemma PicksWithinSupply(d: seq<nat>, mints: seq<Mint>, used: Counts)
    requires Within(used, Supply(d, mints))
    ensures Available(mints, used)
    ensures var r := Picks(mints, used, 0);
            Distinct(r) && AllUnused(mints, r, 0, |d|) && |r| == Count(used, |d|)
  {
    forall j | 0 <= j < |used| ensures used[j] <= |Positions(mints, |mints|, j)| {
      assert used[j] <= Supply(d, mints)[j];
      SupplyIsPositions(mints, |mints|, j);
    }
    PicksAreUnused(mints, used, 0);
    PicksRepeat(d, mints, used);
    PicksCount(mints, used, 0);
  }

  // ----- the whole selection -----

  /** Some choice of unused mints sums to the target with few enough coins. */
  ghost predicate FewMeetExactly(d: seq<nat>, supply: Counts, target: int, nMaxNumberOfSpends: nat)
    requires |supply| == |d|
  {
    exists u: Counts | Within(u, supply) :: Total(d, u) == target && Count(u, |d|) <= nMaxNumberOfSpends
  }

  /** The least number of unused mints that sum to the target. */
  ghost predicate LeastExact(d: seq<nat>, supply: Counts, target: int, n: nat)
    requires |supply| == |d|
  {
    && (exists u: Counts | Within(u, supply) :: Total(d, u) == target && Count(u, |d|) == n)
    && (forall u: Counts | Within(u, supply) && Total(d, u) == target :: n <= Count(u, |d|))
  }

  /** The loops that pick mints for the change selection end, where they are run at all. */
  ghost predicate PickingEnds(d: seq<nat>, mints: seq<Mint>, held: Counts, target: int, nMaxNumberOfSpends: nat,
                              fMinimizeChange: bool)
    requires Chain(d) && |held| == |d|
  {
    var u := ChangeSelection(d, nMaxNumberOfSpends, fMinimizeChange, target, held);
    || FewMeetExactly(d, Supply(d, mints), target, nMaxNumberOfSpends)
    || ChangeCount(d, Total(d, u) - target) == 0
    || Available(mints, u)
  }

  lemma {:induction false} CoverWithin(d: seq<nat>, held: Counts, i: nat, rem: int)
    requires Chain(d) && i <= |d| && i <= |held|
    ensures forall j | 0 <= j < i :: Cover(d, held, i, rem)[j] <= held[j]
  {
    if i > 0 { CoverWithin(d, held, i - 1, rem - UntilCovered(rem, d[i - 1], held[i - 1]) * d[i - 1]); }
  }

  /** Holdings that count unused mints only keep the picking loops finite. */
  lemma SupplyEnds(d: seq<nat>, mints: seq<Mint>, held: Counts, target: int, nMaxNumberOfSpends: nat,
                   fMinimizeChange: bool)
    requires Chain(d) && Within(held, Supply(d, mints))
    ensures PickingEnds(d, mints, held, target, nMaxNumberOfSpends, fMinimizeChange)
  {
    hide Cover, Greedy, Below, OneMore, Without, SupplyOf, FirstAbove, Better;
    var u := ChangeSelection(d, nMaxNumberOfSpends, fMinimizeChange, target, held);
    CoverWithin(d, held, |d|, target);
    FirstAboveIs(d, target, held, 0);
    forall amount ensures Within(Greedy(d, held, |d|, amount), held) { GreedyWithin(d, held, |d|, amount); }
    assert Within(u, held);
    PicksWithinSupply(d, mints, u);
  }

  /**
    What is preferred. Minimizing, the least change within the limit on spends; otherwise the
    one coin above the target, or without such a coin the fewest spends, and with as few
    the least change within the limit.
   */
  lemma SelectionPrefers(d: seq<nat>, nMaxNumberOfSpends: nat, fMinimizeChange: bool, target: int, held: Counts)
    requires Chain(d) && |held| == |d|
    ensures var plain := PlainSelection(d, target, held);
            var alt := Alternative(d, held, SearchTop(d, target, held), target);
            var u := ChangeSelection(d, nMaxNumberOfSpends, fMinimizeChange, target, held);
            && (u == plain || (u == alt && Count(alt, |d|) <= nMaxNumberOfSpends &&
                               ChangeCount(d, Total(d, u) - target) < ChangeCount(d, Total(d, plain) - target)))
            && (!fMinimizeChange && AnyAbove(d, target, held) ==> u == plain)
            && (!fMinimizeChange ==> Count(u, |d|) <= Count(plain, |d|))
            && (Count(alt, |d|) <= nMaxNumberOfSpends &&
                (fMinimizeChange || (!AnyAbove(d, target, held) && Count(alt, |d|) <= Count(plain, |d|)))
                ==> ChangeCount(d, Total(d, u) - target) <= ChangeCount(d, Total(d, alt) - target))
  {
    hide FirstAbove, Alternative, SearchTop, PlainSelection, AnyAbove, ChangeCount, Count, Total;
    AnyAboveFound(d, target, held);
  }

  lemma AnyAboveFound(d: seq<nat>, target: int, held: Counts)
    requires |held| == |d|
    ensures FirstAbove(d, target, held, 0) >= 0 <==> AnyAbove(d, target, held)
  {
    AboveFound(d, target, held, 0);
  }

  lemma {:induction false} AboveFound(d: seq<nat>, target: int, held: Counts, i: nat)
    requires |held| == |d| && i <= |d|
    ensures FirstAbove(d, target, held, i) >= 0 <==> exists j | i <= j < |d| :: d[j] > target && held[j] > 0
    decreases |d| - i
  {
    if i < |d| { AboveFound(d, target, held, i + 1); }
  }

  /** When the selection for a target that cannot be met exactly keeps the limit on spends. */
  lemma LimitKept(d: seq<nat>, nMaxNumberOfSpends: nat, fMinimizeChange: bool, target: int, held: Counts)
    requires Chain(d) && |held| == |d|
    ensures var above := FirstAbove(d, target, held, 0) >= 0;
            var cover := Cover(d, held, |d|, target);
            var alt := Alternative(d, held, SearchTop(d, target, held), target);
            var n := ChangeCount(d, Total(d, PlainSelection(d, target, held)) - target);
            Count(ChangeSelection(d, nMaxNumberOfSpends, fMinimizeChange, target, held), |d|) <= nMaxNumberOfSpends <==>
            || (if above then nMaxNumberOfSpends > 0 else Count(cover, |d|) <= nMaxNumberOfSpends)
            || (Better(d, alt, nMaxNumberOfSpends, n, target) && (fMinimizeChange || !above))
  {
    hide Cover, FirstAbove, Alternative, HighestBelow;
    if FirstAbove(d, target, held, 0) >= 0 { OneCoin(d, FirstAbove(d, target, held, 0)); }
  }

  /** Two coins of 10 for a target of 18, where one spend is allowed: both are spent. */
  lemma TooManySpends(mints: seq<Mint>, fMinimizeChange: bool)
    requires mints == [Mint(1, false), Mint(1, false)]
    ensures var d, held := [1, 10], [0, 2];
            && Chain(d) && held == Supply(d, mints) && !FewMeetExactly(d, held, 18, 1)
            && var u := ChangeSelection(d, 1, fMinimizeChange, 18, held);
               u == held && ChangeCount(d, Total(d, u) - 18) == 2 && Count(u, |d|) == 2
  {
    hide ChangeSelection, Count, Change;
    var d, held := [1, 10], [0, 2];
    assert SupplyOf(mints, 1, 0) == 0 && SupplyOf(mints, 1, 1) == 1;
    assert Supply(d, mints) == held;
    forall u: Counts | Within(u, held) ensures Total(d, u) != 18 { WorthOfTwo(d, u); }
    TwoTensForEighteen(fMinimizeChange);
  }

  lemma WorthOfTwo(d: seq<nat>, u: Counts)
    requires |d| == 2 == |u|
    ensures Total(d, u) == u[0] * d[0] + u[1] * d[1] && Count(u, 2) == u[0] + u[1]
  {
    assert Worth(d, u, 0) == 0 == Count(u, 0);
    assert Worth(d, u, 1) == u[0] * d[0] && Count(u, 1) == u[0];
  }

  lemma TwoTensForEighteen(fMinimizeChange: bool)
    ensures var d, held := [1, 10], [0, 2];
            && Chain(d) && var u := ChangeSelection(d, 1, fMinimizeChange, 18, held);
               u == held && ChangeCount(d, Total(d, u) - 18) == 2 && Count(u, |d|) == 2
  {
    TwoTensPlain();
    TwoTensAgain();
    hide Worth, Count, Change, Alternative, FirstAbove, Cover, HighestBelow;
    var d, held := [1, 10], [0, 2];
    WorthOfTwo(d, held);
    WorthOfTwo(d, [2, 0]);
  }

  lemma TwoTensPlain()
    ensures var d, held := [1, 10], [0, 2];
            && Chain(d) && FirstAbove(d, 18, held, 0) == -1 && HighestBelow(held, 2) == 1
            && Cover(d, held, 2, 18) == held && Change(d, 2, 2) == [2, 0]
  {
    var d, held := [1, 10], [0, 2];
    assert Cover(d, held, 1, -2) == [0] && Change(d, 1, 2) == [2];
  }

  lemma TwoTensGreedy()
    ensures var d, held := [1, 10], [0, 2];
            Greedy(d, held, 2, 17) == [0, 1] && Greedy(d, held, 2, 20) == held
  {
    var d, held := [1, 10], [0, 2];
    assert Greedy(d, held, 1, 7) == [0] == Greedy(d, held, 1, 0);
  }

  lemma TwoTensAgain()
    ensures var d, held := [1, 10], [0, 2]; Chain(d) && Alternative(d, held, 1, 18) == held
  {
    TwoTensPlain();
    TwoTensGreedy();
    hide Worth, Greedy, Change, Count, Cover, HighestBelow, FirstAbove;
    var d, held := [1, 10], [0, 2];
    WorthOfTwo(d, [0, 1]);
    WorthOfTwo(d, held);
    assert Below(d, held, 1, 18) == [0, 1];
    assert OneMore(d, held, [0, 1], 8, 0) == OneMore(d, held, [0, 1], 8, 1) == held;
    assert Without(held, [2, 0]) == held;
  }

  /** More than the target by a whole number of the smallest coins takes change. */
  lemma SurplusNeedsChange(d: seq<nat>, u: Counts, target: nat)
    requires Chain(d) && |u| == |d| && d != [] && target % d[0] == 0 && Total(d, u) > target
    ensures ChangeCount(d, Total(d, u) - target) > 0
  {
    hide Worth, Count, FewestCoins, RoundTo, Change;
    var surplus := Total(d, u) - target;
    WorthMultiple(d, u, |d|);
    MultiplesApart(Total(d, u), target, d[0]);
    ChangeIsFewest(d, surplus);
    WorthPositive(d, Change(d, |d|, surplus));
  }

  /** A covering selection of unused mints takes change if none is exact. */
  lemma CoverNeedsChange(d: seq<nat>, u: Counts, supply: Counts, target: int)
    requires Chain(d) && d != [] && Within(u, supply) && |d| == |u|
    requires forall w: Counts | Within(w, supply) :: Total(d, w) != target
    ensures target > 0 && target % d[0] == 0 && Total(d, u) >= target ==> ChangeCount(d, Total(d, u) - target) > 0
  {
    if target > 0 && target % d[0] == 0 && Total(d, u) >= target { SurplusNeedsChange(d, u, target); }
  }

  lemma MultiplesApart(a: nat, b: nat, v: nat)
    requires v > 0 && a % v == 0 && b % v == 0 && b <= a
    ensures RoundTo(a - b, v) == a - b
  {
    Distribute(a / v, b / v, v);
    DivIs(a - b, v, a / v - b / v);
  }

  lemma MultiplesSum(a: nat, k: nat, b: nat, v: nat)
    requires v > 0 && a % v == 0 && b % v == 0
    ensures (a + k * b) % v == 0
  {
    var x, y := a / v, b / v;
    assert a + k * b == (x + k * y) * v by {
      assert a == x * v && b == y * v;
      assert k * (y * v) == (k * y) * v;
    }
    DivIs(a + k * b, v, x + k * y);
  }

  lemma {:induction false} WorthMultiple(d: seq<nat>, u: Counts, i: nat)
    requires Chain(d) && d != [] && i <= |d| && i <= |u|
    ensures Worth(d, u, i) % d[0] == 0
  {
    hide Chain;
    ChainAt(d, 0);
    if i > 0 {
      WorthMultiple(d, u, i - 1);
      ChainMultiple(d, i - 1);
      MultiplesSum(Worth(d, u, i - 1), u[i - 1], d[i - 1], d[0]);
    }
  }

  /**
    The selection for a spend. The holdings are a count by denomination the caller
    made; if that counts unused mints only, no mint is picked twice. The selection
    is exact if an exact one with few enough spends exists; otherwise it covers
    the target and its change takes as many coins as reported. Nothing is
    returned when the holdings are too small or no change coin would result.
    What is required is, by LoopsEnd, that the loops over the mints end.
   */
  method SelectMintsFromList(d: seq<nat>, nValueTarget: int, nSelectedIn: int, nMaxNumberOfSpends: nat,
                             fMinimizeChange: bool, mints: seq<Mint>, held: Counts)
    returns (vSelected: seq<nat>, nSelectedValue: int, nCoinsReturned: nat, nNeededSpends: nat, ghost chosen: Counts)
    requires Chain(d) && |held| == |d|
    requires PickingEnds(d, mints, held, nValueTarget, nMaxNumberOfSpends, fMinimizeChange)
    ensures |chosen| == |d| && ChangeOf(d, chosen, nValueTarget, nCoinsReturned)
    ensures FewMeetExactly(d, Supply(d, mints), nValueTarget, nMaxNumberOfSpends) ==>
              Within(chosen, Supply(d, mints)) && Total(d, chosen) == nValueTarget && nCoinsReturned == 0 &&
              Available(mints, chosen) && vSelected == Picks(mints, chosen, 0) &&
              |vSelected| <= nMaxNumberOfSpends && nSelectedValue == nValueTarget &&
              LeastExact(d, Supply(d, mints), nValueTarget, |vSelected|)
    ensures !FewMeetExactly(d, Supply(d, mints), nValueTarget, nMaxNumberOfSpends) ==>
              chosen == ChangeSelection(d, nMaxNumberOfSpends, fMinimizeChange, nValueTarget, held) &&
              Within(chosen, held) &&
              if nCoinsReturned == 0 then vSelected == []
              else Available(mints, chosen) && vSelected == Picks(mints, chosen, 0)
    ensures |vSelected| == 0 || |vSelected| == Count(chosen, |d|)
    ensures AllUnused(mints, vSelected, 0, |d|)
    ensures Within(held, Supply(d, mints)) ==> Distinct(vSelected)
    ensures vSelected != [] ==> nSelectedValue == Total(d, chosen) >= nValueTarget
    ensures Total(d, held) < nValueTarget && Within(Supply(d, mints), held) ==> vSelected == []
    ensures nNeededSpends == 0 && nValueTarget > 0 && Total(d, held) >= nValueTarget &&
            Within(held, Supply(d, mints)) && d != [] && nValueTarget % d[0] == 0
            ==> vSelected != []
    ensures if nNeededSpends == 0
            then FewMeetExactly(d, Supply(d, mints), nValueTarget, nMaxNumberOfSpends) ||
                 forall u: Counts | Within(u, Supply(d, mints)) :: Total(d, u) != nValueTarget
            else nNeededSpends > nMaxNumberOfSpends && LeastExact(d, Supply(d, mints), nValueTarget, nNeededSpends)
  {
    hide FewestCoins, RoundedDown, Worth, Picks, Plain, ChangeSelection, SupplyOf, Positions;
    ghost var supply := Supply(d, mints);
    var mapOfDenomsUsed;
    nNeededSpends := 0;
    nSelectedValue := nSelectedIn;
    var fCanMeetExactly;
    fCanMeetExactly, mapOfDenomsUsed := getIdealSpends(d, nValueTarget, mints);
    if fCanMeetExactly {
      chosen := mapOfDenomsUsed;
      PicksWithinSupply(d, mints, chosen);
      if Within(supply, held) { WorthMono(d, chosen, held, |d|); }
      nCoinsReturned := 0;
      vSelected, nSelectedValue, mapOfDenomsUsed := getSpends(d, mints, mapOfDenomsUsed);
      if |vSelected| <= nMaxNumberOfSpends {
        ChangeNothing(d, |d|, 0);
        ChangeOfIs(d, chosen, nValueTarget);
        if nValueTarget > 0 { WorthPositive(d, chosen); }
        return;
      }
      nNeededSpends := |vSelected|;
    }
    nCoinsReturned, mapOfDenomsUsed := calculateChange(d, nMaxNumberOfSpends, fMinimizeChange, nValueTarget, held);
    chosen := mapOfDenomsUsed;
    if nNeededSpends == 0 && Within(held, supply) && d != [] { CoverNeedsChange(d, chosen, supply, nValueTarget); }
    if nCoinsReturned == 0 {
      vSelected := [];
    } else {
      PicksAreUnused(mints, chosen, 0);
      PicksRepeat(d, mints, chosen);
      PicksCount(mints, chosen, 0);
      vSelected, nSelectedValue, mapOfDenomsUsed := getSpends(d, mints, mapOfDenomsUsed);
      if nValueTarget > 0 { WorthPositive(d, chosen); }
    }
  }

  lemma WorthPositive(d: seq<nat>, u: Counts)
    requires |u| == |d| && Total(d, u) > 0
    ensures Count(u, |d|) > 0
  {
    if Count(u, |d|) == 0 { CountZero(d, u, |d|); }
  }

  lemma {:induction false} CountZero(d: seq<nat>, u: Counts, i: nat)
    requires i <= |d| && i <= |u| && Count(u, i) == 0
    ensures Worth(d, u, i) == 0
  {
    if i > 0 { CountZero(d, u, i - 1); }
  }
}
