/**
  The block index and the active chain: ancestors by skip pointers, setting the
  tip with an early stop, the last common block, and block locators.
 */
module Chain {
  import opened Util

  // ----- skip heights -----

  /** The lowest binary one of n turned into a zero. */
  function InvertLowestOne(n: nat): (r: nat)
    ensures n > 0 ==> r < n
    ensures n == 0 ==> r == 0
  {
    if n == 0 then 0 else if n % 2 == 1 then n - 1 else 2 * InvertLowestOne(n / 2)
  }

  function GetSkipHeight(height: int): (r: nat)
    ensures height > 0 ==> r < height
  {
    if height < 2 then 0
    else if height % 2 == 1 then InvertLowestOne(InvertLowestOne(height - 1)) + 1
    else InvertLowestOne(height)
  }

  /** An odd multiple of a power of two, without its lowest binary one. */
  lemma {:induction false} LowestOne(n: nat) returns (k: nat, q: nat)
    requires n > 0
    ensures n == (2 * q + 1) * Pow2(k) && InvertLowestOne(n) == 2 * q * Pow2(k)
  {
    if n % 2 == 1 {
      k, q := 0, n / 2;
    } else {
      k, q := LowestOne(n / 2);
      Twice(2 * q + 1, Pow2(k));
      Twice(2 * q, Pow2(k));
      k := k + 1;
    }
  }

  lemma Twice(x: int, p: int)
    ensures x * (2 * p) == 2 * (x * p)
  {
  }

  /**
    In binary, an even height skips to itself without its lowest one; an odd one to the
    height below it without its two lowest ones, and one.
   */
  lemma SkipHeightIs(height: int) returns (k: nat, q: nat, l: nat, r: nat)
    requires height >= 2
    ensures height - height % 2 == (2 * q + 1) * Pow2(k)
    ensures height % 2 == 0 ==> GetSkipHeight(height) == 2 * q * Pow2(k)
    ensures height % 2 == 1 && q == 0 ==> GetSkipHeight(height) == 1
    ensures height % 2 == 1 && q > 0 ==>
            2 * q * Pow2(k) == (2 * r + 1) * Pow2(l) && GetSkipHeight(height) == 2 * r * Pow2(l) + 1
  {
    hide Pow2, InvertLowestOne;
    k, q := LowestOne(height - height % 2);
    l, r := 0, 0;
    var rest := InvertLowestOne(height - height % 2);
    if q > 0 {
      MulMono(1, q, Pow2(k));
      l, r := LowestOne(rest);
    } else {
      NothingInverted();
    }
  }

  lemma NothingInverted()
    ensures InvertLowestOne(0) == 0
  {
  }

  class BlockIndex {
    const pprev: BlockIndex?
    const pskip: BlockIndex?
    const nHeight: int
    const hash: nat
    const fProofOfStake: bool

    /** Appending to an indexed block, or starting from none; the skip pointer is built at once. */
    constructor (pprev: BlockIndex?, hash: nat, fProofOfStake: bool)
      requires pprev != null ==> Indexed(pprev)
      ensures Indexed(this) && this.pprev == pprev && this.hash == hash && this.fProofOfStake == fProofOfStake
    {
      var height := if pprev == null then 0 else pprev.nHeight + 1;
      var skip: BlockIndex? := null;
      if pprev != null {
        SkipBelow(pprev);
        skip := pprev.GetAncestor(GetSkipHeight(height));
      }
      this.pprev := pprev;
      this.pskip := skip;
      this.nHeight := height;
      this.hash := hash;
      this.fProofOfStake := fProofOfStake;
    }

    /** Walks down by skip pointers where that does not overshoot or waste steps. */
    method GetAncestor(height: int) returns (p: BlockIndex?)
      requires Indexed(this)
      ensures p == if 0 <= height <= nHeight then Ancestor(this, height) else null
    {
      if height > nHeight || height < 0 { return null; }
      var pindexWalk: BlockIndex := this;
      var heightWalk := nHeight;
      while heightWalk > height
        invariant height <= heightWalk <= nHeight && pindexWalk == Ancestor(this, heightWalk)
      {
        AncestorIs(this, heightWalk);
        var heightSkip := GetSkipHeight(heightWalk);
        var heightSkipPrev := GetSkipHeight(heightWalk - 1);
        if heightSkip == height ||
           (heightSkip > height && !(heightSkipPrev < heightSkip - 2 && heightSkipPrev >= height)) {
          SkipIs(pindexWalk);
          AncestorOf(this, heightWalk, heightSkip);
          pindexWalk := pindexWalk.pskip;
          heightWalk := heightSkip;
        } else {
          AncestorOf(this, heightWalk, heightWalk - 1);
          pindexWalk := pindexWalk.pprev;
          heightWalk := heightWalk - 1;
        }
      }
      p := pindexWalk;
    }
  }

  /** Heights count the predecessors, down to a block without one at height 0. */
  predicate Linked(b: BlockIndex)
    decreases b.nHeight
  {
    && b.nHeight >= 0
    && if b.pprev == null then b.nHeight == 0 else b.nHeight > 0 && b.pprev.nHeight == b.nHeight - 1 && Linked(b.pprev)
  }

  /** The block at a height on the way down from b: the predecessors, one by one. */
  function Ancestor(b: BlockIndex, height: int): (r: BlockIndex)
    requires Linked(b) && 0 <= height <= b.nHeight
    ensures Linked(r) && r.nHeight == height
    decreases b.nHeight
  {
    if height == b.nHeight then b else Ancestor(b.pprev, height)
  }

  /** Linked, with every skip pointer on the way leading to the ancestor at its skip height. */
  predicate Indexed(b: BlockIndex)
    decreases b.nHeight
  {
    && Linked(b)
    && (b.pprev != null ==> Indexed(b.pprev) && b.pskip == Ancestor(b.pprev, GetSkipHeight(b.nHeight)))
  }

  lemma SkipBelow(b: BlockIndex)
    requires Linked(b)
    ensures 0 <= GetSkipHeight(b.nHeight + 1) <= b.nHeight
  {
  }

  /** An ancestor of an ancestor is an ancestor. */
  lemma {:induction false} AncestorOf(b: BlockIndex, k: int, j: int)
    requires Linked(b) && 0 <= j <= k <= b.nHeight
    ensures Ancestor(Ancestor(b, k), j) == Ancestor(b, j)
    ensures k > 0 && j == k - 1 ==> Ancestor(b, k).pprev == Ancestor(b, j)
    decreases b.nHeight
  {
    if k < b.nHeight { AncestorOf(b.pprev, k, j); }
  }

  lemma {:induction false} AncestorIs(b: BlockIndex, k: int)
    requires Indexed(b) && 0 <= k <= b.nHeight
    ensures Indexed(Ancestor(b, k))
    decreases b.nHeight
  {
    if k < b.nHeight { AncestorIs(b.pprev, k); }
  }

  /** A skip pointer is an ancestor of its own block, too. */
  lemma SkipIs(b: BlockIndex)
    requires Indexed(b) && b.nHeight > 0
    ensures b.pskip == Ancestor(b, GetSkipHeight(b.nHeight))
  {
  }

  // ----- the active chain -----

  /** All ancestors of a block, and the block itself, by height. */
  ghost function Path(b: BlockIndex): (r: seq<BlockIndex?>)
    requires Linked(b)
    ensures |r| == b.nHeight + 1 && forall i | 0 <= i < |r| :: r[i] == Ancestor(b, i)
  {
    seq(b.nHeight + 1, i requires 0 <= i <= b.nHeight => Ancestor(b, i))
  }

  /** A complete list of ancestors of its last block, or nothing. */
  ghost predicate ValidChain(v: seq<BlockIndex?>) {
    v == [] || (v[|v| - 1] != null && Indexed(v[|v| - 1]) && v == Path(v[|v| - 1]))
  }

  /** In a valid chain everything below a block is an ancestor of it. */
  lemma ChainBelow(v: seq<BlockIndex?>, j: int, i: int)
    requires ValidChain(v) && 0 <= i <= j < |v|
    ensures v[j] != null && Indexed(v[j]) && v[j].nHeight == j && v[i] == Ancestor(v[j], i)
  {
    var tip := v[|v| - 1];
    AncestorIs(tip, j);
    AncestorOf(tip, j, i);
  }

  /** A vector brought to a new size: cut off, or filled up with nulls. */
  function Resized(v: seq<BlockIndex?>, n: nat): (r: seq<BlockIndex?>)
    ensures |r| == n && forall i | 0 <= i < n :: r[i] == if i < |v| then v[i] else null
  {
    if n <= |v| then v[..n] else v + seq(n - |v|, i => null)
  }

  /** Common ancestors of the chain and a block. */
  ghost predicate Common(v: seq<BlockIndex?>, b: BlockIndex, h: int)
    requires Linked(b)
  {
    0 <= h <= b.nHeight && h < |v| && v[h] == Ancestor(b, h)
  }

  class CChain {
    var vChain: seq<BlockIndex?>

    constructor ()
      ensures vChain == []
    {
      vChain := [];
    }

    function At(nHeight: int): (p: BlockIndex?)
      reads this
    {
      if nHeight < 0 || nHeight >= |vChain| then null else vChain[nHeight]
    }

    predicate Contains(pindex: BlockIndex)
      reads this
    {
      At(pindex.nHeight) == pindex
    }

    function Height(): int
      reads this
    {
      |vChain| - 1
    }

    function Next(pindex: BlockIndex): BlockIndex?
      reads this
    {
      if Contains(pindex) then At(pindex.nHeight + 1) else null
    }

    /** The successor on the chain has the block as its predecessor; only blocks of the chain below its tip have one. */
    lemma NextIs(pindex: BlockIndex)
      requires ValidChain(vChain)
      ensures Next(pindex) != null <==> Contains(pindex) && pindex.nHeight < Height()
      ensures Next(pindex) != null ==> Next(pindex).pprev == pindex
    {
      if Contains(pindex) && pindex.nHeight < Height() {
        ChainBelow(vChain, pindex.nHeight + 1, pindex.nHeight);
        var next: BlockIndex := vChain[pindex.nHeight + 1];
        AncestorOf(next, next.nHeight, pindex.nHeight);
      }
    }

    /** The last block, or the last proof-of-stake block at or below it (the first block if there is none). */
    method Tip(fProofOfStake: bool) returns (p: BlockIndex?)
      requires ValidChain(vChain)
      ensures p == null <==> vChain == []
      ensures p != null ==> Contains(p)
      ensures !fProofOfStake && p != null ==> p.nHeight == Height()
      ensures fProofOfStake && p != null ==> p.fProofOfStake || p.nHeight == 0
      ensures fProofOfStake && p != null ==>
              forall h | p.nHeight < h < |vChain| :: vChain[h] != null && !vChain[h].fProofOfStake
    {
      if |vChain| < 1 { return null; }
      p := vChain[|vChain| - 1];
      if fProofOfStake {
        while p.pprev != null && !p.fProofOfStake
          invariant p != null && Indexed(p) && Contains(p)
          invariant forall h | p.nHeight < h < |vChain| :: vChain[h] != null && !vChain[h].fProofOfStake
          decreases p.nHeight
        {
          ChainBelow(vChain, p.nHeight, p.nHeight - 1);
          AncestorOf(p, p.nHeight, p.nHeight - 1);
          AncestorIs(p, p.nHeight - 1);
          p := p.pprev;
        }
      }
    }

    /** Although it stops at the first block already in place, what is below is in place as well. */
    method SetTip(tip: BlockIndex?)
      requires ValidChain(vChain) && (tip != null ==> Indexed(tip))
      modifies this
      ensures ValidChain(vChain) && vChain == if tip == null then [] else Path(tip)
    {
      if tip == null {
        vChain := [];
        return;
      }
      ghost var was := vChain;
      vChain := Resized(vChain, tip.nHeight + 1);
      ghost var resized := vChain;
      var pindex := tip;
      while pindex != null && vChain[pindex.nHeight] != pindex
        invariant |vChain| == tip.nHeight + 1
        invariant pindex != null ==> 0 <= pindex.nHeight <= tip.nHeight && pindex == Ancestor(tip, pindex.nHeight)
        invariant var top := if pindex == null then -1 else pindex.nHeight;
          && (forall i | top < i <= tip.nHeight :: vChain[i] == Ancestor(tip, i))
          && (forall i | 0 <= i <= top :: vChain[i] == resized[i])
        decreases if pindex == null then -1 else pindex.nHeight
      {
        if pindex.nHeight > 0 { AncestorOf(tip, pindex.nHeight, pindex.nHeight - 1); }
        vChain := vChain[pindex.nHeight := pindex];
        pindex := pindex.pprev;
      }
      if pindex != null {
        forall i | 0 <= i <= pindex.nHeight ensures vChain[i] == Ancestor(tip, i) {
          ChainBelow(was, pindex.nHeight, i);
          AncestorOf(tip, pindex.nHeight, i);
        }
      }
      assert vChain == Path(tip);
    }

    /** The last block that the chain and a block have in common. */
    method FindFork(b: BlockIndex) returns (fork: BlockIndex?)
      requires ValidChain(vChain) && Indexed(b)
      ensures fork != null ==> Contains(fork) && 0 <= fork.nHeight <= b.nHeight && fork == Ancestor(b, fork.nHeight)
      ensures forall h | Common(vChain, b, h) :: fork != null && h <= fork.nHeight
    {
      fork := b;
      if b.nHeight > Height() { fork := b.GetAncestor(Height()); }
      while fork != null && !Contains(fork)
        invariant fork != null ==> 0 <= fork.nHeight <= b.nHeight && fork == Ancestor(b, fork.nHeight)
        invariant forall h | Common(vChain, b, h) :: fork != null && h <= fork.nHeight
        decreases if fork == null then -1 else fork.nHeight
      {
        if fork.nHeight > 0 { AncestorOf(b, fork.nHeight, fork.nHeight - 1); }
        fork := fork.pprev;
      }
    }

    /** The hashes at the locator's heights, counted down from a block, or from the tip. */
    method GetLocator(from: BlockIndex?) returns (vHave: seq<nat>)
      requires ValidChain(vChain) && (from != null ==> Indexed(from))
      ensures from == null && vChain == [] ==> vHave == []
      ensures var start := if from != null then from else At(Height());
              start != null ==> Indexed(start) && vHave == HashesAt(start, LocatorHeights(start.nHeight, 1, 0))
    {
      hide Indexed, Linked, ValidChain, Ancestor;
      var pindex := from;
      if pindex == null {
        pindex := Tip(false);
        if pindex == null { return []; }
        TopIs(pindex);
      }
      vHave := LocateFrom(pindex);
    }

    lemma TopIs(p: BlockIndex)
      requires ValidChain(vChain) && Contains(p)
      ensures Indexed(p)
    {
      ChainBelow(vChain, p.nHeight, p.nHeight);
    }

    /** The ancestor at a lower height, by the chain's own index if possible. */
    method StepBack(pindex: BlockIndex, nHeight: nat) returns (p: BlockIndex)
      requires ValidChain(vChain) && Indexed(pindex) && nHeight <= pindex.nHeight
      ensures p == Ancestor(pindex, nHeight)
    {
      if Contains(pindex) {
        ChainBelow(vChain, pindex.nHeight, nHeight);
        p := At(nHeight);
      } else {
        p := pindex.GetAncestor(nHeight);
      }
    }

    method LocateFrom(start: BlockIndex) returns (vHave: seq<nat>)
      requires ValidChain(vChain) && Indexed(start)
      ensures vHave == HashesAt(start, LocatorHeights(start.nHeight, 1, 0))
    {
      hide Indexed, Linked, ValidChain, Ancestor, HashesAt, LocatorHeights;
      var nStep := 1;
      vHave := [];
      var pindex := start;
      IndexedLinked(start);
      HashesNone(start);
      ghost var done: seq<nat> := [];
      AncestorSelf(start);
      while pindex.nHeight != 0
        invariant Linked(start) && Indexed(pindex) && 0 <= pindex.nHeight <= start.nHeight &&
                  pindex == Ancestor(start, pindex.nHeight)
        invariant nStep >= 1 && (forall i | 0 <= i < |done| :: done[i] <= start.nHeight) &&
                  vHave == HashesAt(start, done)
        invariant LocatorHeights(start.nHeight, 1, 0) == done + LocatorHeights(pindex.nHeight, nStep, |vHave|)
        decreases pindex.nHeight
      {
        HashesMore(start, done, pindex.nHeight);
        LocatorStep(done, pindex.nHeight, nStep, |vHave|);
        done := done + [pindex.nHeight];
        vHave := vHave + [pindex.hash];
        var nHeight := if pindex.nHeight - nStep > 0 then pindex.nHeight - nStep else 0;
        AncestorOf(start, pindex.nHeight, nHeight);
        AncestorIs(pindex, nHeight);
        pindex := StepBack(pindex, nHeight);
        if |vHave| > 10 { nStep := nStep * 2; }
      }
      HashesMore(start, done, 0);
      LocatorEnd(nStep, |vHave|);
      vHave := vHave + [pindex.hash];
    }
  }

  lemma IndexedLinked(b: BlockIndex)
    requires Indexed(b)
    ensures Linked(b) && b.nHeight >= 0
  {
  }

  lemma AncestorSelf(b: BlockIndex)
    requires Linked(b)
    ensures Ancestor(b, b.nHeight) == b
  {
  }

  lemma LocatorEnd(nStep: nat, size: nat)
    requires nStep >= 1
    ensures LocatorHeights(0, nStep, size) == [0]
  {
  }

  // ----- locators -----

  /** From a height down to 0: ten single steps, then steps of doubling length. */
  function LocatorHeights(h: nat, nStep: nat, size: nat): (r: seq<nat>)
    requires nStep >= 1
    ensures forall i | 0 <= i < |r| :: r[i] <= h
    decreases h
  {
    if h == 0 then [0]
    else [h] + LocatorHeights(if h > nStep then h - nStep else 0, if size + 1 > 10 then nStep * 2 else nStep, size + 1)
  }

  lemma LocatorStep(done: seq<nat>, h: nat, nStep: nat, size: nat)
    requires nStep >= 1 && h > 0
    ensures done + LocatorHeights(h, nStep, size) ==
            done + [h] +
            LocatorHeights(if h > nStep then h - nStep else 0, if size + 1 > 10 then nStep * 2 else nStep, size + 1)
  {
  }

  ghost function HashesAt(b: BlockIndex, heights: seq<nat>): (r: seq<nat>)
    requires Linked(b) && forall i | 0 <= i < |heights| :: heights[i] <= b.nHeight
    ensures |r| == |heights|
  {
    seq(|heights|, i requires 0 <= i < |heights| => Ancestor(b, heights[i]).hash)
  }

  lemma HashesNone(b: BlockIndex)
    requires Linked(b)
    ensures HashesAt(b, []) == []
  {
  }

  lemma HashesMore(b: BlockIndex, heights: seq<nat>, h: nat)
    requires Linked(b) && h <= b.nHeight && forall i | 0 <= i < |heights| :: heights[i] <= b.nHeight
    ensures forall i | 0 <= i <= |heights| :: (heights + [h])[i] <= b.nHeight
    ensures HashesAt(b, heights + [h]) == HashesAt(b, heights) + [Ancestor(b, h).hash]
  {
  }

  /** Once the steps double, the number of entries is logarithmic. */
  lemma {:induction false} DoublingLength(h: nat, nStep: nat, size: nat)
    requires nStep >= 1 && size >= 10
    ensures var k := |LocatorHeights(h, nStep, size)|; k >= 1 && (k >= 2 ==> nStep * (Pow2(k - 2) - 1) < h)
    decreases h
  {
    if h > nStep {
      DoublingLength(h - nStep, nStep * 2, size + 1);
      var k := |LocatorHeights(h, nStep, size)|;
      assert k >= 3;
      var p := Pow2(k - 3);
      assert Pow2(k - 2) == 2 * p;
      assert nStep * (2 * p - 1) == nStep * 2 * (p - 1) + nStep;
    }
  }

  lemma {:induction false} SingleSteps(h: nat, size: nat)
    requires size <= 10
    ensures var k := |LocatorHeights(h, 1, size)|;
            k <= 10 - size || (h >= 10 - size && k == 10 - size + |LocatorHeights(h - (10 - size), 1, 10)|)
    decreases h
  {
    if size < 10 && h > 0 { SingleSteps(h - 1, size + 1); }
  }

  /** A locator goes strictly down to the first block, in about twelve entries and the logarithm of the height. */
  lemma LocatorShape(h: nat)
    ensures var r := LocatorHeights(h, 1, 0);
            && r[0] == h && r[|r| - 1] == 0 && (forall i, j | 0 <= i < j < |r| :: r[i] > r[j])
            && (|r| <= 11 || Pow2(|r| - 12) < h)
  {
    LocatorDescends(h, 1, 0);
    SingleSteps(h, 0);
    if h >= 10 { DoublingLength(h - 10, 1, 10); }
  }

  lemma {:induction false} DoublingAt(h: nat, nStep: nat, size: nat, i: nat)
    requires nStep >= 1 && size >= 10 && i + 1 < |LocatorHeights(h, nStep, size)|
    ensures LocatorHeights(h, nStep, size)[i] == h - nStep * (Pow2(i) - 1)
    decreases i
  {
    if i > 0 {
      assert h > nStep;
      DoublingAt(h - nStep, nStep * 2, size + 1, i - 1);
      StepDoubles(h, nStep, Pow2(i - 1));
    }
  }

  lemma StepDoubles(h: int, n: int, p: int)
    ensures h - n - n * 2 * (p - 1) == h - n * (2 * p - 1)
  {
  }

  lemma {:induction false} SingleAt(h: nat, size: nat, i: nat)
    requires size <= 10 && i + 1 < |LocatorHeights(h, 1, size)|
    ensures LocatorHeights(h, 1, size)[i] ==
            if i <= 10 - size then h - i else h + 1 - (10 - size) - Pow2(i - (10 - size))
    decreases i
  {
    if size == 10 {
      DoublingAt(h, 1, size, i);
    } else if i > 0 {
      SingleAt(h - 1, size + 1, i - 1);
    }
  }

  /** The first eleven steps go back by one block, each later one by twice as many; the last goes to the first block. */
  lemma LocatorAt(h: nat, i: nat)
    requires i + 1 < |LocatorHeights(h, 1, 0)|
    ensures LocatorHeights(h, 1, 0)[i] == if i <= 11 then h - i else h - 9 - Pow2(i - 10)
  {
    SingleAt(h, 0, i);
  }

  lemma {:induction false} LocatorDescends(h: nat, nStep: nat, size: nat)
    requires nStep >= 1
    ensures var r := LocatorHeights(h, nStep, size);
            |r| > 0 && r[0] == h && r[|r| - 1] == 0 && forall i, j | 0 <= i < j < |r| :: r[i] > r[j]
    decreases h
  {
    if h > 0 {
      LocatorDescends(if h > nStep then h - nStep else 0, if size + 1 > 10 then nStep * 2 else nStep, size + 1);
    }
  }

  /** Comparing sizes and last blocks, as the chain's own equality does, compares whole chains. */
  lemma SameTip(v: seq<BlockIndex?>, w: seq<BlockIndex?>)
    requires ValidChain(v) && ValidChain(w) && v != [] && w != []
    ensures v == w <==> |v| == |w| && v[|v| - 1] == w[|w| - 1]
  {
  }
}
