/**
  The Merkle tree of a block, built level by level in one vector, and its branches.
  Its root is the one partial Merkle trees lead to, and the flag for repeated hashes
  tells apart all lists of transactions with the same root and the same height.
 */
module BlockMerkle {
  import opened MerkleTree
  import opened Util

  // ----- levels -----

  /** The hashes of the pairs of a level; a last one without a partner is paired with itself. */
  function NextLevel(hash: Combine, l: seq<Hash>): (r: seq<Hash>)
    requires l != []
    ensures |r| == (|l| + 1) / 2
  {
    seq((|l| + 1) / 2, i requires 0 <= i < (|l| + 1) / 2 => hash(l[2 * i], l[Min(2 * i + 1, |l| - 1)]))
  }

  /** A level and all levels above it. */
  function Stack(hash: Combine, l: seq<Hash>): (r: seq<Hash>)
    ensures |r| >= |l| && r[..|l|] == l
    decreases |l|
  {
    if |l| <= 1 then l else l + Stack(hash, NextLevel(hash, l))
  }

  function Top(hash: Combine, l: seq<Hash>): Hash
    requires l != []
    decreases |l|
  {
    if |l| == 1 then l[0] else Top(hash, NextLevel(hash, l))
  }

  lemma {:induction false} StackTop(hash: Combine, l: seq<Hash>)
    requires l != []
    ensures var s := Stack(hash, l); s[|s| - 1] == Top(hash, l)
    decreases |l|
  {
    if |l| > 1 { StackTop(hash, NextLevel(hash, l)); }
  }

  /** One level up. */
  lemma LevelStep(hash: Combine, l: seq<Hash>)
    requires |l| > 1
    ensures Stack(hash, l) == l + Stack(hash, NextLevel(hash, l))
    ensures Mutated(hash, l) <==> Repeats(l) || Mutated(hash, NextLevel(hash, l))
    ensures |NextLevel(hash, l)| == (|l| + 1) / 2
  {
  }

  lemma LastLevel(hash: Combine, l: seq<Hash>)
    requires |l| <= 1
    ensures Stack(hash, l) == l && !Mutated(hash, l)
  {
  }

  /** A level ends in two equal hashes that are paired. */
  predicate Repeats(l: seq<Hash>) { |l| > 1 && |l| % 2 == 0 && l[|l| - 2] == l[|l| - 1] }

  predicate Mutated(hash: Combine, l: seq<Hash>)
    decreases |l|
  {
    |l| > 1 && (Repeats(l) || Mutated(hash, NextLevel(hash, l)))
  }

  // ----- the root -----

  /** The level at a height of the tree over the transactions. */
  ghost predicate IsLevel(hash: Combine, txids: seq<Hash>, h: nat, l: seq<Hash>) {
    && |l| == Width(|txids|, h)
    && forall pos: nat | pos < |l| ::
         Over(Shape(|txids|, h, pos), |txids|) && l[pos] == CalcHash(hash, Shape(|txids|, h, pos), txids)
  }

  lemma NextIsLevel(hash: Combine, txids: seq<Hash>, h: nat, l: seq<Hash>)
    requires IsLevel(hash, txids, h, l) && |l| > 1
    ensures IsLevel(hash, txids, h + 1, NextLevel(hash, l))
  {
    hide Shape, CalcHash;
    var r, above := NextLevel(hash, l), h + 1;
    forall pos: nat | pos < |r|
      ensures Over(Shape(|txids|, above, pos), |txids|) && r[pos] == CalcHash(hash, Shape(|txids|, above, pos), txids)
    {
      NodeAbove(hash, txids, h, pos);
      var right: nat := Min(2 * pos + 1, |l| - 1);
      assert l[2 * pos] == CalcHash(hash, Shape(|txids|, h, 2 * pos), txids);
      assert l[right] == CalcHash(hash, Shape(|txids|, h, right), txids);
    }
  }

  lemma NodeAbove(hash: Combine, txids: seq<Hash>, h: nat, pos: nat)
    requires pos < Width(|txids|, h + 1)
    requires forall q: nat | q < Width(|txids|, h) :: Over(Shape(|txids|, h, q), |txids|)
    ensures var n, right := |txids|, Min(2 * pos + 1, Width(|txids|, h) - 1);
            && Over(Shape(n, h + 1, pos), n)
            && CalcHash(hash, Shape(n, h + 1, pos), txids) ==
               hash(CalcHash(hash, Shape(n, h, 2 * pos), txids), CalcHash(hash, Shape(n, h, right), txids))
  {
    var left := Shape(|txids|, h, 2 * pos);
    assert Over(left, |txids|);
    if 2 * pos + 1 < Width(|txids|, h) {
      assert Shape(|txids|, h + 1, pos) == Two(left, Shape(|txids|, h, 2 * pos + 1));
    } else {
      assert Shape(|txids|, h + 1, pos) == One(left);
    }
  }

  lemma {:induction false} LevelTop(hash: Combine, txids: seq<Hash>, h: nat, l: seq<Hash>)
    requires IsLevel(hash, txids, h, l) && l != []
    ensures Width(|txids|, Height(|txids|, h)) == 1
    ensures var root := Shape(|txids|, Height(|txids|, h), 0);
            Over(root, |txids|) && Top(hash, l) == CalcHash(hash, root, txids)
    decreases |l|
  {
    RootExists(|txids|, h);
    if |l| > 1 {
      NextIsLevel(hash, txids, h, l);
      LevelTop(hash, txids, h + 1, NextLevel(hash, l));
    }
  }

  /** The root of the block is the root that partial trees of its transactions lead to. */
  lemma TopIsRoot(hash: Combine, txids: seq<Hash>)
    requires txids != []
    ensures Top(hash, txids) == Root(hash, txids)
  {
    LevelTop(hash, txids, 0, txids);
  }

  lemma StackRoot(hash: Combine, txids: seq<Hash>)
    requires txids != []
    ensures var s := Stack(hash, txids); s != [] && s[|s| - 1] == Root(hash, txids)
  {
    StackTop(hash, txids);
    TopIsRoot(hash, txids);
  }

  // ----- branches -----

  function Partner(i: nat): nat { if i % 2 == 0 then i + 1 else i - 1 }

  /** What is paired with place i on each level below the top. */
  function Branch(hash: Combine, l: seq<Hash>, i: nat): seq<Hash>
    requires i < |l|
    decreases |l|
  {
    if |l| <= 1 then [] else [l[Min(Partner(i), |l| - 1)]] + Branch(hash, NextLevel(hash, l), i / 2)
  }

  function Folded(hash: Combine, x: Hash, branch: seq<Hash>, i: nat): Hash
    decreases |branch|
  {
    if branch == [] then x
    else Folded(hash, if i % 2 == 1 then hash(branch[0], x) else hash(x, branch[0]), branch[1..], i / 2)
  }

  lemma PairOf(hash: Combine, l: seq<Hash>, i: nat)
    requires i < |l| && |l| > 1
    ensures NextLevel(hash, l)[i / 2] ==
            if i % 2 == 1 then hash(l[i - 1], l[i]) else hash(l[i], l[Min(i + 1, |l| - 1)])
  {
    assert i == 2 * (i / 2) + i % 2;
  }

  /** The branch of a transaction leads from it to the root. */
  lemma {:induction false} BranchLeads(hash: Combine, l: seq<Hash>, i: nat)
    requires i < |l|
    ensures Folded(hash, l[i], Branch(hash, l, i), i) == Top(hash, l)
    decreases |l|
  {
    if |l| > 1 {
      hide Branch, Folded, NextLevel;
      PairOf(hash, l, i);
      BranchStep(hash, l, i);
      FoldedStep(hash, l[i], l[Min(Partner(i), |l| - 1)], Branch(hash, NextLevel(hash, l), i / 2), i);
      BranchLeads(hash, NextLevel(hash, l), i / 2);
    }
  }

  lemma BranchStep(hash: Combine, l: seq<Hash>, i: nat)
    requires i < |l| && |l| > 1
    ensures i / 2 < |NextLevel(hash, l)|
    ensures Branch(hash, l, i) == [l[Min(Partner(i), |l| - 1)]] + Branch(hash, NextLevel(hash, l), i / 2)
  {
  }

  lemma BranchEnd(hash: Combine, l: seq<Hash>, i: nat)
    requires i < |l| <= 1
    ensures Branch(hash, l, i) == []
  {
  }

  lemma FoldedStep(hash: Combine, x: Hash, y: Hash, rest: seq<Hash>, i: nat)
    ensures Folded(hash, x, [y] + rest, i) == Folded(hash, if i % 2 == 1 then hash(y, x) else hash(x, y), rest, i / 2)
  {
    assert ([y] + rest)[1..] == rest;
  }

  /** With an injective hash, nothing but the transaction at the place has a branch of that length to the root. */
  lemma {:induction false} BranchSound(hash: Combine, l: seq<Hash>, x: Hash, branch: seq<Hash>, i: nat)
    requires Injective(hash) && i < |l| && |branch| == |Branch(hash, l, i)|
    requires Folded(hash, x, branch, i) == Top(hash, l)
    ensures x == l[i] && branch == Branch(hash, l, i)
    decreases |l|
  {
    if |l| > 1 {
      PairOf(hash, l, i);
      var y := if i % 2 == 1 then hash(branch[0], x) else hash(x, branch[0]);
      BranchSound(hash, NextLevel(hash, l), y, branch[1..], i / 2);
      assert branch == [branch[0]] + branch[1..];
    }
  }

  // ----- repeated hashes -----

  /** How many levels there are above one with n hashes. */
  function Levels(n: nat): nat { if n <= 1 then 0 else 1 + Levels((n + 1) / 2) }

  /** Levels with the same pairs are equal, unless one ends in a repetition. */
  lemma SamePairs(hash: Combine, a: seq<Hash>, b: seq<Hash>)
    requires Injective(hash) && |a| > 1 && |b| > 1 && NextLevel(hash, a) == NextLevel(hash, b)
    requires !Repeats(a) && !Repeats(b) && |a| <= |b|
    ensures a == b
  {
    var n := |NextLevel(hash, a)|;
    forall i | 0 <= i < n
      ensures a[2 * i] == b[2 * i] && a[Min(2 * i + 1, |a| - 1)] == b[Min(2 * i + 1, |b| - 1)]
    {
      assert NextLevel(hash, a)[i] == NextLevel(hash, b)[i];
    }
    var last := n - 1;
    assert a[2 * last] == b[2 * last] && a[Min(2 * last + 1, |a| - 1)] == b[Min(2 * last + 1, |b| - 1)];
    if |a| == |b| {
      forall k | 0 <= k < |a| ensures a[k] == b[k] {
        var i := k / 2;
        assert k == 2 * i || k == 2 * i + 1;
        assert a[2 * i] == b[2 * i] && a[Min(2 * i + 1, |a| - 1)] == b[Min(2 * i + 1, |b| - 1)];
      }
    }
  }

  /**
    With an injective hash, two different lists of transactions with trees of the same
    height have the same root only if one of them is flagged.
   */
  lemma {:induction false} FlagTellsApart(hash: Combine, a: seq<Hash>, b: seq<Hash>)
    requires Injective(hash) && a != [] && b != [] && Levels(|a|) == Levels(|b|)
    requires Top(hash, a) == Top(hash, b) && !Mutated(hash, a) && !Mutated(hash, b)
    ensures a == b
    decreases |a|
  {
    if |a| > 1 {
      FlagTellsApart(hash, NextLevel(hash, a), NextLevel(hash, b));
      if |a| <= |b| { SamePairs(hash, a, b); } else { SamePairs(hash, b, a); }
    }
  }

  /** And such lists there are: with an odd number of hashes the last may as well be there twice. */
  lemma LastTwice(hash: Combine, l: seq<Hash>)
    requires |l| > 1 && |l| % 2 == 1
    ensures var twice := l + [l[|l| - 1]];
            Top(hash, twice) == Top(hash, l) && Mutated(hash, twice) && Levels(|twice|) == Levels(|l|)
  {
    var twice := l + [l[|l| - 1]];
    SameNext(hash, l);
    hide NextLevel;
    assert Repeats(twice);
  }

  lemma SameNext(hash: Combine, l: seq<Hash>)
    requires |l| > 1 && |l| % 2 == 1
    ensures NextLevel(hash, l + [l[|l| - 1]]) == NextLevel(hash, l)
  {
    var twice := l + [l[|l| - 1]];
    var a, b := NextLevel(hash, twice), NextLevel(hash, l);
    forall i | 0 <= i < |b| ensures a[i] == b[i] {
      assert a[i] == hash(twice[2 * i], twice[Min(2 * i + 1, |l|)]);
    }
  }

  // ----- the object -----

  class CBlock {
    const hash: Combine
    const vtx: seq<Hash>            // the hashes of the transactions
    var vMerkleTree: seq<Hash>

    constructor (hash: Combine, vtx: seq<Hash>)
      ensures this.hash == hash && this.vtx == vtx && vMerkleTree == []
    {
      this.hash, this.vtx, vMerkleTree := hash, vtx, [];
    }

    /** One level, appended to the vector; from is where the level below begins. */
    method BuildLevel(j: nat, nSize: nat) returns (repeated: bool)
      requires nSize > 1 && |vMerkleTree| == j + nSize
      modifies this
      ensures vMerkleTree == old(vMerkleTree) + NextLevel(hash, old(vMerkleTree)[j..])
      ensures repeated <==> Repeats(old(vMerkleTree)[j..])
    {
      ghost var l := vMerkleTree[j..];
      ghost var before := vMerkleTree;
      repeated := false;
      var i := 0;
      while i < nSize
        invariant 0 <= i <= nSize + 1 && i % 2 == 0
        invariant vMerkleTree == before + NextLevel(hash, l)[..i / 2]
        invariant repeated <==> i >= nSize && Repeats(l)
      {
        var i2 := Min(i + 1, nSize - 1);
        assert l[i] == vMerkleTree[j + i] && l[i2] == vMerkleTree[j + i2];
        if i2 == i + 1 && i2 + 1 == nSize && vMerkleTree[j + i] == vMerkleTree[j + i2] { repeated := true; }
        vMerkleTree := vMerkleTree + [hash(vMerkleTree[j + i], vMerkleTree[j + i2])];
        assert NextLevel(hash, l)[..i / 2 + 1] == NextLevel(hash, l)[..i / 2] + [NextLevel(hash, l)[i / 2]];
        i := i + 2;
      }
      assert NextLevel(hash, l)[..i / 2] == NextLevel(hash, l);
    }

    /** The whole tree, its root, and whether some level ends in a repetition. */
    method BuildMerkleTree() returns (root: Hash, mutated: bool)
      modifies this
      ensures vMerkleTree == Stack(hash, vtx)
      ensures vtx == [] ==> root == 0
      ensures vtx != [] ==> root == Root(hash, vtx)
      ensures mutated <==> Mutated(hash, vtx)
    {
      hide Stack, Mutated, Repeats, NextLevel, Root;
      vMerkleTree := vtx;
      var j := 0;
      mutated := false;
      var nSize := |vtx|;
      ghost var l := vtx;
      while nSize > 1
        invariant nSize == |l| && |vMerkleTree| == j + nSize && vMerkleTree[j..] == l
        invariant (vtx != [] ==> l != []) && (vtx == [] ==> l == [])
        invariant vMerkleTree[..j] + Stack(hash, l) == Stack(hash, vtx)
        invariant (mutated || Mutated(hash, l)) == Mutated(hash, vtx)
        decreases nSize
      {
        ghost var before := vMerkleTree;
        var repeated := BuildLevel(j, nSize);
        LevelStep(hash, l);
        if repeated { mutated := true; }
        assert before == before[..j] + l;
        j := j + nSize;
        nSize := (nSize + 1) / 2;
        l := NextLevel(hash, l);
        assert vMerkleTree[..j] == before && vMerkleTree[j..] == l;
      }
      LastLevel(hash, l);
      assert vMerkleTree == vMerkleTree[..j] + l;
      root := if vMerkleTree == [] then 0 else vMerkleTree[|vMerkleTree| - 1];
      if vtx != [] { StackRoot(hash, vtx); }
    }

    /** The branch of a transaction, from the tree if it was built, building it otherwise. */
    method GetMerkleBranch(nIndex: nat) returns (vMerkleBranch: seq<Hash>)
      requires nIndex < |vtx| && (vMerkleTree == [] || vMerkleTree == Stack(hash, vtx))
      modifies this
      ensures vMerkleBranch == Branch(hash, vtx, nIndex) && vMerkleTree == Stack(hash, vtx)
    {
      hide Stack, Branch, NextLevel;
      if vMerkleTree == [] {
        var root, mutated := BuildMerkleTree();
      }
      vMerkleBranch := [];
      var j, nSize := 0, |vtx|;
      var i: nat := nIndex;
      ghost var l := vtx;
      while nSize > 1
        invariant nSize == |l| && i < |l| && j + |Stack(hash, l)| == |vMerkleTree| && vMerkleTree[j..] == Stack(hash, l)
        invariant vMerkleTree == Stack(hash, vtx)
        invariant vMerkleBranch + Branch(hash, l, i) == Branch(hash, vtx, nIndex)
        decreases nSize
      {
        var k := Min(Partner(i), nSize - 1);
        assert vMerkleTree[j + k] == Stack(hash, l)[..|l|][k] == l[k];
        LevelStep(hash, l);
        BranchStep(hash, l, i);
        vMerkleBranch := vMerkleBranch + [vMerkleTree[j + k]];
        i := i / 2;
        j := j + nSize;
        nSize := (nSize + 1) / 2;
        l := NextLevel(hash, l);
      }
      BranchEnd(hash, l, i);
      assert vMerkleBranch + [] == vMerkleBranch;
    }
  }

  /** Folds a branch up from a hash; -1 stands for no place. */
  method CheckMerkleBranch(hash: Combine, x: Hash, vMerkleBranch: seq<Hash>, nIndex: int) returns (root: Hash)
    requires nIndex >= -1
    ensures root == if nIndex == -1 then 0 else Folded(hash, x, vMerkleBranch, nIndex)
  {
    if nIndex == -1 { return 0; }
    root := x;
    var i: nat := nIndex;
    for k := 0 to |vMerkleBranch|
      invariant Folded(hash, root, vMerkleBranch[k..], i) == Folded(hash, x, vMerkleBranch, nIndex)
    {
      assert vMerkleBranch[k..][1..] == vMerkleBranch[k + 1..];
      root := if i % 2 == 1 then hash(vMerkleBranch[k], root) else hash(root, vMerkleBranch[k]);
      i := i / 2;
    }
  }
}
