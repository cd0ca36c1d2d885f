/**
  The stake modifier: up to 64 rounds, each of which selects one block of a recent
  interval and takes over one bit of its hash.
 */
module StakeModifier {
  import opened Util

  datatype Block = Block(time: nat, hash: nat, height: nat, fProofOfStake: bool, fGenerated: bool, nModifier: nat)

  /** The height of the hashing change, the modifier of the block after the first one, and the selection hash. */
  datatype Params = Params(upgrade: nat, second: nat, Hash: (nat, nat) -> nat)

  type Item = (nat, nat)          // time and hash
  type Index = map<nat, Block>

  const INTERVAL: nat := 60
  const RATIO: nat := 3

  // ----- intervals -----

  /** The length of a section; the last is RATIO times as long as the first. */
  function Section(n: nat): nat
    requires n < 64
  {
    INTERVAL * 63 / (63 + (63 - n) * (RATIO - 1))
  }

  function Sections(n: nat): nat
    requires n <= 64
  {
    if n == 0 then 0 else Sections(n - 1) + Section(n - 1)
  }

  lemma QuotientGrows(x: nat, a: nat, b: nat)
    requires 0 < b <= a
    ensures x / a <= x / b
  {
    var q, r := x / a, x / b + 1;
    MulMono(b, a, q);
    assert x == a * q + x % a && x == b * (x / b) + x % b;
    assert q * b < r * b;
    if q >= r { MulMono(r, q, b); }
  }

  /** Sections get longer round by round, from a third of the interval to all of it. */
  lemma SectionsGrow(m: nat, n: nat)
    requires m <= n < 64
    ensures Section(m) <= Section(n) && RATIO * Section(0) == Section(63) == INTERVAL
  {
    QuotientGrows(INTERVAL * 63, 63 + (63 - m) * (RATIO - 1), 63 + (63 - n) * (RATIO - 1));
  }

  /** A section is 3780 seconds divided by a number that falls from 189 to 63. */
  lemma SectionIs(n: nat, r: nat)
    requires n < 64
    ensures Section(n) == r <==> Fits(n, r)
  {
    var v := 189 - 2 * n;
    assert Section(n) == 3780 / v;
    if Fits(n, r) { DivIs(3780, v, r); }
  }

  predicate Fits(n: nat, r: nat) { r * (189 - 2 * n) <= 3780 < (r + 1) * (189 - 2 * n) }

  lemma FourSections(n: nat, a: nat, b: nat, c: nat, e: nat)
    requires n <= 60 && Fits(n, a) && Fits(n + 1, b) && Fits(n + 2, c) && Fits(n + 3, e)
    ensures Sections(n + 4) == Sections(n) + a + b + c + e
  {
    hide Section, Fits;
    SectionIs(n, a);
    SectionIs(n + 1, b);
    SectionIs(n + 2, c);
    SectionIs(n + 3, e);
    assert Sections(n + 2) == Sections(n) + a + b;
  }

  lemma FirstSections()
    ensures Sections(16) == 341
  {
    hide Sections;
    NoSections();
    FourSections(0, 20, 20, 20, 20);
    FourSections(4, 20, 21, 21, 21);
    FourSections(8, 21, 22, 22, 22);
    FourSections(12, 22, 23, 23, 23);
  }

  lemma SecondSections()
    ensures Sections(32) == Sections(16) + 421
  {
    hide Sections;
    FourSections(16, 24, 24, 24, 25);
    FourSections(20, 25, 25, 26, 26);
    FourSections(24, 26, 27, 27, 28);
    FourSections(28, 28, 28, 29, 29);
  }

  lemma ThirdSections()
    ensures Sections(48) == Sections(32) + 546
  {
    hide Sections;
    FourSections(32, 30, 30, 31, 31);
    FourSections(36, 32, 32, 33, 34);
    FourSections(40, 34, 35, 36, 36);
    FourSections(44, 37, 38, 38, 39);
  }

  lemma LastSections()
    ensures Sections(64) == Sections(48) + 779
  {
    hide Sections;
    FourSections(48, 40, 41, 42, 43);
    FourSections(52, 44, 45, 46, 47);
    FourSections(56, 49, 50, 51, 53);
    FourSections(60, 54, 56, 58, 60);
  }

  /** All sections together, in seconds: the length of the interval that candidates are taken from. */
  lemma IntervalIs()
    ensures Sections(64) == 2087
  {
    hide Sections;
    FirstSections();
    SecondSections();
    ThirdSections();
    LastSections();
  }

  lemma NoSections()
    ensures Sections(0) == 0
  {
  }

  method GetStakeModifierSelectionInterval() returns (nSelectionInterval: nat)
    ensures nSelectionInterval == Sections(64) == 2087
  {
    IntervalIs();
    nSelectionInterval := 0;
    for nSection := 0 to 64
      invariant nSelectionInterval == Sections(nSection)
    {
      nSelectionInterval := nSelectionInterval + Section(nSection);
    }
  }

  // ----- one round -----

  /** A block of the index under its own hash and with the item's time. */
  predicate Indexed(index: Index, v: seq<Item>) {
    forall i | 0 <= i < |v| :: v[i].1 in index && index[v[i].1].hash == v[i].1 && index[v[i].1].time == v[i].0
  }

  predicate ByTime(v: seq<Item>) { forall i, j | 0 <= i < j < |v| :: v[i].0 <= v[j].0 }

  function SelectionHash(p: Params, index: Index, v: seq<Item>, prev: nat, k: nat): nat
    requires k < |v| && Indexed(index, v)
  {
    HashOf(p, index[v[k].1], index[v[0].1].height >= p.upgrade, prev)
  }

  /** The hash of a block and the previous modifier; proof of stake is favoured. */
  function HashOf(p: Params, b: Block, fModifierV2: bool, prev: nat): nat {
    var hash := p.Hash(if fModifierV2 || !b.fProofOfStake then b.hash else 0, prev);
    if b.fProofOfStake then hash / 0x1_0000_0000 else hash
  }

  method HashSelection(p: Params, pindex: Block, fModifierV2: bool, prev: nat) returns (hashSelection: nat)
    ensures hashSelection == HashOf(p, pindex, fModifierV2, prev)
  {
    var hashProof := if fModifierV2 then pindex.hash else if pindex.fProofOfStake then 0 else pindex.hash;
    hashSelection := p.Hash(hashProof, prev);
    if pindex.fProofOfStake { hashSelection := hashSelection / 0x1_0000_0000; }
  }

  /** Open to a round: not selected yet, and either within the stop or the first one left. */
  predicate Eligible(v: seq<Item>, selected: map<nat, Block>, stop: int, k: nat)
    requires k < |v|
  {
    v[k].1 !in selected && (v[k].0 <= stop || forall i | 0 <= i < k :: v[i].1 in selected)
  }

  /** The eligible item with the least selection hash, the first one if there are several. */
  ghost predicate Picked(p: Params, index: Index, v: seq<Item>, selected: map<nat, Block>, stop: int, prev: nat, n: nat,
                         k: nat)
    requires n <= |v| && Indexed(index, v)
  {
    && k < n && Eligible(v, selected, stop, k)
    && forall j: nat | j < n && Eligible(v, selected, stop, j) ::
         var a, b := SelectionHash(p, index, v, prev, k), SelectionHash(p, index, v, prev, j);
         a < b || (a == b && k <= j)
  }

  /** With candidates in the order of time: the best within the stop if there is any, otherwise the first left. */
  lemma PickMeans(p: Params, index: Index, v: seq<Item>, selected: map<nat, Block>, stop: int, prev: nat, k: nat)
    requires Indexed(index, v) && ByTime(v) && Picked(p, index, v, selected, stop, prev, |v|, k)
    ensures v[k].1 !in selected
    ensures (exists j :: 0 <= j < |v| && v[j].1 !in selected && v[j].0 <= stop) ==>
      v[k].0 <= stop &&
      forall j: nat | j < |v| && v[j].1 !in selected && v[j].0 <= stop ::
          SelectionHash(p, index, v, prev, k) <= SelectionHash(p, index, v, prev, j)
    ensures !(exists j :: 0 <= j < |v| && v[j].1 !in selected && v[j].0 <= stop) ==>
            forall j | 0 <= j < k :: v[j].1 in selected
  {
    if j :| 0 <= j < |v| && v[j].1 !in selected && v[j].0 <= stop {
      if j < k { assert v[k].0 <= stop; } else { assert v[k].0 <= v[j].0; }
      forall i: nat | i < |v| && v[i].1 !in selected && v[i].0 <= stop
        ensures SelectionHash(p, index, v, prev, k) <= SelectionHash(p, index, v, prev, i)
      {
        assert Eligible(v, selected, stop, i);
      }
    }
  }

  lemma PickUnique(p: Params, index: Index, v: seq<Item>, selected: map<nat, Block>, stop: int, prev: nat, j: nat,
                   k: nat)
    requires Indexed(index, v)
    requires Picked(p, index, v, selected, stop, prev, |v|, j) && Picked(p, index, v, selected, stop, prev, |v|, k)
    ensures j == k
  {
  }

  /**
    What a pick means on the hashes themselves. Before the upgrade height proof-of-stake
    blocks are hashed with zero in place of their own hash. A proof-of-work block wins
    over one with proof of stake only by a hash 2^32 times smaller, and one with proof of
    stake loses only to such a one; within one kind the least hash wins, among
    proof-of-stake blocks but for the lowest 32 bits.
   */
  lemma PickFavoursStake(p: Params, index: Index, v: seq<Item>, selected: map<nat, Block>, stop: int, prev: nat, k: nat,
                         j: nat)
    requires Indexed(index, v) && Picked(p, index, v, selected, stop, prev, |v|, k)
    requires j < |v| && v[j].1 !in selected && (v[j].0 <= stop || forall i | 0 <= i < j :: v[i].1 in selected)
    ensures var a, b, upgraded := index[v[k].1], index[v[j].1], index[v[0].1].height >= p.upgrade;
            var x := p.Hash(if a.fProofOfStake && !upgraded then 0 else v[k].1, prev);
            var y := p.Hash(if b.fProofOfStake && !upgraded then 0 else v[j].1, prev);
            && (!a.fProofOfStake && !b.fProofOfStake ==> x <= y)
            && (!a.fProofOfStake && b.fProofOfStake ==> x * 4294967296 <= y)
            && (a.fProofOfStake && !b.fProofOfStake ==> x < (y + 1) * 4294967296)
            && (a.fProofOfStake && b.fProofOfStake && x > y ==> x - y < 4294967296)
  {
    assert Eligible(v, selected, stop, j);
    var a, b, upgraded := index[v[k].1], index[v[j].1], index[v[0].1].height >= p.upgrade;
    var x := p.Hash(if a.fProofOfStake && !upgraded then 0 else v[k].1, prev);
    var y := p.Hash(if b.fProofOfStake && !upgraded then 0 else v[j].1, prev);
    assert SelectionHash(p, index, v, prev, k) == if a.fProofOfStake then x / 4294967296 else x;
    assert SelectionHash(p, index, v, prev, j) == if b.fProofOfStake then y / 4294967296 else y;
  }

  /** How many candidates, from the first on, the block index has. */
  function Found(index: Index, v: seq<Item>): (n: nat)
    ensures n <= |v| && (forall i | 0 <= i < n :: v[i].1 in index) && (n < |v| ==> v[n].1 !in index)
  {
    if v == [] || v[0].1 !in index then 0 else 1 + Found(index, v[1..])
  }

  /** The index keeps blocks under their own hashes, and candidates have the times of their blocks. */
  predicate Keyed(index: Index, v: seq<Item>) {
    forall i | 0 <= i < |v| && v[i].1 in index :: index[v[i].1].hash == v[i].1 && index[v[i].1].time == v[i].0
  }

  /** Among the first n there is an item beyond the stop, with one before it that is not selected: the search ends. */
  ghost predicate Ends(v: seq<Item>, selected: map<nat, Block>, stop: int, n: nat)
    requires n <= |v|
  {
    exists i, j :: 0 <= j < i < n && v[j].1 !in selected && v[i].0 > stop
  }

  ghost predicate AnyLeft(v: seq<Item>, selected: map<nat, Block>, n: nat)
    requires n <= |v|
  {
    exists j :: 0 <= j < n && v[j].1 !in selected
  }

  lemma FoundIndexed(index: Index, v: seq<Item>)
    requires Keyed(index, v)
    ensures Indexed(index, v[..Found(index, v)])
  {
  }

  lemma AllFound(index: Index, v: seq<Item>)
    requires Indexed(index, v)
    ensures Keyed(index, v) && Found(index, v) == |v| && v[..|v|] == v
  {
  }

  /**
    Goes through the candidates until one lies beyond the stop while a block is already
    selected. A candidate missing from the block index before that is an error.
   */
  method SelectBlockFromCandidates(p: Params, index: Index, v: seq<Item>, mapSelectedBlocks: map<nat, Block>, stop: int,
                                   prev: nat)
    returns (fSelected: bool, pindexSelected: Option<Block>, ghost k: nat)
    requires Keyed(index, v) && ByTime(v)
    ensures Indexed(index, v[..Found(index, v)])
    ensures var w := v[..Found(index, v)];
            fSelected <==> AnyLeft(w, mapSelectedBlocks, |w|) && (w == v || Ends(w, mapSelectedBlocks, stop, |w|))
    ensures var w := v[..Found(index, v)];
            fSelected ==>
              Picked(p, index, w, mapSelectedBlocks, stop, prev, |w|, k) && pindexSelected == Some(index[w[k].1])
  {
    hide Picked, SelectionHash, HashOf, AnyLeft, Ends;
    ghost var w := v[..Found(index, v)];
    FoundIndexed(index, v);
    NoneYet(w, mapSelectedBlocks, stop);
    var fModifierV2, fFirstRun := false, true;
    var hashBest := 0;
    fSelected, pindexSelected, k := false, None, 0;
    var i := 0;
    while i < |v|
      invariant 0 <= i <= |w| && fFirstRun == (i == 0)
      invariant i > 0 ==> fModifierV2 == (index[w[0].1].height >= p.upgrade)
      invariant fSelected <==> AnyLeft(w, mapSelectedBlocks, i)
      invariant !Ends(w, mapSelectedBlocks, stop, i)
      invariant fSelected ==> k < i && Picked(p, index, w, mapSelectedBlocks, stop, prev, i, k)
      invariant fSelected ==>
        hashBest == SelectionHash(p, index, w, prev, k) && pindexSelected == Some(index[w[k].1])
    {
      if v[i].1 !in index {
        assert |w| == i < |v|;
        return false, None, k;
      }
      var pindex := index[v[i].1];
      if fSelected && pindex.time > stop {
        NoneBeyond(p, index, w, mapSelectedBlocks, stop, prev, i, k);
        break;
      }
      if fFirstRun {
        fModifierV2 := pindex.height >= p.upgrade;
        fFirstRun := false;
      }
      NotEnded(w, mapSelectedBlocks, stop, i);
      PickedNext(p, index, w, mapSelectedBlocks, stop, prev, i, k);
      if pindex.hash !in mapSelectedBlocks {
        var hashSelection := HashSelection(p, pindex, fModifierV2, prev);
        SelectionHashIs(p, index, w, prev, i);
        if fSelected && hashSelection < hashBest {
          hashBest, pindexSelected, k := hashSelection, Some(pindex), i;
        } else if !fSelected {
          fSelected, hashBest, pindexSelected, k := true, hashSelection, Some(pindex), i;
        }
      }
      i := i + 1;
    }
    if i == |v| { assert w == v; }
  }

  lemma NoneYet(v: seq<Item>, selected: map<nat, Block>, stop: int)
    ensures !AnyLeft(v, selected, 0) && !Ends(v, selected, stop, 0)
  {
  }

  lemma SelectionHashIs(p: Params, index: Index, v: seq<Item>, prev: nat, k: nat)
    requires k < |v| && Indexed(index, v)
    ensures SelectionHash(p, index, v, prev, k) ==
            HashOf(p, index[v[k].1], index[v[0].1].height >= p.upgrade, prev)
  {
  }

  /** The search goes on past an item that is within the stop, or the first one left. */
  lemma NotEnded(v: seq<Item>, selected: map<nat, Block>, stop: int, i: nat)
    requires i < |v| && !Ends(v, selected, stop, i) && (AnyLeft(v, selected, i) ==> v[i].0 <= stop)
    ensures !Ends(v, selected, stop, i + 1)
    ensures AnyLeft(v, selected, i + 1) <==> AnyLeft(v, selected, i) || v[i].1 !in selected
  {
  }

  /** How the pick moves on over one more item. */
  lemma PickedNext(p: Params, index: Index, v: seq<Item>, selected: map<nat, Block>, stop: int, prev: nat, i: nat,
                   k: nat)
    requires Indexed(index, v) && i < |v| && (AnyLeft(v, selected, i) ==> v[i].0 <= stop && k < i)
    requires AnyLeft(v, selected, i) ==> Picked(p, index, v, selected, stop, prev, i, k)
    ensures AnyLeft(v, selected, i) &&
            (v[i].1 in selected || SelectionHash(p, index, v, prev, i) >= SelectionHash(p, index, v, prev, k))
            ==> Picked(p, index, v, selected, stop, prev, i + 1, k)
    ensures v[i].1 !in selected &&
            (!AnyLeft(v, selected, i) || SelectionHash(p, index, v, prev, i) < SelectionHash(p, index, v, prev, k))
            ==> Picked(p, index, v, selected, stop, prev, i + 1, i)
  {
    hide SelectionHash;
    if !AnyLeft(v, selected, i) {
      forall j: nat | j < i ensures !Eligible(v, selected, stop, j) { }
    }
  }

  /** Beyond the stop nothing is eligible once a block before is left, so the pick is final. */
  lemma NoneBeyond(p: Params, index: Index, v: seq<Item>, selected: map<nat, Block>, stop: int, prev: nat, i: nat,
                   k: nat)
    requires Indexed(index, v) && ByTime(v) && k < i < |v| && v[i].0 > stop
    requires Picked(p, index, v, selected, stop, prev, i, k)
    ensures Picked(p, index, v, selected, stop, prev, |v|, k)
    ensures AnyLeft(v, selected, |v|) && Ends(v, selected, stop, |v|)
  {
    hide SelectionHash;
    forall j: nat | i <= j < |v| ensures !Eligible(v, selected, stop, j) { assert v[i].0 <= v[j].0; }
    assert v[k].1 !in selected;
  }

  // ----- all rounds -----

  /** The number whose binary digits, from the lowest on, are the given ones. */
  function FromBits(bits: seq<nat>): nat {
    if bits == [] then 0 else FromBits(bits[..|bits| - 1]) + bits[|bits| - 1] * Pow2(|bits| - 1)
  }

  lemma {:induction false} BitsBelow(bits: seq<nat>)
    requires forall i | 0 <= i < |bits| :: bits[i] <= 1
    ensures FromBits(bits) < Pow2(|bits|)
  {
    if bits != [] { BitsBelow(bits[..|bits| - 1]); }
  }

  /** Shifted right by n binary places. */
  function Shr(x: nat, n: nat): nat { if n == 0 then x else Shr(x / 2, n - 1) }

  lemma {:induction false} ShrAdd(x: nat, y: nat, n: nat)
    ensures Shr(x + y * Pow2(n), n) == Shr(x, n) + y
  {
    if n > 0 {
      hide Pow2;
      var z := y * Pow2(n - 1);
      PowStep(y, n);
      HalfOf(x, z);
      ShrAdd(x / 2, y, n - 1);
    }
  }

  lemma PowStep(y: nat, n: nat)
    requires n > 0
    ensures y * Pow2(n) == 2 * (y * Pow2(n - 1))
  {
  }

  lemma HalfOf(x: nat, z: nat)
    ensures (x + 2 * z) / 2 == x / 2 + z
  {
  }

  lemma {:induction false} ShrBelow(x: nat, n: nat)
    requires x < Pow2(n)
    ensures Shr(x, n) == 0
  {
    if n > 0 { ShrBelow(x / 2, n - 1); }
  }

  lemma {:induction false} HighAway(low: nat, high: nat, n: nat, r: nat)
    requires r < n
    ensures Shr(low + high * Pow2(n), r) % 2 == Shr(low, r) % 2
  {
    assert high * Pow2(n) == 2 * (high * Pow2(n - 1));
    if r > 0 {
      assert (low + 2 * (high * Pow2(n - 1))) / 2 == low / 2 + high * Pow2(n - 1);
      HighAway(low / 2, high, n - 1, r - 1);
    }
  }

  /** Bit r of the number is digit r. */
  lemma {:induction false} BitAt(bits: seq<nat>, r: nat)
    requires (forall i | 0 <= i < |bits| :: bits[i] <= 1) && r < |bits|
    ensures Shr(FromBits(bits), r) % 2 == bits[r]
  {
    hide Pow2, Shr;
    var n := |bits| - 1;
    BitsBelow(bits[..n]);
    if r == n {
      ShrAdd(FromBits(bits[..n]), bits[n], n);
      ShrBelow(FromBits(bits[..n]), n);
    } else {
      BitAt(bits[..n], r);
      HighAway(FromBits(bits[..n]), bits[n], n, r);
    }
  }

  predicate Distinct(v: seq<Item>) { forall i, j | 0 <= i < j < |v| :: v[i].1 != v[j].1 }

  /** The blocks picked before round r. */
  ghost function Selected(index: Index, v: seq<Item>, picks: seq<nat>, r: nat): map<nat, Block>
    requires r <= |picks| && Indexed(index, v) && forall i | 0 <= i < |picks| :: picks[i] < |v|
  {
    map i | 0 <= i < r :: v[picks[i]].1 := index[v[picks[i]].1]
  }

  ghost predicate Places(v: seq<Item>, picks: seq<nat>) { forall i | 0 <= i < |picks| :: picks[i] < |v| }

  /** Every round picked what it should, up to the stop it had reached. */
  ghost predicate Rounds(p: Params, index: Index, v: seq<Item>, start: int, prev: nat, picks: seq<nat>)
    requires Indexed(index, v) && |picks| <= 64
  {
    && Places(v, picks)
    && forall r | 0 <= r < |picks| ::
         Picked(p, index, v, Selected(index, v, picks, r), start + Sections(r + 1), prev, |v|, picks[r])
  }

  /** The entropy bits of the picks, in the order of the rounds. */
  function EntropyBits(v: seq<Item>, picks: seq<nat>): (bits: seq<nat>)
    requires forall i | 0 <= i < |picks| :: picks[i] < |v|
    ensures |bits| == |picks| && forall i | 0 <= i < |bits| :: bits[i] <= 1
  {
    seq(|picks|, i requires 0 <= i < |picks| => v[picks[i]].1 % 2)
  }

  /** The rounds pick pairwise different candidates. */
  lemma PicksDiffer(p: Params, index: Index, v: seq<Item>, start: int, prev: nat, picks: seq<nat>, i: nat, j: nat)
    requires Indexed(index, v) && |picks| <= 64 && Rounds(p, index, v, start, prev, picks) && i < j < |picks|
    ensures v[picks[i]].1 != v[picks[j]].1
  {
    assert Picked(p, index, v, Selected(index, v, picks, j), start + Sections(j + 1), prev, |v|, picks[j]);
    assert v[picks[i]].1 in Selected(index, v, picks, j);
  }

  ghost function Hashes(v: seq<Item>, n: nat): set<nat>
    requires n <= |v|
  {
    set i | 0 <= i < n :: v[i].1
  }

  lemma {:induction false} HashesSize(v: seq<Item>, n: nat)
    requires n <= |v| && Distinct(v)
    ensures |Hashes(v, n)| == n
  {
    if n > 0 {
      HashesSize(v, n - 1);
      assert Hashes(v, n) == Hashes(v, n - 1) + {v[n - 1].1};
    }
  }

  /** While fewer blocks are selected than there are candidates, some candidate is left. */
  lemma SomeLeft(v: seq<Item>, selected: map<nat, Block>)
    requires Distinct(v) && |selected| < |v|
    ensures exists j :: 0 <= j < |v| && v[j].1 !in selected
  {
    HashesSize(v, |v|);
    assert |selected| == |selected.Keys|;
    if forall j | 0 <= j < |v| :: v[j].1 in selected { SubsetSize(Hashes(v, |v|), selected.Keys); }
  }

  lemma SelectedSame(index: Index, v: seq<Item>, picks: seq<nat>, k: nat, r: nat)
    requires Indexed(index, v) && Places(v, picks) && k < |v| && r <= |picks|
    ensures Places(v, picks + [k]) && Selected(index, v, picks + [k], r) == Selected(index, v, picks, r)
  {
    var q := picks + [k];
    forall i | 0 <= i < r ensures q[i] == picks[i] { }
  }

  lemma SelectedLast(index: Index, v: seq<Item>, picks: seq<nat>, n: nat)
    requires Indexed(index, v) && Places(v, picks) && n < |picks|
    ensures Selected(index, v, picks, n + 1) == Selected(index, v, picks, n)[v[picks[n]].1 := index[v[picks[n]].1]]
  {
    var more, was := Selected(index, v, picks, n + 1), Selected(index, v, picks, n);
    forall h | h in was ensures h in more && more[h] == was[h] {
      var i :| 0 <= i < n && v[picks[i]].1 == h;
      assert v[picks[i]].1 in more;
    }
    assert v[picks[n]].1 in more;
    forall h | h in more && h != v[picks[n]].1 ensures h in was {
      var i :| 0 <= i < n + 1 && v[picks[i]].1 == h;
      assert v[picks[i]].1 in was;
    }
  }

  lemma SelectedMore(index: Index, v: seq<Item>, picks: seq<nat>, k: nat)
    requires Indexed(index, v) && Places(v, picks) && k < |v|
    ensures Places(v, picks + [k])
    ensures forall r | 0 <= r <= |picks| :: Selected(index, v, picks + [k], r) == Selected(index, v, picks, r)
    ensures Selected(index, v, picks + [k], |picks| + 1) == Selected(index, v, picks, |picks|)[v[k].1 := index[v[k].1]]
    ensures EntropyBits(v, picks + [k]) == EntropyBits(v, picks) + [v[k].1 % 2]
  {
    hide Selected, Indexed;
    forall r | 0 <= r <= |picks|
      ensures Places(v, picks + [k]) && Selected(index, v, picks + [k], r) == Selected(index, v, picks, r)
    {
      SelectedSame(index, v, picks, k, r);
    }
    SelectedLast(index, v, picks + [k], |picks|);
  }

  lemma RoundsMore(p: Params, index: Index, v: seq<Item>, start: int, prev: nat, picks: seq<nat>, k: nat)
    requires Indexed(index, v) && |picks| < 64 && Rounds(p, index, v, start, prev, picks)
    requires Picked(p, index, v, Selected(index, v, picks, |picks|), start + Sections(|picks| + 1), prev, |v|, k)
    ensures Rounds(p, index, v, start, prev, picks + [k])
  {
    hide Picked, Selected, EntropyBits, Indexed, Sections;
    assert k < |v| by {
      PickPlace(p, index, v, Selected(index, v, picks, |picks|), start + Sections(|picks| + 1), prev, k);
    }
    SelectedMore(index, v, picks, k);
  }

  lemma PickPlace(p: Params, index: Index, v: seq<Item>, selected: map<nat, Block>, stop: int, prev: nat, k: nat)
    requires Indexed(index, v) && Picked(p, index, v, selected, stop, prev, |v|, k)
    ensures k < |v| && v[k].1 !in selected
  {
  }

  /** With distinct candidates no round fails, and each contributes the entropy bit of its pick. */
  method SelectRounds(p: Params, index: Index, v: seq<Item>, start: int, prev: nat)
    returns (ok: bool, nStakeModifierNew: nat, ghost picks: seq<nat>)
    requires Indexed(index, v) && ByTime(v) && Distinct(v)
    ensures ok && |picks| == Min(64, |v|) && Rounds(p, index, v, start, prev, picks)
    ensures nStakeModifierNew == FromBits(EntropyBits(v, picks)) < Pow2(64)
  {
    hide Picked, Selected, EntropyBits, Pow2, Distinct, ByTime, Indexed, Keyed, Found, Ends, Section, FromBits;
    AllFound(index, v);
    NoBits();
    nStakeModifierNew, picks := 0, [];
    var stop := start;
    var mapSelectedBlocks: map<nat, Block> := map[];
    NoneSelected(index, v);
    var nRound := 0;
    while nRound < Min(64, |v|)
      invariant nRound == |picks| <= Min(64, |v|) && Rounds(p, index, v, start, prev, picks)
      invariant stop == start + Sections(nRound)
      invariant mapSelectedBlocks == Selected(index, v, picks, nRound) && |mapSelectedBlocks| == nRound
      invariant nStakeModifierNew == FromBits(EntropyBits(v, picks))
    {
      stop := stop + Section(nRound);
      SomeLeft(v, mapSelectedBlocks);
      var pindex;
      ghost var k;
      ok, pindex, k := SelectBlockFromCandidates(p, index, v, mapSelectedBlocks, stop, prev);
      if !ok { return; }
      PickPlace(p, index, v, mapSelectedBlocks, stop, prev, k);
      RoundsMore(p, index, v, start, prev, picks, k);
      SelectedMore(index, v, picks, k);
      var block := pindex.value;
      HashKept(index, v, k);
      ghost var bits := EntropyBits(v, picks);
      BitsMore(bits, v[k].1 % 2);
      nStakeModifierNew := nStakeModifierNew + block.hash % 2 * Pow2(nRound);
      mapSelectedBlocks := mapSelectedBlocks[block.hash := block];
      picks := picks + [k];
      nRound := nRound + 1;
    }
    FitsWord(v, picks);
    ok := true;
  }

  lemma NoBits()
    ensures FromBits([]) == 0
  {
  }

  lemma BitsMore(bits: seq<nat>, b: nat)
    ensures FromBits(bits + [b]) == FromBits(bits) + b * Pow2(|bits|)
  {
    assert (bits + [b])[..|bits|] == bits;
  }

  lemma NoneSelected(index: Index, v: seq<Item>)
    requires Indexed(index, v)
    ensures Selected(index, v, [], 0) == map[] && EntropyBits(v, []) == []
  {
  }

  lemma HashKept(index: Index, v: seq<Item>, k: nat)
    requires Indexed(index, v) && k < |v|
    ensures index[v[k].1].hash == v[k].1
  {
  }

  lemma {:induction false} PowGrows(a: nat, b: nat)
    requires a <= b
    ensures Pow2(a) <= Pow2(b)
  {
    if a < b { PowGrows(a, b - 1); }
  }

  lemma FitsWord(v: seq<Item>, picks: seq<nat>)
    requires Places(v, picks) && |picks| <= 64
    ensures FromBits(EntropyBits(v, picks)) < Pow2(64)
  {
    BitsBelow(EntropyBits(v, picks));
    PowGrows(|picks|, 64);
  }

  // ----- candidates -----

  function ItemOf(b: Block): Item { (b.time, b.hash) }

  predicate Less(a: Item, b: Item) { a.0 < b.0 || (a.0 == b.0 && a.1 < b.1) }

  ghost predicate Ascending(v: seq<Item>) { forall i, j | 0 <= i < j < |v| :: Less(v[i], v[j]) }

  /** Blocks of a chain, from the first on, each known under its hash. */
  ghost predicate Known(index: Index, chain: seq<Block>) {
    && (forall i | 0 <= i < |chain| :: chain[i].hash in index && index[chain[i].hash] == chain[i])
    && (forall i, j | 0 <= i < j < |chain| :: chain[i].hash != chain[j].hash)
  }

  /** Going down from n, the first place from which on no block is older than the start. */
  function FirstCandidate(chain: seq<Block>, start: int, n: nat): (lo: nat)
    requires n <= |chain|
    ensures lo <= n && (forall i | lo <= i < n :: chain[i].time >= start) && (lo > 0 ==> chain[lo - 1].time < start)
  {
    if n == 0 || chain[n - 1].time < start then n else FirstCandidate(chain, start, n - 1)
  }

  /** The items of the blocks from a place on, in ascending order. */
  ghost predicate Sorted(chain: seq<Block>, lo: nat, v: seq<Item>)
    requires lo <= |chain|
  {
    && Ascending(v) && |v| == |chain| - lo
    && (forall i | lo <= i < |chain| :: ItemOf(chain[i]) in v)
    && (forall k | 0 <= k < |v| :: exists i :: lo <= i < |chain| && v[k] == ItemOf(chain[i]))
  }

  /** An item goes in where it belongs. */
  method Insert(v: seq<Item>, x: Item) returns (r: seq<Item>)
    requires Ascending(v) && forall k | 0 <= k < |v| :: v[k].1 != x.1
    ensures Ascending(r) && |r| == |v| + 1 && forall y :: y in r <==> y in v || y == x
  {
    var k := |v|;
    while k > 0 && Less(x, v[k - 1])
      invariant 0 <= k <= |v| && forall i | k <= i < |v| :: Less(x, v[i])
    {
      k := k - 1;
    }
    r := v[..k] + [x] + v[k..];
    Inserted(v, x, k);
  }

  lemma Inserted(v: seq<Item>, x: Item, k: nat)
    requires Ascending(v) && k <= |v| && (k > 0 ==> v[k - 1].1 != x.1 && !Less(x, v[k - 1])) &&
             forall i | k <= i < |v| :: Less(x, v[i])
    ensures var r := v[..k] + [x] + v[k..]; Ascending(r) && forall y :: y in r <==> y in v || y == x
  {
    var r := v[..k] + [x] + v[k..];
    forall i | 0 <= i < k ensures Less(v[i], x) {
      assert Less(v[k - 1], x);
      if i < k - 1 { assert Less(v[i], v[k - 1]); }
    }
    forall i, j | 0 <= i < j < |r| ensures Less(r[i], r[j]) {
      if i < k && j > k { assert r[i] == v[i] && r[j] == v[j - 1]; }
    }
    forall y | y in v ensures y in r {
      var i :| 0 <= i < |v| && v[i] == y;
      if i < k { assert r[i] == y; } else { assert r[i + 1] == y; }
    }
    assert r[k] == x;
  }

  /** Walks back until a block is too old, and sorts what it found. */
  method CollectCandidates(index: Index, chain: seq<Block>, start: int) returns (v: seq<Item>)
    requires Known(index, chain)
    ensures Sorted(chain, FirstCandidate(chain, start, |chain|), v)
    ensures forall i, j | 0 <= i < j < |v| :: v[i].0 < v[j].0 || (v[i].0 == v[j].0 && v[i].1 < v[j].1)
  {
    hide Known, Less, Sorted;
    v := [];
    var n := |chain|;
    NothingSorted(chain);
    while n > 0 && chain[n - 1].time >= start
      invariant 0 <= n <= |chain| && Sorted(chain, n, v)
      invariant FirstCandidate(chain, start, |chain|) == FirstCandidate(chain, start, n)
    {
      NewHash(index, chain, n, v);
      ghost var w := v;
      v := Insert(v, ItemOf(chain[n - 1]));
      SortedStep(chain, n, w, v);
      n := n - 1;
    }
    SortedOrder(chain, n, v);
  }

  lemma SortedOrder(chain: seq<Block>, lo: nat, v: seq<Item>)
    requires lo <= |chain| && Sorted(chain, lo, v)
    ensures forall i, j | 0 <= i < j < |v| :: v[i].0 < v[j].0 || (v[i].0 == v[j].0 && v[i].1 < v[j].1)
  {
    forall i, j | 0 <= i < j < |v| ensures Less(v[i], v[j]) { }
  }

  lemma NothingSorted(chain: seq<Block>)
    ensures Sorted(chain, |chain|, [])
  {
  }

  lemma NewHash(index: Index, chain: seq<Block>, n: nat, v: seq<Item>)
    requires Known(index, chain) && 0 < n <= |chain| && Sorted(chain, n, v)
    ensures Ascending(v) && forall k | 0 <= k < |v| :: v[k].1 != ItemOf(chain[n - 1]).1
  {
    forall k | 0 <= k < |v| ensures v[k].1 != ItemOf(chain[n - 1]).1 {
      var i :| n <= i < |chain| && v[k] == ItemOf(chain[i]);
    }
  }

  lemma SortedStep(chain: seq<Block>, n: nat, w: seq<Item>, v: seq<Item>)
    requires 0 < n <= |chain| && Sorted(chain, n, w) && Ascending(v) && |v| == |w| + 1
    requires forall y :: y in v <==> y in w || y == ItemOf(chain[n - 1])
    ensures Sorted(chain, n - 1, v)
  {
    forall k | 0 <= k < |v| ensures exists i :: n - 1 <= i < |chain| && v[k] == ItemOf(chain[i]) {
      assert v[k] in v;
      if v[k] != ItemOf(chain[n - 1]) {
        assert v[k] in w;
        var j :| 0 <= j < |w| && w[j] == v[k];
        var i :| n <= i < |chain| && w[j] == ItemOf(chain[i]);
        assert v[k] == ItemOf(chain[i]);
      }
    }
    forall i | n - 1 <= i < |chain| ensures ItemOf(chain[i]) in v {
      if i >= n { assert ItemOf(chain[i]) in w; }
    }
  }

  /** Sorted items of a chain are fit for the rounds. */
  lemma SortedFit(index: Index, chain: seq<Block>, lo: nat, v: seq<Item>)
    requires lo <= |chain| && Known(index, chain) && Sorted(chain, lo, v)
    ensures Indexed(index, v) && ByTime(v) && Distinct(v)
  {
    forall k | 0 <= k < |v| ensures v[k].1 in index && index[v[k].1].hash == v[k].1 && index[v[k].1].time == v[k].0 {
      var i :| lo <= i < |chain| && v[k] == ItemOf(chain[i]);
    }
    forall j, k | 0 <= j < k < |v| ensures v[j].0 <= v[k].0 && v[j].1 != v[k].1 {
      assert Less(v[j], v[k]);
      var i :| lo <= i < |chain| && v[j] == ItemOf(chain[i]);
      var l :| lo <= l < |chain| && v[k] == ItemOf(chain[l]);
      assert i != l;
      assert chain[i].hash != chain[l].hash;
    }
  }

  // ----- the next modifier -----

  /** Among the first n blocks, the last that generated a modifier. */
  function LastGenerated(chain: seq<Block>, n: nat): Option<Block>
    requires n <= |chain|
  {
    if n == 0 then None else if chain[n - 1].fGenerated then Some(chain[n - 1]) else LastGenerated(chain, n - 1)
  }

  method GetLastStakeModifier(chain: seq<Block>) returns (ok: bool, nStakeModifier: nat, nModifierTime: nat)
    ensures ok <==> LastGenerated(chain, |chain|).Some?
    ensures ok ==>
            nStakeModifier == LastGenerated(chain, |chain|).value.nModifier &&
            nModifierTime == LastGenerated(chain, |chain|).value.time
    ensures ok <==> exists i | 0 <= i < |chain| :: chain[i].fGenerated
    ensures ok ==> exists i | 0 <= i < |chain| ::
              && chain[i].fGenerated && (forall j | i < j < |chain| :: !chain[j].fGenerated)
              && nStakeModifier == chain[i].nModifier && nModifierTime == chain[i].time
  {
    if chain == [] { return false, 0, 0; }
    var n := |chain|;
    while n > 1 && !chain[n - 1].fGenerated
      invariant 1 <= n <= |chain| && LastGenerated(chain, |chain|) == LastGenerated(chain, n)
      invariant forall j | n <= j < |chain| :: !chain[j].fGenerated
    {
      n := n - 1;
    }
    if !chain[n - 1].fGenerated { return false, 0, 0; }
    return true, chain[n - 1].nModifier, chain[n - 1].time;
  }

  /** Whether the interval of the last modifier is over. */
  predicate Due(chain: seq<Block>, last: Block)
    requires chain != []
  {
    last.time / INTERVAL < chain[|chain| - 1].time / INTERVAL
  }

  function SelectionStart(chain: seq<Block>): int
    requires chain != []
  {
    chain[|chain| - 1].time / INTERVAL * INTERVAL - Sections(64)
  }

  /** A new modifier is due when a full minute came after the block of the last one, up to the last block. */
  lemma DueMeans(chain: seq<Block>, last: Block)
    requires chain != []
    ensures Due(chain, last) <==> exists k: nat :: last.time < 60 * k && 60 * k <= chain[|chain| - 1].time
  {
    var t := chain[|chain| - 1].time;
    if Due(chain, last) {
      var k := t / 60;
      assert last.time < 60 * k && 60 * k <= t;
    }
    if k: nat :| last.time < 60 * k && 60 * k <= t {
      assert last.time / 60 < k <= t / 60;
    }
  }

  /** Candidates are taken from 2087 seconds before the last full minute on. */
  lemma SelectionStartIs(chain: seq<Block>)
    requires chain != []
    ensures var minute := SelectionStart(chain) + 2087;
            minute % 60 == 0 && minute <= chain[|chain| - 1].time < minute + 60
  {
    hide Sections;
    IntervalIs();
    MinuteIs(chain[|chain| - 1].time);
  }

  lemma MinuteIs(t: nat)
    ensures t / 60 * 60 % 60 == 0 && t / 60 * 60 <= t < t / 60 * 60 + 60
  {
  }

  /** The candidates reach back from the last block of the chain, which is one of them. */
  lemma SomeCandidate(chain: seq<Block>)
    requires chain != []
    ensures FirstCandidate(chain, SelectionStart(chain), |chain|) < |chain|
  {
  }

  /** A modifier made from the sorted candidates v; picks are the places of the selected ones. */
  ghost predicate Generated(p: Params, index: Index, chain: seq<Block>, prev: nat, modifier: nat, v: seq<Item>,
                            picks: seq<nat>)
    requires chain != []
  {
    && Indexed(index, v) && Sorted(chain, FirstCandidate(chain, SelectionStart(chain), |chain|), v) && v != []
    && |picks| == Min(64, |v|) && Rounds(p, index, v, SelectionStart(chain), prev, picks)
    && modifier == FromBits(EntropyBits(v, picks)) < Pow2(64)
  }

  method Generate(p: Params, index: Index, chain: seq<Block>, prev: nat)
    returns (ok: bool, nStakeModifier: nat, ghost v: seq<Item>, ghost picks: seq<nat>)
    requires chain != [] && Known(index, chain)
    ensures ok && Generated(p, index, chain, prev, nStakeModifier, v, picks)
  {
    hide Known, Rounds, EntropyBits, Sections, Pow2;
    var nSelectionInterval := GetStakeModifierSelectionInterval();
    var start: int := chain[|chain| - 1].time / INTERVAL * INTERVAL - nSelectionInterval;
    var sorted := CollectCandidates(index, chain, start);
    v := sorted;
    SomeCandidate(chain);
    SortedFit(index, chain, FirstCandidate(chain, start, |chain|), sorted);
    ok, nStakeModifier, picks := SelectRounds(p, index, sorted, start, prev);
  }

  /** The modifier of the block after the last one of a chain. */
  method ComputeNextStakeModifier(p: Params, index: Index, chain: seq<Block>)
    returns (ok: bool, nStakeModifier: nat, fGenerated: bool, ghost v: seq<Item>, ghost picks: seq<nat>)
    requires Known(index, chain)
    ensures chain == [] ==> ok && nStakeModifier == 0 && fGenerated
    ensures chain != [] && chain[|chain| - 1].height == 0 ==> ok && nStakeModifier == p.second && fGenerated
    ensures chain != [] && chain[|chain| - 1].height != 0 ==>
      match LastGenerated(chain, |chain|)
      case None => !ok
      case Some(last) =>
        ok && if Due(chain, last)
              then fGenerated && Generated(p, index, chain, last.nModifier, nStakeModifier, v, picks)
              else nStakeModifier == last.nModifier && !fGenerated
  {
    hide Known, Generated;
    nStakeModifier, fGenerated, v, picks := 0, false, [], [];
    if chain == [] { return true, 0, true, v, picks; }
    var pindexPrev := chain[|chain| - 1];
    if pindexPrev.height == 0 { return true, p.second, true, v, picks; }
    var nModifierTime;
    ok, nStakeModifier, nModifierTime := GetLastStakeModifier(chain);
    if !ok { return; }
    if nModifierTime / INTERVAL >= pindexPrev.time / INTERVAL { return; }
    ok, nStakeModifier, v, picks := Generate(p, index, chain, nStakeModifier);
    fGenerated := true;
  }
}
