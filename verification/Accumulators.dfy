/**
  Accumulator checkpoints: every tenth block the accumulators take in the mints of
  the ten blocks that are at least eleven deep, and the block records a checksum of
  each accumulator. The accumulators themselves are found again by their checksums.
 */
module Accumulators {
  import opened Util

  const DENOMS: nat := 8
  const WORD32: nat := 0x1_0000_0000

  /** A mint of the denomination at a place of the list; any other number is no denomination. */
  datatype Mint = Mint(denom: int, value: nat)

  /** What a block offers: its mints, or nothing if it cannot be read. */
  type Blocks = seq<Option<seq<Mint>>>

  type Accs = map<nat, nat>

  type Store = map<nat, nat>

  /** The first height with mints, fresh accumulators, adding a mint, and the checksum of a value. */
  datatype Params = Params(start: nat, Fresh: nat -> nat, Increment: (nat, nat) -> nat, Checksum: nat -> nat)
  {
    ghost predicate Valid() { forall v :: Checksum(v) < WORD32 }
  }

  ghost predicate Complete(acc: Accs) { forall d: nat :: d in acc <==> d < DENOMS }

  // ----- checkpoints as words of 32 bits -----

  /** Shifted right by n words. */
  function ShrWords(x: nat, n: nat): nat { if n == 0 then x else ShrWords(x / WORD32, n - 1) }

  function ParseChecksum(nChecksum: nat, pos: nat): nat
    requires pos < DENOMS
  {
    ShrWords(nChecksum, DENOMS - 1 - pos) % WORD32
  }

  /** The checksums of the first n denominations, one after the other. */
  function CheckpointOf(p: Params, acc: Accs, n: nat): nat
    requires n <= DENOMS && forall d: nat | d < n :: d in acc
  {
    if n == 0 then 0 else CheckpointOf(p, acc, n - 1) * WORD32 + p.Checksum(acc[n - 1])
  }

  function Checkpoint(p: Params, acc: Accs): nat
    requires Complete(acc)
  {
    CheckpointOf(p, acc, DENOMS)
  }

  lemma {:induction false} ParsePart(p: Params, acc: Accs, n: nat, pos: nat)
    requires p.Valid() && Complete(acc) && pos < n <= DENOMS
    ensures ShrWords(CheckpointOf(p, acc, n), n - 1 - pos) % WORD32 == p.Checksum(acc[pos])
  {
    if pos < n - 1 {
      ParsePart(p, acc, n - 1, pos);
      assert CheckpointOf(p, acc, n) / WORD32 == CheckpointOf(p, acc, n - 1);
    }
  }

  /** Each checksum is found again at the place of its denomination. */
  lemma ParseCheckpoint(p: Params, acc: Accs, pos: nat)
    requires p.Valid() && Complete(acc) && pos < DENOMS
    ensures ParseChecksum(Checkpoint(p, acc), pos) == p.Checksum(acc[pos])
  {
    ParsePart(p, acc, DENOMS, pos);
  }

  /** A checkpoint is a word of 256 bits. */
  lemma CheckpointFits(p: Params, acc: Accs)
    requires p.Valid() && Complete(acc)
    ensures Checkpoint(p, acc) < Pow2(256)
  {
    PartFits(p, acc, DENOMS);
  }

  lemma {:induction false} PartFits(p: Params, acc: Accs, n: nat)
    requires p.Valid() && Complete(acc) && n <= DENOMS
    ensures CheckpointOf(p, acc, n) < Pow2(32 * n)
  {
    if n > 0 {
      hide Pow2;
      PartFits(p, acc, n - 1);
      Pow2Sum(32 * (n - 1), 32);
      Pow2Of32();
      MulMono(CheckpointOf(p, acc, n - 1) + 1, Pow2(32 * (n - 1)), WORD32);
    }
  }

  lemma Pow2Of32()
    ensures Pow2(32) == WORD32
  {
    Pow2Sum(8, 8);
    Pow2Sum(16, 16);
    assert Pow2(4) == 16 && Pow2(8) == 256;
  }

  lemma {:induction false} ParseZero(n: nat)
    ensures ShrWords(0, n) == 0
  {
    if n > 0 { ParseZero(n - 1); }
  }

  // ----- accumulating -----

  predicate IsDenom(d: int) { 0 <= d < DENOMS }

  ghost function Fresh(p: Params): (acc: Accs)
    ensures Complete(acc)
  {
    map d: nat | d < DENOMS :: p.Fresh(d)
  }

  ghost function Added(p: Params, acc: Accs, m: Mint): (r: Accs)
    requires Complete(acc) && IsDenom(m.denom)
    ensures Complete(r)
  {
    acc[m.denom := p.Increment(acc[m.denom], m.value)]
  }

  ghost predicate AllDenoms(mints: seq<Mint>) { forall i | 0 <= i < |mints| :: IsDenom(mints[i].denom) }

  ghost function AddedAll(p: Params, acc: Accs, mints: seq<Mint>): (r: Accs)
    requires Complete(acc) && AllDenoms(mints)
    ensures Complete(r)
  {
    if mints == [] then acc else Added(p, AddedAll(p, acc, mints[..|mints| - 1]), mints[|mints| - 1])
  }

  lemma {:induction false} AddedConcat(p: Params, acc: Accs, a: seq<Mint>, b: seq<Mint>)
    requires Complete(acc) && AllDenoms(a) && AllDenoms(b)
    ensures AllDenoms(a + b) && AddedAll(p, acc, a + b) == AddedAll(p, AddedAll(p, acc, a), b)
  {
    if b == [] {
      assert a + b == a;
    } else {
      AddedConcat(p, acc, a, b[..|b| - 1]);
      assert (a + b)[..|a + b| - 1] == a + b[..|b| - 1];
    }
  }

  /** Blocks from lo up to hi can be read and hold mints of the known denominations only. */
  ghost predicate Readable(blocks: Blocks, lo: int, hi: int) {
    forall h | lo <= h < hi && 0 <= h < |blocks| :: blocks[h].Some? && AllDenoms(blocks[h].value)
  }

  /** All mints of the blocks from lo up to hi, in order. */
  ghost function MintsOf(blocks: Blocks, lo: nat, hi: int): (r: seq<Mint>)
    requires hi <= |blocks| && Readable(blocks, lo, hi)
    ensures AllDenoms(r)
    decreases hi
  {
    if hi <= lo then [] else MintsOf(blocks, lo, hi - 1) + blocks[hi - 1].value
  }

  /** The accumulators with all mints from the start below a height, each taken in once. */
  ghost function Total(p: Params, blocks: Blocks, hi: int): (acc: Accs)
    requires hi <= |blocks| && Readable(blocks, p.start, hi)
    ensures Complete(acc)
  {
    AddedAll(p, Fresh(p), MintsOf(blocks, p.start, hi))
  }

  lemma TotalStep(p: Params, blocks: Blocks, hi: int)
    requires p.start < hi <= |blocks| && Readable(blocks, p.start, hi)
    ensures Total(p, blocks, hi) == AddedAll(p, Total(p, blocks, hi - 1), blocks[hi - 1].value)
    ensures |MintsOf(blocks, p.start, hi)| == |MintsOf(blocks, p.start, hi - 1)| + |blocks[hi - 1].value|
  {
    AddedConcat(p, Fresh(p), MintsOf(blocks, p.start, hi - 1), blocks[hi - 1].value);
  }

  /** Before the start nothing is taken in. */
  lemma TotalBefore(p: Params, blocks: Blocks, hi: int)
    requires hi <= p.start && hi <= |blocks| && Readable(blocks, p.start, hi)
    ensures Total(p, blocks, hi) == Total(p, blocks, hi - 1) &&
            MintsOf(blocks, p.start, hi) == MintsOf(blocks, p.start, hi - 1) == []
  {
  }

  /** The values of one denomination among some mints. */
  function ValuesOf(mints: seq<Mint>, d: nat): seq<nat> {
    if mints == [] then []
    else ValuesOf(mints[..|mints| - 1], d) + if mints[|mints| - 1].denom == d then [mints[|mints| - 1].value] else []
  }

  function Incremented(p: Params, v: nat, values: seq<nat>): nat {
    if values == [] then v else p.Increment(Incremented(p, v, values[..|values| - 1]), values[|values| - 1])
  }

  /** Every accumulator takes in exactly the mints of its own denomination, in their order. */
  lemma {:induction false} OwnMints(p: Params, acc: Accs, mints: seq<Mint>, d: nat)
    requires Complete(acc) && AllDenoms(mints) && d < DENOMS
    ensures AddedAll(p, acc, mints)[d] == Incremented(p, acc[d], ValuesOf(mints, d))
  {
    if mints != [] {
      OwnMints(p, acc, mints[..|mints| - 1], d);
      var v := ValuesOf(mints[..|mints| - 1], d);
      if mints[|mints| - 1].denom == d {
        assert (v + [mints[|mints| - 1].value])[..|v|] == v;
      } else {
        assert v + [] == v;
      }
    }
  }

  // ----- what the chain should record -----

  /** The height below which mints are taken in at block h: ten below the last multiple of ten. */
  function Top(h: nat): int { h - h % 10 - 10 }

  /** So the last block whose mints are taken in is at least eleven and at most twenty below. */
  lemma TopIs(h: nat)
    ensures Top(h) % 10 == 0 && h - 20 < Top(h) <= h - 10
  {
  }

  /** The checkpoint of block h: of all mints from the start below Top(h), or zero while there are none. */
  ghost function Expected(p: Params, blocks: Blocks, h: nat): nat
    requires Top(h) <= |blocks| && Readable(blocks, p.start, Top(h))
  {
    if h < p.start || |MintsOf(blocks, p.start, Top(h))| == 0 then 0 else Checkpoint(p, Total(p, blocks, Top(h)))
  }

  /** No two different values of one set of accumulators share a checksum. */
  ghost predicate NoCollision(p: Params, acc: Accs)
    requires Complete(acc)
  {
    forall d: nat, e: nat | d < DENOMS && e < DENOMS ::
      p.Checksum(acc[d]) == p.Checksum(acc[e]) ==> acc[d] == acc[e]
  }

  /** No value has the checksum zero. */
  ghost predicate NoZero(p: Params, acc: Accs)
    requires Complete(acc)
  {
    forall d: nat | d < DENOMS :: p.Checksum(acc[d]) != 0
  }

  /**
    No checksum collision ever arises on a chain, and no checkpoint is taken for none:
    no fresh accumulator has the checksum zero, and the eight checksums are never all zero.
   */
  ghost predicate NoCollisions(p: Params, blocks: Blocks) {
    && NoZero(p, Fresh(p))
    && forall hi: int | hi <= |blocks| && Readable(blocks, p.start, hi) ::
         NoCollision(p, Total(p, blocks, hi)) && Checkpoint(p, Total(p, blocks, hi)) != 0
  }

  /** Values are stored under their checksums. */
  ghost predicate Stored(p: Params, db: Store, acc: Accs)
    requires Complete(acc)
  {
    forall d: nat | d < DENOMS :: p.Checksum(acc[d]) in db && db[p.Checksum(acc[d])] == acc[d]
  }

  /** All blocks below n record what they should. */
  ghost predicate History(p: Params, blocks: Blocks, checkpoints: seq<nat>, n: nat) {
    && n <= |checkpoints| && n <= |blocks|
    && forall h: nat | h < n :: Readable(blocks, p.start, Top(h)) && checkpoints[h] == Expected(p, blocks, h)
  }

  /**
    The database is retained: the values of the last checkpoint before n are there, and
    while there is none nothing is stored under zero.
   */
  ghost predicate Retained(p: Params, blocks: Blocks, db: Store, n: nat)
    requires n <= |blocks| + 1 && (n > 0 ==> Readable(blocks, p.start, Top(n - 1)))
  {
    if n == 0 || Expected(p, blocks, n - 1) == 0 then 0 !in db
    else Stored(p, db, Total(p, blocks, Top(n - 1)))
  }

  // ----- facts about the recurrence -----

  lemma {:induction false} MintsGrow(blocks: Blocks, lo: nat, j: int, k: int)
    requires j <= k <= |blocks| && Readable(blocks, lo, k)
    ensures Readable(blocks, lo, j) && |MintsOf(blocks, lo, j)| <= |MintsOf(blocks, lo, k)|
    ensures |MintsOf(blocks, lo, j)| == |MintsOf(blocks, lo, k)| ==> MintsOf(blocks, lo, j) == MintsOf(blocks, lo, k)
    decreases k - j
  {
    if j < k && lo < k { MintsGrow(blocks, lo, j, k - 1); }
  }

  /** Between multiples of ten the checkpoint stays. */
  lemma Stays(p: Params, blocks: Blocks, h: nat)
    requires p.Valid() && p.start <= h <= |blocks| && h % 10 != 0 && Readable(blocks, p.start, Top(h))
    ensures Top(h - 1) == Top(h) && Expected(p, blocks, h) == Expected(p, blocks, h - 1)
  {
    if h - 1 < p.start { assert MintsOf(blocks, p.start, Top(h)) == []; }
  }

  /** The accumulators to start from at a multiple of ten. */
  lemma Resumes(p: Params, blocks: Blocks, h: nat)
    requires p.Valid() && p.start <= h <= |blocks| && h >= 20 && h % 10 == 0 && Readable(blocks, p.start, Top(h - 1))
    requires NoCollisions(p, blocks)
    ensures (h - 1 >= p.start ==> Top(h - 1) == h - 20) && Readable(blocks, p.start, h - 20)
    ensures Expected(p, blocks, h - 1) == 0 ==> Total(p, blocks, h - 20) == Fresh(p)
    ensures Expected(p, blocks, h - 1) != 0 ==> Expected(p, blocks, h - 1) == Checkpoint(p, Total(p, blocks, h - 20))
  {
    if h - 1 < p.start {
      assert MintsOf(blocks, p.start, h - 20) == [];
    } else {
      assert Top(h - 1) == h - 20;
      assert Checkpoint(p, Total(p, blocks, h - 20)) != 0;
    }
  }

  /** The checkpoint to record at a multiple of ten, with and without new mints. */
  lemma Records(p: Params, blocks: Blocks, h: nat)
    requires p.Valid() && p.start <= h <= |blocks| && h % 10 == 0 && Readable(blocks, p.start, h - 10) && h >= 20
    requires Readable(blocks, p.start, Top(h - 1)) && Readable(blocks, p.start, h - 20)
    ensures Top(h) == h - 10
    ensures var added := |MintsOf(blocks, p.start, h - 10)| - |MintsOf(blocks, p.start, h - 20)|;
            && added >= 0
            && Expected(p, blocks, h) ==
                 (if added == 0 then Expected(p, blocks, h - 1) else Checkpoint(p, Total(p, blocks, h - 10)))
  {
    hide AddedAll, Checkpoint;
    MintsGrow(blocks, p.start, h - 20, h - 10);
    if h - 1 < p.start {
      assert MintsOf(blocks, p.start, h - 10) == [];
    } else {
      hide MintsOf;
      assert Top(h - 1) == h - 20;
    }
  }

  /** While no checkpoint is recorded there are no mints, and the accumulators are fresh. */
  lemma NoneYet(p: Params, blocks: Blocks, h: nat)
    requires p.Valid() && p.start <= h <= |blocks| && h % 10 == 0 && Readable(blocks, p.start, h - 10) && h >= 20
    requires Readable(blocks, p.start, Top(h - 1)) && Readable(blocks, p.start, h - 20) && NoCollisions(p, blocks)
    requires Expected(p, blocks, h) == 0
    ensures Expected(p, blocks, h - 1) == 0 && NoZero(p, Total(p, blocks, h - 10))
  {
    hide Checkpoint, NoZero, NoCollision;
    assert Top(h) == h - 10;
    assert MintsOf(blocks, p.start, h - 10) == [];
    MintsGrow(blocks, p.start, h - 20, h - 10);
    if h - 1 >= p.start { assert Top(h - 1) == h - 20; }
  }

  // ----- the program's objects -----

  class AccumulatorMap {
    const p: Params
    var mapAccumulators: Accs

    constructor (p: Params)
      ensures this.p == p && mapAccumulators == Fresh(p)
    {
      this.p := p;
      mapAccumulators := map d: nat | d < DENOMS :: p.Fresh(d);
    }

    method Reset()
      modifies this
      ensures mapAccumulators == Fresh(p)
    {
      mapAccumulators := map d: nat | d < DENOMS :: p.Fresh(d);
    }

    /** Finds every value by its checksum; leaves some set when one is missing. */
    method Load(db: Store, nCheckpoint: nat) returns (ok: bool)
      requires Complete(mapAccumulators)
      modifies this
      ensures Complete(mapAccumulators)
      ensures ok <==> forall d: nat | d < DENOMS :: ParseChecksum(nCheckpoint, d) in db
      ensures ok ==> forall d: nat | d < DENOMS :: mapAccumulators[d] == db[ParseChecksum(nCheckpoint, d)]
    {
      for pos := 0 to DENOMS
        invariant Complete(mapAccumulators)
        invariant forall d: nat | d < pos ::
          ParseChecksum(nCheckpoint, d) in db && mapAccumulators[d] == db[ParseChecksum(nCheckpoint, d)]
      {
        var nChecksum := ParseChecksum(nCheckpoint, pos);
        if nChecksum !in db { return false; }
        mapAccumulators := mapAccumulators[pos := db[nChecksum]];
      }
      ok := true;
    }

    method Accumulate(m: Mint) returns (ok: bool)
      requires Complete(mapAccumulators)
      modifies this
      ensures Complete(mapAccumulators) && (ok <==> IsDenom(m.denom)) && (ok <==> 0 <= m.denom < 8)
      ensures mapAccumulators == if ok then Added(p, old(mapAccumulators), m) else old(mapAccumulators)
    {
      if !IsDenom(m.denom) { return false; }
      mapAccumulators := mapAccumulators[m.denom := p.Increment(mapAccumulators[m.denom], m.value)];
      ok := true;
    }

    method GetCheckpoint() returns (nCheckpoint: nat)
      requires Complete(mapAccumulators)
      ensures nCheckpoint == Checkpoint(p, mapAccumulators)
    {
      nCheckpoint := 0;
      for pos := 0 to DENOMS
        invariant nCheckpoint == CheckpointOf(p, mapAccumulators, pos)
      {
        nCheckpoint := nCheckpoint * WORD32 + p.Checksum(mapAccumulators[pos]);
      }
    }

    /** All mints of a block, up to the first without a known denomination. */
    method AccumulateAll(mints: seq<Mint>) returns (ok: bool)
      requires Complete(mapAccumulators)
      modifies this
      ensures Complete(mapAccumulators) && (ok <==> AllDenoms(mints))
      ensures ok ==> mapAccumulators == AddedAll(p, old(mapAccumulators), mints)
    {
      ghost var acc := mapAccumulators;
      for i := 0 to |mints|
        invariant Complete(mapAccumulators) && AllDenoms(mints[..i]) && mapAccumulators == AddedAll(p, acc, mints[..i])
      {
        assert mints[..i + 1][..i] == mints[..i];
        ok := Accumulate(mints[i]);
        if !ok { return; }
      }
      assert mints[..|mints|] == mints;
      ok := true;
    }
  }

  /** The database of values and the values kept in memory, both by checksum. */
  class ValueStore {
    var db: Store
    var mapAccumulatorValues: Store

    method AddAccumulatorChecksum(nChecksum: nat, bnValue: nat, fMemoryOnly: bool)
      modifies this
      ensures db == if fMemoryOnly then old(db) else old(db)[nChecksum := bnValue]
      ensures mapAccumulatorValues ==
              if nChecksum in old(mapAccumulatorValues) then old(mapAccumulatorValues)
              else old(mapAccumulatorValues)[nChecksum := bnValue]
    {
      if !fMemoryOnly { db := db[nChecksum := bnValue]; }
      if nChecksum !in mapAccumulatorValues { mapAccumulatorValues := mapAccumulatorValues[nChecksum := bnValue]; }
    }

    method DatabaseChecksums(a: AccumulatorMap)
      requires Complete(a.mapAccumulators) && a.p.Valid()
      modifies this
      ensures NoCollision(a.p, a.mapAccumulators) ==> Stored(a.p, db, a.mapAccumulators)
      ensures NoZero(a.p, a.mapAccumulators) && 0 !in old(db) ==> 0 !in db
      ensures forall k | k in old(db) :: k in db
    {
      var acc := a.mapAccumulators;
      for pos := 0 to DENOMS
        invariant NoZero(a.p, acc) && 0 !in old(db) ==> 0 !in db
        invariant forall k | k in old(db) :: k in db
        invariant NoCollision(a.p, acc) ==>
          forall d: nat | d < pos :: a.p.Checksum(acc[d]) in db && db[a.p.Checksum(acc[d])] == acc[d]
      {
        AddAccumulatorChecksum(a.p.Checksum(acc[pos]), acc[pos], false);
      }
    }
  }

  // ----- calculating a checkpoint -----

  /** What the program may rely on: the blocks before recorded what they should, and nothing was lost or mixed up. */
  ghost predicate Reliable(p: Params, blocks: Blocks, checkpoints: seq<nat>, db: Store, n: nat) {
    History(p, blocks, checkpoints, n) && Retained(p, blocks, db, n) && NoCollisions(p, blocks)
  }

  /** The accumulators of the last checkpoint, or fresh ones before there was any. */
  method LoadLast(a: AccumulatorMap, db: Store, nCheckpoint: nat) returns (ok: bool)
    requires Complete(a.mapAccumulators)
    modifies a
    ensures Complete(a.mapAccumulators)
    ensures nCheckpoint == 0 && 0 !in db ==> ok && a.mapAccumulators == Fresh(a.p)
    ensures forall acc: Accs |
              Complete(acc) && a.p.Valid() && nCheckpoint == Checkpoint(a.p, acc) && Stored(a.p, db, acc) ::
              ok && a.mapAccumulators == acc
  {
    ok := a.Load(db, nCheckpoint);
    forall acc: Accs | Complete(acc) && a.p.Valid() && nCheckpoint == Checkpoint(a.p, acc) && Stored(a.p, db, acc)
      ensures ok && a.mapAccumulators == acc
    {
      forall d: nat | d < DENOMS ensures ParseChecksum(nCheckpoint, d) == a.p.Checksum(acc[d]) {
        ParseCheckpoint(a.p, acc, d);
      }
    }
    if nCheckpoint == 0 {
      ParseZero(7);
      assert ParseChecksum(nCheckpoint, 0) == 0;
    }
    if !ok && nCheckpoint == 0 {
      a.Reset();
      ok := true;
    }
  }

  /** The blocks from height - 20 to height - 11, as far as they are not before the start. */
  method AccumulateWindow(a: AccumulatorMap, blocks: Blocks, nHeight: nat, ghost good: bool)
    returns (ok: bool, nTotalMintsFound: nat)
    requires 20 <= nHeight <= |blocks| && Complete(a.mapAccumulators)
    requires good ==> Readable(blocks, a.p.start, nHeight - 20) && a.mapAccumulators == Total(a.p, blocks, nHeight - 20)
    modifies a
    ensures Complete(a.mapAccumulators)
    ensures good ==> (ok <==> Readable(blocks, a.p.start, nHeight - 10))
    ensures good && ok ==>
      && a.mapAccumulators == Total(a.p, blocks, nHeight - 10) && Readable(blocks, a.p.start, nHeight - 20)
      && nTotalMintsFound == |MintsOf(blocks, a.p.start, nHeight - 10)| - |MintsOf(blocks, a.p.start, nHeight - 20)|
  {
    hide MintsOf, Total, Complete;
    nTotalMintsFound := 0;
    var h := nHeight - 20;
    while h < nHeight - 10
      invariant nHeight - 20 <= h <= nHeight - 10 && Complete(a.mapAccumulators)
      invariant good ==>
        && Readable(blocks, a.p.start, h) && Readable(blocks, a.p.start, nHeight - 20)
        && a.mapAccumulators == Total(a.p, blocks, h)
        && nTotalMintsFound == |MintsOf(blocks, a.p.start, h)| - |MintsOf(blocks, a.p.start, nHeight - 20)|
    {
      if h >= a.p.start {
        if blocks[h].None? { return false, nTotalMintsFound; }
        var mints := blocks[h].value;
        nTotalMintsFound := nTotalMintsFound + |mints|;
        ok := a.AccumulateAll(mints);
        if !ok { return; }
        if good { TotalStep(a.p, blocks, h + 1); }
      } else {
        if good { TotalBefore(a.p, blocks, h + 1); }
      }
      h := h + 1;
    }
    ok := true;
  }

  /**
    The checkpoint for a height. At a multiple of ten the program takes the block
    twenty below for granted.
   */
  method CalculateAccumulatorCheckpoint(p: Params, store: ValueStore, blocks: Blocks, checkpoints: seq<nat>,
                                        nHeight: nat)
    returns (ok: bool, nCheckpoint: nat)
    requires p.Valid() && nHeight <= |blocks| && nHeight <= |checkpoints|
    requires p.start <= nHeight && nHeight % 10 == 0 ==> nHeight >= 20
    modifies store
    ensures Reliable(p, blocks, checkpoints, old(store.db), nHeight) ==>
      && (ok <==> Readable(blocks, p.start, Top(nHeight)))
      && (ok ==> nCheckpoint == Expected(p, blocks, nHeight) && Retained(p, blocks, store.db, nHeight + 1))
  {
    hide MintsOf, Total, Complete, Checkpoint, NoCollision, Stored;
    if nHeight < p.start { return true, 0; }
    ghost var good := Reliable(p, blocks, checkpoints, store.db, nHeight);
    if nHeight % 10 != 0 {
      if good { Stays(p, blocks, nHeight); }
      return true, checkpoints[nHeight - 1];
    }
    if good { Resumes(p, blocks, nHeight); }
    var a := new AccumulatorMap(p);
    ok := LoadLast(a, store.db, checkpoints[nHeight - 1]);
    if !ok { return false, 0; }
    var nTotalMintsFound;
    ok, nTotalMintsFound := AccumulateWindow(a, blocks, nHeight, good);
    if !ok { return false, 0; }
    if good {
      Records(p, blocks, nHeight);
      if Expected(p, blocks, nHeight) == 0 { NoneYet(p, blocks, nHeight); }
    }
    if nTotalMintsFound == 0 {
      nCheckpoint := checkpoints[nHeight - 1];
    } else {
      nCheckpoint := a.GetCheckpoint();
    }
    store.DatabaseChecksums(a);
  }

  /** Along a whole chain, as its blocks are connected one by one: every block records what it should. */
  method ConnectChain(p: Params, store: ValueStore, blocks: Blocks) returns (ok: bool, checkpoints: seq<nat>)
    requires p.Valid() && p.start > 10 && NoCollisions(p, blocks) && 0 !in store.db
    modifies store
    ensures ok <==> forall h: nat | h < |blocks| :: Readable(blocks, p.start, Top(h))
    ensures ok ==>
      && |checkpoints| == |blocks|
      && forall h: nat | h < |blocks| :: Readable(blocks, p.start, Top(h)) && checkpoints[h] == Expected(p, blocks, h)
  {
    hide NoCollisions, Expected;
    checkpoints := [];
    for h := 0 to |blocks|
      invariant |checkpoints| == h && Reliable(p, blocks, checkpoints, store.db, h)
    {
      var nCheckpoint;
      ok, nCheckpoint := CalculateAccumulatorCheckpoint(p, store, blocks, checkpoints, h);
      if !ok { return; }
      checkpoints := checkpoints + [nCheckpoint];
    }
    ok := true;
  }
}
