/**
  The stack of coin views as a value: a database at the bottom and write-back
  caches above it. This module says what every operation does to the stack and
  proves that, over every run, each layer agrees with one plain map.
 */
module CoinsView {
  import opened Coins
  import opened Util

  /** isDirty: may differ from the view below. isFresh: the view below has no unspent version. */
  datatype Entry = Entry(coins: Coins, isDirty: bool, isFresh: bool)

  type CoinsMap = map<TxId, Entry>
  type Hash = nat

  datatype View =
    | Db(stored: map<TxId, Coins>, best: Hash)
    | Cache(entries: CoinsMap, hashBlock: Hash, base: View)

  // ----- what a view shows -----

  /** The coins GetCoins returns, if any. */
  function Lookup(v: View, txid: TxId): Option<Coins> {
    match v
    case Db(stored, _) => if txid in stored then Some(stored[txid]) else None
    case Cache(entries, _, base) => if txid in entries then Some(entries[txid].coins) else Lookup(base, txid)
  }

  /** Pruned coins count as absent. */
  function Present(c: Coins): Option<Coins> { if c.IsPruned() then None else Some(c) }

  function Visible(v: View, txid: TxId): Option<Coins> {
    match Lookup(v, txid)
    case None => None
    case Some(c) => Present(c)
  }

  function BestBlock(v: View): Hash {
    match v
    case Db(_, best) => best
    case Cache(_, hashBlock, base) => if hashBlock == 0 then BestBlock(base) else hashBlock
  }

  // ----- reading fills the caches -----

  /** The stack after GetCoins(txid): every layer that had to ask below keeps a copy. */
  function Fetched(v: View, txid: TxId): View {
    match v
    case Db(_, _) => v
    case Cache(entries, hashBlock, base) =>
      if txid in entries then v
      else
        var below := Fetched(base, txid);
        match Lookup(base, txid)
        case None => Cache(entries, hashBlock, below)
        case Some(c) => Cache(entries[txid := Entry(c, false, c.IsPruned())], hashBlock, below)
  }

  /** GetBestBlock caches the hash it finds below. */
  function BestBlockRead(v: View): View {
    match v
    case Db(_, _) => v
    case Cache(entries, hashBlock, base) =>
      if hashBlock == 0 then Cache(entries, BestBlock(base), BestBlockRead(base)) else v
  }

  // ----- modifying the top -----

  /** The entry ModifyCoins hands out; a missing one is created. */
  function ModifiableEntry(v: View, txid: TxId): Entry
    requires v.Cache?
  {
    if txid in v.entries then v.entries[txid].(isDirty := true)
    else
      match Lookup(v.base, txid)
      case None => Entry(EMPTY_COINS, true, true)
      case Some(c) => Entry(c, true, c.IsPruned())
  }

  function Modifiable(v: View, txid: TxId): View
    requires v.Cache?
  {
    Cache(v.entries[txid := ModifiableEntry(v, txid)], v.hashBlock,
          if txid in v.entries then v.base else Fetched(v.base, txid))
  }

  /** Writing through the modifier. */
  function Assigned(v: View, txid: TxId, c: Coins): View
    requires v.Cache? && txid in v.entries
  {
    v.(entries := v.entries[txid := v.entries[txid].(coins := c)])
  }

  /** Destroying the modifier cleans the coins up and drops an entry nobody below knows. */
  function Released(v: View, txid: TxId): View
    requires v.Cache? && txid in v.entries
  {
    var entry := v.entries[txid].(coins := Cleaned(v.entries[txid].coins));
    v.(entries := if entry.isFresh && entry.coins.IsPruned() then v.entries - {txid} else v.entries[txid := entry])
  }

  // ----- flushing -----

  /** One child entry merged into the parent cache; None when the parent ends up without an entry. */
  function Merge(own: Option<Entry>, child: Entry): Option<Entry> {
    if !child.isDirty then own
    else
      match own
      case None => if child.coins.IsPruned() then None else Some(Entry(child.coins, true, true))
      case Some(e) =>
        if e.isFresh && child.coins.IsPruned() then None else Some(Entry(child.coins, true, e.isFresh))
  }

  function Get(entries: CoinsMap, txid: TxId): Option<Entry> {
    if txid in entries then Some(entries[txid]) else None
  }

  function MergedAt(own: CoinsMap, child: CoinsMap, txid: TxId): Option<Entry> {
    if txid in child then Merge(Get(own, txid), child[txid]) else Get(own, txid)
  }

  function Merged(own: CoinsMap, child: CoinsMap): CoinsMap {
    map txid | txid in own.Keys + child.Keys && MergedAt(own, child, txid).Some? :: MergedAt(own, child, txid).value
  }

  /** What the database keeps of the coins it is handed: nothing when they are pruned. */
  function MergedDbAt(stored: map<TxId, Coins>, child: CoinsMap, txid: TxId): Option<Coins> {
    if txid in child && child[txid].isDirty then Present(child[txid].coins)
    else if txid in stored then Some(stored[txid]) else None
  }

  function MergedDb(stored: map<TxId, Coins>, child: CoinsMap): map<TxId, Coins> {
    map txid | txid in stored.Keys + child.Keys && MergedDbAt(stored, child, txid).Some? ::
        MergedDbAt(stored, child, txid).value
  }

  function BatchWritten(v: View, child: CoinsMap, hashBlock: Hash): View {
    match v
    case Db(stored, best) => Db(MergedDb(stored, child), if hashBlock != 0 then hashBlock else best)
    case Cache(entries, _, base) => Cache(Merged(entries, child), hashBlock, base)
  }

  function Flushed(v: View): View
    requires v.Cache?
  {
    Cache(map[], v.hashBlock, BatchWritten(v.base, v.entries, v.hashBlock))
  }

  // ----- the invariant across layers -----

  /** How an entry relates to the view below it. */
  ghost predicate Linked(entry: Entry, base: View, txid: TxId) {
    && (entry.isFresh ==> Visible(base, txid) == None)
    && (!entry.isFresh && base.Cache? ==> txid in base.entries)
    && (!entry.isDirty ==> Present(entry.coins) == Visible(base, txid))
  }

  ghost predicate Coherent(v: View) {
    v.Cache? ==> Coherent(v.base) && forall txid | txid in v.entries :: Linked(v.entries[txid], v.base, txid)
  }

  lemma {:induction false} FetchLookup(v: View, txid: TxId, other: TxId)
    ensures Lookup(Fetched(v, txid), other) == Lookup(v, other)
  {
    if v.Cache? { FetchLookup(v.base, txid, other); }
  }

  /** After a successful read the layer has an entry of its own, and no entry is ever lost. */
  lemma {:induction false} FetchEntries(v: View, txid: TxId)
    requires v.Cache?
    ensures Fetched(v, txid).Cache? && v.entries.Keys <= Fetched(v, txid).entries.Keys
    ensures Lookup(v, txid).Some? ==> txid in Fetched(v, txid).entries
  {
  }

  lemma {:induction false} FetchCoherent(v: View, txid: TxId)
    requires Coherent(v)
    ensures Coherent(Fetched(v, txid))
  {
    if v.Cache? && txid !in v.entries {
      var r := Fetched(v, txid);
      FetchCoherent(v.base, txid);
      if v.base.Cache? { FetchEntries(v.base, txid); }
      forall t | t in r.entries ensures Linked(r.entries[t], r.base, t) {
        FetchLookup(v.base, txid, t);
        if t != txid { assert Linked(v.entries[t], v.base, t); }
      }
    }
  }

  lemma ModifiableCoherent(v: View, txid: TxId)
    requires v.Cache? && Coherent(v)
    ensures Coherent(Modifiable(v, txid)) && Modifiable(v, txid).entries[txid].isDirty
    ensures forall t :: Visible(Modifiable(v, txid), t) == Visible(v, t)
  {
    var r := Modifiable(v, txid);
    FetchCoherent(v.base, txid);
    if v.base.Cache? { FetchEntries(v.base, txid); }
    forall t ensures Visible(r, t) == Visible(v, t) { FetchLookup(v.base, txid, t); }
    forall t | t in r.entries ensures Linked(r.entries[t], r.base, t) {
      FetchLookup(v.base, txid, t);
      if t in v.entries { assert Linked(v.entries[t], v.base, t); }
    }
  }

  lemma AssignedCoherent(v: View, txid: TxId, c: Coins)
    requires v.Cache? && Coherent(v) && txid in v.entries && v.entries[txid].isDirty
    ensures Coherent(Assigned(v, txid, c)) && Assigned(v, txid, c).entries[txid].isDirty
    ensures forall t :: Visible(Assigned(v, txid, c), t) == if t == txid then Present(c) else Visible(v, t)
  {
    var r := Assigned(v, txid, c);
    forall t | t in r.entries ensures Linked(r.entries[t], r.base, t) { assert Linked(v.entries[t], v.base, t); }
  }

  lemma ReleasedCoherent(v: View, txid: TxId)
    requires v.Cache? && Coherent(v) && txid in v.entries && v.entries[txid].isDirty
    ensures Coherent(Released(v, txid))
    ensures forall t :: Visible(Released(v, txid), t) ==
                        if t == txid then Present(Cleaned(v.entries[t].coins)) else Visible(v, t)
  {
    var r := Released(v, txid);
    assert Linked(v.entries[txid], v.base, txid);
    forall t | t in r.entries ensures Linked(r.entries[t], r.base, t) { assert Linked(v.entries[t], v.base, t); }
    forall t ensures Visible(r, t) == if t == txid then Present(Cleaned(v.entries[t].coins)) else Visible(v, t) {}
  }

  /** The assert in BatchWrite: a dirty, unpruned entry the parent cache does not know is fresh. */
  lemma BatchWriteAssert(v: View, txid: TxId)
    requires v.Cache? && v.base.Cache? && Coherent(v)
    requires txid in v.entries && txid !in v.base.entries
    ensures v.entries[txid].isFresh
  {
    assert Linked(v.entries[txid], v.base, txid);
  }

  /** Skipping a pruned dirty entry unknown to the parent loses no spend: the stack below shows nothing for it. */
  lemma SkippedSpendIsLost(v: View, txid: TxId)
    requires v.Cache? && v.base.Cache? && Coherent(v)
    requires txid in v.entries && v.entries[txid].coins.IsPruned() && txid !in v.base.entries
    ensures Visible(v.base, txid) == None == Visible(v.base.base, txid)
  {
    assert Linked(v.entries[txid], v.base, txid);
  }

  lemma MergedShows(v: View, t: TxId)
    requires v.Cache? && v.base.Cache? && Coherent(v)
    ensures Visible(BatchWritten(v.base, v.entries, v.hashBlock), t) == Visible(v, t)
  {
    var own := v.base.entries;
    if t in v.entries { assert Linked(v.entries[t], v.base, t); }
    if t in own { assert Linked(own[t], v.base.base, t); }
    assert t !in v.entries ==> Lookup(v, t) == Lookup(v.base, t);
    assert t in Merged(own, v.entries) <==> MergedAt(own, v.entries, t).Some?;
  }

  lemma MergedDbShows(v: View, t: TxId)
    requires v.Cache? && v.base.Db? && Coherent(v)
    ensures Visible(BatchWritten(v.base, v.entries, v.hashBlock), t) == Visible(v, t)
  {
    if t in v.entries { assert Linked(v.entries[t], v.base, t); }
    assert t !in v.entries ==> Lookup(v, t) == Lookup(v.base, t);
    assert t in MergedDb(v.base.stored, v.entries) <==> MergedDbAt(v.base.stored, v.entries, t).Some?;
  }

  /** A batch write makes the parent show what the child showed, and keeps the parent coherent. */
  lemma BatchWrittenView(v: View)
    requires v.Cache? && Coherent(v)
    ensures var p := BatchWritten(v.base, v.entries, v.hashBlock);
            Coherent(p) && forall t :: Visible(p, t) == Visible(v, t)
  {
    var p := BatchWritten(v.base, v.entries, v.hashBlock);
    forall t ensures Visible(p, t) == Visible(v, t) {
      if v.base.Cache? { MergedShows(v, t); } else { MergedDbShows(v, t); }
    }
    if v.base.Cache? {
      forall t | t in p.entries ensures Linked(p.entries[t], p.base, t) {
        if t in v.entries { assert Linked(v.entries[t], v.base, t); }
        if t in v.base.entries { assert Linked(v.base.entries[t], v.base.base, t); }
      }
    }
  }

  /** Flush leaves every observable coin as it was and the invariant intact. */
  lemma FlushedView(v: View)
    requires v.Cache? && Coherent(v)
    ensures Coherent(Flushed(v)) && forall t :: Visible(Flushed(v), t) == Visible(v, t)
  {
    BatchWrittenView(v);
    forall t ensures Visible(Flushed(v), t) == Visible(v, t) {
      assert Visible(Flushed(v), t) == Visible(BatchWritten(v.base, v.entries, v.hashBlock), t);
    }
  }

  /** The cache knows its best block, or its parent has no block of its own to lose. */
  predicate KeepsBest(v: View)
    requires v.Cache?
  {
    v.hashBlock != 0 || v.base.Db? || v.base.hashBlock == 0 || v.base.hashBlock == BestBlock(v.base.base)
  }

  /**
    Flush keeps the best block exactly when the cache already knows one, or
    sits on the database, or nothing below knows one either: a cache that never
    read the hash pushes zero over its parent's.
   */
  lemma FlushKeepsBestBlock(v: View)
    requires v.Cache?
    ensures BestBlock(Flushed(v)) == BestBlock(v) <==> KeepsBest(v)
  {
    if v.base.Cache? {
      assert BestBlock(v.base) == if v.base.hashBlock == 0 then BestBlock(v.base.base) else v.base.hashBlock;
    }
  }

  /** A cache over a cache that knows block 7, itself unread: flushing forgets the block. */
  lemma FlushForgetsBestBlock()
    ensures var v := Cache(map[], 0, Cache(map[], 7, Db(map[], 0)));
            BestBlock(v) == 7 && BestBlock(Flushed(v)) == 0
  {
    var v := Cache(map[], 0, Cache(map[], 7, Db(map[], 0)));
    assert BestBlock(v.base.base) == 0;
    assert BestBlock(v.base) == 7;
    assert BestBlock(Flushed(v).base) == 0;
  }

  // ----- every run -----

  /** The specification: one plain map per layer, pruned coins included. */
  datatype Plain = Ground(coins: map<TxId, Coins>) | Layer(coins: map<TxId, Coins>, under: Plain)

  function Held(coins: map<TxId, Coins>, txid: TxId): Option<Coins> {
    if txid in coins then Present(coins[txid]) else None
  }

  /** Every layer of the stack shows exactly its plain map. */
  ghost predicate Agrees(v: View, p: Plain) {
    && (forall txid :: Visible(v, txid) == Held(p.coins, txid))
    && match v
       case Db(_, _) => p.Ground?
       case Cache(_, _, base) => p.Layer? && Agrees(base, p.under)
  }

  /** A stack and the txid its top cache's modifier points at, if one is alive. */
  datatype State = State(view: View, modifier: Option<TxId>)

  datatype Op =
    | Read(depth: nat, txid: TxId)     // GetCoins, AccessCoins or HaveCoins on some layer
    | ReadBest                         // GetBestBlock
    | SetBest(hash: Hash)
    | Modify(txid: TxId)               // ModifyCoins
    | Write(coins: Coins)              // assignment through the modifier
    | Release                          // the modifier goes out of scope
    | Flush
    | Push                             // a new cache over the current top
    | Pop                              // the top cache is destroyed; unflushed changes are forgotten

  function FetchedAt(v: View, depth: nat, txid: TxId): View {
    if depth == 0 || v.Db? then Fetched(v, txid) else v.(base := FetchedAt(v.base, depth - 1, txid))
  }

  /** A modifier is alive and the entry it points at is still there. */
  predicate ModifierAlive(s: State) {
    s.modifier.Some? && s.view.Cache? && s.modifier.value in s.view.entries
  }

  /** The asserts on hasModifier, and the rule that only the top is modified. */
  predicate Enabled(s: State, op: Op) {
    match op
    case Read(_, _) => true
    case ReadBest => true
    case SetBest(_) => s.view.Cache?
    case Modify(_) => s.view.Cache? && s.modifier.None?
    case Write(_) => ModifierAlive(s)
    case Release => ModifierAlive(s)
    case Flush => s.view.Cache? && s.modifier.None?
    case Push => s.modifier.None?
    case Pop => s.view.Cache? && s.modifier.None?
  }

  function Step(s: State, op: Op): State
    requires Enabled(s, op)
  {
    match op
    case Read(depth, txid) => s.(view := FetchedAt(s.view, depth, txid))
    case ReadBest => s.(view := BestBlockRead(s.view))
    case SetBest(hash) => s.(view := s.view.(hashBlock := hash))
    case Modify(txid) => State(Modifiable(s.view, txid), Some(txid))
    case Write(c) => s.(view := Assigned(s.view, s.modifier.value, c))
    case Release => State(Released(s.view, s.modifier.value), None)
    case Flush => s.(view := Flushed(s.view))
    case Push => s.(view := Cache(map[], 0, s.view))
    case Pop => s.(view := s.view.base)
  }

  /** The invariant of every reachable state; a living modifier's entry is always there and dirty. */
  ghost predicate Good(s: State) {
    Coherent(s.view) && (s.modifier.Some? ==> ModifierAlive(s) && s.view.entries[s.modifier.value].isDirty)
  }

  /** What the same operation does to the plain maps: reading nothing, flushing copies a layer down. */
  function PlainStep(p: Plain, op: Op, modifier: Option<TxId>): Plain {
    match op
    case Write(c) => if modifier.Some? then p.(coins := p.coins[modifier.value := c]) else p
    case Release =>
      if modifier.Some? && modifier.value in p.coins
      then p.(coins := p.coins[modifier.value := Cleaned(p.coins[modifier.value])])
      else p
    case Flush => if p.Layer? then p.(under := p.under.(coins := p.coins)) else p
    case Push => Layer(p.coins, p)
    case Pop => if p.Layer? then p.under else p
    case _ => p
  }

  lemma {:induction false} FetchAgrees(v: View, txid: TxId, p: Plain)
    requires Agrees(v, p)
    ensures Agrees(Fetched(v, txid), p)
  {
    forall t ensures Visible(Fetched(v, txid), t) == Visible(v, t) { FetchLookup(v, txid, t); }
    if v.Cache? { FetchAgrees(v.base, txid, p.under); }
  }

  lemma {:induction false} FetchedAtKeeps(v: View, depth: nat, txid: TxId, p: Plain)
    requires Coherent(v) && Agrees(v, p)
    ensures var r := FetchedAt(v, depth, txid);
            Coherent(r) && Agrees(r, p) && r.Cache? == v.Cache? &&
            (forall t :: Lookup(r, t) == Lookup(v, t)) &&
            (v.Cache? ==> v.entries.Keys <= r.entries.Keys && forall t | t in v.entries :: r.entries[t] == v.entries[t])
  {
    if depth == 0 || v.Db? {
      FetchCoherent(v, txid);
      FetchAgrees(v, txid, p);
      forall t ensures Lookup(Fetched(v, txid), t) == Lookup(v, t) { FetchLookup(v, txid, t); }
    } else {
      FetchedAtKeeps(v.base, depth - 1, txid, p.under);
      var r := FetchedAt(v, depth, txid);
      forall t | t in r.entries ensures Linked(r.entries[t], r.base, t) {
        assert Linked(v.entries[t], v.base, t);
        assert Lookup(r.base, t) == Lookup(v.base, t);
      }
      forall t ensures Lookup(r, t) == Lookup(v, t) { assert Lookup(r.base, t) == Lookup(v.base, t); }
      forall t ensures Visible(r, t) == Visible(v, t) { assert Lookup(r, t) == Lookup(v, t); }
    }
  }

  lemma {:induction false} BestBlockReadKeeps(v: View, p: Plain)
    requires Coherent(v) && Agrees(v, p)
    ensures var r := BestBlockRead(v);
            Coherent(r) && Agrees(r, p) && r.Cache? == v.Cache? && (v.Cache? ==> r.entries == v.entries) &&
            forall t :: Lookup(r, t) == Lookup(v, t)
  {
    if v.Cache? && v.hashBlock == 0 {
      BestBlockReadKeeps(v.base, p.under);
      var r := BestBlockRead(v);
      forall t | t in r.entries ensures Linked(r.entries[t], r.base, t) {
        assert Linked(v.entries[t], v.base, t);
        assert Lookup(r.base, t) == Lookup(v.base, t);
      }
      forall t ensures Lookup(r, t) == Lookup(v, t) { assert Lookup(r.base, t) == Lookup(v.base, t); }
      forall t ensures Visible(r, t) == Visible(v, t) { assert Lookup(r, t) == Lookup(v, t); }
    }
  }

  /** Every step keeps the cross-layer invariant and the agreement with the plain maps. */
  lemma StepKeeps(s: State, op: Op, p: Plain)
    requires Good(s) && Agrees(s.view, p) && Enabled(s, op)
    ensures Good(Step(s, op)) && Agrees(Step(s, op).view, PlainStep(p, op, s.modifier))
  {
    var v, r := s.view, Step(s, op).view;
    match op
    case Read(depth, txid) => FetchedAtKeeps(v, depth, txid, p);
    case ReadBest => BestBlockReadKeeps(v, p);
    case SetBest(hash) => SetBestKeeps(v, hash, p);
    case Modify(txid) =>
      ModifiableCoherent(v, txid);
      FetchAgrees(v.base, txid, p.under);
    case Write(c) => AssignedCoherent(v, s.modifier.value, c);
    case Release =>
      ReleasedCoherent(v, s.modifier.value);
      ReleaseAgrees(v, s.modifier.value, p);
    case Flush =>
      BatchWrittenView(v);
      FlushedView(v);
      assert Agrees(v.base, p.under);
      assert Agrees(r.base, p.under.(coins := p.coins));
    case Push =>
      assert forall t :: Lookup(r, t) == Lookup(v, t);
      assert forall t :: Visible(r, t) == Visible(v, t);
    case Pop =>
  }

  lemma SetBestKeeps(v: View, hash: Hash, p: Plain)
    requires v.Cache? && Coherent(v) && Agrees(v, p)
    ensures var r := v.(hashBlock := hash); Coherent(r) && Agrees(r, p)
  {
    var r := v.(hashBlock := hash);
    forall t ensures Visible(r, t) == Visible(v, t) {}
    forall t | t in r.entries ensures Linked(r.entries[t], r.base, t) { assert Linked(v.entries[t], v.base, t); }
  }

  lemma ReleaseAgrees(v: View, txid: TxId, p: Plain)
    requires v.Cache? && Coherent(v) && Agrees(v, p) && txid in v.entries && v.entries[txid].isDirty
    ensures Agrees(Released(v, txid), PlainStep(p, Release, Some(txid)))
  {
    var r, q := Released(v, txid), PlainStep(p, Release, Some(txid));
    ReleasedCoherent(v, txid);
    assert Visible(v, txid) == Held(p.coins, txid);
    forall t ensures Visible(r, t) == Held(q.coins, t) { assert Visible(v, t) == Held(p.coins, t); }
  }

  // ----- runs -----

  ghost predicate Allowed(s: State, ops: seq<Op>)
    decreases |ops|
  {
    ops == [] || (Enabled(s, ops[0]) && Allowed(Step(s, ops[0]), ops[1..]))
  }

  ghost function Run(s: State, ops: seq<Op>): State
    requires Allowed(s, ops)
    decreases |ops|
  {
    if ops == [] then s else Run(Step(s, ops[0]), ops[1..])
  }

  /** The same run on the plain maps; only the modifier's txid is taken from the stack. */
  ghost function PlainRun(p: Plain, s: State, ops: seq<Op>): Plain
    requires Allowed(s, ops)
    decreases |ops|
  {
    if ops == [] then p else PlainRun(PlainStep(p, ops[0], s.modifier), Step(s, ops[0]), ops[1..])
  }

  /**
    Over every run of reads, modifications, flushes, pushes and pops on a stack
    of any depth, every layer of the stack equals its plain map with pruned
    coins counted as absent, and the cross-layer invariant holds throughout.
   */
  lemma {:induction false} RunKeeps(s: State, ops: seq<Op>, p: Plain)
    requires Good(s) && Agrees(s.view, p) && Allowed(s, ops)
    ensures Good(Run(s, ops)) && Agrees(Run(s, ops).view, PlainRun(p, s, ops))
    decreases |ops|
  {
    if ops != [] {
      StepKeeps(s, ops[0], p);
      RunKeeps(Step(s, ops[0]), ops[1..], PlainStep(p, ops[0], s.modifier));
    }
  }

  /** The bare database is a good start, whatever it stores. */
  lemma StartGood(stored: map<TxId, Coins>, best: Hash)
    ensures var s := State(Db(stored, best), None); Good(s) && Agrees(s.view, Ground(stored))
  {
    forall t ensures Visible(Db(stored, best), t) == Held(stored, t) {}
  }

  /** From the bare database, for every run. */
  lemma StackIsPlainMap(stored: map<TxId, Coins>, best: Hash, ops: seq<Op>)
    requires Allowed(State(Db(stored, best), None), ops)
    ensures var s := State(Db(stored, best), None);
            Good(Run(s, ops)) && Agrees(Run(s, ops).view, PlainRun(Ground(stored), s, ops))
  {
    StartGood(stored, best);
    RunKeeps(State(Db(stored, best), None), ops, Ground(stored));
  }

  // ----- the best block over runs -----

  /** The best block of every layer, the top first. */
  function Bests(v: View): (b: seq<Hash>)
    ensures |b| > 0 && b[0] == BestBlock(v) && (v.Cache? ==> |b| > 1 && b[1] == BestBlock(v.base))
  {
    match v
    case Db(_, best) => [best]
    case Cache(_, _, base) => [BestBlock(v)] + Bests(base)
  }

  /** What an operation is to do to them: flushing copies the top one down, setting zero means the one below. */
  function BestStep(b: seq<Hash>, op: Op): (r: seq<Hash>)
    requires |b| > 0
    ensures |r| > 0
  {
    match op
    case SetBest(hash) => if hash != 0 || |b| == 1 then b[0 := hash] else b[0 := b[1]]
    case Flush => if |b| == 1 then b else b[1 := b[0]]
    case Push => [b[0]] + b
    case Pop => if |b| == 1 then b else b[1..]
    case _ => b
  }

  lemma {:induction false} FetchedBests(v: View, depth: nat, txid: TxId)
    ensures Bests(Fetched(v, txid)) == Bests(v) == Bests(FetchedAt(v, depth, txid))
    decreases v
  {
    if v.Cache? { FetchedBests(v.base, if depth == 0 then 0 else depth - 1, txid); }
  }

  lemma {:induction false} BestBlockReadBests(v: View)
    ensures Bests(BestBlockRead(v)) == Bests(v)
  {
    if v.Cache? { BestBlockReadBests(v.base); }
  }

  lemma FlushedBests(v: View)
    requires v.Cache?
    ensures Bests(Flushed(v)) == BestStep(Bests(v), Flush) <==> KeepsBest(v)
  {
    FlushKeepsBestBlock(v);
    var below := BatchWritten(v.base, v.entries, v.hashBlock);
    assert Bests(Flushed(v)) == [BestBlock(Flushed(v))] + Bests(below);
    assert BestStep(Bests(v), Flush)[0] == BestBlock(v);
    if v.base.Cache? {
      assert Bests(below) == [BestBlock(below)] + Bests(v.base.base);
      assert Bests(v.base) == [BestBlock(v.base)] + Bests(v.base.base);
    }
  }

  /** Every step does to the best blocks what it is to do, except exactly a flush that does not keep the block. */
  lemma StepBests(s: State, op: Op)
    requires Enabled(s, op)
    ensures Bests(Step(s, op).view) == BestStep(Bests(s.view), op) <==> (op.Flush? ==> KeepsBest(s.view))
  {
    match op
    case Read(depth, txid) => FetchedBests(s.view, depth, txid);
    case ReadBest => BestBlockReadBests(s.view);
    case Modify(txid) => FetchedBests(s.view.base, 0, txid);
    case Flush => FlushedBests(s.view);
    case Push => assert Step(s, op).view.hashBlock == 0;
    case _ =>
  }

  /** No flush of the run pushes down a hash that was never read. */
  ghost predicate FlushesKeep(s: State, ops: seq<Op>)
    requires Allowed(s, ops)
    decreases |ops|
  {
    ops == [] || ((ops[0].Flush? ==> KeepsBest(s.view)) && FlushesKeep(Step(s, ops[0]), ops[1..]))
  }

  function BestRun(b: seq<Hash>, ops: seq<Op>): (r: seq<Hash>)
    requires |b| > 0
    ensures |r| > 0
    decreases |ops|
  {
    if ops == [] then b else BestRun(BestStep(b, ops[0]), ops[1..])
  }

  /** Then every layer's best block is, after the whole run, what the operations say. */
  lemma {:induction false} RunBests(s: State, ops: seq<Op>)
    requires Allowed(s, ops) && FlushesKeep(s, ops)
    ensures Bests(Run(s, ops).view) == BestRun(Bests(s.view), ops)
    decreases |ops|
  {
    if ops != [] {
      StepBests(s, ops[0]);
      RunBests(Step(s, ops[0]), ops[1..]);
    }
  }

  /** Every flush comes right after the best block was read. */
  predicate ReadsFirst(ops: seq<Op>) { forall i | 0 <= i < |ops| && ops[i].Flush? :: i > 0 && ops[i - 1].ReadBest? }

  lemma ReadKeepsBest(v: View)
    requires v.Cache?
    ensures BestBlockRead(v).Cache? && KeepsBest(BestBlockRead(v))
  {
    if v.base.Cache? { BestBlockReadBests(v.base); }
  }

  lemma {:induction false} ReadsFirstKeep(s: State, ops: seq<Op>)
    requires Allowed(s, ops) && (ops != [] && ops[0].Flush? ==> KeepsBest(s.view))
    requires forall i | 0 < i < |ops| && ops[i].Flush? :: ops[i - 1].ReadBest?
    ensures FlushesKeep(s, ops)
    decreases |ops|
  {
    if ops != [] {
      var rest := ops[1..];
      if ops[0].ReadBest? && s.view.Cache? { ReadKeepsBest(s.view); }
      forall i | 0 < i < |rest| && rest[i].Flush? ensures rest[i - 1].ReadBest? {
        assert rest[i] == ops[i + 1] && rest[i - 1] == ops[i];
      }
      assert rest != [] && rest[0].Flush? ==> ops[1] == rest[0] && Enabled(Step(s, ops[0]), rest[0]);
      ReadsFirstKeep(Step(s, ops[0]), rest);
    }
  }

  /** Reading the best block before every flush is enough, whatever else is done, from any database. */
  lemma BestsFollow(stored: map<TxId, Coins>, best: Hash, ops: seq<Op>)
    requires Allowed(State(Db(stored, best), None), ops) && ReadsFirst(ops)
    ensures Bests(Run(State(Db(stored, best), None), ops).view) == BestRun([best], ops)
  {
    ReadsFirstKeep(State(Db(stored, best), None), ops);
    RunBests(State(Db(stored, best), None), ops);
  }

  // ----- clean coins -----

  /** Every stored coins object ends in an unspent output, except the one under modification at the top. */
  ghost predicate AllClean(v: View, except: Option<TxId>) {
    match v
    case Db(stored, _) => forall t | t in stored :: stored[t].IsClean()
    case Cache(entries, _, base) =>
      AllClean(base, None) && forall t | t in entries && Some(t) != except :: entries[t].coins.IsClean()
  }

  lemma {:induction false} LookupClean(v: View, txid: TxId, except: Option<TxId>)
    requires AllClean(v, except) && Some(txid) != except && Lookup(v, txid).Some?
    ensures Lookup(v, txid).value.IsClean()
  {
    if v.Cache? && txid !in v.entries { LookupClean(v.base, txid, None); }
  }

  lemma {:induction false} FetchClean(v: View, txid: TxId, except: Option<TxId>)
    requires AllClean(v, except)
    ensures AllClean(Fetched(v, txid), except)
  {
    if v.Cache? && txid !in v.entries {
      FetchClean(v.base, txid, None);
      if Lookup(v.base, txid).Some? { LookupClean(v.base, txid, None); }
    }
  }

  lemma {:induction false} FetchedAtClean(v: View, depth: nat, txid: TxId, except: Option<TxId>)
    requires AllClean(v, except)
    ensures AllClean(FetchedAt(v, depth, txid), except)
  {
    if depth == 0 || v.Db? { FetchClean(v, txid, except); } else { FetchedAtClean(v.base, depth - 1, txid, None); }
  }

  lemma {:induction false} BestBlockReadClean(v: View, except: Option<TxId>)
    requires AllClean(v, except)
    ensures AllClean(BestBlockRead(v), except)
  {
    if v.Cache? && v.hashBlock == 0 { BestBlockReadClean(v.base, None); }
  }

  lemma StepClean(s: State, op: Op)
    requires Good(s) && AllClean(s.view, s.modifier) && Enabled(s, op)
    ensures AllClean(Step(s, op).view, Step(s, op).modifier)
  {
    match op
    case Read(depth, txid) => FetchedAtClean(s.view, depth, txid, s.modifier);
    case ReadBest => BestBlockReadClean(s.view, s.modifier);
    case Modify(txid) => FetchClean(s.view.base, txid, None);
    case _ =>
  }

  lemma {:induction false} RunClean(s: State, ops: seq<Op>, p: Plain)
    requires Good(s) && Agrees(s.view, p) && AllClean(s.view, s.modifier) && Allowed(s, ops)
    ensures AllClean(Run(s, ops).view, Run(s, ops).modifier)
    decreases |ops|
  {
    if ops != [] {
      StepKeeps(s, ops[0], p);
      StepClean(s, ops[0]);
      RunClean(Step(s, ops[0]), ops[1..], PlainStep(p, ops[0], s.modifier));
    }
  }

  /** On clean entries, an empty output list means pruned coins. */
  lemma CleanMeansVisible(s: State, txid: TxId)
    requires AllClean(s.view, s.modifier) && Some(txid) != s.modifier
    ensures Visible(s.view, txid).Some? <==> Lookup(s.view, txid).Some? && Lookup(s.view, txid).value.vout != []
  {
    if Lookup(s.view, txid).Some? {
      LookupClean(s.view, txid, s.modifier);
      var vout := Lookup(s.view, txid).value.vout;
      assert vout != [] ==> !vout[|vout| - 1].IsNull();
    }
  }

  /**
    HaveCoins looks at vout being empty instead of IsPruned. In every state reached
    from a database of clean coins that is the same question, except for coins
    under modification.
   */
  lemma HaveCoinsMeansVisible(stored: map<TxId, Coins>, best: Hash, ops: seq<Op>, txid: TxId)
    requires (forall t | t in stored :: stored[t].IsClean()) && Allowed(State(Db(stored, best), None), ops)
    ensures var s := Run(State(Db(stored, best), None), ops);
            Some(txid) != s.modifier ==>
              (Visible(s.view, txid).Some? <==> Lookup(s.view, txid).Some? && Lookup(s.view, txid).value.vout != [])
  {
    var s := State(Db(stored, best), None);
    StartGood(stored, best);
    RunClean(s, ops, Ground(stored));
    if Some(txid) != Run(s, ops).modifier { CleanMeansVisible(Run(s, ops), txid); }
  }
}
