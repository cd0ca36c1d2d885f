/**
  The coin caches as the program runs them: objects over a base view, reads
  that fill caches on the way, one modifier at a time, and Flush. Every method
  is tied to its effect on the stack value of CoinsView, where the properties
  of whole runs are proved.
 */
module CoinsCache {
  import opened Coins
  import opened CoinsView
  import opened Util

  /** The database view; writing pruned coins erases them. */
  class CoinsViewDB {
    var stored: map<TxId, Coins>
    var best: Hash

    constructor ()
      ensures stored == map[] && best == 0
    {
      stored, best := map[], 0;
    }

    ghost function Abs(): View
      reads this
    {
      Db(stored, best)
    }

    method GetCoins(txid: TxId) returns (found: bool, coins: Coins)
      ensures found == Lookup(Abs(), txid).Some? && (found ==> coins == Lookup(Abs(), txid).value)
    {
      if txid in stored { return true, stored[txid]; }
      return false, EMPTY_COINS;
    }

    method BatchWrite(mapCoins: CoinsMap, hashBlock: Hash)
      modifies this
      ensures Abs() == BatchWritten(old(Abs()), mapCoins, hashBlock)
    {
      hide Merged, MergedDb, Lookup;
      var left := mapCoins;
      while left != map[]
        invariant forall t | t in left :: t in mapCoins && left[t] == mapCoins[t]
        invariant forall t :: GetStored(stored, t) ==
                              if t in left then GetStored(old(stored), t) else MergedDbAt(old(stored), mapCoins, t)
        invariant best == old(best)
        decreases |left|
      {
        var txid :| txid in left;
        var entry := left[txid];
        if entry.isDirty {
          if entry.coins.IsPruned() {
            stored := stored - {txid};
          } else {
            stored := stored[txid := entry.coins];
          }
        }
        left := left - {txid};
      }
      MergedDbIs(old(stored), mapCoins, stored);
      if hashBlock != 0 { best := hashBlock; }
    }
  }

  function GetStored(stored: map<TxId, Coins>, txid: TxId): Option<Coins> {
    if txid in stored then Some(stored[txid]) else None
  }

  lemma MergedDbIs(stored: map<TxId, Coins>, child: CoinsMap, r: map<TxId, Coins>)
    requires forall t :: GetStored(r, t) == MergedDbAt(stored, child, t)
    ensures r == MergedDb(stored, child)
  {
    forall t ensures t in r <==> t in MergedDb(stored, child) {
      assert GetStored(r, t) == MergedDbAt(stored, child, t);
    }
    forall t | t in r ensures r[t] == MergedDb(stored, child)[t] {
      assert GetStored(r, t) == MergedDbAt(stored, child, t);
    }
  }

  lemma MergedIs(own: CoinsMap, child: CoinsMap, r: CoinsMap)
    requires forall t :: Get(r, t) == MergedAt(own, child, t)
    ensures r == Merged(own, child)
  {
    forall t ensures t in r <==> t in Merged(own, child) { assert Get(r, t) == MergedAt(own, child, t); }
    forall t | t in r ensures r[t] == Merged(own, child)[t] { assert Get(r, t) == MergedAt(own, child, t); }
  }

  /** Only the entry of txid changes, and what it holds if it is new: the coins found below, or none at all. */
  ghost predicate Creates(v: View, txid: TxId, r: CoinsMap)
    requires v.Cache?
  {
    && txid in r && r == v.entries[txid := r[txid]] && r[txid].isDirty
    && (txid in v.entries ==> r[txid].coins == v.entries[txid].coins && r[txid].isFresh == v.entries[txid].isFresh)
    && (txid !in v.entries && Lookup(v, txid).None? ==> r[txid] == Entry(Coins(false, false, [], 0, 0), true, true))
    && (txid !in v.entries && Lookup(v, txid).Some? ==>
          && r[txid].coins == Lookup(v, txid).value
          && (r[txid].isFresh <==> forall i | 0 <= i < |r[txid].coins.vout| :: r[txid].coins.vout[i].nValue == -1))
  }

  lemma ModifiableCreates(v: View, txid: TxId)
    requires v.Cache?
    ensures Creates(v, txid, Modifiable(v, txid).entries)
  {
  }

  /** A pointer to some view. */
  datatype ViewRef = DbRef(db: CoinsViewDB) | CacheRef(cache: CoinsViewCache)

  class CoinsViewCache {
    const base: ViewRef
    var hasModifier: bool
    var hashBlock: Hash
    var cacheCoins: CoinsMap

    ghost const Layers: set<CoinsViewCache>   // this cache and all caches below it
    ghost const Bottom: CoinsViewDB

    ghost predicate Valid()
      decreases Layers
    {
      match base
      case DbRef(db) => Layers == {this} && Bottom == db
      case CacheRef(c) =>
        this !in c.Layers && Layers == {this} + c.Layers && Bottom == c.Bottom && c.Layers < Layers && c.Valid()
    }

    /** The view below, as a value. */
    ghost function Below(): View
      requires Valid()
      reads Layers - {this}, Bottom
      decreases Layers, 0
    {
      match base case DbRef(db) => db.Abs() case CacheRef(c) => c.Abs()
    }

    ghost function Abs(): View
      requires Valid()
      reads Layers, Bottom
      decreases Layers, 1
    {
      Cache(cacheCoins, hashBlock, Below())
    }

    constructor (baseIn: ViewRef)
      requires baseIn.CacheRef? ==> baseIn.cache.Valid()
      ensures Valid() && base == baseIn && !hasModifier
      ensures Abs() == Cache(map[], 0, Below())
    {
      base := baseIn;
      hasModifier, hashBlock, cacheCoins := false, 0, map[];
      Layers := {this} + match baseIn case DbRef(_) => {} case CacheRef(c) => c.Layers;
      Bottom := match baseIn case DbRef(db) => db case CacheRef(c) => c.Bottom;
    }

    method BaseGetCoins(txid: TxId) returns (found: bool, coins: Coins)
      requires Valid()
      modifies (Layers - {this})`cacheCoins
      ensures Below() == Fetched(old(Below()), txid)
      ensures found == Lookup(old(Below()), txid).Some? && (found ==> coins == Lookup(old(Below()), txid).value)
      decreases Layers, 0
    {
      match base
      case DbRef(db) => found, coins := db.GetCoins(txid);
      case CacheRef(c) => found, coins := c.GetCoins(txid);
    }

    /** Makes sure a known txid has an entry in this cache; found says whether it has one. */
    method FetchCoins(txid: TxId) returns (found: bool)
      requires Valid()
      modifies Layers`cacheCoins
      ensures Abs() == Fetched(old(Abs()), txid)
      ensures found == Lookup(old(Abs()), txid).Some? == (txid in cacheCoins)
      ensures found ==> cacheCoins[txid].coins == Lookup(old(Abs()), txid).value
      ensures !found || txid in old(cacheCoins) ==> cacheCoins == old(cacheCoins)
      ensures found && txid !in old(cacheCoins) ==>
                var coins := Lookup(old(Abs()), txid).value;
                var spent := forall i | 0 <= i < |coins.vout| :: coins.vout[i].nValue == -1;
                cacheCoins == old(cacheCoins)[txid := Entry(coins, false, spent)]
      decreases Layers, 1
    {
      if txid in cacheCoins { return true; }
      var tmp;
      found, tmp := BaseGetCoins(txid);
      if !found { return false; }
      cacheCoins := cacheCoins[txid := Entry(tmp, false, false)];
      if cacheCoins[txid].coins.IsPruned() {
        cacheCoins := cacheCoins[txid := Entry(tmp, false, true)];
      }
    }

    method GetCoins(txid: TxId) returns (found: bool, coins: Coins)
      requires Valid()
      modifies Layers`cacheCoins
      ensures Abs() == Fetched(old(Abs()), txid)
      ensures found == Lookup(old(Abs()), txid).Some? && (found ==> coins == Lookup(old(Abs()), txid).value)
      decreases Layers, 2
    {
      found := FetchCoins(txid);
      coins := if found then cacheCoins[txid].coins else EMPTY_COINS;
    }

    method HaveCoins(txid: TxId) returns (have: bool)
      requires Valid()
      modifies Layers`cacheCoins
      ensures Abs() == Fetched(old(Abs()), txid)
      ensures have <==> Lookup(old(Abs()), txid).Some? && Lookup(old(Abs()), txid).value.vout != []
    {
      var found := FetchCoins(txid);
      have := found && cacheCoins[txid].coins.vout != [];
    }

    method GetBestBlock() returns (hash: Hash)
      requires Valid()
      modifies Layers`hashBlock
      ensures hash == BestBlock(old(Abs())) && Abs() == BestBlockRead(old(Abs()))
      decreases Layers
    {
      if hashBlock == 0 {
        match base {
          case DbRef(db) => hash := db.best;
          case CacheRef(c) => hash := c.GetBestBlock();
        }
        hashBlock := hash;
      }
      hash := hashBlock;
    }

    method SetBestBlock(hash: Hash)
      requires Valid()
      modifies this`hashBlock
      ensures Abs() == Cache(old(cacheCoins), hash, old(Below()))
    {
      hashBlock := hash;
    }

    /** ModifyCoins' entry for a txid this cache has none for. */
    method AddEntry(txid: TxId)
      requires Valid() && txid !in cacheCoins
      modifies Layers`cacheCoins
      ensures Below() == Fetched(old(Below()), txid)
      ensures cacheCoins == old(cacheCoins)[txid := match Lookup(old(Below()), txid)
                                                    case None => Entry(EMPTY_COINS, false, true)
                                                    case Some(coins) => Entry(coins, false, coins.IsPruned())]
    {
      hide Fetched, Lookup;
      var found, coins := BaseGetCoins(txid);
      cacheCoins := cacheCoins[txid := Entry(coins, false, false)];
      if !found {
        cacheCoins := cacheCoins[txid := Entry(EMPTY_COINS, false, true)];
      } else if coins.IsPruned() {
        cacheCoins := cacheCoins[txid := Entry(coins, false, true)];
      }
    }

    method ModifyCoins(txid: TxId) returns (m: CoinsModifier)
      requires Valid() && !hasModifier
      modifies Layers`cacheCoins, this`hasModifier
      ensures fresh(m) && m.cache == this && m.it == txid && hasModifier
      ensures Abs() == Modifiable(old(Abs()), txid) && txid in cacheCoins
      ensures Creates(old(Abs()), txid, cacheCoins)
    {
      hide Creates, Fetched, Lookup;
      ModifiableCreates(Abs(), txid);
      if txid !in cacheCoins { AddEntry(txid); }
      cacheCoins := cacheCoins[txid := cacheCoins[txid].(isDirty := true)];
      m := new CoinsModifier(this, txid);
    }

    /** One entry of the batch; the assert on FRESH in the source is the assert here. */
    method WriteEntry(txid: TxId, entry: Entry)
      requires txid !in cacheCoins && !entry.coins.IsPruned() ==> entry.isFresh
      modifies this`cacheCoins
      ensures forall t :: Get(cacheCoins, t) ==
                          if t == txid then Merge(Get(old(cacheCoins), t), entry) else Get(old(cacheCoins), t)
    {
      if entry.isDirty {
        if txid !in cacheCoins {
          if !entry.coins.IsPruned() {
            assert entry.isFresh;
            cacheCoins := cacheCoins[txid := Entry(entry.coins, true, true)];
          }
        } else {
          if cacheCoins[txid].isFresh && entry.coins.IsPruned() {
            cacheCoins := cacheCoins - {txid};
          } else {
            cacheCoins := cacheCoins[txid := Entry(entry.coins, true, cacheCoins[txid].isFresh)];
          }
        }
      }
    }

    method BatchWrite(mapCoins: CoinsMap, hashBlockIn: Hash)
      requires Valid() && !hasModifier
      requires Coherent(Cache(mapCoins, hashBlockIn, Abs()))
      modifies this`cacheCoins, this`hashBlock
      ensures Abs() == BatchWritten(old(Abs()), mapCoins, hashBlockIn)
    {
      hide Coherent, Merged, Merge, Creates;
      var left := mapCoins;
      ghost var own := cacheCoins;
      forall t | t in mapCoins && t !in own ensures mapCoins[t].isFresh {
        BatchWriteAssert(Cache(mapCoins, hashBlockIn, Abs()), t);
      }
      while left != map[]
        invariant forall t | t in left :: t in mapCoins && left[t] == mapCoins[t]
        invariant forall t :: Get(cacheCoins, t) == if t in left then Get(own, t) else MergedAt(own, mapCoins, t)
        decreases |left|
      {
        var txid :| txid in left;
        assert Get(cacheCoins, txid) == Get(own, txid);
        WriteEntry(txid, left[txid]);
        left := left - {txid};
      }
      MergedIs(own, mapCoins, cacheCoins);
      hashBlock := hashBlockIn;
    }

    method Flush()
      requires Valid() && !hasModifier && Coherent(Abs())
      requires base.CacheRef? ==> !base.cache.hasModifier
      modifies Layers`cacheCoins, Layers`hashBlock, Bottom
      ensures Abs() == Flushed(old(Abs()))
      ensures Coherent(Abs()) && forall t :: Visible(Abs(), t) == Visible(old(Abs()), t)
    {
      FlushedView(Abs());
      match base {
        case DbRef(db) => db.BatchWrite(cacheCoins, hashBlock);
        case CacheRef(c) =>
          assert Abs() == Cache(cacheCoins, hashBlock, c.Abs());
          c.BatchWrite(cacheCoins, hashBlock);
      }
      cacheCoins := map[];
    }
  }

  /** The reference to the one entry under modification. */
  class CoinsModifier {
    const cache: CoinsViewCache
    const it: TxId

    constructor (cacheIn: CoinsViewCache, itIn: TxId)
      requires !cacheIn.hasModifier
      modifies cacheIn`hasModifier
      ensures cache == cacheIn && it == itIn && cache.hasModifier
    {
      cache, it := cacheIn, itIn;
      new;
      cache.hasModifier := true;
    }

    method Assign(coins: Coins)
      requires cache.Valid() && cache.hasModifier && it in cache.cacheCoins
      modifies cache`cacheCoins
      ensures it in cache.cacheCoins && cache.Abs() == Assigned(old(cache.Abs()), it, coins)
    {
      cache.cacheCoins := cache.cacheCoins[it := cache.cacheCoins[it].(coins := coins)];
    }

    /** The destructor. */
    method Release()
      requires cache.Valid() && cache.hasModifier && it in cache.cacheCoins
      modifies cache`cacheCoins, cache`hasModifier
      ensures !cache.hasModifier && cache.Abs() == Released(old(cache.Abs()), it)
    {
      cache.hasModifier := false;
      var entry := cache.cacheCoins[it];
      var coins := Cleanup(entry.coins);
      entry := entry.(coins := coins);
      cache.cacheCoins := cache.cacheCoins[it := entry];
      if entry.isFresh && entry.coins.IsPruned() {
        cache.cacheCoins := cache.cacheCoins - {it};
      }
    }
  }
}
