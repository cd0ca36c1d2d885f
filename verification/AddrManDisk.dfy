/**
  Saving and loading the address manager, loop by loop.
 */
module AddrManDisk {
  import opened AddrMan
  import opened AddrManImage
  import opened AddrManRoundTrip
  import opened AddrManState
  import Check = AddrManCheck
  import Runs = AddrManRuns

  // ----- saving -----

  /** The first loop: index numbers for all entries, and the entries outside tried. */
  method SaveNew(m: map<int, Info>, nIdCount: nat, nNew: int)
    returns (newEntries: seq<Stored>, mapUnkIds: map<int, int>)
    requires Ids(m, nIdCount) && |Ascending(Referenced(m), nIdCount)| == nNew
    ensures forall i | 0 <= i < nNew :: Ascending(Referenced(m), nIdCount)[i] in m
    ensures newEntries == StoreAll(m, Ascending(Referenced(m), nIdCount))
    ensures forall id | id in m :: id in mapUnkIds && mapUnkIds[id] == Rank(m, id)
  {
    newEntries, mapUnkIds := [], map[];
    var nIds := 0;
    for n := 0 to nIdCount
      invariant nIds == |Ascending(Referenced(m), n)|
      invariant forall i | 0 <= i < |Ascending(Referenced(m), n)| :: Ascending(Referenced(m), n)[i] in m
      invariant newEntries == StoreAll(m, Ascending(Referenced(m), n))
      invariant forall id | id in m && id < n :: id in mapUnkIds && mapUnkIds[id] == Rank(m, id)
    {
      AscendingAllIn(Referenced(m), n + 1, m);
      if n in m {
        mapUnkIds := mapUnkIds[n := nIds];
        if m[n].nRefCount != 0 {
          AscendingHas(Referenced(m), nIdCount, n);
          assert nIds != nNew;
          newEntries := newEntries + [Store(m[n])];
          nIds := nIds + 1;
        }
      }
    }
  }

  method SaveTried(m: map<int, Info>, nIdCount: nat, nTried: int) returns (triedEntries: seq<Stored>)
    requires |Ascending(TriedIds(m), nIdCount)| == nTried
    ensures forall i | 0 <= i < nTried :: Ascending(TriedIds(m), nIdCount)[i] in m
    ensures triedEntries == StoreAll(m, Ascending(TriedIds(m), nIdCount))
  {
    triedEntries := [];
    var nIds := 0;
    for n := 0 to nIdCount
      invariant nIds == |Ascending(TriedIds(m), n)|
      invariant forall i | 0 <= i < |Ascending(TriedIds(m), n)| :: Ascending(TriedIds(m), n)[i] in m
      invariant triedEntries == StoreAll(m, Ascending(TriedIds(m), n))
    {
      AscendingAllIn(TriedIds(m), n + 1, m);
      if n in m && m[n].fInTried {
        AscendingHas(TriedIds(m), nIdCount, n);
        assert nIds != nTried;
        triedEntries := triedEntries + [Store(m[n])];
        nIds := nIds + 1;
      }
    }
  }

  method SaveBucket(vvNew: array2<int>, m: map<int, Info>, mapUnkIds: map<int, int>, ghost t: Table, bucket: nat)
    returns (list: seq<int>)
    requires bucket < vvNew.Length0 && t == TableOf(vvNew)
    requires forall sl: Slot | sl in t :: t[sl] in m && t[sl] >= 0
    requires forall id | id in m && id >= 0 :: id in mapUnkIds && mapUnkIds[id] == Rank(m, id)
    ensures list == BucketList(m, t, bucket, vvNew.Length1)
  {
    hide TableOf, Rank;
    list := [];
    for i := 0 to vvNew.Length1
      invariant list == BucketList(m, t, bucket, i)
    {
      var nId := GetPosition(vvNew, bucket, i);
      if nId != -1 {
        assert t[(bucket, i)] == nId;
        list := list + [mapUnkIds[nId]];
      }
    }
  }

  method Serialize(a: CAddrMan) returns (img: Image)
    requires a.Valid()
    ensures a.nIdCount >= 0 && a.nNew >= 0 && a.nTried >= 0 &&
            forall sl: Slot | sl in TableOf(a.vvNew) :: TableOf(a.vvNew)[sl] >= 0
    ensures img == Saved(a.cfg, a.Abs())
  {
    OrderIs(a.cfg, a.Abs());
    SavedReady(a.cfg, a.Abs());
    var newEntries, mapUnkIds := SaveNew(a.mapInfo, a.nIdCount, a.nNew);
    var triedEntries := SaveTried(a.mapInfo, a.nIdCount, a.nTried);
    var buckets := SaveBuckets(a.vvNew, a.mapInfo, mapUnkIds, TableOf(a.vvNew));
    img := Image(1, 32, a.nKey, a.nNew, a.nTried, Flip30(a.cfg.newBuckets), newEntries, triedEntries, buckets);
  }

  method SaveBuckets(vvNew: array2<int>, m: map<int, Info>, mapUnkIds: map<int, int>, ghost t: Table)
    returns (buckets: seq<seq<int>>)
    requires t == TableOf(vvNew)
    requires forall sl: Slot | sl in t :: t[sl] in m && t[sl] >= 0
    requires forall id | id in m && id >= 0 :: id in mapUnkIds && mapUnkIds[id] == Rank(m, id)
    ensures buckets == BucketLists(m, t, vvNew.Length0, vvNew.Length1)
  {
    hide TableOf, Rank;
    buckets := [];
    for bucket := 0 to vvNew.Length0
      invariant buckets == BucketLists(m, t, bucket, vvNew.Length1)
    {
      var list := SaveBucket(vvNew, m, mapUnkIds, t, bucket);
      buckets := buckets + [list];
    }
  }

  // ----- loading -----

  method ClearTable(t: array2<int>)
    modifies t
    ensures TableOf(t) == map[]
  {
    for bucket := 0 to t.Length0
      invariant forall i, j | 0 <= i < bucket && 0 <= j < t.Length1 :: t[i, j] == -1
    {
      for entry := 0 to t.Length1
        invariant forall i, j | 0 <= i < bucket && 0 <= j < t.Length1 :: t[i, j] == -1
        invariant forall j | 0 <= j < entry :: t[bucket, j] == -1
      {
        t[bucket, entry] := -1;
      }
    }
  }

  /** Clear leaves the two maps as they are. */
  method Clear(a: CAddrMan, key: Key)
    requires a.vvNew != a.vvTried
    modifies a, a.vvNew, a.vvTried
    ensures a.Abs() == Empty(key).(mapInfo := old(a.mapInfo), mapAddr := old(a.mapAddr))
  {
    a.vRandom := [];
    a.nKey := key;
    ClearTable(a.vvNew);
    ClearTable(a.vvTried);
    a.nIdCount, a.nTried, a.nNew := 0, 0, 0;
  }

  /** So what it leaves is consistent exactly if there was nothing in them. */
  lemma ClearedInv(c: Config, key: Key, m: map<int, Info>, a: map<NetAddr, int>)
    requires key != 0
    ensures Inv(c, Empty(key).(mapInfo := m, mapAddr := a)) <==> m == map[] && a == map[]
  {
    var s := Empty(key).(mapInfo := m, mapAddr := a);
    if Inv(c, s) {
      Runs.Sizes(c, s);
      assert |m| == 0 && |a| == 0;
    } else if m == map[] && a == map[] {
      EmptyInv(c, key);
    }
  }

  /** The manager with one address after Clear. */
  function OneCleared(): State { Empty(1).(mapInfo := Runs.OneAdded().mapInfo, mapAddr := Runs.OneAdded().mapAddr) }

  lemma ClearLeavesEntries()
    ensures !Inv(Runs.OneSlot(), OneCleared())
  {
    ClearedInv(Runs.OneSlot(), 1, OneCleared().mapInfo, OneCleared().mapAddr);
  }

  /** A stored tried entry of another address. */
  const OTHER := Stored(Runs.SeenAt(2), 0, 1000, 0)

  /** The manager after an image with that one entry is read. */
  function OneLoaded(): State {
    State(1, 1, map[0 as int := Restored(OTHER).(fInTried := true, nRandomPos := 0)], map[1 := 0 as int, 2 := 0],
          [0], 1, map[(0, 0) := 0 as int], 0, map[])
  }

  /**
    How a stray key comes about: an image with one tried entry of another address is
    loaded after Clear. The entry takes over the id of the old one, whose address still
    leads there, and the check does not notice.
   */
  lemma StrayKey()
    ensures var c, t := Runs.OneSlot(), LoadOneTried(Runs.OneSlot(), OneCleared().(nTried := 1), OTHER);
            && Numbered(t, t.nIdCount) && Pruned(LoadBuckets(c, t, [[]], 1, true), 1) == t
            && Check.Passing(c, t) && !Inv(c, t) && t.mapAddr == map[1 := 0 as int, 2 := 0]
  {
    hide Check.Passing, Inv;
    assert LoadOneTried(Runs.OneSlot(), OneCleared().(nTried := 1), OTHER) == OneLoaded() by { ReadsOther(); }
    hide LoadOneTried;
    StrayPasses();
    StrayIsEnd();
  }

  lemma ReadsOther()
    ensures LoadOneTried(Runs.OneSlot(), OneCleared().(nTried := 1), OTHER) == OneLoaded()
  {
    hide Numbered;
  }

  lemma StrayPasses()
    ensures Check.Passing(Runs.OneSlot(), OneLoaded()) && !Inv(Runs.OneSlot(), OneLoaded())
  {
    var t := OneLoaded();
    assert TriedIds(t.mapInfo) == {0} && NewIds(t.mapInfo) == {} && Unreferenced(t.mapInfo) == {};
    assert t.mapAddr[1] == 0;
  }

  lemma StrayIsEnd()
    ensures var c, t := Runs.OneSlot(), OneLoaded();
            Numbered(t, t.nIdCount) && Pruned(LoadBuckets(c, t, [[]], 1, true), 1) == t
  {
    var c, t := Runs.OneSlot(), OneLoaded();
    assert Numbered(t, t.nIdCount);
    hide Numbered;
    assert LoadIndices(c, t, 0, [], true) == t;
    assert LoadBuckets(c, t, [[]], 0, true) == t;
    PrunedNone(t, 1);
  }

  method PutEntry(a: CAddrMan, info: Info, id: int)
    modifies a`mapInfo, a`mapAddr, a`vRandom
    ensures a.Abs() == WithEntry(old(a.Abs()), info, id)
  {
    hide TableOf;
    a.mapInfo := a.mapInfo[id := info];
    a.mapAddr := a.mapAddr[info.addr.service.ip := id];
    a.mapInfo := a.mapInfo[id := a.mapInfo[id].(nRandomPos := |a.vRandom|)];
    a.vRandom := a.vRandom + [id];
  }

  method ReadOneNew(a: CAddrMan, st: Stored, n: nat, usable: bool)
    requires a.Shaped() && Numbered(a.Abs(), n)
    modifies a`mapInfo, a`mapAddr, a`vRandom, a.vvNew
    ensures a.Abs() == LoadOneNew(a.cfg, old(a.Abs()), st, n, usable)
  {
    var info := Restored(st);
    PutEntry(a, info, n);
    if !usable {
      var nUBucket := a.cfg.NewBucket(a.nKey, info.addr.service, info.source);
      var nUBucketPos := a.cfg.Position(a.nKey, true, nUBucket, info.addr.service);
      ghost var sl: Slot := (nUBucket, nUBucketPos);
      assert sl in TableOf(a.vvNew) <==> a.vvNew[nUBucket, nUBucketPos] != -1;
      if a.vvNew[nUBucket, nUBucketPos] == -1 { a.TakeSlot(n, nUBucket, nUBucketPos); }
    }
  }

  method ReadNew(a: CAddrMan, img: Image, usable: bool)
    requires a.Shaped() && a.Abs() == Start(img) && img.nNew <= |img.newEntries|
    modifies a`mapInfo, a`mapAddr, a`vRandom, a.vvNew
    ensures a.Abs() == LoadNew(a.cfg, img, img.nNew, usable)
  {
    hide Numbered, LoadOneNew, TableOf;
    for n := 0 to img.nNew
      invariant a.Abs() == LoadNew(a.cfg, img, n, usable)
    {
      ReadOneNew(a, img.newEntries[n], n, usable);
    }
  }

  /** One tried entry, which is lost if its position is taken. */
  method ReadOneTried(a: CAddrMan, st: Stored)
    requires a.Shaped() && Numbered(a.Abs(), a.nIdCount)
    modifies a`mapInfo, a`mapAddr, a`vRandom, a`nIdCount, a`nTried, a.vvTried
    ensures a.Abs() == LoadOneTried(a.cfg, old(a.Abs()), st)
  {
    var info := Restored(st);
    var nKBucket := a.cfg.TriedBucket(a.nKey, info.addr.service);
    var nKBucketPos := a.cfg.Position(a.nKey, false, nKBucket, info.addr.service);
    ghost var sl: Slot := (nKBucket, nKBucketPos);
    assert sl in TableOf(a.vvTried) <==> a.vvTried[nKBucket, nKBucketPos] != -1;
    if a.vvTried[nKBucket, nKBucketPos] == -1 {
      PutEntry(a, info.(fInTried := true), a.nIdCount);
      SetPosition(a.vvTried, nKBucket, nKBucketPos, a.nIdCount);
      a.nIdCount := a.nIdCount + 1;
    } else {
      a.nTried := a.nTried - 1;
    }
  }

  method ReadTried(a: CAddrMan, entries: seq<Stored>, n: nat)
    requires a.Shaped() && Numbered(a.Abs(), a.nIdCount) && n <= |entries|
    modifies a`mapInfo, a`mapAddr, a`vRandom, a`nIdCount, a`nTried, a.vvTried
    ensures a.Abs() == LoadTried(a.cfg, old(a.Abs()), entries, n)
  {
    hide Numbered, LoadOneTried;
    ghost var s := a.Abs();
    for k := 0 to n
      invariant a.Abs() == LoadTried(a.cfg, s, entries, k)
    {
      ReadOneTried(a, entries[k]);
    }
  }

  method ReadIndex(a: CAddrMan, bucket: nat, nIndex: int, usable: bool)
    requires a.Shaped() && Numbered(a.Abs(), a.nIdCount) && (usable ==> bucket < a.cfg.newBuckets)
    modifies a`mapInfo, a.vvNew
    ensures a.Abs() == LoadIndex(a.cfg, old(a.Abs()), bucket, nIndex, usable)
  {
    if 0 <= nIndex < a.nNew && nIndex in a.mapInfo {
      var nUBucketPos := a.cfg.Position(a.nKey, true, bucket, a.mapInfo[nIndex].addr.service);
      ghost var sl: Slot := (bucket, nUBucketPos);
      if usable {
        assert sl in TableOf(a.vvNew) <==> a.vvNew[bucket, nUBucketPos] != -1;
        if a.vvNew[bucket, nUBucketPos] == -1 && a.mapInfo[nIndex].nRefCount < a.cfg.perAddress {
          a.TakeSlot(nIndex, bucket, nUBucketPos);
        }
      }
    }
  }

  method ReadBucket(a: CAddrMan, bucket: nat, list: seq<int>, usable: bool)
    requires a.Shaped() && Numbered(a.Abs(), a.nIdCount) && (usable ==> bucket < a.cfg.newBuckets)
    modifies a`mapInfo, a.vvNew
    ensures a.Abs() == LoadIndices(a.cfg, old(a.Abs()), bucket, list, usable)
  {
    ghost var s := a.Abs();
    for n := 0 to |list|
      invariant a.Abs() == LoadIndices(a.cfg, s, bucket, list[..n], usable)
    {
      assert list[..n + 1][..n] == list[..n];
      ReadIndex(a, bucket, list[n], usable);
    }
    assert list[..|list|] == list;
  }

  method ReadBuckets(a: CAddrMan, buckets: seq<seq<int>>, nUBuckets: nat, usable: bool)
    requires a.Shaped() && Numbered(a.Abs(), a.nIdCount) && nUBuckets <= |buckets| &&
             (usable ==> nUBuckets == a.cfg.newBuckets)
    modifies a`mapInfo, a.vvNew
    ensures a.Abs() == LoadBuckets(a.cfg, old(a.Abs()), buckets, nUBuckets, usable)
  {
    ghost var s := a.Abs();
    for bucket := 0 to nUBuckets
      invariant a.Abs() == LoadBuckets(a.cfg, s, buckets, bucket, usable)
    {
      ReadBucket(a, bucket, buckets[bucket], usable);
    }
  }

  method Prune(a: CAddrMan)
    requires Numbered(a.Abs(), a.nIdCount)
    modifies a`mapInfo, a`mapAddr, a`vRandom, a`nNew
    ensures a.Abs() == Pruned(old(a.Abs()), old(a.nIdCount))
  {
    ghost var s := a.Abs();
    for n := 0 to a.nIdCount
      invariant a.Abs() == Pruned(s, n)
    {
      if n in a.mapInfo && !a.mapInfo[n].fInTried && a.mapInfo[n].nRefCount == 0 { a.Delete(n); }
    }
  }

  /** Into a manager whose maps are empty; key is the random one Clear draws, replaced by the one read. */
  method Unserialize(a: CAddrMan, img: Image, key: Key) returns (ok: bool)
    requires a.Shaped() && a.mapInfo == map[] && a.mapAddr == map[]
    modifies a, a.vvNew, a.vvTried
    ensures ok <==> Readable(img)
    ensures ok ==> a.Abs() == Loaded(a.cfg, img)
  {
    Clear(a, key);
    if !Readable(img) { return false; }
    a.nKey, a.nNew, a.nTried := img.key, img.nNew, img.nTried;
    var usable := Usable(a.cfg, img);
    ReadNew(a, img, usable);
    a.nIdCount := img.nNew;
    ReadTried(a, img.triedEntries, img.nTried);
    ReadBuckets(a, img.buckets, if NUBuckets(img) < 0 then 0 else NUBuckets(img), usable);
    Prune(a);
    ok := true;
  }
}
