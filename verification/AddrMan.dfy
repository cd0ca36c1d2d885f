/**
  The address manager as the object the program keeps: two-dimensional bucket
  tables in which -1 marks an empty position, two maps, a vector and counters.
  Every method is tied to the operation on values that it performs.
 */
module AddrMan {
  import opened AddrManState
  import Runs = AddrManRuns
  import opened Util

  /** The occupied positions of a table. */
  ghost function TableOf(t: array2<int>): Table
    reads t
  {
    map i: nat, j: nat | i < t.Length0 && j < t.Length1 && t[i, j] != -1 :: (i, j) := t[i, j]
  }

  lemma NoneOccupied(t: array2<int>)
    requires forall i, j | 0 <= i < t.Length0 && 0 <= j < t.Length1 :: t[i, j] == -1
    ensures TableOf(t) == map[]
  {
  }

  method ClearPosition(t: array2<int>, bucket: nat, pos: nat)
    requires bucket < t.Length0 && pos < t.Length1
    modifies t
    ensures TableOf(t) == old(TableOf(t)) - {(bucket, pos)}
  {
    t[bucket, pos] := -1;
    assert TableOf(t) == old(TableOf(t)) - {(bucket, pos)};
  }

  method SetPosition(t: array2<int>, bucket: nat, pos: nat, nId: int)
    requires bucket < t.Length0 && pos < t.Length1 && nId != -1
    modifies t
    ensures TableOf(t) == old(TableOf(t))[(bucket, pos) := nId]
  {
    t[bucket, pos] := nId;
    assert TableOf(t) == old(TableOf(t))[(bucket, pos) := nId];
  }

  lemma PositionIs(t: array2<int>, bucket: nat, pos: nat)
    requires bucket < t.Length0 && pos < t.Length1
    ensures t[bucket, pos] == -1 <==> (bucket, pos) !in TableOf(t)
    ensures t[bucket, pos] != -1 ==> TableOf(t)[(bucket, pos)] == t[bucket, pos]
  {
  }

  method GetPosition(t: array2<int>, bucket: nat, pos: nat) returns (nId: int)
    requires bucket < t.Length0 && pos < t.Length1
    ensures nId == -1 <==> (bucket, pos) !in TableOf(t)
    ensures nId != -1 ==> TableOf(t)[(bucket, pos)] == nId
  {
    nId := t[bucket, pos];
  }

  /** Buckets below n no longer hold an id. */
  ghost function Swept(t: Table, id: int, n: nat): Table {
    map sl: Slot | sl in t && !(t[sl] == id && sl.0 < n) :: t[sl]
  }

  /** One bucket of the sweep, where the id can only be at one position. */
  lemma SweptStep(t: Table, id: int, n: nat, sl: Slot)
    requires sl.0 == n && forall q: Slot | q in t && t[q] == id && q.0 == n :: q == sl
    ensures Swept(t, id, n + 1) == Swept(t, id, n) - (if sl in t && t[sl] == id then {sl} else {})
    ensures SlotsOf(Swept(t, id, n), id) == SlotsOf(Swept(t, id, n + 1), id) +
            (if sl in t && t[sl] == id then {sl} else {})
    ensures sl in Swept(t, id, n) <==> sl in t
  {
  }

  /** The entry in the middle of the sweep: each slot given up has cost one reference. */
  ghost function Leaving(s: State, id: int, n: nat): Info
    requires id in s.mapInfo
  {
    WithRef(s.mapInfo[id], s.mapInfo[id].nRefCount - |SlotsOf(s.new_, id)| + |SlotsOf(Swept(s.new_, id, n), id)|)
  }

  /** What the bucket n has to do with the sweep. */
  ghost predicate SweepStep(c: Config, s: State, id: int, n: nat, sl: Slot)
    requires id in s.mapInfo
  {
    && (sl in Swept(s.new_, id, n) && Swept(s.new_, id, n)[sl] == id <==> sl in s.new_ && s.new_[sl] == id)
    && (if sl in s.new_ && s.new_[sl] == id
        then Leaving(s, id, n + 1) == WithRef(Leaving(s, id, n), Leaving(s, id, n).nRefCount - 1) &&
             Swept(s.new_, id, n + 1) == Swept(s.new_, id, n) - {sl}
        else Leaving(s, id, n + 1) == Leaving(s, id, n) && Swept(s.new_, id, n + 1) == Swept(s.new_, id, n))
  }

  ghost predicate Sweepable(c: Config, s: State, id: int, key: Key, service: Service) {
    && id in s.mapInfo && id >= 0
    && forall n: nat | n < c.newBuckets ::
         c.Position(key, true, n, service) < c.bucketSize &&
         SweepStep(c, s, id, n, (n, c.Position(key, true, n, service)))
  }

  lemma LeavingStep(c: Config, s: State, id: int, n: nat)
    requires c.Valid() && Core(c, s) && id in s.mapInfo && n < c.newBuckets
    ensures SweepStep(c, s, id, n, (n, c.Position(s.key, true, n, s.mapInfo[id].addr.service)))
  {
    var sl: Slot := (n, c.Position(s.key, true, n, s.mapInfo[id].addr.service));
    SweptStep(s.new_, id, n, sl);
    assert sl !in SlotsOf(Swept(s.new_, id, n + 1), id);
  }

  lemma AllSweepable(c: Config, s: State, id: int)
    requires c.Valid() && Core(c, s) && id in s.mapInfo
    ensures Sweepable(c, s, id, s.key, s.mapInfo[id].addr.service)
  {
    forall n: nat | n < c.newBuckets
      ensures SweepStep(c, s, id, n, (n, c.Position(s.key, true, n, s.mapInfo[id].addr.service)))
    {
      LeavingStep(c, s, id, n);
    }
  }

  lemma LeavingEnds(c: Config, s: State, id: int)
    requires c.Valid() && Core(c, s) && id in s.mapInfo
    ensures Swept(s.new_, id, 0) == s.new_ && s.mapInfo[id := Leaving(s, id, 0)] == s.mapInfo
    ensures Swept(s.new_, id, c.newBuckets) == (map sl: Slot | sl in s.new_ && s.new_[sl] != id :: s.new_[sl])
    ensures Leaving(s, id, c.newBuckets) == WithRef(s.mapInfo[id], s.mapInfo[id].nRefCount - |SlotsOf(s.new_, id)|)
  {
    assert Swept(s.new_, id, 0) == s.new_;
    assert SlotsOf(Swept(s.new_, id, c.newBuckets), id) == {};
  }

  lemma ReenterReady(c: Config, s: State, id: int)
    requires c.Valid() && Core(c, s) && id in s.mapInfo && !s.mapInfo[id].fInTried && s.mapInfo[id].nRefCount == 0
    ensures var target := NewSlot(c, s.key, s.mapInfo[id].addr.service, s.mapInfo[id].source);
            var q := ClearedNew(s, target);
            target !in q.new_ && id in q.mapInfo && q.mapInfo[id].nRefCount == 0 && q.nIdCount == s.nIdCount &&
            target.0 < c.newBuckets && target.1 < c.bucketSize && id >= 0
  {
    var target := NewSlot(c, s.key, s.mapInfo[id].addr.service, s.mapInfo[id].source);
    ClearedRest(s, target);
    ClearedUnreferenced(c, s, target, id);
  }

  lemma EnterReady(c: Config, s: State, id: int, sl: Slot)
    requires Core(c, s) && id in s.mapInfo && !s.mapInfo[id].fInTried
    ensures id >= 0 && (sl in s.new_ ==> s.new_[sl] in s.mapInfo)
    ensures (sl in s.new_ && s.new_[sl] == id) || (sl !in ClearedNew(s, sl).new_ && id in ClearedNew(s, sl).mapInfo)
  {
    if !(sl in s.new_ && s.new_[sl] == id) {
      ClearedRest(s, sl);
      ClearedOthers(c, s, sl, id);
    }
  }

  lemma MakeReady(c: Config, s: State, id: int)
    requires c.Valid() && Core(c, s) && id in s.mapInfo && !s.mapInfo[id].fInTried && s.mapInfo[id].nRefCount > 0
    ensures var u := Unlisted(s, id);
            var sl := TriedSlot(c, s.key, s.mapInfo[id].addr.service);
            && Core(c, u) && u.mapInfo[id].nRefCount == 0 && id >= 0 && u.mapInfo[id].addr == s.mapInfo[id].addr
            && sl.0 < c.triedBuckets && sl.1 < c.bucketSize
            && (sl in u.tried ==> sl !in MovedBack(c, u, sl).tried && id in MovedBack(c, u, sl).mapInfo)
  {
    UnlistedCore(c, s, id);
    var u := Unlisted(s, id);
    var sl := TriedSlot(c, s.key, u.mapInfo[id].addr.service);
    if sl in u.tried { MovedBackCore(c, u, sl, id); }
  }

  // ----- GetAddr -----

  /** The entries among the first n of vRandom that are not terrible. */
  function GoodOnes(m: map<int, Info>, v: seq<int>, n: nat, nNow: int): (r: seq<Address>)
    requires n <= |v| && forall i | 0 <= i < n :: v[i] in m
    ensures |r| <= n
  {
    if n == 0 then []
    else GoodOnes(m, v, n - 1, nNow) + if IsTerrible(m[v[n - 1]], nNow) then [] else [m[v[n - 1]].addr]
  }

  lemma {:induction false} GoodOnesSame(m: map<int, Info>, v: seq<int>, k: map<int, Info>, w: seq<int>, n: nat,
                                        nNow: int)
    requires n <= |v| && n <= |w| && AllMoved(m, k) && forall i | 0 <= i < n :: v[i] in m && v[i] == w[i]
    ensures forall i | 0 <= i < n :: w[i] in k
    ensures GoodOnes(m, v, n, nNow) == GoodOnes(k, w, n, nNow)
  {
    if n > 0 {
      GoodOnesSame(m, v, k, w, n - 1, nNow);
      assert v[n - 1] in m && Moved(m[v[n - 1]], k[v[n - 1]]);
    }
  }

  lemma GatheredNone(m: map<int, Info>, v: seq<int>, nNow: int)
    ensures AllMoved(m, m) && GoodOnes(m, v, 0, nNow) == []
  {
  }

  lemma MovedOn(m: map<int, Info>, k: map<int, Info>, l: map<int, Info>)
    requires AllMoved(m, k) && AllMoved(k, l)
    ensures AllMoved(m, l)
  {
    forall id | id in m ensures id in l && Moved(m[id], l[id]) {
      assert id in k && Moved(m[id], k[id]) && Moved(k[id], l[id]);
    }
  }

  lemma SameSize(m: map<int, Info>, k: map<int, Info>)
    requires AllMoved(m, k)
    ensures |m| == |k|
  {
    forall id ensures id in m.Keys <==> id in k.Keys { assert id in m <==> id in k; }
    assert m.Keys == k.Keys;
    assert |m| == |m.Keys| && |k| == |k.Keys|;
  }

  /** One swap of GetAddr_: it keeps the state consistent and what was gathered so far. */
  lemma GetAddrStep(c: Config, s: State, first: map<int, Info>, n: nat, pos: nat, nNow: int)
    requires Inv(c, s) && AllMoved(first, s.mapInfo) && n <= pos < |s.vRandom|
    ensures var r := Swapped(s, n, pos);
            && Inv(c, r) && AllMoved(first, r.mapInfo) && |r.vRandom| == |s.vRandom|
            && (forall i | 0 <= i <= n :: r.vRandom[i] in r.mapInfo)
            && GoodOnes(r.mapInfo, r.vRandom, n, nNow) == GoodOnes(s.mapInfo, s.vRandom, n, nNow)
  {
    hide Tables, Refs, Reverse, AllMoved, GoodOnes, IsTerrible, Unreferenced, NewIds, TriedIds, Timed;
    SwappedIndex(s, n, pos);
    Runs.SwappedInv(c, s, n, pos);
    MovedOn(first, s.mapInfo, Swapped(s, n, pos).mapInfo);
    GoodOnesSame(s.mapInfo, s.vRandom, Swapped(s, n, pos).mapInfo, Swapped(s, n, pos).vRandom, n, nNow);
  }

  /** An address the manager holds with a record that is not terrible. */
  ghost predicate Offers(s: State, addr: Address, nNow: int) {
    Known(s, addr.service) && s.mapInfo[s.mapAddr[addr.service.ip]].addr == addr &&
    !IsTerrible(s.mapInfo[s.mapAddr[addr.service.ip]], nNow)
  }

  ghost predicate OffersBelow(s: State, addr: Address, n: nat, nNow: int) {
    Offers(s, addr, nNow) && s.mapInfo[s.mapAddr[addr.service.ip]].nRandomPos < n
  }

  /** Addresses on offer from the first n places, no network address twice. */
  ghost predicate AllOffered(s: State, r: seq<Address>, n: nat, nNow: int) {
    && (forall i | 0 <= i < |r| :: OffersBelow(s, r[i], n, nNow))
    && (forall i, j | 0 <= i < j < |r| :: r[i].service.ip != r[j].service.ip)
  }

  lemma OneMoreOffered(s: State, r: seq<Address>, n: nat, nNow: int)
    requires Index(s) && n < |s.vRandom| && AllOffered(s, r, n, nNow) && !IsTerrible(s.mapInfo[s.vRandom[n]], nNow)
    ensures AllOffered(s, r + [s.mapInfo[s.vRandom[n]].addr], n + 1, nNow)
  {
    var id := s.vRandom[n];
    assert id in s.mapInfo && s.mapInfo[id].nRandomPos == n;
    assert s.mapInfo[id].addr.service.ip in s.mapAddr && s.mapAddr[s.mapInfo[id].addr.service.ip] == id;
    forall i | 0 <= i < |r|
      ensures OffersBelow(s, r[i], n + 1, nNow) && r[i].service.ip != s.mapInfo[id].addr.service.ip
    {
      assert OffersBelow(s, r[i], n, nNow);
    }
    assert OffersBelow(s, s.mapInfo[id].addr, n + 1, nNow);
  }

  lemma OfferedLater(s: State, r: seq<Address>, n: nat, nNow: int)
    requires AllOffered(s, r, n, nNow)
    ensures AllOffered(s, r, n + 1, nNow)
  {
    forall i | 0 <= i < |r| ensures OffersBelow(s, r[i], n + 1, nNow) { assert OffersBelow(s, r[i], n, nNow); }
  }

  lemma {:induction false} GoodOnesOffered(c: Config, s: State, n: nat, nNow: int)
    requires Index(s) && n <= |s.vRandom|
    ensures AllOffered(s, GoodOnes(s.mapInfo, s.vRandom, n, nNow), n, nNow)
  {
    if n > 0 {
      GoodOnesOffered(c, s, n - 1, nNow);
      if IsTerrible(s.mapInfo[s.vRandom[n - 1]], nNow) {
        OfferedLater(s, GoodOnes(s.mapInfo, s.vRandom, n - 1, nNow), n - 1, nNow);
      } else {
        OneMoreOffered(s, GoodOnes(s.mapInfo, s.vRandom, n - 1, nNow), n - 1, nNow);
      }
    }
  }

  lemma {:induction false} GoodOnesHave(m: map<int, Info>, v: seq<int>, n: nat, k: nat, nNow: int)
    requires k < n <= |v| && (forall i | 0 <= i < n :: v[i] in m) && !IsTerrible(m[v[k]], nNow)
    ensures m[v[k]].addr in GoodOnes(m, v, n, nNow)
  {
    if k < n - 1 { GoodOnesHave(m, v, n - 1, k, nNow); }
  }

  lemma GoodOnesAll(c: Config, s: State, nNow: int)
    requires Inv(c, s)
    ensures forall id | id in s.mapInfo && !IsTerrible(s.mapInfo[id], nNow) ::
              s.mapInfo[id].addr in GoodOnes(s.mapInfo, s.vRandom, |s.vRandom|, nNow)
  {
    forall id | id in s.mapInfo && !IsTerrible(s.mapInfo[id], nNow)
      ensures s.mapInfo[id].addr in GoodOnes(s.mapInfo, s.vRandom, |s.vRandom|, nNow)
    {
      GoodOnesHave(s.mapInfo, s.vRandom, |s.vRandom|, s.mapInfo[id].nRandomPos, nNow);
    }
  }

  lemma DeleteReady(s: State, id: int)
    requires Listed(s.mapInfo, s.vRandom) && id in s.mapInfo
    ensures 0 <= s.mapInfo[id].nRandomPos < |s.vRandom|
    ensures var q := Swapped(s, s.mapInfo[id].nRandomPos, |s.vRandom| - 1);
            id in q.mapInfo && q.mapInfo[id].addr == s.mapInfo[id].addr && |q.vRandom| == |s.vRandom|
  {
    SwappedListed(s, s.mapInfo[id].nRandomPos, |s.vRandom| - 1);
    assert Moved(s.mapInfo[id], Swapped(s, s.mapInfo[id].nRandomPos, |s.vRandom| - 1).mapInfo[id]);
  }

  lemma ClearReady(c: Config, s: State, sl: Slot)
    requires Core(c, s) && sl in s.new_
    ensures s.new_[sl] in s.mapInfo && s.mapInfo[s.new_[sl]].nRefCount > 0 && !s.mapInfo[s.new_[sl]].fInTried
    ensures Index(Vacated(s, sl))
  {
    VacatedCore(c, s, sl);
  }

  /** Counting on from a start, modulo the number of buckets. */
  function Around(n: nat, start: nat, count: nat): (r: nat)
    requires n < count && start < count
    ensures r < count && (r == n + start || r == n + start - count)
  {
    if n + start < count then n + start else n + start - count
  }

  lemma AroundReaches(target: nat, start: nat, count: nat)
    requires target < count && start < count
    ensures exists k: nat | k < count :: Around(k, start, count) == target
  {
    var k := if start <= target then target - start else target - start + count;
    assert Around(k, start, count) == target;
  }

  class CAddrMan {
    const cfg: Config
    var nKey: Key
    var nIdCount: int
    var mapInfo: map<int, Info>
    var mapAddr: map<NetAddr, int>
    var vRandom: seq<int>
    var nTried: int
    const vvTried: array2<int>
    var nNew: int
    const vvNew: array2<int>

    ghost predicate Shaped() {
      && cfg.Valid() && vvTried != vvNew
      && vvTried.Length0 == cfg.triedBuckets && vvTried.Length1 == cfg.bucketSize
      && vvNew.Length0 == cfg.newBuckets && vvNew.Length1 == cfg.bucketSize
    }

    ghost function Abs(): State
      reads this, vvTried, vvNew
    {
      State(nKey, nIdCount, mapInfo, mapAddr, vRandom, nTried, TableOf(vvTried), nNew, TableOf(vvNew))
    }

    ghost predicate Valid()
      reads this, vvTried, vvNew
    {
      Shaped() && Inv(cfg, Abs())
    }

    constructor (cfg: Config, key: Key)
      requires cfg.Valid() && key != 0
      ensures Valid() && fresh(vvTried) && fresh(vvNew) && this.cfg == cfg && Abs() == Empty(key)
    {
      hide Inv, TableOf;
      this.cfg := cfg;
      nKey, nIdCount, mapInfo, mapAddr, vRandom, nTried, nNew := key, 0, map[], map[], [], 0, 0;
      vvTried := new int[cfg.triedBuckets, cfg.bucketSize]((i, j) => -1);
      vvNew := new int[cfg.newBuckets, cfg.bucketSize]((i, j) => -1);
      new;
      NoneOccupied(vvTried);
      NoneOccupied(vvNew);
      EmptyInv(cfg, key);
    }

    method Find(ip: NetAddr) returns (nId: int, found: bool)
      requires Shaped() && Index(Abs())
      ensures found <==> ip in mapAddr
      ensures found ==> nId == mapAddr[ip] && nId in mapInfo && mapInfo[nId].addr.service.ip == ip
    {
      if ip !in mapAddr { return -1, false; }
      nId := mapAddr[ip];
      found := nId in mapInfo;
    }

    /** Find, followed by the comparison of the whole service, port included. */
    method FindExact(service: Service) returns (nId: int, found: bool)
      requires Valid()
      ensures found <==> Known(Abs(), service)
      ensures found ==> nId == mapAddr[service.ip]
    {
      nId, found := Find(service.ip);
      if found && mapInfo[nId].addr.service != service { found := false; }
    }

    method Create(addr: Address, source: NetAddr) returns (nId: int)
      modifies `nIdCount, `mapInfo, `mapAddr, `vRandom
      ensures nId == old(nIdCount) && nIdCount == nId + 1 && Abs() == Created(old(Abs()), addr, source)
    {
      nId := nIdCount;
      nIdCount := nIdCount + 1;
      mapInfo := mapInfo[nId := Info(addr, source, 0, 0, 0, 0, false, -1)];
      mapAddr := mapAddr[addr.service.ip := nId];
      mapInfo := mapInfo[nId := mapInfo[nId].(nRandomPos := |vRandom|)];
      vRandom := vRandom + [nId];
    }

    method SwapRandom(nRndPos1: nat, nRndPos2: nat)
      requires Listed(mapInfo, vRandom) && nRndPos1 < |vRandom| && nRndPos2 < |vRandom|
      modifies `mapInfo, `vRandom
      ensures Abs() == Swapped(old(Abs()), nRndPos1, nRndPos2)
    {
      if nRndPos1 == nRndPos2 { return; }
      var nId1 := vRandom[nRndPos1];
      var nId2 := vRandom[nRndPos2];
      assert nId1 in mapInfo;
      assert nId2 in mapInfo;
      mapInfo := mapInfo[nId1 := mapInfo[nId1].(nRandomPos := nRndPos2)];
      mapInfo := mapInfo[nId2 := mapInfo[nId2].(nRandomPos := nRndPos1)];
      vRandom := vRandom[nRndPos1 := nId2];
      vRandom := vRandom[nRndPos2 := nId1];
    }

    method Delete(nId: int)
      requires Listed(mapInfo, vRandom) && nId in mapInfo && !mapInfo[nId].fInTried && mapInfo[nId].nRefCount == 0
      modifies `mapInfo, `mapAddr, `vRandom, `nNew
      ensures Abs() == Deleted(old(Abs()), nId)
    {
      hide Listed, TableOf, Moved, Swapped;
      ListedReads(Abs(), nId);
      DeleteReady(Abs(), nId);
      SwapRandom(mapInfo[nId].nRandomPos, |vRandom| - 1);
      vRandom := vRandom[..|vRandom| - 1];
      mapAddr := mapAddr - {mapInfo[nId].addr.service.ip};
      mapInfo := mapInfo - {nId};
      nNew := nNew - 1;
    }

    method ClearNew(nUBucket: nat, nUBucketPos: nat)
      requires Shaped() && Core(cfg, Abs()) && nUBucket < cfg.newBuckets && nUBucketPos < cfg.bucketSize
      modifies `mapInfo, `mapAddr, `vRandom, `nNew, vvNew
      ensures Abs() == ClearedNew(old(Abs()), (nUBucket, nUBucketPos))
    {
      hide TableOf;
      PositionIs(vvNew, nUBucket, nUBucketPos);
      if vvNew[nUBucket, nUBucketPos] != -1 {
        var nIdDelete := vvNew[nUBucket, nUBucketPos];
        ClearReady(cfg, Abs(), (nUBucket, nUBucketPos));
        assert mapInfo[nIdDelete].nRefCount > 0;
        Vacate(nUBucket, nUBucketPos, nIdDelete);
        if mapInfo[nIdDelete].nRefCount == 0 { Delete(nIdDelete); }
      }
    }

    method Vacate(nUBucket: nat, nUBucketPos: nat, nIdDelete: int)
      requires vvTried != vvNew && nUBucket < vvNew.Length0 && nUBucketPos < vvNew.Length1
      requires vvNew[nUBucket, nUBucketPos] == nIdDelete != -1 && nIdDelete in mapInfo
      modifies `mapInfo, vvNew
      ensures (nUBucket, nUBucketPos) in old(TableOf(vvNew)) && Abs() == Vacated(old(Abs()), (nUBucket, nUBucketPos))
    {
      hide TableOf;
      PositionIs(vvNew, nUBucket, nUBucketPos);
      mapInfo := mapInfo[nIdDelete := WithRef(mapInfo[nIdDelete], mapInfo[nIdDelete].nRefCount - 1)];
      ClearPosition(vvNew, nUBucket, nUBucketPos);
    }

    /** The loop at the start of MakeTried: the entry leaves every bucket of the new table. */
    method LeaveBuckets(nId: int)
      requires vvNew.Length0 == cfg.newBuckets && vvNew.Length1 == cfg.bucketSize
      requires nId in mapInfo && Sweepable(cfg, Abs(), nId, nKey, mapInfo[nId].addr.service)
      requires Swept(TableOf(vvNew), nId, 0) == TableOf(vvNew) && mapInfo[nId := Leaving(Abs(), nId, 0)] == mapInfo
      modifies `mapInfo, vvNew
      ensures TableOf(vvNew) == old(Swept(TableOf(vvNew), nId, cfg.newBuckets))
      ensures mapInfo == old(mapInfo[nId := Leaving(Abs(), nId, cfg.newBuckets)])
    {
      hide TableOf;
      ghost var s := Abs();
      var service := mapInfo[nId].addr.service;
      for bucket := 0 to cfg.newBuckets
        invariant TableOf(vvNew) == Swept(s.new_, nId, bucket)
        invariant mapInfo == s.mapInfo[nId := Leaving(s, nId, bucket)]
      {
        var pos := cfg.Position(nKey, true, bucket, service);
        assert SweepStep(cfg, s, nId, bucket, (bucket, pos));
        LeaveBucket(nId, bucket, pos);
      }
    }

    method LeaveBucket(nId: int, bucket: nat, pos: nat)
      requires bucket < vvNew.Length0 && pos < vvNew.Length1 && nId in mapInfo && nId >= 0
      modifies `mapInfo, vvNew
      ensures if (bucket, pos) in old(TableOf(vvNew)) && old(TableOf(vvNew))[(bucket, pos)] == nId
              then TableOf(vvNew) == old(TableOf(vvNew)) - {(bucket, pos)} &&
                   mapInfo == old(mapInfo[nId := WithRef(mapInfo[nId], mapInfo[nId].nRefCount - 1)])
              else TableOf(vvNew) == old(TableOf(vvNew)) && mapInfo == old(mapInfo)
    {
      hide TableOf;
      PositionIs(vvNew, bucket, pos);
      if vvNew[bucket, pos] == nId {
        ClearPosition(vvNew, bucket, pos);
        mapInfo := mapInfo[nId := WithRef(mapInfo[nId], mapInfo[nId].nRefCount - 1)];
      }
    }

    method LeaveNew(nId: int)
      requires Shaped() && Core(cfg, Abs()) && nId in mapInfo
      modifies `mapInfo, `nNew, vvNew
      ensures Abs() == Unlisted(old(Abs()), nId)
    {
      hide TableOf, Swept, Leaving, Sweepable, SlotsOf;
      LeavingEnds(cfg, Abs(), nId);
      AllSweepable(cfg, Abs(), nId);
      ghost var s := Abs();
      LeaveBuckets(nId);
      assert TableOf(vvNew) == Unlisted(s, nId).new_;
      assert mapInfo == Unlisted(s, nId).mapInfo;
      nNew := nNew - 1;
    }

    /** The middle of MakeTried: the entry in the way goes back to the new table, deleting whatever is there. */
    method Evict(nKBucket: nat, nKBucketPos: nat)
      requires Shaped() && Core(cfg, Abs()) && nKBucket < cfg.triedBuckets && nKBucketPos < cfg.bucketSize
      requires vvTried[nKBucket, nKBucketPos] != -1
      modifies `mapInfo, `mapAddr, `vRandom, `nNew, `nTried, vvNew, vvTried
      ensures (nKBucket, nKBucketPos) in old(TableOf(vvTried)) &&
              Abs() == MovedBack(cfg, old(Abs()), (nKBucket, nKBucketPos))
    {
      hide TableOf;
      var nIdEvict := vvTried[nKBucket, nKBucketPos];
      PositionIs(vvTried, nKBucket, nKBucketPos);
      EvictedCore(cfg, Abs(), (nKBucket, nKBucketPos));
      LeaveTried(nKBucket, nKBucketPos, nIdEvict);
      Reenter(nIdEvict);
    }

    method LeaveTried(nKBucket: nat, nKBucketPos: nat, nIdEvict: int)
      requires vvTried != vvNew && nKBucket < vvTried.Length0 && nKBucketPos < vvTried.Length1
      requires vvTried[nKBucket, nKBucketPos] == nIdEvict != -1 && nIdEvict in mapInfo
      modifies `mapInfo, `nTried, vvTried
      ensures (nKBucket, nKBucketPos) in old(TableOf(vvTried)) && Abs() == Evicted(old(Abs()), (nKBucket, nKBucketPos))
    {
      hide TableOf;
      PositionIs(vvTried, nKBucket, nKBucketPos);
      mapInfo := mapInfo[nIdEvict := mapInfo[nIdEvict].(fInTried := false)];
      ClearPosition(vvTried, nKBucket, nKBucketPos);
      nTried := nTried - 1;
    }

    method Reenter(nIdEvict: int)
      requires Shaped() && Core(cfg, Abs()) && nIdEvict in mapInfo && !mapInfo[nIdEvict].fInTried &&
               mapInfo[nIdEvict].nRefCount == 0
      modifies `mapInfo, `mapAddr, `vRandom, `nNew, vvNew
      ensures Abs() == Reentered(cfg, old(Abs()), nIdEvict)
    {
      hide TableOf;
      var nUBucket := cfg.NewBucket(nKey, mapInfo[nIdEvict].addr.service, mapInfo[nIdEvict].source);
      var nUBucketPos := cfg.Position(nKey, true, nUBucket, mapInfo[nIdEvict].addr.service);
      ReenterReady(cfg, Abs(), nIdEvict);
      ClearNew(nUBucket, nUBucketPos);
      assert (nUBucket, nUBucketPos) !in TableOf(vvNew);
      TakeSlot(nIdEvict, nUBucket, nUBucketPos);
      nNew := nNew + 1;
    }

    /** One more reference, in a free position. */
    method TakeSlot(nId: int, nUBucket: nat, nUBucketPos: nat)
      requires vvTried != vvNew
      requires nUBucket < vvNew.Length0 && nUBucketPos < vvNew.Length1 && nId in mapInfo && nId >= 0
      requires (nUBucket, nUBucketPos) !in TableOf(vvNew)
      modifies `mapInfo, vvNew
      ensures Abs() == Placed(old(Abs()), nId, (nUBucket, nUBucketPos))
    {
      hide TableOf;
      mapInfo := mapInfo[nId := WithRef(mapInfo[nId], mapInfo[nId].nRefCount + 1)];
      SetPosition(vvNew, nUBucket, nUBucketPos, nId);
    }

    /** The end of MakeTried: the free tried position is taken. */
    method TakeTried(nId: int, nKBucket: nat, nKBucketPos: nat)
      requires vvTried != vvNew
      requires nKBucket < vvTried.Length0 && nKBucketPos < vvTried.Length1 && nId in mapInfo && nId >= 0
      requires (nKBucket, nKBucketPos) !in TableOf(vvTried)
      modifies `mapInfo, `nTried, vvTried
      ensures Abs() == Promoted(old(Abs()), nId, (nKBucket, nKBucketPos))
    {
      hide TableOf;
      SetPosition(vvTried, nKBucket, nKBucketPos, nId);
      nTried := nTried + 1;
      mapInfo := mapInfo[nId := mapInfo[nId].(fInTried := true)];
    }

    method MakeTried(nId: int)
      requires Shaped() && Core(cfg, Abs()) && nId in mapInfo && !mapInfo[nId].fInTried && mapInfo[nId].nRefCount > 0
      modifies `mapInfo, `mapAddr, `vRandom, `nNew, `nTried, vvNew, vvTried
      ensures Abs() == MadeTried(cfg, old(Abs()), nId)
    {
      hide TableOf;
      MakeReady(cfg, Abs(), nId);
      LeaveNew(nId);
      assert mapInfo[nId].nRefCount == 0;
      var nKBucket := cfg.TriedBucket(nKey, mapInfo[nId].addr.service);
      var nKBucketPos := cfg.Position(nKey, false, nKBucket, mapInfo[nId].addr.service);
      PositionIs(vvTried, nKBucket, nKBucketPos);
      if vvTried[nKBucket, nKBucketPos] != -1 { Evict(nKBucket, nKBucketPos); }
      TakeTried(nId, nKBucket, nKBucketPos);
    }

    method Good_(service: Service, nTime: int)
      requires Valid()
      modifies `mapInfo, `mapAddr, `vRandom, `nNew, `nTried, vvNew, vvTried
      ensures Abs() == Gooded(cfg, old(Abs()), service, nTime)
      ensures Valid() <==> nTime > 0 || !old(Known(Abs(), service))
    {
      hide Core, Unreferenced, NewOff, TriedOff, TableOf, Timed;
      ghost var s := Abs();
      GoodInv(cfg, s, service, nTime);
      var nId, found := FindExact(service);
      if !found { return; }
      mapInfo := mapInfo[nId := Succeeded(mapInfo[nId], nTime)];
      if mapInfo[nId].fInTried { return; }
      GoodReady(cfg, s, nId, nTime);
      ghost var has := HasBucket(cfg, Abs(), nId);
      PositionIs(vvNew, has, cfg.Position(nKey, true, has, mapInfo[nId].addr.service));
      var nUBucket := FindBucket(nId, has);
      assert nUBucket != -1;
      MakeTried(nId);
    }

    /** The search of Good_, from a random bucket on; has is a bucket that holds the entry. */
    method FindBucket(nId: int, ghost has: nat) returns (nUBucket: int)
      requires Shaped() && nId in mapInfo && has < cfg.newBuckets
      requires vvNew[has, cfg.Position(nKey, true, has, mapInfo[nId].addr.service)] == nId
      ensures 0 <= nUBucket < cfg.newBuckets
      ensures vvNew[nUBucket, cfg.Position(nKey, true, nUBucket, mapInfo[nId].addr.service)] == nId
    {
      var nRnd: nat :| nRnd < cfg.newBuckets;
      nUBucket := -1;
      for n := 0 to cfg.newBuckets
        invariant forall k | 0 <= k < n :: Around(k, nRnd, cfg.newBuckets) != has
        invariant nUBucket == -1
      {
        var nB := Around(n, nRnd, cfg.newBuckets);
        if vvNew[nB, cfg.Position(nKey, true, nB, mapInfo[nId].addr.service)] == nId {
          nUBucket := nB;
          break;
        }
      }
      if nUBucket == -1 { AroundReaches(has, nRnd, cfg.newBuckets); }
    }

    method Attempt_(service: Service, nTime: int)
      requires Valid()
      modifies `mapInfo
      ensures Abs() == Attempted(old(Abs()), service, nTime)
      ensures Valid() <==> nTime >= 0 || !old(Known(Abs(), service))
    {
      hide Inv;
      AttemptInv(cfg, Abs(), service, nTime);
      var nId, found := FindExact(service);
      if !found { return; }
      mapInfo := mapInfo[nId := TriedAgain(mapInfo[nId], nTime)];
    }

    method Connected_(service: Service, nTime: int)
      requires Valid()
      modifies `mapInfo
      ensures Valid() && Abs() == ConnectedTo(old(Abs()), service, nTime)
    {
      hide Inv;
      ConnectedInv(cfg, Abs(), service, nTime);
      var nId, found := FindExact(service);
      if !found { return; }
      var nUpdateInterval := 20 * 60;
      if nTime - mapInfo[nId].addr.nTime > nUpdateInterval {
        mapInfo := mapInfo[nId := mapInfo[nId].(addr := mapInfo[nId].addr.(nTime := nTime))];
      }
    }

    /**
      The clock is read twice, as nNow and nLater; the random test reduces random to
      a number below the factor. An address that cannot be routed to is refused.
     */
    method Add_(addr: Address, routable: bool, source: NetAddr, nTimePenalty: int, nNow: int, nLater: int, random: nat)
      returns (fNew: bool)
      requires Valid()
      modifies `nIdCount, `mapInfo, `mapAddr, `vRandom, `nNew, vvNew
      ensures Valid()
      ensures fNew <==> routable && addr.service.ip !in old(mapAddr)
      ensures Abs() == if routable then Added(cfg, old(Abs()), addr, source, nTimePenalty, nNow, nLater, random)
              else old(Abs())
    {
      if !routable { return false; }
      AddInv(cfg, Abs(), addr, source, nTimePenalty, nNow, nLater, random);
      var nId, found := Find(addr.service.ip);
      if found {
        AddKnown(nId, addr, source, nTimePenalty, nNow, nLater, random);
      } else {
        AddUnknown(addr, source, nTimePenalty, nNow, nLater, random);
      }
      fNew := !found;
    }

    method AddKnown(nId: int, addr: Address, source: NetAddr, nTimePenalty: int, nNow: int, nLater: int, random: nat)
      requires Valid() && addr.service.ip in mapAddr && mapAddr[addr.service.ip] == nId
      modifies `mapInfo, `mapAddr, `vRandom, `nNew, vvNew
      ensures Abs() == Added(cfg, old(Abs()), addr, source, nTimePenalty, nNow, nLater, random)
    {
      RefreshedInv(cfg, Abs(), nId, addr, nTimePenalty, nNow);
      Refresh(nId, addr, nTimePenalty, nNow);
      var more := AsksForMore(nId, addr, random);
      if !more { return; }
      Enter(nId, source, nLater);
    }

    method AddUnknown(addr: Address, source: NetAddr, nTimePenalty: int, nNow: int, nLater: int, random: nat)
      requires Valid() && addr.service.ip !in mapAddr
      modifies `nIdCount, `mapInfo, `mapAddr, `vRandom, `nNew, vvNew
      ensures Abs() == Added(cfg, old(Abs()), addr, source, nTimePenalty, nNow, nLater, random)
    {
      IntroducedCore(cfg, Abs(), addr, source, nTimePenalty);
      var nId := Introduce(addr, source, nTimePenalty);
      Enter(nId, source, nLater);
    }

    method Introduce(addr: Address, source: NetAddr, nTimePenalty: int) returns (nId: int)
      modifies `nIdCount, `mapInfo, `mapAddr, `vRandom, `nNew
      ensures nId == old(nIdCount) && Abs() == Introduced(old(Abs()), addr, source, nTimePenalty)
    {
      nId := Create(addr, source);
      var info := mapInfo[nId];
      mapInfo := mapInfo[nId := info.(addr := info.addr.(nTime := Max(0, info.addr.nTime - nTimePenalty)))];
      nNew := nNew + 1;
    }

    method Refresh(nId: int, addr: Address, nTimePenalty: int, nNow: int)
      requires nId in mapInfo
      modifies `mapInfo
      ensures mapInfo == old(mapInfo[nId := Refreshed(mapInfo[nId], addr, nTimePenalty, nNow)])
    {
      var fCurrentlyOnline := nNow - addr.nTime < 24 * 60 * 60;
      var nUpdateInterval := if fCurrentlyOnline then 60 * 60 else 24 * 60 * 60;
      var info := mapInfo[nId];
      if addr.nTime != 0 && (info.addr.nTime == 0 || info.addr.nTime < addr.nTime - nUpdateInterval - nTimePenalty) {
        info := info.(addr := info.addr.(nTime := Max(0, addr.nTime - nTimePenalty)));
      }
      info := info.(addr := info.addr.(services := info.addr.services + addr.services));
      mapInfo := mapInfo[nId := info];
    }

    /** The tests between the update and the insertion; the random test gets twice as hard with every reference. */
    method AsksForMore(nId: int, addr: Address, random: nat) returns (more: bool)
      requires nId in mapInfo
      ensures more == WantsMore(cfg, mapInfo[nId], addr, random)
      ensures var info := mapInfo[nId];
        more <==> addr.nTime != 0 && (info.addr.nTime == 0 || addr.nTime > info.addr.nTime) && !info.fInTried &&
                  info.nRefCount != cfg.perAddress && random % Pow2(Max(0, info.nRefCount)) == 0
    {
      var info := mapInfo[nId];
      FactorIs(info.nRefCount);
      if addr.nTime == 0 || (info.addr.nTime != 0 && addr.nTime <= info.addr.nTime) { return false; }
      if info.fInTried { return false; }
      if info.nRefCount == cfg.perAddress { return false; }
      var nFactor := 1;
      var n := 0;
      while n < info.nRefCount
        invariant 0 <= n <= Max(0, info.nRefCount) && nFactor == Factor(n)
      {
        nFactor := nFactor * 2;
        n := n + 1;
      }
      if nFactor > 1 && random % nFactor != 0 { return false; }
      return true;
    }

    method Enter(nId: int, source: NetAddr, nNow: int)
      requires Shaped() && Core(cfg, Abs()) && nId in mapInfo && !mapInfo[nId].fInTried
      modifies `mapInfo, `mapAddr, `vRandom, `nNew, vvNew
      ensures Abs() == Entered(cfg, old(Abs()), nId, old(NewSlot(cfg, nKey, mapInfo[nId].addr.service, source)), nNow)
    {
      hide TableOf;
      var nUBucket := cfg.NewBucket(nKey, mapInfo[nId].addr.service, source);
      var nUBucketPos := cfg.Position(nKey, true, nUBucket, mapInfo[nId].addr.service);
      EnterReady(cfg, Abs(), nId, (nUBucket, nUBucketPos));
      PositionIs(vvNew, nUBucket, nUBucketPos);
      if vvNew[nUBucket, nUBucketPos] != nId {
        var fInsert := vvNew[nUBucket, nUBucketPos] == -1;
        if !fInsert {
          var infoExisting := mapInfo[vvNew[nUBucket, nUBucketPos]];
          if IsTerrible(infoExisting, nNow) || (infoExisting.nRefCount > 1 && mapInfo[nId].nRefCount == 0) {
            fInsert := true;
          }
        }
        if fInsert {
          ClearNew(nUBucket, nUBucketPos);
          TakeSlot(nId, nUBucket, nUBucketPos);
        } else if mapInfo[nId].nRefCount == 0 {
          Delete(nId);
        }
      }
    }

    /**
      A random selection: at most 23 of every hundred entries and at most 2500, none of
      them terrible, each of them once; if there are fewer, no good one was left out.
     */
    method GetAddr_(nNow: int) returns (vAddr: seq<Address>)
      requires Valid()
      modifies `mapInfo, `vRandom
      ensures Valid() && AllMoved(old(mapInfo), mapInfo) && Abs() == old(Abs()).(mapInfo := mapInfo, vRandom := vRandom)
      ensures |vAddr| <= 23 * |vRandom| / 100 && |vAddr| <= 2500
      ensures forall i | 0 <= i < |vAddr| :: Offers(Abs(), vAddr[i], nNow)
      ensures forall i, j | 0 <= i < j < |vAddr| :: vAddr[i].service.ip != vAddr[j].service.ip
      ensures |vAddr| < 23 * |vRandom| / 100 && |vAddr| < 2500 ==>
        forall id | id in mapInfo && !IsTerrible(mapInfo[id], nNow) :: mapInfo[id].addr in vAddr
    {
      hide Tables, Refs, Listed, Reverse, Unreferenced, Timed, GoodOnes, AllMoved, TableOf;
      var nNodes := 23 * |vRandom| / 100;
      if nNodes > 2500 { nNodes := 2500; }
      Runs.Sizes(cfg, Abs());
      ghost var n;
      vAddr, n := Gather(nNodes, nNow);
      Runs.Sizes(cfg, Abs());
      SameSize(old(mapInfo), mapInfo);
      GoodOnesOffered(cfg, Abs(), n, nNow);
      assert forall i | 0 <= i < |vAddr| :: OffersBelow(Abs(), vAddr[i], n, nNow);
      if n == |vRandom| { GoodOnesAll(cfg, Abs(), nNow); }
    }

    method Gather(nNodes: nat, nNow: int) returns (vAddr: seq<Address>, ghost n: nat)
      requires Valid()
      modifies `mapInfo, `vRandom
      ensures Valid() && AllMoved(old(mapInfo), mapInfo)
      ensures n <= |vRandom| && (forall i | 0 <= i < n :: vRandom[i] in mapInfo) &&
              vAddr == GoodOnes(mapInfo, vRandom, n, nNow)
      ensures |vAddr| <= nNodes && (n == |vRandom| || |vAddr| == nNodes)
    {
      hide Inv, TableOf, AllMoved, GoodOnes, IsTerrible;
      vAddr := [];
      var k := 0;
      GatheredNone(mapInfo, vRandom, nNow);
      while k < |vRandom|
        invariant 0 <= k <= |vRandom| && |vAddr| <= nNodes && forall i | 0 <= i < k :: vRandom[i] in mapInfo
        invariant Valid() && AllMoved(old(mapInfo), mapInfo)
        invariant vAddr == GoodOnes(mapInfo, vRandom, k, nNow)
        decreases |vRandom| - k
      {
        if |vAddr| >= nNodes { break; }
        vAddr := PickAt(k, old(mapInfo), vAddr, nNow);
        k := k + 1;
      }
      n := k;
    }

    /** A random later place is swapped into place n, and its entry gathered unless it is terrible. */
    method PickAt(n: nat, ghost first: map<int, Info>, vAddr: seq<Address>, nNow: int) returns (more: seq<Address>)
      requires Valid() && n < |vRandom| && AllMoved(first, mapInfo)
      requires vAddr == GoodOnes(mapInfo, vRandom, n, nNow)
      modifies `mapInfo, `vRandom
      ensures Valid() && AllMoved(first, mapInfo) && |vRandom| == |old(vRandom)|
      ensures forall i | 0 <= i <= n :: vRandom[i] in mapInfo
      ensures more == GoodOnes(mapInfo, vRandom, n + 1, nNow) && |more| <= |vAddr| + 1
    {
      var nRndPos: nat :| n <= nRndPos < |vRandom|;
      GetAddrStep(cfg, Abs(), first, n, nRndPos, nNow);
      SwapRandom(n, nRndPos);
      assert vRandom[n] in mapInfo;
      var ai := mapInfo[vRandom[n]];
      more := if !IsTerrible(ai, nNow) then vAddr + [ai.addr] else vAddr;
    }
  }
}
