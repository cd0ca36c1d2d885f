/**
  The address manager as a value, and its consistency: the id map, the reverse
  map, the random vector and the bucket tables with their reference counts.
  Hashes are parameters; only their reduction to the table sizes is fixed.
 */
module AddrManState {
  import opened Util

  type NetAddr = nat
  type Key = nat

  datatype Service = Service(ip: NetAddr, port: nat)

  datatype Address = Address(service: Service, services: set<nat>, nTime: int)

  datatype Info = Info(addr: Address, source: NetAddr, nLastSuccess: int, nLastTry: int, nAttempts: int,
                       nRefCount: int, fInTried: bool, nRandomPos: int)

  /** Table sizes, the limit on references per address, and the keyed bucket hashes with their ranges. */
  datatype Config = Config(
    newBuckets: nat, triedBuckets: nat, bucketSize: nat, perAddress: nat,
    NewBucket: (Key, Service, NetAddr) -> nat,
    TriedBucket: (Key, Service) -> nat,
    Position: (Key, bool, nat, Service) -> nat)
  {
    ghost predicate Valid() {
      && perAddress > 0
      && (forall key, service, source :: NewBucket(key, service, source) < newBuckets)
      && (forall key, service :: TriedBucket(key, service) < triedBuckets)
      && (forall key, fNew, bucket, service :: Position(key, fNew, bucket, service) < bucketSize)
    }
  }

  type Slot = (nat, nat)
  type Table = map<Slot, int>     // occupied slots only; -1 in the program means absent

  datatype State = State(key: Key, nIdCount: int, mapInfo: map<int, Info>, mapAddr: map<NetAddr, int>,
                         vRandom: seq<int>,
                         nTried: int, tried: Table, nNew: int, new_: Table)

  function TriedSlot(c: Config, key: Key, service: Service): Slot {
    var b := c.TriedBucket(key, service);
    (b, c.Position(key, false, b, service))
  }

  function NewSlot(c: Config, key: Key, service: Service, source: NetAddr): Slot {
    var b := c.NewBucket(key, service, source);
    (b, c.Position(key, true, b, service))
  }

  // ----- the invariant -----

  /** Slots of a table that hold an id. */
  function SlotsOf(t: Table, id: int): set<Slot> { set sl: Slot | sl in t && t[sl] == id }

  /** Positions a bucket-by-bucket walk has passed when it stands at position i of bucket n. */
  predicate Before(sl: Slot, n: nat, i: nat) { sl.0 < n || (sl.0 == n && sl.1 < i) }

  function TriedIds(m: map<int, Info>): set<int> { set id | id in m && m[id].fInTried }

  function NewIds(m: map<int, Info>): set<int> { set id | id in m && !m[id].fInTried }

  /** vRandom lists every id once, and every entry knows its place in it. */
  ghost predicate Listed(m: map<int, Info>, v: seq<int>) {
    && (forall id | id in m :: 0 <= m[id].nRandomPos < |v| && v[m[id].nRandomPos] == id)
    && (forall i | 0 <= i < |v| :: v[i] in m && m[v[i]].nRandomPos == i)
  }

  /** mapAddr leads from every entry's network address to its id, and nowhere else. */
  ghost predicate Reverse(m: map<int, Info>, a: map<NetAddr, int>) {
    && (forall id | id in m :: m[id].addr.service.ip in a && a[m[id].addr.service.ip] == id)
    && (forall ip | ip in a :: a[ip] in m && m[a[ip]].addr.service.ip == ip)
  }

  ghost predicate Ids(m: map<int, Info>, n: int) { n >= 0 && forall id | id in m :: 0 <= id < n }

  /** mapInfo, mapAddr and vRandom describe one and the same collection. */
  ghost predicate Index(s: State) {
    Ids(s.mapInfo, s.nIdCount) && Listed(s.mapInfo, s.vRandom) && Reverse(s.mapInfo, s.mapAddr)
  }

  /** Every occupied slot holds an entry that belongs there. */
  ghost predicate Tables(c: Config, s: State)
  {
    && (forall sl: Slot | sl in s.new_ ::
          && s.new_[sl] in s.mapInfo && !s.mapInfo[s.new_[sl]].fInTried
          && sl.0 < c.newBuckets && sl.1 == c.Position(s.key, true, sl.0, s.mapInfo[s.new_[sl]].addr.service))
    && (forall sl: Slot | sl in s.tried ::
          && s.tried[sl] in s.mapInfo && s.mapInfo[s.tried[sl]].fInTried
          && sl == TriedSlot(c, s.key, s.mapInfo[s.tried[sl]].addr.service))
  }

  /** Reference counts are slot counts, within the limit; a tried entry sits in its one slot. */
  ghost predicate Refs(c: Config, s: State)
  {
    forall id | id in s.mapInfo :: RefOk(c, s, id, s.mapInfo[id])
  }

  ghost predicate RefOk(c: Config, s: State, id: int, info: Info)
  {
    if info.fInTried then
      && info.nRefCount == 0
      && TriedSlot(c, s.key, info.addr.service) in s.tried && s.tried[TriedSlot(c, s.key, info.addr.service)] == id
    else info.nRefCount == |SlotsOf(s.new_, id)| <= c.perAddress
  }

  /** The times an entry may carry: none is negative, and one in tried has been reached. */
  predicate TimesOk(info: Info) {
    info.nLastTry >= 0 && info.nLastSuccess >= 0 && (info.fInTried ==> info.nLastSuccess != 0)
  }

  ghost predicate Timed(m: map<int, Info>) { forall id | id in m :: TimesOk(m[id]) }

  /** What holds at every point between the steps of an operation. */
  ghost predicate Core(c: Config, s: State)
  {
    Index(s) && Tables(c, s) && Refs(c, s)
  }

  /** Entries outside tried that no slot refers to; none between operations. */
  function Unreferenced(m: map<int, Info>): set<int> { set id | id in m && !m[id].fInTried && m[id].nRefCount == 0 }

  /** How far the counters are off, inside an operation. */
  function NewOff(s: State): int { s.nNew - |NewIds(s.mapInfo)| }

  function TriedOff(s: State): int { s.nTried - |TriedIds(s.mapInfo)| }

  /** What holds between operations, whatever times they are given. */
  ghost predicate Sound(c: Config, s: State) {
    Core(c, s) && Unreferenced(s.mapInfo) == {} && NewOff(s) == 0 && TriedOff(s) == 0 && s.key != 0
  }

  /** Everything the program's own consistency check looks for. */
  ghost predicate Inv(c: Config, s: State) { Sound(c, s) && Timed(s.mapInfo) }

  function Empty(key: Key): State { State(key, 0, map[], map[], [], 0, map[], 0, map[]) }

  lemma EmptyInv(c: Config, key: Key)
    requires key != 0
    ensures Inv(c, Empty(key))
  {
  }

  // ----- small facts about tables -----

  lemma SlotsRemove(t: Table, sl: Slot, id: int)
    ensures SlotsOf(t - {sl}, id) == SlotsOf(t, id) - {sl}
  {
  }

  lemma SlotsAdd(t: Table, sl: Slot, id: int, other: int)
    requires sl !in t
    ensures SlotsOf(t[sl := id], other) == SlotsOf(t, other) + if other == id then {sl} else {}
  {
  }

  lemma SlotCountAdd(t: Table, sl: Slot, id: int, other: int)
    requires sl !in t
    ensures |SlotsOf(t[sl := id], other)| == |SlotsOf(t, other)| + if other == id then 1 else 0
  {
    SlotsAdd(t, sl, id, other);
    assert sl !in SlotsOf(t, other);
  }

  lemma NewIdsUpdate(m: map<int, Info>, id: int, info: Info)
    requires id in m
    ensures NewIds(m[id := info]) == NewIds(m) - {id} + if info.fInTried then {} else {id}
    ensures TriedIds(m[id := info]) == TriedIds(m) - {id} + if info.fInTried then {id} else {}
  {
  }

  lemma NewIdsRemove(m: map<int, Info>, id: int)
    ensures NewIds(m - {id}) == NewIds(m) - {id} && TriedIds(m - {id}) == TriedIds(m) - {id}
  {
  }

  /** Fields other than nRandomPos and the statistics: what tables and counts depend on. */
  predicate SameRefs(a: Info, b: Info) {
    && a.addr.service == b.addr.service && a.nRefCount == b.nRefCount && a.fInTried == b.fInTried
  }

  ghost predicate SameEntries(m: map<int, Info>, k: map<int, Info>) {
    (forall id :: id in m <==> id in k) && forall id | id in m :: SameRefs(m[id], k[id])
  }

  // ----- Create -----

  function Created(s: State, addr: Address, source: NetAddr): State {
    s.(nIdCount := s.nIdCount + 1,
       mapInfo := s.mapInfo[s.nIdCount := Info(addr, source, 0, 0, 0, 0, false, |s.vRandom|)],
       mapAddr := s.mapAddr[addr.service.ip := s.nIdCount],
       vRandom := s.vRandom + [s.nIdCount])
  }

  lemma CreatedListed(m: map<int, Info>, v: seq<int>, id: int, info: Info)
    requires Listed(m, v) && id !in m && info.nRandomPos == |v|
    ensures Listed(m[id := info], v + [id])
  {
  }

  lemma CreatedReverse(m: map<int, Info>, a: map<NetAddr, int>, id: int, info: Info)
    requires Reverse(m, a) && id !in m && info.addr.service.ip !in a
    ensures Reverse(m[id := info], a[info.addr.service.ip := id])
  {
  }

  lemma CreatedTables(c: Config, s: State, id: int, info: Info)
    requires Tables(c, s) && Refs(c, s) && id !in s.mapInfo
    requires !info.fInTried && info.nRefCount == 0
    ensures var r := s.(mapInfo := s.mapInfo[id := info]);
            Tables(c, r) && Refs(c, r) && NewIds(r.mapInfo) == NewIds(s.mapInfo) + {id} &&
            TriedIds(r.mapInfo) == TriedIds(s.mapInfo) &&
            Unreferenced(r.mapInfo) == Unreferenced(s.mapInfo) + {id}
  {
    var r := s.(mapInfo := s.mapInfo[id := info]);
    assert SlotsOf(s.new_, id) == {};
    forall i | i in r.mapInfo ensures RefOk(c, r, i, r.mapInfo[i]) {
      if i != id { assert RefOk(c, s, i, s.mapInfo[i]); }
    }
  }

  /** Tables and counts look only at the key, the entries and the tables. */
  lemma SameParts(c: Config, s: State, r: State)
    requires Tables(c, s) && Refs(c, s) && r.key == s.key && r.mapInfo == s.mapInfo && r.new_ == s.new_ &&
             r.tried == s.tried
    ensures Tables(c, r) && Refs(c, r)
  {
    forall id | id in r.mapInfo ensures RefOk(c, r, id, r.mapInfo[id]) { assert RefOk(c, s, id, s.mapInfo[id]); }
  }

  lemma CreatedCore(c: Config, s: State, addr: Address, source: NetAddr)
    requires Core(c, s) && addr.service.ip !in s.mapAddr
    ensures Core(c, Created(s, addr, source)) && s.nIdCount !in s.mapInfo
    ensures Unreferenced(Created(s, addr, source).mapInfo) == Unreferenced(s.mapInfo) + {s.nIdCount}
    ensures NewOff(Created(s, addr, source)) == NewOff(s) - 1 && TriedOff(Created(s, addr, source)) == TriedOff(s)
  {
    var id := s.nIdCount;
    var info := Info(addr, source, 0, 0, 0, 0, false, |s.vRandom|);
    CreatedListed(s.mapInfo, s.vRandom, id, info);
    CreatedReverse(s.mapInfo, s.mapAddr, id, info);
    CreatedTables(c, s, id, info);
    SameParts(c, s.(mapInfo := s.mapInfo[id := info]), Created(s, addr, source));
  }

  // ----- SwapRandom -----

  function Swapped(s: State, i: nat, j: nat): State
    requires i < |s.vRandom| && j < |s.vRandom| && s.vRandom[i] in s.mapInfo && s.vRandom[j] in s.mapInfo
  {
    if i == j then s
    else
      var id1, id2 := s.vRandom[i], s.vRandom[j];
      var m := s.mapInfo[id1 := s.mapInfo[id1].(nRandomPos := j)];
      s.(mapInfo := m[id2 := m[id2].(nRandomPos := i)], vRandom := s.vRandom[i := id2][j := id1])
  }

  /** The same entry at a different place in vRandom. */
  predicate Moved(a: Info, b: Info) { a == b.(nRandomPos := a.nRandomPos) }

  lemma SameSets(m: map<int, Info>, k: map<int, Info>)
    requires SameEntries(m, k)
    ensures NewIds(k) == NewIds(m) && TriedIds(k) == TriedIds(m) && Unreferenced(k) == Unreferenced(m)
  {
    forall id | id in m || id in k
      ensures id in m && id in k && m[id].fInTried == k[id].fInTried && m[id].nRefCount == k[id].nRefCount
    {
      assert id in m && SameRefs(m[id], k[id]);
    }
  }

  ghost predicate AllMoved(m: map<int, Info>, k: map<int, Info>) {
    (forall id :: id in m <==> id in k) && forall id | id in m :: Moved(m[id], k[id])
  }

  lemma SwappedListed(s: State, i: nat, j: nat)
    requires Listed(s.mapInfo, s.vRandom) && i < |s.vRandom| && j < |s.vRandom|
    ensures var r := Swapped(s, i, j);
            |r.vRandom| == |s.vRandom| && Listed(r.mapInfo, r.vRandom) && AllMoved(s.mapInfo, r.mapInfo) &&
            r.vRandom[i] == s.vRandom[j] && r.vRandom[j] == s.vRandom[i]
  {
    if i != j {
      var r := Swapped(s, i, j);
      var id1, id2 := s.vRandom[i], s.vRandom[j];
      assert s.mapInfo[id1].nRandomPos == i && s.mapInfo[id2].nRandomPos == j;
      forall k | 0 <= k < |r.vRandom| ensures r.vRandom[k] in r.mapInfo && r.mapInfo[r.vRandom[k]].nRandomPos == k {
        assert s.vRandom[k] in s.mapInfo && s.mapInfo[s.vRandom[k]].nRandomPos == k;
      }
      forall id | id in r.mapInfo
        ensures 0 <= r.mapInfo[id].nRandomPos < |r.vRandom| && r.vRandom[r.mapInfo[id].nRandomPos] == id
      {
        assert s.vRandom[s.mapInfo[id].nRandomPos] == id;
      }
    }
  }

  lemma MovedReverse(m: map<int, Info>, k: map<int, Info>, a: map<NetAddr, int>)
    requires Reverse(m, a) && AllMoved(m, k)
    ensures Reverse(k, a)
  {
    forall ip | ip in a ensures a[ip] in k && k[a[ip]].addr.service.ip == ip {
      var id := a[ip];
      assert id in m && m[id].addr.service.ip == ip;
      assert id in k && Moved(m[id], k[id]);
    }
    forall id | id in k ensures k[id].addr.service.ip in a && a[k[id].addr.service.ip] == id {
      assert Moved(m[id], k[id]);
    }
  }

  lemma SwappedIndex(s: State, i: nat, j: nat)
    requires Index(s) && i < |s.vRandom| && j < |s.vRandom|
    ensures var r := Swapped(s, i, j);
            |r.vRandom| == |s.vRandom| && Index(r) && AllMoved(s.mapInfo, r.mapInfo) && r.vRandom[i] == s.vRandom[j] &&
            r.vRandom[j] == s.vRandom[i]
  {
    SwappedListed(s, i, j);
    MovedReverse(s.mapInfo, Swapped(s, i, j).mapInfo, s.mapAddr);
  }

  /** Moving entries in vRandom concerns no table and no count. */
  lemma MovedKeeps(c: Config, s: State, r: State)
    requires Tables(c, s) && Refs(c, s) && AllMoved(s.mapInfo, r.mapInfo)
    requires r.key == s.key && r.new_ == s.new_ && r.tried == s.tried
    ensures Tables(c, r) && Refs(c, r)
    ensures NewIds(r.mapInfo) == NewIds(s.mapInfo) && TriedIds(r.mapInfo) == TriedIds(s.mapInfo)
    ensures Unreferenced(r.mapInfo) == Unreferenced(s.mapInfo)
  {
    forall id | id in s.mapInfo ensures id in r.mapInfo && SameRefs(s.mapInfo[id], r.mapInfo[id]) {
      assert id in r.mapInfo && Moved(s.mapInfo[id], r.mapInfo[id]);
    }
    assert forall id | id in s.mapInfo ::
        r.mapInfo[id].addr.service == s.mapInfo[id].addr.service && r.mapInfo[id].fInTried == s.mapInfo[id].fInTried;
    forall id | id in r.mapInfo ensures RefOk(c, r, id, r.mapInfo[id]) { assert RefOk(c, s, id, s.mapInfo[id]); }
    SameSets(s.mapInfo, r.mapInfo);
  }

  lemma SwappedCore(c: Config, s: State, i: nat, j: nat)
    requires Core(c, s) && i < |s.vRandom| && j < |s.vRandom|
    ensures Core(c, Swapped(s, i, j)) && SameEntries(s.mapInfo, Swapped(s, i, j).mapInfo)
  {
    hide Reverse, Ids, Tables, Refs, AllMoved, SameEntries;
    SwappedIndex(s, i, j);
    MovedKeeps(c, s, Swapped(s, i, j));
    MovedSame(s.mapInfo, Swapped(s, i, j).mapInfo);
  }

  lemma MovedSame(m: map<int, Info>, k: map<int, Info>)
    requires AllMoved(m, k)
    ensures SameEntries(m, k)
  {
    forall id | id in m ensures SameRefs(m[id], k[id]) { assert Moved(m[id], k[id]); }
  }

  // ----- Delete -----

  function Deleted(s: State, id: int): State
    requires id in s.mapInfo && 0 <= s.mapInfo[id].nRandomPos < |s.vRandom|
    requires s.vRandom[s.mapInfo[id].nRandomPos] in s.mapInfo && s.vRandom[|s.vRandom| - 1] in s.mapInfo
  {
    var r := Swapped(s, s.mapInfo[id].nRandomPos, |s.vRandom| - 1);
    r.(vRandom := r.vRandom[..|r.vRandom| - 1], mapAddr := r.mapAddr - {s.mapInfo[id].addr.service.ip},
       mapInfo := r.mapInfo - {id}, nNew := r.nNew - 1)
  }

  lemma PoppedListed(m: map<int, Info>, v: seq<int>)
    requires Listed(m, v) && v != []
    ensures Listed(m - {v[|v| - 1]}, v[..|v| - 1])
  {
    var id := v[|v| - 1];
    forall i | 0 <= i < |v| - 1 ensures v[i] in m - {id} && (m - {id})[v[i]].nRandomPos == i {
      assert m[v[i]].nRandomPos == i;
    }
    forall j | j in m - {id} ensures 0 <= m[j].nRandomPos < |v| - 1 && v[m[j].nRandomPos] == j {
      assert v[m[j].nRandomPos] == j;
    }
  }

  lemma PoppedReverse(m: map<int, Info>, a: map<NetAddr, int>, id: int)
    requires Reverse(m, a) && id in m
    ensures Reverse(m - {id}, a - {m[id].addr.service.ip})
  {
  }

  lemma MovedMinus(m: map<int, Info>, k: map<int, Info>, id: int)
    requires AllMoved(m, k)
    ensures AllMoved(m - {id}, k - {id})
  {
  }

  /** The entry to delete, swapped to the end. */
  lemma DeleteSwaps(s: State, id: int)
    requires Index(s) && id in s.mapInfo
    ensures 0 <= s.mapInfo[id].nRandomPos < |s.vRandom|
    ensures var q := Swapped(s, s.mapInfo[id].nRandomPos, |s.vRandom| - 1);
            && Index(q) && AllMoved(s.mapInfo, q.mapInfo) && |q.vRandom| == |s.vRandom| &&
               q.vRandom[|q.vRandom| - 1] == id
            && id in q.mapInfo && q.mapInfo[id].addr == s.mapInfo[id].addr
  {
    hide Reverse, Swapped, Ids;
    assert 0 <= s.mapInfo[id].nRandomPos < |s.vRandom| && s.vRandom[s.mapInfo[id].nRandomPos] == id;
    var q := Swapped(s, s.mapInfo[id].nRandomPos, |s.vRandom| - 1);
    SwappedIndex(s, s.mapInfo[id].nRandomPos, |s.vRandom| - 1);
    assert Moved(s.mapInfo[id], q.mapInfo[id]);
  }

  lemma DeletedIndex(s: State, id: int)
    requires Index(s) && id in s.mapInfo
    ensures Index(Deleted(s, id)) && AllMoved(s.mapInfo - {id}, Deleted(s, id).mapInfo)
  {
    hide AllMoved, Reverse;
    var q := Swapped(s, s.mapInfo[id].nRandomPos, |s.vRandom| - 1);
    DeleteSwaps(s, id);
    PoppedListed(q.mapInfo, q.vRandom);
    PoppedReverse(q.mapInfo, q.mapAddr, id);
    MovedMinus(s.mapInfo, q.mapInfo, id);
  }

  /** Dropping an entry no slot holds. */
  lemma DroppedKeeps(c: Config, s: State, id: int)
    requires Tables(c, s) && Refs(c, s) && id in s.mapInfo && !s.mapInfo[id].fInTried && s.mapInfo[id].nRefCount == 0
    ensures var r := s.(mapInfo := s.mapInfo - {id});
            Tables(c, r) && Refs(c, r) && |NewIds(r.mapInfo)| == |NewIds(s.mapInfo)| - 1 &&
            TriedIds(r.mapInfo) == TriedIds(s.mapInfo) &&
            Unreferenced(r.mapInfo) == Unreferenced(s.mapInfo) - {id}
  {
    var r := s.(mapInfo := s.mapInfo - {id});
    assert RefOk(c, s, id, s.mapInfo[id]);
    assert SlotsOf(s.new_, id) == {};
    forall i | i in r.mapInfo ensures RefOk(c, r, i, r.mapInfo[i]) { assert RefOk(c, s, i, s.mapInfo[i]); }
    forall sl: Slot | sl in r.new_ ensures r.new_[sl] != id {
      assert sl !in SlotsOf(s.new_, id);
    }
    NewIdsRemove(s.mapInfo, id);
    assert id in NewIds(s.mapInfo);
  }

  lemma DeletedCore(c: Config, s: State, id: int)
    requires Core(c, s) && id in s.mapInfo && !s.mapInfo[id].fInTried && s.mapInfo[id].nRefCount == 0
    ensures Core(c, Deleted(s, id)) && AllMoved(s.mapInfo - {id}, Deleted(s, id).mapInfo)
    ensures NewOff(Deleted(s, id)) == NewOff(s) && TriedOff(Deleted(s, id)) == TriedOff(s)
    ensures Unreferenced(Deleted(s, id).mapInfo) == Unreferenced(s.mapInfo) - {id}
  {
    hide Index, Tables, Refs, AllMoved, Deleted, NewIds, TriedIds, Unreferenced;
    IndexReads(s, id);
    DeletedIndex(s, id);
    DeletedRest(s, id);
    DroppedKeeps(c, s, id);
    MovedKeeps(c, s.(mapInfo := s.mapInfo - {id}), Deleted(s, id));
  }

  /** What deleting an entry takes for granted. */
  lemma ListedReads(s: State, id: int)
    requires Listed(s.mapInfo, s.vRandom) && id in s.mapInfo
    ensures 0 <= s.mapInfo[id].nRandomPos < |s.vRandom|
    ensures s.vRandom[s.mapInfo[id].nRandomPos] == id && s.vRandom[|s.vRandom| - 1] in s.mapInfo
  {
  }

  lemma IndexReads(s: State, id: int)
    requires Index(s) && id in s.mapInfo
    ensures 0 <= s.mapInfo[id].nRandomPos < |s.vRandom|
    ensures s.vRandom[s.mapInfo[id].nRandomPos] == id && s.vRandom[|s.vRandom| - 1] in s.mapInfo
  {
    ListedReads(s, id);
  }

  lemma DeletedRest(s: State, id: int)
    requires Index(s) && id in s.mapInfo
    ensures var r := Deleted(s, id);
            && r.tried == s.tried && r.new_ == s.new_ && r.key == s.key
            && r.nTried == s.nTried && r.nNew == s.nNew - 1
  {
  }

  // ----- changing one entry -----

  function WithInfo(s: State, id: int, info: Info): State { s.(mapInfo := s.mapInfo[id := info]) }

  /** Statistics, services and times may change freely. */
  predicate StatsOnly(a: Info, b: Info) {
    SameRefs(a, b) && a.nRandomPos == b.nRandomPos && a.source == b.source
  }

  lemma StatsKeepIndex(s: State, id: int, info: Info)
    requires Index(s) && id in s.mapInfo && info.addr.service == s.mapInfo[id].addr.service &&
             info.nRandomPos == s.mapInfo[id].nRandomPos
    ensures Index(WithInfo(s, id, info))
  {
  }

  /** A change that keeps counts, flags and place leaves tables and sets as they are. */
  lemma StatsKeepTables(c: Config, s: State, id: int, info: Info)
    requires Tables(c, s) && Refs(c, s) && id in s.mapInfo && StatsOnly(s.mapInfo[id], info)
    ensures Tables(c, WithInfo(s, id, info)) && Refs(c, WithInfo(s, id, info))
  {
    var r := WithInfo(s, id, info);
    assert RefOk(c, s, id, s.mapInfo[id]);
    forall i | i in r.mapInfo ensures RefOk(c, r, i, r.mapInfo[i]) { assert RefOk(c, s, i, s.mapInfo[i]); }
  }

  /** A change of statistics keeps a sound state sound. */
  lemma StatsSound(c: Config, s: State, id: int, info: Info)
    requires Sound(c, s) && id in s.mapInfo && StatsOnly(s.mapInfo[id], info)
    ensures Sound(c, WithInfo(s, id, info))
  {
    hide Core, Unreferenced, NewIds, TriedIds;
    StatsKeep(c, s, id, info);
  }

  lemma StatsKeep(c: Config, s: State, id: int, info: Info)
    requires Core(c, s) && id in s.mapInfo && StatsOnly(s.mapInfo[id], info)
    ensures var r := WithInfo(s, id, info);
            Core(c, r) && NewOff(r) == NewOff(s) && TriedOff(r) == TriedOff(s) &&
            Unreferenced(r.mapInfo) == Unreferenced(s.mapInfo)
  {
    hide Listed, Reverse, Ids, Tables, Refs, NewIds, TriedIds, Unreferenced;
    StatsKeepIndex(s, id, info);
    StatsKeepTables(c, s, id, info);
    SameSets(s.mapInfo, WithInfo(s, id, info).mapInfo);
  }

  // ----- ClearNew -----

  function WithRef(info: Info, n: int): Info { info.(nRefCount := n) }

  /** A slot of the new table is emptied. */
  function Vacated(s: State, sl: Slot): State
    requires sl in s.new_ && s.new_[sl] in s.mapInfo
  {
    var id := s.new_[sl];
    WithInfo(s, id, WithRef(s.mapInfo[id], s.mapInfo[id].nRefCount - 1)).(new_ := s.new_ - {sl})
  }

  function ClearedNew(s: State, sl: Slot): State
    requires sl in s.new_ ==> s.new_[sl] in s.mapInfo && Index(s)
  {
    if sl !in s.new_ then s
    else
      var id := s.new_[sl];
      var r := Vacated(s, sl);
      if r.mapInfo[id].nRefCount == 0 then StatsKeepIndex(s, id, r.mapInfo[id]); Deleted(r, id) else r
  }

  lemma VacatedRefs(c: Config, s: State, sl: Slot)
    requires Tables(c, s) && Refs(c, s) && sl in s.new_
    ensures s.mapInfo[s.new_[sl]].nRefCount > 0
    ensures Tables(c, Vacated(s, sl)) && Refs(c, Vacated(s, sl))
  {
    var id := s.new_[sl];
    var r := Vacated(s, sl);
    assert RefOk(c, s, id, s.mapInfo[id]);
    assert sl in SlotsOf(s.new_, id);
    forall i | i in r.mapInfo ensures RefOk(c, r, i, r.mapInfo[i]) {
      assert RefOk(c, s, i, s.mapInfo[i]);
      SlotsRemove(s.new_, sl, i);
      assert i != id ==> sl !in SlotsOf(s.new_, i);
    }
  }

  lemma VacatedSets(m: map<int, Info>, id: int, info: Info)
    requires id in m && !m[id].fInTried && !info.fInTried && m[id].nRefCount > 0
    ensures NewIds(m[id := info]) == NewIds(m) && TriedIds(m[id := info]) == TriedIds(m)
    ensures Unreferenced(m[id := info]) == Unreferenced(m) + if info.nRefCount == 0 then {id} else {}
  {
  }

  lemma VacatedCore(c: Config, s: State, sl: Slot)
    requires Core(c, s) && sl in s.new_
    ensures s.new_[sl] in s.mapInfo && s.mapInfo[s.new_[sl]].nRefCount > 0 && !s.mapInfo[s.new_[sl]].fInTried
    ensures var id, r := s.new_[sl], Vacated(s, sl);
            Core(c, r) && NewOff(r) == NewOff(s) && TriedOff(r) == TriedOff(s) &&
            Unreferenced(r.mapInfo) == Unreferenced(s.mapInfo) + if r.mapInfo[id].nRefCount == 0 then {id} else {}
  {
    hide Listed, Reverse, Ids, Refs, Unreferenced, NewIds, TriedIds;
    var id := s.new_[sl];
    var info := WithRef(s.mapInfo[id], s.mapInfo[id].nRefCount - 1);
    VacatedRefs(c, s, sl);
    StatsKeepIndex(s, id, info);
    VacatedSets(s.mapInfo, id, info);
  }

  /** What clearing a slot leaves alone. */
  lemma ClearedRest(s: State, sl: Slot)
    requires Index(s) && (sl in s.new_ ==> s.new_[sl] in s.mapInfo)
    ensures var r := ClearedNew(s, sl);
            r.new_ == s.new_ - {sl} && r.tried == s.tried && r.key == s.key && r.nTried == s.nTried &&
            r.nIdCount == s.nIdCount
  {
    if sl !in s.new_ { assert s.new_ - {sl} == s.new_; }
  }

  /** The assert of ClearNew, and what clearing a slot keeps. */
  lemma ClearedCore(c: Config, s: State, sl: Slot)
    requires Core(c, s)
    ensures sl in s.new_ ==>
            s.new_[sl] in s.mapInfo && s.mapInfo[s.new_[sl]].nRefCount > 0 && !s.mapInfo[s.new_[sl]].fInTried
    ensures var r := ClearedNew(s, sl);
            Core(c, r) && NewOff(r) == NewOff(s) && TriedOff(r) == TriedOff(s) &&
            Unreferenced(r.mapInfo) <= Unreferenced(s.mapInfo)
  {
    if sl in s.new_ {
      VacatedCore(c, s, sl);
      var r := Vacated(s, sl);
      if r.mapInfo[s.new_[sl]].nRefCount == 0 { DeletedCore(c, r, s.new_[sl]); }
    }
  }

  /** Clearing a slot concerns no entry but the one in it, apart from places in vRandom. */
  lemma ClearedOthers(c: Config, s: State, sl: Slot, other: int)
    requires Core(c, s) && other in s.mapInfo && (sl in s.new_ ==> s.new_[sl] != other)
    ensures var r := ClearedNew(s, sl); other in r.mapInfo && Moved(s.mapInfo[other], r.mapInfo[other])
  {
    if sl in s.new_ {
      VacatedCore(c, s, sl);
      var id, r := s.new_[sl], Vacated(s, sl);
      if r.mapInfo[id].nRefCount == 0 {
        DeletedIndex(r, id);
        var m, k := r.mapInfo - {id}, Deleted(r, id).mapInfo;
        assert other in m && other in k && Moved(m[other], k[other]);
      }
    }
  }

  // ----- entering a slot -----

  /** An entry gets one more reference, in an empty slot. */
  function Placed(s: State, id: int, sl: Slot): State
    requires id in s.mapInfo
  {
    WithInfo(s, id, WithRef(s.mapInfo[id], s.mapInfo[id].nRefCount + 1)).(new_ := s.new_[sl := id])
  }

  lemma PlacedRefs(c: Config, s: State, id: int, sl: Slot)
    requires Tables(c, s) && Refs(c, s) && id in s.mapInfo && !s.mapInfo[id].fInTried && sl !in s.new_
    requires sl.0 < c.newBuckets && sl.1 == c.Position(s.key, true, sl.0, s.mapInfo[id].addr.service)
    requires s.mapInfo[id].nRefCount < c.perAddress
    ensures Tables(c, Placed(s, id, sl)) && Refs(c, Placed(s, id, sl))
  {
    hide SlotsOf, TriedSlot;
    var r := Placed(s, id, sl);
    PlacedTables(c, s, id, sl);
    hide Tables;
    forall i | i in r.mapInfo ensures RefOk(c, r, i, r.mapInfo[i]) {
      RefsAt(c, s, i);
      SlotCountAdd(s.new_, sl, id, i);
    }
  }

  lemma PlacedTables(c: Config, s: State, id: int, sl: Slot)
    requires Tables(c, s) && id in s.mapInfo && !s.mapInfo[id].fInTried && sl !in s.new_
    requires sl.0 < c.newBuckets && sl.1 == c.Position(s.key, true, sl.0, s.mapInfo[id].addr.service)
    ensures Tables(c, Placed(s, id, sl))
  {
  }

  lemma PlacedCore(c: Config, s: State, id: int, sl: Slot)
    requires Core(c, s) && id in s.mapInfo && !s.mapInfo[id].fInTried && sl !in s.new_
    requires sl.0 < c.newBuckets && sl.1 == c.Position(s.key, true, sl.0, s.mapInfo[id].addr.service)
    requires s.mapInfo[id].nRefCount < c.perAddress
    ensures var r := Placed(s, id, sl);
            Core(c, r) && NewOff(r) == NewOff(s) && TriedOff(r) == TriedOff(s) &&
            Unreferenced(r.mapInfo) == Unreferenced(s.mapInfo) - {id}
  {
    hide Listed, Reverse, Ids, Tables, Refs, Unreferenced, NewIds, TriedIds;
    var r := Placed(s, id, sl);
    PlacedRefs(c, s, id, sl);
    StatsKeepIndex(s, id, r.mapInfo[id]);
    RefsAt(c, s, id);
    PlacedSets(s.mapInfo, id, r.mapInfo[id]);
  }

  lemma RefsAt(c: Config, s: State, id: int)
    requires Refs(c, s) && id in s.mapInfo
    ensures RefOk(c, s, id, s.mapInfo[id])
  {
  }

  lemma PlacedSets(m: map<int, Info>, id: int, info: Info)
    requires id in m && !m[id].fInTried && !info.fInTried && info.nRefCount > 0
    ensures NewIds(m[id := info]) == NewIds(m) && TriedIds(m[id := info]) == TriedIds(m)
    ensures Unreferenced(m[id := info]) == Unreferenced(m) - {id}
  {
  }

  // ----- MakeTried -----

  /** All references to an entry are taken out of the new table. */
  function Unlisted(s: State, id: int): State
    requires id in s.mapInfo
  {
    WithInfo(s, id, WithRef(s.mapInfo[id], s.mapInfo[id].nRefCount - |SlotsOf(s.new_, id)|))
    .(new_ := map sl: Slot | sl in s.new_ && s.new_[sl] != id :: s.new_[sl], nNew := s.nNew - 1)
  }

  lemma UnlistedSlots(t: Table, id: int, other: int)
    ensures var r := map sl: Slot | sl in t && t[sl] != id :: t[sl];
            SlotsOf(r, other) == if other == id then {} else SlotsOf(t, other)
  {
  }

  lemma UnlistedRefs(c: Config, s: State, id: int)
    requires Tables(c, s) && Refs(c, s) && id in s.mapInfo && !s.mapInfo[id].fInTried && s.mapInfo[id].nRefCount > 0
    ensures Tables(c, Unlisted(s, id)) && Refs(c, Unlisted(s, id))
  {
    hide SlotsOf;
    var r := Unlisted(s, id);
    RefsAt(c, s, id);
    forall i | i in r.mapInfo ensures RefOk(c, r, i, r.mapInfo[i]) {
      RefsAt(c, s, i);
      UnlistedSlots(s.new_, id, i);
    }
  }

  /** The assert after the loop of MakeTried: no reference is left. */
  lemma UnlistedCore(c: Config, s: State, id: int)
    requires Core(c, s) && id in s.mapInfo && !s.mapInfo[id].fInTried && s.mapInfo[id].nRefCount > 0
    ensures var r := Unlisted(s, id);
            Core(c, r) && r.mapInfo[id].nRefCount == 0 && NewOff(r) == NewOff(s) - 1 && TriedOff(r) == TriedOff(s) &&
            Unreferenced(r.mapInfo) == Unreferenced(s.mapInfo) + {id}
  {
    hide Listed, Reverse, Ids, Tables, Refs, Unreferenced, NewIds, TriedIds;
    var r := Unlisted(s, id);
    RefsAt(c, s, id);
    StatsKeepIndex(s, id, r.mapInfo[id]);
    VacatedSets(s.mapInfo, id, r.mapInfo[id]);
    UnlistedRefs(c, s, id);
  }

  /** The entry in a tried slot is taken out. */
  function Evicted(s: State, sl: Slot): State
    requires sl in s.tried && s.tried[sl] in s.mapInfo
  {
    WithInfo(s, s.tried[sl], s.mapInfo[s.tried[sl]].(fInTried := false))
    .(tried := s.tried - {sl}, nTried := s.nTried - 1)
  }

  lemma EvictedSets(m: map<int, Info>, id: int, info: Info)
    requires id in m && m[id].fInTried && !info.fInTried && info.nRefCount == 0
    ensures |NewIds(m[id := info])| == |NewIds(m)| + 1 && |TriedIds(m[id := info])| == |TriedIds(m)| - 1
    ensures Unreferenced(m[id := info]) == Unreferenced(m) + {id}
  {
    NewIdsUpdate(m, id, info);
    assert id !in NewIds(m) && id in TriedIds(m);
  }

  lemma EvictedTables(c: Config, s: State, sl: Slot)
    requires Tables(c, s) && Refs(c, s) && sl in s.tried
    ensures Tables(c, Evicted(s, sl)) && Refs(c, Evicted(s, sl))
  {
    var id := s.tried[sl];
    var r := Evicted(s, sl);
    assert RefOk(c, s, id, s.mapInfo[id]);
    forall q: Slot | q in s.new_ ensures s.new_[q] != id { assert !s.mapInfo[s.new_[q]].fInTried; }
    assert SlotsOf(s.new_, id) == {};
    forall i | i in r.mapInfo ensures RefOk(c, r, i, r.mapInfo[i]) {
      assert RefOk(c, s, i, s.mapInfo[i]);
      if i != id && s.mapInfo[i].fInTried { assert s.tried[TriedSlot(c, s.key, s.mapInfo[i].addr.service)] == i; }
    }
    forall q: Slot | q in r.tried ensures r.tried[q] != id {
      assert q == TriedSlot(c, s.key, s.mapInfo[s.tried[q]].addr.service);
    }
  }

  lemma EvictedCore(c: Config, s: State, sl: Slot)
    requires Core(c, s) && sl in s.tried
    ensures s.tried[sl] in s.mapInfo && s.mapInfo[s.tried[sl]].fInTried && s.mapInfo[s.tried[sl]].nRefCount == 0
    ensures var r := Evicted(s, sl);
            Core(c, r) && NewOff(r) == NewOff(s) - 1 && TriedOff(r) == TriedOff(s) &&
            Unreferenced(r.mapInfo) == Unreferenced(s.mapInfo) + {s.tried[sl]}
  {
    hide Listed, Reverse, Ids, Refs, Unreferenced, NewIds, TriedIds;
    var id := s.tried[sl];
    RefsAt(c, s, id);
    StatsKeepIndex(s, id, s.mapInfo[id].(fInTried := false));
    EvictedTables(c, s, sl);
    EvictedSets(s.mapInfo, id, s.mapInfo[id].(fInTried := false));
  }

  /** An entry without references goes into its tried slot. */
  function Promoted(s: State, id: int, sl: Slot): State
    requires id in s.mapInfo
  {
    WithInfo(s, id, s.mapInfo[id].(fInTried := true)).(tried := s.tried[sl := id], nTried := s.nTried + 1)
  }

  lemma PromotedSets(m: map<int, Info>, id: int, info: Info)
    requires id in m && !m[id].fInTried && info.fInTried
    ensures |NewIds(m[id := info])| == |NewIds(m)| - 1 && |TriedIds(m[id := info])| == |TriedIds(m)| + 1
    ensures Unreferenced(m[id := info]) == Unreferenced(m) - {id}
  {
    NewIdsUpdate(m, id, info);
    assert id in NewIds(m) && id !in TriedIds(m);
  }

  lemma PromotedTables(c: Config, s: State, id: int, sl: Slot)
    requires Tables(c, s) && Refs(c, s) && id in s.mapInfo && !s.mapInfo[id].fInTried && s.mapInfo[id].nRefCount == 0
    requires sl == TriedSlot(c, s.key, s.mapInfo[id].addr.service) && sl !in s.tried
    ensures Tables(c, Promoted(s, id, sl)) && Refs(c, Promoted(s, id, sl))
  {
    var r := Promoted(s, id, sl);
    assert RefOk(c, s, id, s.mapInfo[id]);
    assert SlotsOf(s.new_, id) == {};
    forall q: Slot | q in s.new_ ensures s.new_[q] != id { assert q !in SlotsOf(s.new_, id); }
    forall i | i in r.mapInfo ensures RefOk(c, r, i, r.mapInfo[i]) { assert RefOk(c, s, i, s.mapInfo[i]); }
  }

  lemma PromotedCore(c: Config, s: State, id: int, sl: Slot)
    requires Core(c, s) && id in s.mapInfo && !s.mapInfo[id].fInTried && s.mapInfo[id].nRefCount == 0
    requires sl == TriedSlot(c, s.key, s.mapInfo[id].addr.service) && sl !in s.tried
    ensures var r := Promoted(s, id, sl);
            Core(c, r) && NewOff(r) == NewOff(s) + 1 && TriedOff(r) == TriedOff(s) &&
            Unreferenced(r.mapInfo) == Unreferenced(s.mapInfo) - {id}
  {
    hide Listed, Reverse, Ids, Tables, Refs, Unreferenced, NewIds, TriedIds;
    StatsKeepIndex(s, id, s.mapInfo[id].(fInTried := true));
    PromotedTables(c, s, id, sl);
    PromotedSets(s.mapInfo, id, s.mapInfo[id].(fInTried := true));
  }

  /** Clearing any slot keeps an entry that is in none. */
  lemma ClearedUnreferenced(c: Config, s: State, sl: Slot, id: int)
    requires Core(c, s) && id in s.mapInfo && !s.mapInfo[id].fInTried && s.mapInfo[id].nRefCount == 0
    ensures var r := ClearedNew(s, sl); id in r.mapInfo && Moved(s.mapInfo[id], r.mapInfo[id])
  {
    assert RefOk(c, s, id, s.mapInfo[id]);
    assert SlotsOf(s.new_, id) == {};
    if sl in s.new_ { assert sl !in SlotsOf(s.new_, id); }
    ClearedOthers(c, s, sl, id);
  }

  /** An entry without references enters the new slot of its own source, whatever is there. */
  function Reentered(c: Config, s: State, id: int): State
    requires Core(c, s) && id in s.mapInfo && !s.mapInfo[id].fInTried && s.mapInfo[id].nRefCount == 0
  {
    var target := NewSlot(c, s.key, s.mapInfo[id].addr.service, s.mapInfo[id].source);
    ClearedCore(c, s, target);
    ClearedUnreferenced(c, s, target, id);
    var q := ClearedNew(s, target);
    Placed(q, id, target).(nNew := q.nNew + 1)
  }

  lemma CounterCore(c: Config, s: State)
    requires Core(c, s)
    ensures Core(c, s.(nNew := s.nNew + 1))
  {
    SameParts(c, s, s.(nNew := s.nNew + 1));
  }

  lemma ReenteredCore(c: Config, s: State, id: int)
    requires c.Valid() && Core(c, s) && id in s.mapInfo && !s.mapInfo[id].fInTried && s.mapInfo[id].nRefCount == 0
    ensures var r := Reentered(c, s, id);
            Core(c, r) && NewOff(r) == NewOff(s) + 1 && TriedOff(r) == TriedOff(s) &&
            Unreferenced(r.mapInfo) <= Unreferenced(s.mapInfo) - {id} && r.tried == s.tried && r.key == s.key
  {
    hide Index, Tables, Refs, ClearedNew, Unreferenced, NewIds, TriedIds;
    var target := NewSlot(c, s.key, s.mapInfo[id].addr.service, s.mapInfo[id].source);
    ClearedCore(c, s, target);
    ClearedRest(s, target);
    ClearedUnreferenced(c, s, target, id);
    var q := ClearedNew(s, target);
    PlacedCore(c, q, id, target);
    CounterCore(c, Placed(q, id, target));
  }

  lemma ReenteredOther(c: Config, s: State, id: int, other: int)
    requires c.Valid() && Core(c, s) && id in s.mapInfo && !s.mapInfo[id].fInTried && s.mapInfo[id].nRefCount == 0
    requires other in s.mapInfo && !s.mapInfo[other].fInTried && s.mapInfo[other].nRefCount == 0 && other != id
    ensures var r := Reentered(c, s, id); other in r.mapInfo && Moved(s.mapInfo[other], r.mapInfo[other])
  {
    var target := NewSlot(c, s.key, s.mapInfo[id].addr.service, s.mapInfo[id].source);
    ClearedUnreferenced(c, s, target, id);
    ClearedUnreferenced(c, s, target, other);
  }

  /** The entry in a tried slot goes back to the new table, where it may push another one out. */
  function MovedBack(c: Config, s: State, sl: Slot): State
    requires Core(c, s) && sl in s.tried
  {
    EvictedCore(c, s, sl);
    Reentered(c, Evicted(s, sl), s.tried[sl])
  }

  lemma MovedBackCore(c: Config, s: State, sl: Slot, id: int)
    requires c.Valid() && Core(c, s) && sl in s.tried
    requires id in s.mapInfo && !s.mapInfo[id].fInTried && s.mapInfo[id].nRefCount == 0
    ensures var r := MovedBack(c, s, sl);
            Core(c, r) && NewOff(r) == NewOff(s) && TriedOff(r) == TriedOff(s) &&
            Unreferenced(r.mapInfo) <= Unreferenced(s.mapInfo) &&
            sl !in r.tried && id in r.mapInfo && Moved(s.mapInfo[id], r.mapInfo[id]) && r.key == s.key
  {
    hide Core, Reentered, Unreferenced, NewIds, TriedIds;
    EvictedCore(c, s, sl);
    ReenteredCore(c, Evicted(s, sl), s.tried[sl]);
    ReenteredOther(c, Evicted(s, sl), s.tried[sl], id);
  }

  // ----- times -----

  /** What is left of a collection, with the times it had, and nothing new in tried. */
  ghost predicate Kept(m: map<int, Info>, k: map<int, Info>) {
    forall id | id in k :: id in m && SameTimes(m[id], k[id])
  }

  predicate SameTimes(a: Info, b: Info) {
    a.nLastTry == b.nLastTry && a.nLastSuccess == b.nLastSuccess && (b.fInTried ==> a.fInTried)
  }

  lemma KeptOn(m: map<int, Info>, k: map<int, Info>, l: map<int, Info>)
    requires Kept(m, k) && Kept(k, l)
    ensures Kept(m, l)
  {
    forall id | id in l ensures id in m && SameTimes(m[id], l[id]) { assert id in k && SameTimes(m[id], k[id]); }
  }

  lemma KeptTimed(m: map<int, Info>, k: map<int, Info>)
    requires Timed(m) && Kept(m, k)
    ensures Timed(k)
  {
    forall id | id in k ensures TimesOk(k[id]) { assert id in m && TimesOk(m[id]); }
  }

  lemma MovedKept(m: map<int, Info>, n: map<int, Info>, k: map<int, Info>)
    requires (forall id | id in n :: id in m && m[id] == n[id]) && AllMoved(n, k)
    ensures Kept(m, k)
  {
    forall id | id in k ensures id in m && SameTimes(m[id], k[id]) { assert id in n && Moved(n[id], k[id]); }
  }

  lemma TimedUpdate(m: map<int, Info>, id: int, info: Info)
    requires Timed(m)
    ensures Timed(m[id := info]) <==> TimesOk(info)
  {
    assert m[id := info][id] == info;
  }

  lemma ClearedKept(c: Config, s: State, sl: Slot)
    requires Core(c, s)
    ensures Kept(s.mapInfo, ClearedNew(s, sl).mapInfo)
  {
    hide Index, Tables, Refs, Deleted;
    if sl in s.new_ {
      VacatedCore(c, s, sl);
      var id, r := s.new_[sl], Vacated(s, sl);
      assert Kept(s.mapInfo, r.mapInfo);
      if r.mapInfo[id].nRefCount == 0 {
        IndexReads(r, id);
        DeletedIndex(r, id);
        MovedKept(r.mapInfo, r.mapInfo - {id}, Deleted(r, id).mapInfo);
        KeptOn(s.mapInfo, r.mapInfo, Deleted(r, id).mapInfo);
      }
    }
  }

  lemma ReenteredKept(c: Config, s: State, id: int)
    requires Core(c, s) && id in s.mapInfo && !s.mapInfo[id].fInTried && s.mapInfo[id].nRefCount == 0
    ensures Kept(s.mapInfo, Reentered(c, s, id).mapInfo)
  {
    var target := NewSlot(c, s.key, s.mapInfo[id].addr.service, s.mapInfo[id].source);
    ClearedKept(c, s, target);
    ClearedUnreferenced(c, s, target, id);
    KeptOn(s.mapInfo, ClearedNew(s, target).mapInfo, Reentered(c, s, id).mapInfo);
  }

  lemma MovedBackKept(c: Config, s: State, sl: Slot)
    requires Core(c, s) && sl in s.tried
    ensures Kept(s.mapInfo, MovedBack(c, s, sl).mapInfo)
  {
    EvictedCore(c, s, sl);
    ReenteredKept(c, Evicted(s, sl), s.tried[sl]);
    KeptOn(s.mapInfo, Evicted(s, sl).mapInfo, MovedBack(c, s, sl).mapInfo);
  }

  // ----- MakeTried as a whole -----

  function MadeTried(c: Config, s: State, id: int): State
    requires c.Valid() && Core(c, s) && id in s.mapInfo && !s.mapInfo[id].fInTried && s.mapInfo[id].nRefCount > 0
  {
    UnlistedCore(c, s, id);
    var u := Unlisted(s, id);
    var sl := TriedSlot(c, s.key, u.mapInfo[id].addr.service);
    if sl in u.tried then
      MovedBackCore(c, u, sl, id);
      Promoted(MovedBack(c, u, sl), id, sl)
    else Promoted(u, id, sl)
  }

  lemma MadeTriedSound(c: Config, s: State, id: int)
    requires c.Valid() && Sound(c, s) && id in s.mapInfo && !s.mapInfo[id].fInTried
    ensures s.mapInfo[id].nRefCount > 0 && Sound(c, MadeTried(c, s, id))
  {
    hide Index, Tables, Refs, SlotsOf, MovedBack;
    RefsAt(c, s, id);
    assert id !in Unreferenced(s.mapInfo);
    UnlistedCore(c, s, id);
    var u := Unlisted(s, id);
    var sl := TriedSlot(c, s.key, u.mapInfo[id].addr.service);
    if sl in u.tried {
      MovedBackCore(c, u, sl, id);
      PromotedCore(c, MovedBack(c, u, sl), id, sl);
    } else {
      PromotedCore(c, u, id, sl);
    }
  }

  lemma MadeTriedTimed(c: Config, s: State, id: int)
    requires c.Valid() && Core(c, s) && id in s.mapInfo && !s.mapInfo[id].fInTried && s.mapInfo[id].nRefCount > 0
    requires Timed(s.mapInfo) && s.mapInfo[id].nLastSuccess != 0
    ensures Timed(MadeTried(c, s, id).mapInfo)
  {
    hide Core, Unlisted, MovedBack, Timed;
    UnlistedCore(c, s, id);
    var u := Unlisted(s, id);
    UnlistedTimes(s, id);
    var sl := TriedSlot(c, s.key, u.mapInfo[id].addr.service);
    if sl in u.tried {
      MovedBackCore(c, u, sl, id);
      MovedBackKept(c, u, sl);
      KeptTimed(u.mapInfo, MovedBack(c, u, sl).mapInfo);
      PromotedTimes(MovedBack(c, u, sl), id, sl);
    } else {
      PromotedTimes(u, id, sl);
    }
  }

  lemma UnlistedTimes(s: State, id: int)
    requires id in s.mapInfo && Timed(s.mapInfo)
    ensures Timed(Unlisted(s, id).mapInfo) && id in Unlisted(s, id).mapInfo
    ensures Unlisted(s, id).mapInfo[id].nLastSuccess == s.mapInfo[id].nLastSuccess
  {
  }

  lemma PromotedTimes(s: State, id: int, sl: Slot)
    requires id in s.mapInfo && Timed(s.mapInfo) && s.mapInfo[id].nLastSuccess != 0
    ensures Timed(Promoted(s, id, sl).mapInfo)
  {
  }

  /** The entry that was made tried keeps everything but its place, its flag and its count. */
  lemma MadeTriedEntry(c: Config, s: State, id: int)
    requires c.Valid() && Core(c, s) && id in s.mapInfo && !s.mapInfo[id].fInTried && s.mapInfo[id].nRefCount > 0
    ensures var r := MadeTried(c, s, id);
            id in r.mapInfo &&
            r.mapInfo[id] == s.mapInfo[id].(fInTried := true, nRefCount := 0, nRandomPos := r.mapInfo[id].nRandomPos)
  {
    UnlistedCore(c, s, id);
    var u := Unlisted(s, id);
    var sl := TriedSlot(c, s.key, u.mapInfo[id].addr.service);
    if sl in u.tried { MovedBackCore(c, u, sl, id); }
  }

  // ----- Good -----

  /** Find, followed by the comparison of the whole service. */
  predicate Known(s: State, service: Service) {
    service.ip in s.mapAddr && s.mapAddr[service.ip] in s.mapInfo &&
    s.mapInfo[s.mapAddr[service.ip]].addr.service == service
  }

  /** The statistics after a successful connection. */
  function Succeeded(info: Info, nTime: int): Info { info.(nLastSuccess := nTime, nLastTry := nTime, nAttempts := 0) }

  function Gooded(c: Config, s: State, service: Service, nTime: int): State
    requires c.Valid() && Inv(c, s)
  {
    if !Known(s, service) then s
    else
      var id := s.mapAddr[service.ip];
      var r := WithInfo(s, id, Succeeded(s.mapInfo[id], nTime));
      if s.mapInfo[id].fInTried then r else GoodReady(c, s, id, nTime); MadeTried(c, r, id)
  }

  lemma GoodReady(c: Config, s: State, id: int, nTime: int)
    requires Sound(c, s) && id in s.mapInfo
    ensures var r := WithInfo(s, id, Succeeded(s.mapInfo[id], nTime));
            Sound(c, r) && (!s.mapInfo[id].fInTried ==> r.mapInfo[id].nRefCount > 0)
  {
    assert RefOk(c, s, id, s.mapInfo[id]);
    assert id !in Unreferenced(s.mapInfo);
    StatsKeep(c, s, id, Succeeded(s.mapInfo[id], nTime));
  }

  /** The search of Good_ always finds a bucket: an entry outside tried sits at its position in some bucket. */
  lemma HasBucket(c: Config, s: State, id: int) returns (bucket: nat)
    requires Sound(c, s) && id in s.mapInfo && !s.mapInfo[id].fInTried
    ensures bucket < c.newBuckets
    ensures var sl := (bucket, c.Position(s.key, true, bucket, s.mapInfo[id].addr.service));
            sl in s.new_ && s.new_[sl] == id
  {
    assert RefOk(c, s, id, s.mapInfo[id]);
    assert id !in Unreferenced(s.mapInfo);
    assert SlotsOf(s.new_, id) != {};
    var sl: Slot :| sl in SlotsOf(s.new_, id);
    bucket := sl.0;
  }

  /** Whatever the time, Good keeps all but the times. */
  lemma GoodSound(c: Config, s: State, service: Service, nTime: int)
    requires c.Valid() && Inv(c, s)
    ensures Sound(c, Gooded(c, s, service, nTime))
  {
    if Known(s, service) {
      hide Sound, MadeTried;
      var id := s.mapAddr[service.ip];
      GoodReady(c, s, id, nTime);
      if !s.mapInfo[id].fInTried { MadeTriedSound(c, WithInfo(s, id, Succeeded(s.mapInfo[id], nTime)), id); }
    }
  }

  /** What becomes of a known entry. */
  lemma GoodEntry(c: Config, s: State, service: Service, nTime: int)
    requires c.Valid() && Inv(c, s) && Known(s, service)
    ensures var r, id := Gooded(c, s, service, nTime), s.mapAddr[service.ip];
            id in r.mapInfo && r.mapInfo[id] == Succeeded(s.mapInfo[id], nTime).(fInTried := true, nRefCount := 0,
                                                                                 nRandomPos := r.mapInfo[id].nRandomPos)
  {
    hide MadeTried;
    var id := s.mapAddr[service.ip];
    assert RefOk(c, s, id, s.mapInfo[id]);
    GoodReady(c, s, id, nTime);
    if !s.mapInfo[id].fInTried { MadeTriedEntry(c, WithInfo(s, id, Succeeded(s.mapInfo[id], nTime)), id); }
  }

  lemma GoodTimed(c: Config, s: State, service: Service, nTime: int)
    requires c.Valid() && Inv(c, s) && nTime > 0
    ensures Timed(Gooded(c, s, service, nTime).mapInfo)
  {
    if Known(s, service) {
      hide MadeTried, Core, Timed;
      var id := s.mapAddr[service.ip];
      var r := WithInfo(s, id, Succeeded(s.mapInfo[id], nTime));
      GoodReady(c, s, id, nTime);
      TimedUpdate(s.mapInfo, id, Succeeded(s.mapInfo[id], nTime));
      if !s.mapInfo[id].fInTried { MadeTriedTimed(c, r, id); }
    }
  }

  /** Good keeps everything exactly when the time is positive or there is nothing to do. */
  lemma GoodInv(c: Config, s: State, service: Service, nTime: int)
    requires c.Valid() && Inv(c, s)
    ensures Inv(c, Gooded(c, s, service, nTime)) <==> nTime > 0 || !Known(s, service)
  {
    GoodSound(c, s, service, nTime);
    if nTime > 0 {
      GoodTimed(c, s, service, nTime);
    } else if Known(s, service) {
      GoodEntry(c, s, service, nTime);
      var r, id := Gooded(c, s, service, nTime), s.mapAddr[service.ip];
      assert !TimesOk(r.mapInfo[id]);
    }
  }

  /** After Good a known service is in the tried table, with clean statistics. */
  lemma GoodIsTried(c: Config, s: State, service: Service, nTime: int)
    requires c.Valid() && Inv(c, s) && Known(s, service)
    ensures var r, b := Gooded(c, s, service, nTime), c.TriedBucket(s.key, service);
            var sl := (b, c.Position(s.key, false, b, service));
            Known(r, service) && sl in r.tried && r.tried[sl] == r.mapAddr[service.ip] == s.mapAddr[service.ip] &&
            r.mapInfo[r.tried[sl]].nLastSuccess == nTime && r.mapInfo[r.tried[sl]].nAttempts == 0 &&
            r.mapInfo[r.tried[sl]].nLastTry == nTime &&
            r.mapInfo[r.tried[sl]].addr == s.mapInfo[s.mapAddr[service.ip]].addr
  {
    hide Gooded;
    var id := s.mapAddr[service.ip];
    var r := Gooded(c, s, service, nTime);
    GoodSound(c, s, service, nTime);
    GoodEntry(c, s, service, nTime);
    GoodKey(c, s, service, nTime);
    assert RefOk(c, r, id, r.mapInfo[id]);
    assert r.mapInfo[id].addr.service.ip in r.mapAddr;
  }

  lemma GoodKey(c: Config, s: State, service: Service, nTime: int)
    requires c.Valid() && Inv(c, s)
    ensures Gooded(c, s, service, nTime).key == s.key
  {
    if Known(s, service) {
      hide Core, MovedBack;
      var id := s.mapAddr[service.ip];
      var r := WithInfo(s, id, Succeeded(s.mapInfo[id], nTime));
      GoodReady(c, s, id, nTime);
      if !s.mapInfo[id].fInTried {
        UnlistedCore(c, r, id);
        var u := Unlisted(r, id);
        var sl := TriedSlot(c, r.key, u.mapInfo[id].addr.service);
        if sl in u.tried { MovedBackCore(c, u, sl, id); }
      }
    }
  }

  // ----- Attempt and Connected -----

  /** The statistics after one more attempt. */
  function TriedAgain(info: Info, nTime: int): Info { info.(nLastTry := nTime, nAttempts := info.nAttempts + 1) }

  function Attempted(s: State, service: Service, nTime: int): State {
    if !Known(s, service) then s
    else WithInfo(s, s.mapAddr[service.ip], TriedAgain(s.mapInfo[s.mapAddr[service.ip]], nTime))
  }

  function Touched(info: Info, nTime: int): Info {
    if nTime - info.addr.nTime > 20 * 60 then info.(addr := info.addr.(nTime := nTime)) else info
  }

  function ConnectedTo(s: State, service: Service, nTime: int): State {
    if !Known(s, service) then s
    else WithInfo(s, s.mapAddr[service.ip], Touched(s.mapInfo[s.mapAddr[service.ip]], nTime))
  }

  /** Attempt keeps everything exactly when the time is not negative or there is nothing to do. */
  lemma AttemptInv(c: Config, s: State, service: Service, nTime: int)
    requires Inv(c, s)
    ensures Inv(c, Attempted(s, service, nTime)) <==> nTime >= 0 || !Known(s, service)
  {
    if Known(s, service) {
      hide Inv;
      var id := s.mapAddr[service.ip];
      StatsInv(c, s, id, TriedAgain(s.mapInfo[id], nTime));
      InvTimes(c, s, id);
    }
  }

  lemma InvTimes(c: Config, s: State, id: int)
    requires Inv(c, s) && id in s.mapInfo
    ensures TimesOk(s.mapInfo[id])
  {
  }

  /** Changed statistics keep a consistent state consistent exactly when the times are right. */
  lemma StatsInv(c: Config, s: State, id: int, info: Info)
    requires Inv(c, s) && id in s.mapInfo && StatsOnly(s.mapInfo[id], info)
    ensures Inv(c, WithInfo(s, id, info)) <==> TimesOk(info)
  {
    hide Sound, Timed;
    StatsSound(c, s, id, info);
    TimedUpdate(s.mapInfo, id, info);
  }

  lemma ConnectedInv(c: Config, s: State, service: Service, nTime: int)
    requires Inv(c, s)
    ensures Inv(c, ConnectedTo(s, service, nTime))
  {
    if Known(s, service) {
      hide Inv;
      var id := s.mapAddr[service.ip];
      StatsInv(c, s, id, Touched(s.mapInfo[id], nTime));
      InvTimes(c, s, id);
    }
  }

  // ----- Add -----

  const MINUTE := 60
  const DAY := 24 * 60 * 60

  /** Whether an entry's record is bad enough to give up on it. */
  predicate IsTerrible(info: Info, nNow: int) {
    !(info.nLastTry != 0 && info.nLastTry >= nNow - MINUTE) &&
    (|| info.addr.nTime > nNow + 10 * MINUTE
     || info.addr.nTime == 0
     || nNow - info.addr.nTime > 30 * DAY
     || (info.nLastSuccess == 0 && info.nAttempts >= 3)
     || (nNow - info.nLastSuccess > 7 * DAY && info.nAttempts >= 10))
  }

  /** News about a known entry: a later time, and more services. */
  function Refreshed(info: Info, addr: Address, nTimePenalty: int, nNow: int): Info {
    var nUpdateInterval := if nNow - addr.nTime < DAY then 60 * MINUTE else DAY;
    var nTime :=
      if addr.nTime != 0 && (info.addr.nTime == 0 || info.addr.nTime < addr.nTime - nUpdateInterval - nTimePenalty)
      then Max(0, addr.nTime - nTimePenalty)
      else info.addr.nTime;
    info.(addr := info.addr.(nTime := nTime, services := info.addr.services + addr.services))
  }

  /** The random test: one of so many numbers must come up, twice as many with every reference. */
  function Factor(nRefCount: int): (r: nat)
    ensures r > 0 && (nRefCount > 0 ==> r > 1)
  {
    if nRefCount <= 0 then 1 else 2 * Factor(nRefCount - 1)
  }

  lemma {:induction false} FactorIs(nRefCount: int)
    ensures Factor(nRefCount) == Pow2(Max(0, nRefCount))
  {
    if nRefCount > 0 { FactorIs(nRefCount - 1); }
  }

  /** Whether a known, refreshed entry is to get one more reference; random is reduced modulo the factor. */
  predicate WantsMore(c: Config, info: Info, addr: Address, random: nat) {
    && addr.nTime != 0 && !(info.addr.nTime != 0 && addr.nTime <= info.addr.nTime)
    && !info.fInTried
    && info.nRefCount != c.perAddress
    && random % Factor(info.nRefCount) == 0
  }

  /** Whether a slot is taken over for an entry. */
  predicate Overwrites(s: State, id: int, sl: Slot, nNow: int)
    requires id in s.mapInfo && (sl in s.new_ ==> s.new_[sl] in s.mapInfo)
  {
    sl in s.new_ ==>
      var existing := s.mapInfo[s.new_[sl]];
      IsTerrible(existing, nNow) || (existing.nRefCount > 1 && s.mapInfo[id].nRefCount == 0)
  }

  /** An entry enters a slot, or is dropped if it has no other. */
  function Entered(c: Config, s: State, id: int, sl: Slot, nNow: int): State
    requires Core(c, s) && id in s.mapInfo && !s.mapInfo[id].fInTried
  {
    if sl in s.new_ && s.new_[sl] == id then s
    else if Overwrites(s, id, sl, nNow) then
      ClearedCore(c, s, sl); ClearedOthers(c, s, sl, id);
      Placed(ClearedNew(s, sl), id, sl)
    else if s.mapInfo[id].nRefCount == 0 then Deleted(s, id)
    else s
  }

  lemma EnteredCore(c: Config, s: State, id: int, source: NetAddr, nNow: int)
    requires c.Valid() && Core(c, s) && id in s.mapInfo && !s.mapInfo[id].fInTried
    requires s.mapInfo[id].nRefCount < c.perAddress && Unreferenced(s.mapInfo) <= {id}
    ensures var r := Entered(c, s, id, NewSlot(c, s.key, s.mapInfo[id].addr.service, source), nNow);
            Core(c, r) && NewOff(r) == NewOff(s) && TriedOff(r) == TriedOff(s) && Unreferenced(r.mapInfo) == {} &&
            r.tried == s.tried && r.key == s.key
  {
    hide Index, Tables, Refs, ClearedNew, Deleted;
    var sl := NewSlot(c, s.key, s.mapInfo[id].addr.service, source);
    CoreReads(c, s, id, sl);
    if sl in s.new_ && s.new_[sl] == id {
      OccupantReferenced(c, s, sl);
    } else if Overwrites(s, id, sl, nNow) {
      ClearedCore(c, s, sl);
      ClearedRest(s, sl);
      ClearedOthers(c, s, sl, id);
      PlacedCore(c, ClearedNew(s, sl), id, sl);
    } else if s.mapInfo[id].nRefCount == 0 {
      DeletedCore(c, s, id);
      DeletedRest(s, id);
    } else {
      assert id !in Unreferenced(s.mapInfo);
    }
  }

  /** What reading the tables and deleting an entry take for granted. */
  lemma CoreReads(c: Config, s: State, id: int, sl: Slot)
    requires Core(c, s) && id in s.mapInfo
    ensures sl in s.new_ ==> s.new_[sl] in s.mapInfo
    ensures 0 <= s.mapInfo[id].nRandomPos < |s.vRandom|
    ensures s.vRandom[s.mapInfo[id].nRandomPos] in s.mapInfo && s.vRandom[|s.vRandom| - 1] in s.mapInfo
  {
    IndexReads(s, id);
  }

  lemma OccupantReferenced(c: Config, s: State, sl: Slot)
    requires Core(c, s) && sl in s.new_
    ensures s.new_[sl] in s.mapInfo && s.mapInfo[s.new_[sl]].nRefCount > 0
  {
    VacatedCore(c, s, sl);
  }

  lemma EnteredKept(c: Config, s: State, id: int, sl: Slot, nNow: int)
    requires Core(c, s) && id in s.mapInfo && !s.mapInfo[id].fInTried
    ensures Kept(s.mapInfo, Entered(c, s, id, sl, nNow).mapInfo)
  {
    hide Index, Tables, Refs, ClearedNew, Deleted;
    CoreReads(c, s, id, sl);
    if sl in s.new_ && s.new_[sl] == id {
    } else if Overwrites(s, id, sl, nNow) {
      ClearedKept(c, s, sl);
      ClearedOthers(c, s, sl, id);
      KeptOn(s.mapInfo, ClearedNew(s, sl).mapInfo, Placed(ClearedNew(s, sl), id, sl).mapInfo);
    } else if s.mapInfo[id].nRefCount == 0 {
      DeletedIndex(s, id);
      MovedKept(s.mapInfo, s.mapInfo - {id}, Deleted(s, id).mapInfo);
    }
  }

  /** A new entry, its time set back by the penalty and the counter moved. */
  function Introduced(s: State, addr: Address, source: NetAddr, nTimePenalty: int): State {
    var r := Created(s, addr.(nTime := Max(0, addr.nTime - nTimePenalty)), source);
    r.(nNew := r.nNew + 1)
  }

  lemma IntroducedCore(c: Config, s: State, addr: Address, source: NetAddr, nTimePenalty: int)
    requires Inv(c, s) && addr.service.ip !in s.mapAddr
    ensures var r := Introduced(s, addr, source, nTimePenalty);
            Core(c, r) && NewOff(r) == 0 && TriedOff(r) == 0 && Unreferenced(r.mapInfo) == {s.nIdCount} &&
            Timed(r.mapInfo)
  {
    hide Index, Tables, Refs;
    var q := Created(s, addr.(nTime := Max(0, addr.nTime - nTimePenalty)), source);
    CreatedCore(c, s, addr.(nTime := Max(0, addr.nTime - nTimePenalty)), source);
    CounterCore(c, q);
  }

  lemma RefreshedInv(c: Config, s: State, id: int, addr: Address, nTimePenalty: int, nNow: int)
    requires Inv(c, s) && id in s.mapInfo
    ensures Inv(c, WithInfo(s, id, Refreshed(s.mapInfo[id], addr, nTimePenalty, nNow)))
  {
    hide Inv;
    StatsInv(c, s, id, Refreshed(s.mapInfo[id], addr, nTimePenalty, nNow));
    InvTimes(c, s, id);
  }

  /** What Add makes of the state. The clock is read twice; random is what the stochastic test draws from. */
  function Added(c: Config, s: State, addr: Address, source: NetAddr, nTimePenalty: int, nNow: int, nLater: int,
                 random: nat): State
    requires Inv(c, s)
  {
    if addr.service.ip in s.mapAddr then
      var id := s.mapAddr[addr.service.ip];
      var r := WithInfo(s, id, Refreshed(s.mapInfo[id], addr, nTimePenalty, nNow));
      if WantsMore(c, r.mapInfo[id], addr, random) then
        RefreshedInv(c, s, id, addr, nTimePenalty, nNow);
        Entered(c, r, id, NewSlot(c, s.key, r.mapInfo[id].addr.service, source), nLater)
      else r
    else
      IntroducedCore(c, s, addr, source, nTimePenalty);
      Entered(c, Introduced(s, addr, source, nTimePenalty), s.nIdCount, NewSlot(c, s.key, addr.service, source), nLater)
  }

  lemma AddInv(c: Config, s: State, addr: Address, source: NetAddr, nTimePenalty: int, nNow: int, nLater: int,
               random: nat)
    requires c.Valid() && Inv(c, s)
    ensures var r := Added(c, s, addr, source, nTimePenalty, nNow, nLater, random);
            Inv(c, r) && r.tried == s.tried && r.key == s.key
  {
    hide Core, Entered, Timed, WantsMore;
    if addr.service.ip in s.mapAddr {
      var id := KnownId(c, s, addr.service.ip);
      var r := WithInfo(s, id, Refreshed(s.mapInfo[id], addr, nTimePenalty, nNow));
      RefreshedInv(c, s, id, addr, nTimePenalty, nNow);
      if WantsMore(c, r.mapInfo[id], addr, random) {
        RoomForMore(c, r, id, addr, random);
        EnteredInv(c, r, id, source, nLater);
      }
    } else {
      IntroducedCore(c, s, addr, source, nTimePenalty);
      EnteredInv(c, Introduced(s, addr, source, nTimePenalty), s.nIdCount, source, nLater);
    }
  }

  lemma KnownId(c: Config, s: State, ip: NetAddr) returns (id: int)
    requires Core(c, s) && ip in s.mapAddr
    ensures id == s.mapAddr[ip] && id in s.mapInfo
  {
    id := s.mapAddr[ip];
  }

  lemma RoomForMore(c: Config, s: State, id: int, addr: Address, random: nat)
    requires Core(c, s) && id in s.mapInfo && WantsMore(c, s.mapInfo[id], addr, random)
    ensures !s.mapInfo[id].fInTried && s.mapInfo[id].nRefCount < c.perAddress
  {
    assert RefOk(c, s, id, s.mapInfo[id]);
  }

  lemma EnteredInv(c: Config, s: State, id: int, source: NetAddr, nNow: int)
    requires c.Valid() && Core(c, s) && id in s.mapInfo && !s.mapInfo[id].fInTried && Timed(s.mapInfo) && s.key != 0
    requires s.mapInfo[id].nRefCount < c.perAddress && Unreferenced(s.mapInfo) <= {id}
    requires NewOff(s) == 0 && TriedOff(s) == 0
    ensures var r := Entered(c, s, id, NewSlot(c, s.key, s.mapInfo[id].addr.service, source), nNow);
            Inv(c, r) && r.tried == s.tried && r.key == s.key
  {
    hide Core, Entered, Timed;
    var sl := NewSlot(c, s.key, s.mapInfo[id].addr.service, source);
    EnteredCore(c, s, id, source, nNow);
    EnteredKept(c, s, id, sl, nNow);
    KeptTimed(s.mapInfo, Entered(c, s, id, sl, nNow).mapInfo);
  }
}
