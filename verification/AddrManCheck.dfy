/**
  The program's own consistency check: exactly which managers pass it. That every
  reachable one does follows, because what it looks for is the invariant.
 */
module AddrManCheck {
  import opened AddrMan
  import opened AddrManState
  import Runs = AddrManRuns

  /** mapAddr leads from every entry's network address to its id; it may lead elsewhere besides. */
  ghost predicate Linked(m: map<int, Info>, a: map<NetAddr, int>) {
    forall id | id in m :: m[id].addr.service.ip in a && a[m[id].addr.service.ip] == id
  }

  /**
    The invariant, but for stray keys of the reverse map and the range of the ids, which
    the check does not look at.
   */
  ghost predicate Passing(c: Config, s: State) {
    && Listed(s.mapInfo, s.vRandom) && Linked(s.mapInfo, s.mapAddr)
    && Tables(c, s) && Refs(c, s) && Timed(s.mapInfo)
    && Unreferenced(s.mapInfo) == {} && NewOff(s) == 0 && TriedOff(s) == 0 && s.key != 0
  }

  // ----- counting -----

  lemma SubsetEqual(a: set<int>, b: set<int>)
    requires a <= b && |a| >= |b|
    ensures a == b
  {
    assert b == a + (b - a);
    assert |b| == |a| + |b - a|;
  }

  /** A sequence has at most as many elements as places, and as many only without repetition. */
  lemma {:induction false} ElementsSize(v: seq<int>, n: nat)
    requires n <= |v|
    ensures |Runs.Elements(v, n)| <= n
    ensures |Runs.Elements(v, n)| == n ==> forall i, j | 0 <= i < j < n :: v[i] != v[j]
  {
    if n > 0 {
      ElementsSize(v, n - 1);
      assert Runs.Elements(v, n) == Runs.Elements(v, n - 1) + {v[n - 1]};
      forall i | 0 <= i < n - 1 && v[i] == v[n - 1] ensures |Runs.Elements(v, n)| < n {
        assert v[i] in Runs.Elements(v, n - 1);
        assert Runs.Elements(v, n) == Runs.Elements(v, n - 1);
      }
    }
  }

  /** If every entry is where it says, and there are no more places than entries, vRandom is the list of them. */
  lemma PlacedListed(m: map<int, Info>, v: seq<int>)
    requires |v| == |m| && forall id | id in m :: 0 <= m[id].nRandomPos < |v| && v[m[id].nRandomPos] == id
    ensures Listed(m, v)
  {
    var all := Runs.Elements(v, |v|);
    ElementsSize(v, |v|);
    forall id | id in m.Keys ensures id in all { assert v[m[id].nRandomPos] == id; }
    assert |m| == |m.Keys|;
    SubsetEqual(m.Keys, all);
    forall i | 0 <= i < |v| ensures v[i] in m && m[v[i]].nRandomPos == i { assert v[i] in all; }
  }

  /** With no more keys than entries, the reverse map has no stray ones. */
  lemma LinkedReverse(m: map<int, Info>, v: seq<int>, a: map<NetAddr, int>)
    requires Listed(m, v) && Linked(m, a) && |a| == |m|
    ensures Reverse(m, a)
  {
    Runs.ListedOnce(m, v);
    var ips := Runs.IpsOf(m, v);
    forall i | 0 <= i < |v| ensures ips[i] in a && a[ips[i]] == v[i] && m[v[i]].nRandomPos == i {
      var id := v[i];
      assert id in m && m[id].addr.service.ip in a;
    }
    forall i, j | 0 <= i < j < |v| ensures ips[i] != ips[j] { assert m[v[i]].nRandomPos != m[v[j]].nRandomPos; }
    Runs.DistinctElements(ips, |v|);
    assert |a| == |a.Keys|;
    SubsetEqual(Runs.Elements(ips, |v|), a.Keys);
    forall ip | ip in a ensures a[ip] in m && m[a[ip]].addr.service.ip == ip {
      assert ip in Runs.Elements(ips, |v|);
      var i :| 0 <= i < |v| && ips[i] == ip;
    }
  }

  /**
    A manager that passes is consistent exactly when its ids are those given out and the
    reverse map has as many keys as there are entries.
   */
  lemma PassingInv(c: Config, s: State)
    requires Passing(c, s)
    ensures Inv(c, s) <==> Ids(s.mapInfo, s.nIdCount) && |s.mapAddr| == |s.mapInfo|
  {
    hide Tables, Refs, Listed, Reverse, Linked, Timed, NewIds, TriedIds, Unreferenced;
    if |s.mapAddr| == |s.mapInfo| { LinkedReverse(s.mapInfo, s.vRandom, s.mapAddr); }
    if Inv(c, s) { Runs.Sizes(c, s); }
  }

  lemma InvPassing(c: Config, s: State)
    requires Inv(c, s)
    ensures Passing(c, s)
  {
  }

  // ----- the tried table -----

  /** A position of the tried table holds a tried entry that belongs there. */
  ghost predicate TriedRight(c: Config, s: State, sl: Slot)
    requires sl in s.tried
  {
    s.tried[sl] in TriedIds(s.mapInfo) && sl == TriedSlot(c, s.key, s.mapInfo[s.tried[sl]].addr.service)
  }

  /** A tried entry is at its position. */
  ghost predicate InPlace(c: Config, s: State, id: int)
    requires id in s.mapInfo
  {
    var sl := TriedSlot(c, s.key, s.mapInfo[id].addr.service);
    sl in s.tried && s.tried[sl] == id
  }

  ghost predicate TriedSeen(c: Config, s: State, n: nat, i: nat) {
    forall sl: Slot | sl in s.tried && Before(sl, n, i) :: TriedRight(c, s, sl)
  }

  /** The tried entries the walk has not met in their places. */
  ghost function TriedLeft(c: Config, s: State, n: nat, i: nat): set<int> {
    set id | id in TriedIds(s.mapInfo) &&
             !(Before(TriedSlot(c, s.key, s.mapInfo[id].addr.service), n, i) && InPlace(c, s, id))
  }

  lemma TriedStep(c: Config, s: State, n: nat, i: nat)
    requires TriedSeen(c, s, n, i)
    ensures (n, i) !in s.tried ==> TriedSeen(c, s, n, i + 1) && TriedLeft(c, s, n, i + 1) == TriedLeft(c, s, n, i)
    ensures (n, i) in s.tried && TriedRight(c, s, (n, i)) ==>
              && s.tried[(n, i)] in TriedLeft(c, s, n, i) && TriedSeen(c, s, n, i + 1)
              && TriedLeft(c, s, n, i + 1) == TriedLeft(c, s, n, i) - {s.tried[(n, i)]}
  {
    var sl: Slot := (n, i);
    forall q: Slot ensures Before(q, n, i + 1) <==> Before(q, n, i) || q == sl { }
  }

  lemma TriedTurn(c: Config, s: State, n: nat)
    requires c.Valid() && forall sl: Slot | sl in s.tried :: sl.1 < c.bucketSize
    ensures TriedSeen(c, s, n, c.bucketSize) ==> TriedSeen(c, s, n + 1, 0)
    ensures TriedLeft(c, s, n + 1, 0) == TriedLeft(c, s, n, c.bucketSize)
  {
    forall sl: Slot | sl.1 < c.bucketSize ensures Before(sl, n + 1, 0) <==> Before(sl, n, c.bucketSize) { }
  }

  method CheckTriedAt(a: CAddrMan, n: nat, i: nat, setTried: set<int>) returns (code: int, left: set<int>)
    requires a.Shaped() && n < a.cfg.triedBuckets && i < a.cfg.bucketSize
    requires TriedSeen(a.cfg, a.Abs(), n, i) && setTried == TriedLeft(a.cfg, a.Abs(), n, i)
    ensures code != 0 ==> (n, i) in a.Abs().tried && !TriedRight(a.cfg, a.Abs(), (n, i))
    ensures code == 0 ==> TriedSeen(a.cfg, a.Abs(), n, i + 1) && left == TriedLeft(a.cfg, a.Abs(), n, i + 1)
  {
    hide TriedSeen, TableOf;
    TriedStep(a.cfg, a.Abs(), n, i);
    left := setTried;
    var id := GetPosition(a.vvTried, n, i);
    if id != -1 {
      if id !in left { return -11, left; }
      if a.cfg.TriedBucket(a.nKey, a.mapInfo[id].addr.service) != n { return -17, left; }
      if a.cfg.Position(a.nKey, false, n, a.mapInfo[id].addr.service) != i { return -18, left; }
      left := left - {id};
    }
    code := 0;
  }

  method CheckTried(a: CAddrMan, setTried: set<int>) returns (code: int, left: set<int>)
    requires a.Shaped() && setTried == TriedIds(a.mapInfo)
    ensures code == 0 <==> forall sl: Slot | sl in a.Abs().tried :: TriedRight(a.cfg, a.Abs(), sl)
    ensures code == 0 ==> left == set id | id in TriedIds(a.mapInfo) && !InPlace(a.cfg, a.Abs(), id)
  {
    hide TriedRight, InPlace;
    ghost var c, s := a.cfg, a.Abs();
    left := setTried;
    var n := 0;
    while n < a.cfg.triedBuckets
      invariant n <= c.triedBuckets && TriedSeen(c, s, n, 0) && left == TriedLeft(c, s, n, 0)
    {
      var i := 0;
      while i < a.cfg.bucketSize
        invariant i <= c.bucketSize && TriedSeen(c, s, n, i) && left == TriedLeft(c, s, n, i)
      {
        code, left := CheckTriedAt(a, n, i, left);
        if code != 0 { return; }
        i := i + 1;
      }
      TriedTurn(c, s, n);
      n := n + 1;
    }
    forall sl: Slot | sl in s.tried ensures Before(sl, n, 0) { }
    code := 0;
  }

  // ----- the new table -----

  /** A position of the new table holds an entry outside tried that belongs there. */
  ghost predicate NewRight(c: Config, s: State, sl: Slot)
    requires sl in s.new_
  {
    && s.new_[sl] in NewIds(s.mapInfo)
    && sl.1 == c.Position(s.key, true, sl.0, s.mapInfo[s.new_[sl]].addr.service)
  }

  ghost function SlotsBefore(t: Table, id: int, n: nat, i: nat): set<Slot> {
    set sl: Slot | sl in SlotsOf(t, id) && Before(sl, n, i)
  }

  ghost predicate NewSeen(c: Config, s: State, n: nat, i: nat) {
    && (forall sl: Slot | sl in s.new_ && Before(sl, n, i) :: NewRight(c, s, sl))
    && (forall id | id in NewIds(s.mapInfo) :: |SlotsBefore(s.new_, id, n, i)| <= s.mapInfo[id].nRefCount)
  }

  /** The references the walk has not met yet. */
  ghost function NewLeft(s: State, n: nat, i: nat): map<int, int> {
    map id | id in NewIds(s.mapInfo) && s.mapInfo[id].nRefCount != |SlotsBefore(s.new_, id, n, i)| ::
      s.mapInfo[id].nRefCount - |SlotsBefore(s.new_, id, n, i)|
  }

  ghost function Less(m: map<int, int>, id: int): map<int, int>
    requires id in m
  {
    if m[id] - 1 == 0 then m - {id} else m[id := m[id] - 1]
  }

  /** The references an entry has, for those outside tried. */
  function Counts(m: map<int, Info>): map<int, int> { map id | id in m && !m[id].fInTried :: m[id].nRefCount }

  lemma SlotsBeforeStep(t: Table, id: int, n: nat, i: nat)
    ensures |SlotsBefore(t, id, n, i + 1)| ==
            |SlotsBefore(t, id, n, i)| + if (n, i) in t && t[(n, i)] == id then 1 else 0
    ensures |SlotsBefore(t, id, n, i)| <= |SlotsOf(t, id)|
  {
    var sl: Slot := (n, i);
    var was, now := SlotsBefore(t, id, n, i), SlotsBefore(t, id, n, i + 1);
    assert now == was + if sl in t && t[sl] == id then {sl} else {};
    assert sl !in was;
    assert SlotsOf(t, id) == was + (SlotsOf(t, id) - was);
  }

  lemma NewStep(c: Config, s: State, n: nat, i: nat)
    requires NewSeen(c, s, n, i)
    ensures (n, i) !in s.new_ ==> NewSeen(c, s, n, i + 1) && NewLeft(s, n, i + 1) == NewLeft(s, n, i)
    ensures (n, i) in s.new_ && NewRight(c, s, (n, i)) && s.new_[(n, i)] in NewLeft(s, n, i) ==>
              NewSeen(c, s, n, i + 1) && NewLeft(s, n, i + 1) == Less(NewLeft(s, n, i), s.new_[(n, i)])
    ensures (n, i) in s.new_ && s.new_[(n, i)] in NewIds(s.mapInfo) && s.new_[(n, i)] !in NewLeft(s, n, i) ==>
              |SlotsOf(s.new_, s.new_[(n, i)])| > s.mapInfo[s.new_[(n, i)]].nRefCount
  {
    hide SlotsBefore, SlotsOf;
    var sl: Slot := (n, i);
    forall q: Slot ensures Before(q, n, i + 1) <==> Before(q, n, i) || q == sl { }
    forall id | id in NewIds(s.mapInfo)
      ensures |SlotsBefore(s.new_, id, n, i + 1)| ==
              |SlotsBefore(s.new_, id, n, i)| + if sl in s.new_ && s.new_[sl] == id then 1 else 0
      ensures |SlotsBefore(s.new_, id, n, i + 1)| <= |SlotsOf(s.new_, id)|
    {
      SlotsBeforeStep(s.new_, id, n, i);
      SlotsBeforeStep(s.new_, id, n, i + 1);
    }
    NewLeftStep(s, n, i);
  }

  lemma NewLeftStep(s: State, n: nat, i: nat)
    requires forall id | id in NewIds(s.mapInfo) ::
               |SlotsBefore(s.new_, id, n, i + 1)| ==
               |SlotsBefore(s.new_, id, n, i)| + if (n, i) in s.new_ && s.new_[(n, i)] == id then 1 else 0
    ensures (n, i) !in s.new_ ==> NewLeft(s, n, i + 1) == NewLeft(s, n, i)
    ensures (n, i) in s.new_ && s.new_[(n, i)] in NewLeft(s, n, i) ==>
              NewLeft(s, n, i + 1) == Less(NewLeft(s, n, i), s.new_[(n, i)])
  {
    hide SlotsBefore;
    var sl: Slot := (n, i);
    if sl in s.new_ && s.new_[sl] in NewLeft(s, n, i) {
      assert NewLeft(s, n, i + 1) == Less(NewLeft(s, n, i), s.new_[sl]);
    } else if sl !in s.new_ {
      assert NewLeft(s, n, i + 1) == NewLeft(s, n, i);
    }
  }

  lemma NewTurn(c: Config, s: State, n: nat)
    requires forall sl: Slot | sl in s.new_ :: sl.1 < c.bucketSize
    ensures NewSeen(c, s, n, c.bucketSize) ==> NewSeen(c, s, n + 1, 0)
    ensures NewLeft(s, n + 1, 0) == NewLeft(s, n, c.bucketSize)
  {
    forall sl: Slot | sl.1 < c.bucketSize ensures Before(sl, n + 1, 0) <==> Before(sl, n, c.bucketSize) { }
    forall id ensures SlotsBefore(s.new_, id, n + 1, 0) == SlotsBefore(s.new_, id, n, c.bucketSize) { }
  }

  lemma NewStart(c: Config, s: State)
    requires forall id | id in NewIds(s.mapInfo) :: s.mapInfo[id].nRefCount > 0
    ensures NewSeen(c, s, 0, 0) && NewLeft(s, 0, 0) == Counts(s.mapInfo)
  {
    forall id ensures SlotsBefore(s.new_, id, 0, 0) == {} { }
  }

  /** At the end of the walk every position was seen. */
  lemma NewEnd(c: Config, s: State)
    requires (forall sl: Slot | sl in s.new_ :: sl.0 < c.newBuckets) && NewSeen(c, s, c.newBuckets, 0)
    ensures NewFits(c, s)
    ensures NewLeft(s, c.newBuckets, 0) == map[] <==>
            forall id | id in NewIds(s.mapInfo) :: |SlotsOf(s.new_, id)| == s.mapInfo[id].nRefCount
  {
    forall id ensures SlotsBefore(s.new_, id, c.newBuckets, 0) == SlotsOf(s.new_, id) {
      forall sl: Slot | sl in SlotsOf(s.new_, id) ensures Before(sl, c.newBuckets, 0) { }
    }
    forall sl: Slot | sl in s.new_ ensures NewRight(c, s, sl) { assert Before(sl, c.newBuckets, 0); }
    var left := NewLeft(s, c.newBuckets, 0);
    if left == map[] {
      forall id | id in NewIds(s.mapInfo) ensures |SlotsOf(s.new_, id)| == s.mapInfo[id].nRefCount {
        assert id !in left;
      }
    }
  }

  method TakeOne(mapNew: map<int, int>, id: int) returns (left: map<int, int>)
    requires id in mapNew
    ensures left == Less(mapNew, id)
  {
    left := mapNew[id := mapNew[id] - 1];
    if left[id] == 0 { left := left - {id}; }
  }

  method CheckNewAt(a: CAddrMan, n: nat, i: nat, mapNew: map<int, int>) returns (code: int, left: map<int, int>)
    requires n < a.vvNew.Length0 && i < a.vvNew.Length1
    requires NewSeen(a.cfg, a.Abs(), n, i) && mapNew == NewLeft(a.Abs(), n, i)
    ensures code != 0 ==> !NewFits(a.cfg, a.Abs())
    ensures code == 0 ==> NewSeen(a.cfg, a.Abs(), n, i + 1) && left == NewLeft(a.Abs(), n, i + 1)
  {
    hide NewSeen, TableOf, SlotsOf, SlotsBefore, Less;
    NewStep(a.cfg, a.Abs(), n, i);
    var id := GetPosition(a.vvNew, n, i);
    left := mapNew;
    if id != -1 {
      if id !in left { return -12, left; }
      if a.cfg.Position(a.nKey, true, n, a.mapInfo[id].addr.service) != i { return -19, left; }
      left := TakeOne(left, id);
    }
    code := 0;
  }

  /** Every position is right, and no entry has more of them than references. */
  ghost predicate NewFits(c: Config, s: State) {
    && (forall sl: Slot | sl in s.new_ :: NewRight(c, s, sl))
    && (forall id | id in NewIds(s.mapInfo) :: |SlotsOf(s.new_, id)| <= s.mapInfo[id].nRefCount)
  }

  method CheckNew(a: CAddrMan, mapNew: map<int, int>) returns (code: int, left: map<int, int>)
    requires a.Shaped() && mapNew == Counts(a.mapInfo)
    requires forall id | id in NewIds(a.mapInfo) :: a.mapInfo[id].nRefCount > 0
    ensures code == 0 <==> NewFits(a.cfg, a.Abs())
    ensures code == 0 ==>
      (left == map[] <==>
         forall id | id in NewIds(a.mapInfo) :: |SlotsOf(a.Abs().new_, id)| == a.mapInfo[id].nRefCount)
  {
    hide NewSeen, NewLeft, NewFits, SlotsOf, NewIds, Counts;
    ghost var c, s := a.cfg, a.Abs();
    left := mapNew;
    NewStart(c, s);
    var n := 0;
    while n < a.cfg.newBuckets
      invariant n <= c.newBuckets && NewSeen(c, s, n, 0) && left == NewLeft(s, n, 0)
    {
      var i := 0;
      while i < a.cfg.bucketSize
        invariant i <= c.bucketSize && NewSeen(c, s, n, i) && left == NewLeft(s, n, i)
      {
        code, left := CheckNewAt(a, n, i, left);
        if code != 0 { return; }
        i := i + 1;
      }
      NewTurn(c, s, n);
      n := n + 1;
    }
    NewEnd(c, s);
    code := 0;
  }

  // ----- the entries -----

  ghost predicate EntryOk(c: Config, m: map<int, Info>, a: map<NetAddr, int>, v: seq<int>, id: int)
    requires id in m
  {
    var info := m[id];
    && (if info.fInTried then info.nRefCount == 0 else 0 < info.nRefCount <= c.perAddress)
    && info.addr.service.ip in a && a[info.addr.service.ip] == id
    && 0 <= info.nRandomPos < |v| && v[info.nRandomPos] == id
    && TimesOk(info)
  }

  /** The tried entries outside a set of ids, and the reference counts of the others outside it. */
  function TriedBut(m: map<int, Info>, rest: set<int>): set<int> {
    set id | id in m && id !in rest && m[id].fInTried
  }

  function CountsBut(m: map<int, Info>, rest: set<int>): map<int, int> {
    map id | id in m && id !in rest && !m[id].fInTried :: m[id].nRefCount
  }

  lemma ButOne(m: map<int, Info>, rest: set<int>, n: int)
    requires n in rest && n in m
    ensures TriedBut(m, rest - {n}) == TriedBut(m, rest) + (if m[n].fInTried then {n} else {})
    ensures CountsBut(m, rest - {n}) ==
            if m[n].fInTried then CountsBut(m, rest) else CountsBut(m, rest)[n := m[n].nRefCount]
  {
  }

  lemma ButAll(m: map<int, Info>)
    ensures TriedBut(m, m.Keys) == {} && CountsBut(m, m.Keys) == map[]
    ensures TriedBut(m, {}) == TriedIds(m) && CountsBut(m, {}) == Counts(m)
  {
  }

  lemma NothingIn(ids: set<int>)
    ensures (forall x: int :: x !in ids) ==> ids == {}
  {
    if forall x: int :: x !in ids { assert ids == {}; }
  }

  lemma {:induction false} HasLeast(ids: set<int>, x: int)
    requires x in ids
    ensures exists n | n in ids :: forall k | k in ids :: n <= k
    decreases ids
  {
    if y :| y in ids && y < x {
      var rest := ids - {x};
      HasLeast(rest, y);
      var n :| n in rest && forall k | k in rest :: n <= k;
      assert n <= y;
      forall k | k in ids ensures n <= k { if k != x { assert k in rest; } }
    }
  }

  /** The reverse map with keys added for entries it did not know. */
  ghost predicate Grown(m: map<int, Info>, a: map<NetAddr, int>, b: map<NetAddr, int>) {
    && (forall ip | ip in a :: ip in b && b[ip] == a[ip])
    && (forall ip | ip in b && ip !in a :: exists id :: id in m && m[id].addr.service.ip == ip)
  }

  /** Looking up an address that is not there adds it, with id 0. */
  method LookUp(a: CAddrMan, ip: NetAddr) returns (nId: int)
    modifies a`mapAddr
    ensures ip in a.mapAddr && nId == a.mapAddr[ip]
    ensures a.mapAddr == if ip in old(a.mapAddr) then old(a.mapAddr) else old(a.mapAddr)[ip := 0]
  {
    if ip !in a.mapAddr { a.mapAddr := a.mapAddr[ip := 0]; }
    nId := a.mapAddr[ip];
  }

  method CheckEntry(a: CAddrMan, n: int, setTried: set<int>, mapNew: map<int, int>)
    returns (code: int, setTried': set<int>, mapNew': map<int, int>)
    requires n in a.mapInfo
    modifies a`mapAddr
    ensures code == 0 <==> EntryOk(a.cfg, a.mapInfo, a.mapAddr, a.vRandom, n)
    ensures Grown(a.mapInfo, old(a.mapAddr), a.mapAddr)
    ensures code == 0 ==>
      && setTried' == setTried + (if a.mapInfo[n].fInTried then {n} else {})
      && mapNew' == if a.mapInfo[n].fInTried then mapNew else mapNew[n := a.mapInfo[n].nRefCount]
  {
    setTried', mapNew' := setTried, mapNew;
    var info := a.mapInfo[n];
    if info.fInTried {
      if info.nLastSuccess == 0 { return -1, setTried', mapNew'; }
      if info.nRefCount != 0 { return -2, setTried', mapNew'; }
      setTried' := setTried' + {n};
    } else {
      if info.nRefCount < 0 || info.nRefCount > a.cfg.perAddress { return -3, setTried', mapNew'; }
      if info.nRefCount == 0 { return -4, setTried', mapNew'; }
      mapNew' := mapNew'[n := info.nRefCount];
    }
    var nId := LookUp(a, info.addr.service.ip);
    if nId != n { return -5, setTried', mapNew'; }
    if info.nRandomPos < 0 || info.nRandomPos >= |a.vRandom| || a.vRandom[info.nRandomPos] != n {
      return -14, setTried', mapNew';
    }
    if info.nLastTry < 0 { return -6, setTried', mapNew'; }
    if info.nLastSuccess < 0 { return -8, setTried', mapNew'; }
    code := 0;
  }

  /** All entries, in the order of their ids. */
  method CheckEntries(a: CAddrMan) returns (code: int, setTried: set<int>, mapNew: map<int, int>)
    modifies a`mapAddr
    ensures code == 0 <==> forall id | id in a.mapInfo :: EntryOk(a.cfg, a.mapInfo, a.mapAddr, a.vRandom, id)
    ensures Grown(a.mapInfo, old(a.mapAddr), a.mapAddr)
    ensures code == 0 ==> setTried == TriedIds(a.mapInfo) && mapNew == Counts(a.mapInfo)
  {
    hide Grown, TriedBut, CountsBut;
    setTried, mapNew := {}, map[];
    ButAll(a.mapInfo);
    GrownOn(a.mapInfo, a.mapAddr, a.mapAddr, a.mapAddr);
    var rest := a.mapInfo.Keys;
    while rest != {}
      invariant rest <= a.mapInfo.Keys
      invariant setTried == TriedBut(a.mapInfo, rest) && mapNew == CountsBut(a.mapInfo, rest)
      invariant Grown(a.mapInfo, old(a.mapAddr), a.mapAddr)
      invariant forall id | id in a.mapInfo && id !in rest :: EntryOk(a.cfg, a.mapInfo, a.mapAddr, a.vRandom, id)
      decreases rest
    {
      NothingIn(rest);
      ghost var some :| some in rest;
      HasLeast(rest, some);
      var n :| n in rest && forall k | k in rest :: n <= k;
      ghost var before := a.mapAddr;
      ButOne(a.mapInfo, rest, n);
      code, setTried, mapNew := CheckEntry(a, n, setTried, mapNew);
      GrownOn(a.mapInfo, old(a.mapAddr), before, a.mapAddr);
      if code != 0 { return; }
      rest := rest - {n};
    }
    code := 0;
  }

  /** Growth adds up, and what held of an entry's link still holds. */
  lemma GrownOn(m: map<int, Info>, a: map<NetAddr, int>, b: map<NetAddr, int>, d: map<NetAddr, int>)
    ensures Grown(m, a, a)
    ensures Grown(m, a, b) && Grown(m, b, d) ==> Grown(m, a, d)
    ensures Grown(m, b, d) ==> forall ip | ip in b :: ip in d && d[ip] == b[ip]
  {
  }

  lemma LinkedStays(m: map<int, Info>, a: map<NetAddr, int>, b: map<NetAddr, int>)
    requires Linked(m, a) && Grown(m, a, b)
    ensures b == a
  {
  }

  // ----- the whole check -----

  lemma CountsSize(m: map<int, Info>)
    ensures |Counts(m)| == |NewIds(m)|
  {
    assert Counts(m).Keys == NewIds(m);
    assert |Counts(m)| == |Counts(m).Keys|;
  }

  /** All that is compared, in the terms in which it is compared. */
  ghost predicate AllOk(c: Config, s: State) {
    && |s.vRandom| == s.nTried + s.nNew
    && (forall id | id in s.mapInfo :: EntryOk(c, s.mapInfo, s.mapAddr, s.vRandom, id))
    && |TriedIds(s.mapInfo)| == s.nTried && |NewIds(s.mapInfo)| == s.nNew
    && TablesOk(c, s)
  }

  ghost predicate TablesOk(c: Config, s: State) {
    && (forall sl: Slot | sl in s.tried :: TriedRight(c, s, sl))
    && NewFits(c, s)
    && (forall id | id in TriedIds(s.mapInfo) :: InPlace(c, s, id))
    && (forall id | id in NewIds(s.mapInfo) :: |SlotsOf(s.new_, id)| == s.mapInfo[id].nRefCount)
    && s.key != 0
  }

  lemma OkIsPassing(c: Config, s: State)
    requires forall sl: Slot | sl in s.new_ :: sl.0 < c.newBuckets
    ensures AllOk(c, s) <==> Passing(c, s)
  {
    hide AllOk, Passing;
    if AllOk(c, s) { OkPasses(c, s); }
    if Passing(c, s) { PassingOk(c, s); }
  }

  lemma OkPasses(c: Config, s: State)
    requires forall sl: Slot | sl in s.new_ :: sl.0 < c.newBuckets
    requires AllOk(c, s)
    ensures Passing(c, s)
  {
    hide Listed, SlotsOf;
    forall id | id in s.mapInfo
      ensures RefOk(c, s, id, s.mapInfo[id]) && TimesOk(s.mapInfo[id]) && id !in Unreferenced(s.mapInfo)
    {
      assert EntryOk(c, s.mapInfo, s.mapAddr, s.vRandom, id);
      if s.mapInfo[id].fInTried { assert id in TriedIds(s.mapInfo); } else { assert id in NewIds(s.mapInfo); }
    }
    Runs.SplitIds(s.mapInfo);
    PlacedListed(s.mapInfo, s.vRandom);
    forall sl: Slot | sl in s.new_ ensures NewRight(c, s, sl) { }
  }

  lemma PassingOk(c: Config, s: State)
    requires Passing(c, s)
    ensures AllOk(c, s)
  {
    hide SlotsOf, Listed;
    ListedAt(s.mapInfo, s.vRandom);
    forall id | id in s.mapInfo
      ensures RefOk(c, s, id, s.mapInfo[id]) && EntryOk(c, s.mapInfo, s.mapAddr, s.vRandom, id)
    {
      assert RefOk(c, s, id, s.mapInfo[id]) && TimesOk(s.mapInfo[id]);
      assert id !in Unreferenced(s.mapInfo);
    }
    Runs.SplitIds(s.mapInfo);
    Runs.ListedOnce(s.mapInfo, s.vRandom);
  }

  lemma ListedAt(m: map<int, Info>, v: seq<int>)
    requires Listed(m, v)
    ensures forall id | id in m :: 0 <= m[id].nRandomPos < |v| && v[m[id].nRandomPos] == id
  {
  }

  /** The two walks over the tables, and the tests after them. */
  method CheckTables(a: CAddrMan, setTried: set<int>, mapNew: map<int, int>) returns (code: int)
    requires a.Shaped() && setTried == TriedIds(a.mapInfo) && mapNew == Counts(a.mapInfo)
    requires forall id | id in NewIds(a.mapInfo) :: a.mapInfo[id].nRefCount > 0
    ensures code == 0 <==> TablesOk(a.cfg, a.Abs())
  {
    hide TriedRight, InPlace, NewFits, SlotsOf, NewIds, Counts, TableOf;
    var leftTried, leftNew;
    code, leftTried := CheckTried(a, setTried);
    if code != 0 { return; }
    code, leftNew := CheckNew(a, mapNew);
    if code != 0 { return; }
    if |leftTried| != 0 {
      ghost var id :| id in leftTried;
      assert id in TriedIds(a.mapInfo) && !InPlace(a.cfg, a.Abs(), id);
      return -13;
    }
    assert forall id | id in TriedIds(a.mapInfo) :: id !in leftTried;
    if |leftNew| != 0 { return -15; }
    if a.nKey == 0 { return -16; }
  }

  /**
    The check, in the order of the program. It answers zero for exactly the managers
    that are consistent but for stray keys of the reverse map and ids out of range;
    looking up an address that is missing there adds it, so what passes is the manager
    as the check leaves it.
   */
  method Check_(a: CAddrMan) returns (code: int)
    requires a.Shaped()
    modifies a`mapAddr
    ensures code == 0 <==> Passing(a.cfg, a.Abs())
    ensures old(Linked(a.mapInfo, a.mapAddr)) ==> a.mapAddr == old(a.mapAddr)
    ensures old(a.Valid()) ==> code == 0 && a.Valid()
  {
    hide TablesOk, Passing, EntryOk, TriedIds, NewIds, Counts, Linked, Inv, Ids, TableOf;
    if a.Valid() { InvPassing(a.cfg, a.Abs()); PassingLinked(a.cfg, a.Abs()); }
    TableRange(a);
    OkIsPassing(a.cfg, a.Abs());
    if |a.vRandom| != a.nTried + a.nNew { return -7; }
    var setTried, mapNew;
    code, setTried, mapNew := CheckEntries(a);
    if old(Linked(a.mapInfo, a.mapAddr)) { LinkedStays(a.mapInfo, old(a.mapAddr), a.mapAddr); }
    OkIsPassing(a.cfg, a.Abs());
    CountsSize(a.mapInfo);
    if code != 0 { return; }
    if |setTried| != a.nTried { return -9; }
    if |mapNew| != a.nNew { return -10; }
    EntriesCount(a.cfg, a.mapInfo, a.mapAddr, a.vRandom);
    code := CheckTables(a, setTried, mapNew);
  }

  lemma TableRange(a: CAddrMan)
    requires a.Shaped()
    ensures forall sl: Slot | sl in TableOf(a.vvNew) :: sl.0 < a.cfg.newBuckets
  {
  }

  lemma PassingLinked(c: Config, s: State)
    requires Passing(c, s)
    ensures Linked(s.mapInfo, s.mapAddr)
  {
  }

  lemma EntriesCount(c: Config, m: map<int, Info>, a: map<NetAddr, int>, v: seq<int>)
    requires forall id | id in m :: EntryOk(c, m, a, v, id)
    ensures forall id | id in NewIds(m) :: m[id].nRefCount > 0
  {
  }
}
