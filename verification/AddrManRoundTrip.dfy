/**
  Loading a saved address manager into a new one loses no entry: the result is the
  same manager with its entries renumbered in the order in which they were saved.
 */
module AddrManRoundTrip {
  import opened AddrManImage
  import opened AddrManState
  import opened Util

  /** Ids in the order of saving: those outside tried, then the tried ones. */
  function Order(s: State): seq<int>
    requires s.nIdCount >= 0
  {
    Ascending(Referenced(s.mapInfo), s.nIdCount) + Ascending(TriedIds(s.mapInfo), s.nIdCount)
  }

  /** Every entry once, k of them outside tried, each of those at its rank. */
  ghost predicate Ordered(m: map<int, Info>, ids: seq<int>, k: nat) {
    && k <= |ids|
    && (forall i | 0 <= i < |ids| :: ids[i] in m && (m[ids[i]].fInTried <==> i >= k))
    && (forall id | id in m :: id in ids)
    && (forall i, j | 0 <= i < j < |ids| :: ids[i] != ids[j])
    && (forall i | 0 <= i < k :: ids[i] >= 0 && Rank(m, ids[i]) == i)
  }

  lemma ReferencedAreNew(c: Config, s: State)
    requires Inv(c, s)
    ensures Referenced(s.mapInfo) == NewIds(s.mapInfo)
  {
    forall id | id in s.mapInfo ensures s.mapInfo[id].nRefCount != 0 <==> !s.mapInfo[id].fInTried {
      assert RefOk(c, s, id, s.mapInfo[id]);
      assert id !in Unreferenced(s.mapInfo);
    }
  }

  lemma AscendingDistinct(ids: set<int>, n: nat)
    ensures var v := Ascending(ids, n); forall i, j | 0 <= i < j < |v| :: v[i] != v[j]
  {
    var v := Ascending(ids, n);
    forall i, j | 0 <= i < j < |v| ensures v[i] != v[j] { AscendingIs(ids, n, i); AscendingIs(ids, n, j); }
  }

  lemma OrderIs(c: Config, s: State)
    requires Inv(c, s)
    ensures Ordered(s.mapInfo, Order(s), s.nNew) && |Order(s)| == s.nNew + s.nTried
    ensures |Ascending(Referenced(s.mapInfo), s.nIdCount)| == s.nNew
  {
    hide Tables, Refs, Listed, Reverse, Ascending;
    var news, tried := Ascending(Referenced(s.mapInfo), s.nIdCount), Ascending(TriedIds(s.mapInfo), s.nIdCount);
    var ids := Order(s);
    ReferencedAreNew(c, s);
    AscendingSize(Referenced(s.mapInfo), s.nIdCount);
    AscendingSize(TriedIds(s.mapInfo), s.nIdCount);
    AscendingDistinct(Referenced(s.mapInfo), s.nIdCount);
    AscendingDistinct(TriedIds(s.mapInfo), s.nIdCount);
    forall i | 0 <= i < |ids| ensures ids[i] in s.mapInfo && (s.mapInfo[ids[i]].fInTried <==> i >= s.nNew) {
      if i < |news| {
        AscendingIs(Referenced(s.mapInfo), s.nIdCount, i);
      } else {
        AscendingIs(TriedIds(s.mapInfo), s.nIdCount, i - |news|);
      }
    }
    forall i | 0 <= i < s.nNew ensures ids[i] >= 0 && Rank(s.mapInfo, ids[i]) == i {
      AscendingIs(Referenced(s.mapInfo), s.nIdCount, i);
    }
    forall id | id in s.mapInfo ensures id in ids {
      if s.mapInfo[id].fInTried { AscendingHas(TriedIds(s.mapInfo), s.nIdCount, id); assert id in tried; }
      else { AscendingHas(Referenced(s.mapInfo), s.nIdCount, id); assert id in news; }
    }
  }

  // ----- entries -----

  /** The entry at a place as it is after loading the entries, before the buckets. */
  function Renumbered(m: map<int, Info>, ids: seq<int>, k: nat, i: nat): Info
    requires i < |ids| && ids[i] in m
  {
    m[ids[i]].(nLastTry := 0, nRefCount := 0, fInTried := i >= k, nRandomPos := i)
  }

  ghost predicate EntriesAt(m: map<int, Info>, ids: seq<int>, k: nat, r: State, n: nat)
    requires n <= |ids| && forall i | 0 <= i < |ids| :: ids[i] in m
  {
    && |r.vRandom| == n
    && (forall i :: i in r.mapInfo <==> 0 <= i < n)
    && (forall i | 0 <= i < n :: r.mapInfo[i] == Renumbered(m, ids, k, i) && r.vRandom[i] == i)
  }

  ghost predicate AddrsAt(m: map<int, Info>, ids: seq<int>, a: map<NetAddr, int>, n: nat)
    requires n <= |ids| && forall i | 0 <= i < |ids| :: ids[i] in m
  {
    && (forall i | 0 <= i < n :: m[ids[i]].addr.service.ip in a && a[m[ids[i]].addr.service.ip] == i)
    && (forall ip | ip in a :: 0 <= a[ip] < n && m[ids[a[ip]]].addr.service.ip == ip)
  }

  ghost predicate TriedAt(c: Config, key: Key, m: map<int, Info>, ids: seq<int>, k: nat, t: Table, n: nat)
    requires n <= |ids| && forall i | 0 <= i < |ids| :: ids[i] in m
  {
    && (forall i | k <= i < n :: var sl := TriedSlot(c, key, m[ids[i]].addr.service); sl in t && t[sl] == i)
    && (forall sl: Slot | sl in t :: k <= t[sl] < n && sl == TriedSlot(c, key, m[ids[t[sl]]].addr.service))
  }

  ghost predicate At(c: Config, s: State, ids: seq<int>, r: State, n: nat)
    requires s.nNew >= 0
  {
    && Ordered(s.mapInfo, ids, s.nNew) && n <= |ids|
    && r.key == s.key && r.nNew == s.nNew && r.nTried == s.nTried && r.new_ == map[]
    && EntriesAt(s.mapInfo, ids, s.nNew, r, n) && AddrsAt(s.mapInfo, ids, r.mapAddr, n) &&
       TriedAt(c, s.key, s.mapInfo, ids, s.nNew, r.tried, n)
  }

  /** One more entry, with an id of its own and an address of its own. */
  lemma EntryStep(m: map<int, Info>, a: map<NetAddr, int>, ids: seq<int>, k: nat, r: State, n: nat)
    requires Reverse(m, a) && Ordered(m, ids, k) && n < |ids|
    requires EntriesAt(m, ids, k, r, n) && AddrsAt(m, ids, r.mapAddr, n)
    ensures var q := WithEntry(r, Renumbered(m, ids, k, n), n);
            EntriesAt(m, ids, k, q, n + 1) && AddrsAt(m, ids, q.mapAddr, n + 1)
  {
    forall i | 0 <= i < n ensures m[ids[i]].addr.service.ip != m[ids[n]].addr.service.ip {
      assert a[m[ids[i]].addr.service.ip] == ids[i];
      assert a[m[ids[n]].addr.service.ip] == ids[n];
    }
  }

  lemma LoadNewStep(c: Config, s: State, r: State, n: nat)
    requires Inv(c, s) && n < s.nNew <= |Order(s)| && At(c, s, Order(s), r, n)
    ensures n < |SavedNew(s)| && Numbered(r, n)
    ensures At(c, s, Order(s), LoadOneNew(c, r, SavedNew(s)[n], n, true), n + 1)
  {
    OrderIs(c, s);
    AtNumbered(s.mapInfo, Order(s), s.nNew, r, n);
    EntryStep(s.mapInfo, s.mapAddr, Order(s), s.nNew, r, n);
    assert SavedNew(s)[n] == Store(s.mapInfo[Order(s)[n]]);
  }

  lemma StartAt(c: Config, s: State)
    requires Inv(c, s) && s.nNew <= |Order(s)| && Ordered(s.mapInfo, Order(s), s.nNew)
    requires forall sl: Slot | sl in s.new_ :: s.new_[sl] >= 0
    ensures At(c, s, Order(s), Start(Saved(c, s)), 0)
  {
  }

  lemma {:induction false} LoadNewAt(c: Config, s: State, img: Image, n: nat)
    requires Inv(c, s) && n <= s.nNew <= |Order(s)| && n <= |img.newEntries| && img.newEntries == SavedNew(s) &&
             At(c, s, Order(s), Start(img), 0)
    ensures At(c, s, Order(s), LoadNew(c, img, n, true), n)
  {
    hide At, Numbered, Order, SavedNew;
    if n > 0 {
      LoadNewAt(c, s, img, n - 1);
      LoadNewStep(c, s, LoadNew(c, img, n - 1, true), n - 1);
    }
  }

  /** No two tried entries share a slot, so none is lost. */
  lemma TriedFree(c: Config, s: State, ids: seq<int>, t: Table, n: nat)
    requires Inv(c, s) && Ordered(s.mapInfo, ids, s.nNew) && s.nNew <= n < |ids| &&
             TriedAt(c, s.key, s.mapInfo, ids, s.nNew, t, n)
    ensures TriedSlot(c, s.key, s.mapInfo[ids[n]].addr.service) !in t
  {
    var sl := TriedSlot(c, s.key, s.mapInfo[ids[n]].addr.service);
    assert RefOk(c, s, ids[n], s.mapInfo[ids[n]]);
    forall q: Slot | q in t ensures q != sl {
      assert RefOk(c, s, ids[t[q]], s.mapInfo[ids[t[q]]]);
      assert s.tried[q] == ids[t[q]] && ids[t[q]] != ids[n];
    }
  }

  lemma TriedStep(c: Config, key: Key, m: map<int, Info>, ids: seq<int>, k: nat, t: Table, n: nat)
    requires k <= n < |ids| && (forall i | 0 <= i < |ids| :: ids[i] in m) && TriedAt(c, key, m, ids, k, t, n)
    requires TriedSlot(c, key, m[ids[n]].addr.service) !in t
    ensures TriedAt(c, key, m, ids, k, t[TriedSlot(c, key, m[ids[n]].addr.service) := n], n + 1)
  {
  }

  lemma AtNumbered(m: map<int, Info>, ids: seq<int>, k: nat, r: State, n: nat)
    requires n <= |ids| && (forall i | 0 <= i < |ids| :: ids[i] in m) && EntriesAt(m, ids, k, r, n)
    ensures Numbered(r, n)
  {
  }

  lemma LoadOneIs(c: Config, m: map<int, Info>, ids: seq<int>, k: nat, r: State, n: nat)
    requires k <= n < |ids| && (forall i | 0 <= i < |ids| :: ids[i] in m) && |r.vRandom| == n
    requires Numbered(r, n) && r.nIdCount == n && TriedSlot(c, r.key, m[ids[n]].addr.service) !in r.tried
    ensures var sl := TriedSlot(c, r.key, m[ids[n]].addr.service);
            LoadOneTried(c, r, Store(m[ids[n]])) ==
            WithEntry(r, Renumbered(m, ids, k, n), n).(tried := r.tried[sl := n], nIdCount := n + 1)
  {
  }

  lemma TriedOne(c: Config, s: State, ids: seq<int>, r: State, n: nat)
    requires Inv(c, s) && At(c, s, ids, r, n) && r.nIdCount == n && s.nNew <= n < |ids|
    ensures Numbered(r, n)
    ensures var q := LoadOneTried(c, r, Store(s.mapInfo[ids[n]])); At(c, s, ids, q, n + 1) && q.nIdCount == n + 1
  {
    TriedFree(c, s, ids, r.tried, n);
    AtNumbered(s.mapInfo, ids, s.nNew, r, n);
    LoadOneIs(c, s.mapInfo, ids, s.nNew, r, n);
    EntryStep(s.mapInfo, s.mapAddr, ids, s.nNew, r, n);
    TriedStep(c, s.key, s.mapInfo, ids, s.nNew, r.tried, n);
  }

  lemma SavedTriedIs(c: Config, s: State, j: nat)
    requires Inv(c, s) && j < s.nTried
    ensures s.nNew + j < |Order(s)| && j < |SavedTried(s)| && Order(s)[s.nNew + j] in s.mapInfo
    ensures SavedTried(s)[j] == Store(s.mapInfo[Order(s)[s.nNew + j]])
  {
    hide Inv, Ascending;
    InvSizes(c, s);
    OrderIs(c, s);
  }

  lemma InvSizes(c: Config, s: State)
    requires Inv(c, s)
    ensures s.nIdCount >= 0 && s.nNew >= 0 && s.nTried >= 0
  {
  }

  lemma LoadTriedStep(c: Config, s: State, ids: seq<int>, q: State, st: Stored, n: nat)
    requires Inv(c, s) && s.nNew <= n < |ids| && At(c, s, ids, q, n) && q.nIdCount == n
    requires ids[n] in s.mapInfo && st == Store(s.mapInfo[ids[n]])
    ensures Numbered(q, q.nIdCount)
    ensures var p := LoadOneTried(c, q, st); At(c, s, ids, p, n + 1) && p.nIdCount == n + 1
  {
    hide LoadOneTried;
    TriedOne(c, s, ids, q, n);
  }

  /** A loaded state as far as it has got, with its next id. */
  ghost predicate Got(c: Config, s: State, r: State, n: nat)
    requires s.nIdCount >= 0 && s.nNew >= 0
  {
    n <= |Order(s)| && At(c, s, Order(s), r, n) && r.nIdCount == n
  }

  lemma {:induction false} LoadTriedAt(c: Config, s: State, r: State, j: nat)
    requires Inv(c, s) && j <= s.nTried <= |SavedTried(s)| && Got(c, s, r, s.nNew) && Numbered(r, r.nIdCount)
    ensures Got(c, s, LoadTried(c, r, SavedTried(s), j), s.nNew + j)
  {
    hide At, Numbered, Order, Inv, SavedTried, LoadOneTried;
    InvSizes(c, s);
    if j > 0 {
      LoadTriedAt(c, s, r, j - 1);
      SavedTriedIs(c, s, j - 1);
      LoadTriedStep(c, s, Order(s), LoadTried(c, r, SavedTried(s), j - 1), SavedTried(s)[j - 1], s.nNew + j - 1);
    }
  }

  // ----- buckets -----

  /** The new table under the new numbers, up to a position. */
  function Part(m: map<int, Info>, t: Table, n: nat, i: nat): Table
    requires forall sl: Slot | sl in t :: t[sl] >= 0
  {
    map sl: Slot | sl in t && Before(sl, n, i) :: Rank(m, t[sl]) as int
  }

  /** A state with the given new table, and the reference counts that go with it. */
  function Filled(r: State, t: Table): State {
    r.(new_ := t, mapInfo := map i | i in r.mapInfo :: WithRef(r.mapInfo[i], |SlotsOf(t, i)|))
  }

  lemma Smaller(a: set<Slot>, b: set<Slot>, x: Slot)
    requires a <= b && x in b && x !in a
    ensures |a| < |b|
  {
    assert a <= b - {x};
    SubsetSize(a, b - {x});
  }

  /** A place outside tried takes over exactly the slots of the entry it stands for. */
  lemma PartSlots(c: Config, s: State, ids: seq<int>, n: nat, i: nat, p: nat)
    requires Tables(c, s) && Ids(s.mapInfo, s.nIdCount) && 0 <= s.nNew && Ordered(s.mapInfo, ids, s.nNew) && p < s.nNew
    ensures forall sl: Slot | sl in s.new_ :: s.new_[sl] >= 0
    ensures SlotsOf(Part(s.mapInfo, s.new_, n, i), p) ==
            set sl: Slot | sl in SlotsOf(s.new_, ids[p]) && Before(sl, n, i)
  {
    forall sl: Slot | sl in s.new_
      ensures s.new_[sl] >= 0 && (Rank(s.mapInfo, s.new_[sl]) == p <==> s.new_[sl] == ids[p])
    {
      var id := s.new_[sl];
      assert id in s.mapInfo && id in ids;
      var q :| 0 <= q < |ids| && ids[q] == id;
    }
  }

  lemma FillRank(c: Config, s: State, ids: seq<int>, sl: Slot)
    requires Tables(c, s) && Ids(s.mapInfo, s.nIdCount) && 0 <= s.nNew && Ordered(s.mapInfo, ids, s.nNew) &&
             sl in s.new_
    ensures s.new_[sl] >= 0 && Rank(s.mapInfo, s.new_[sl]) < s.nNew && ids[Rank(s.mapInfo, s.new_[sl])] == s.new_[sl]
  {
    var id := s.new_[sl];
    assert id in s.mapInfo;
    assert id in ids;
    var q :| 0 <= q < |ids| && ids[q] == id;
  }

  lemma PartStep(m: map<int, Info>, t: Table, n: nat, i: nat)
    requires forall sl: Slot | sl in t :: t[sl] >= 0
    ensures Part(m, t, n, i + 1) ==
            if (n, i) in t then Part(m, t, n, i)[(n, i) := Rank(m, t[(n, i)])] else Part(m, t, n, i)
    ensures (n, i) !in Part(m, t, n, i)
  {
  }

  lemma FilledStep(r: State, t: Table, sl: Slot, p: int)
    requires sl !in t && p in r.mapInfo
    ensures Filled(r, t[sl := p]) == Placed(Filled(r, t), p, sl)
  {
    hide SlotsOf;
    forall i | i in r.mapInfo ensures |SlotsOf(t[sl := p], i)| == |SlotsOf(t, i)| + if i == p then 1 else 0 {
      SlotCountAdd(t, sl, p, i);
    }
    assert Filled(r, t[sl := p]).mapInfo == Placed(Filled(r, t), p, sl).mapInfo;
  }

  /** One occupied position: its index is read back into the same position. */
  lemma FillOne(c: Config, s: State, ids: seq<int>, r: State, n: nat, i: nat)
    requires Inv(c, s) && At(c, s, ids, r, |ids|) && r.nIdCount == |ids| && (n, i) in s.new_
    ensures forall sl: Slot | sl in s.new_ :: s.new_[sl] >= 0
    ensures var q := Filled(r, Part(s.mapInfo, s.new_, n, i));
            Numbered(q, q.nIdCount) &&
            LoadIndex(c, q, n, Rank(s.mapInfo, s.new_[(n, i)]), true) == Filled(r, Part(s.mapInfo, s.new_, n, i + 1))
  {
    var sl: Slot := (n, i);
    FillRank(c, s, ids, sl);
    var p := Rank(s.mapInfo, s.new_[sl]);
    Room(c, s, ids, r, n, i, p);
    PartStep(s.mapInfo, s.new_, n, i);
    var t := Part(s.mapInfo, s.new_, n, i);
    AtNumbered(s.mapInfo, ids, s.nNew, r, |ids|);
    FilledStep(r, t, sl, p);
    FilledNumbered(r, t);
    ReadOne(c, Filled(r, t), sl, p);
  }

  /** What reading an index does in a partly filled state. */
  lemma ReadOne(c: Config, q: State, sl: Slot, p: int)
    requires Numbered(q, q.nIdCount) && 0 <= p < q.nNew && p in q.mapInfo && sl !in q.new_
    requires sl.1 == c.Position(q.key, true, sl.0, q.mapInfo[p].addr.service) && q.mapInfo[p].nRefCount < c.perAddress
    ensures LoadIndex(c, q, sl.0, p, true) == Placed(q, p, sl)
  {
  }

  /** There is room for one more reference, and the position comes out the same. */
  lemma Room(c: Config, s: State, ids: seq<int>, r: State, n: nat, i: nat, p: nat)
    requires Inv(c, s) && At(c, s, ids, r, |ids|) && (n, i) in s.new_ && p < s.nNew && ids[p] == s.new_[(n, i)]
    ensures forall sl: Slot | sl in s.new_ :: s.new_[sl] >= 0
    ensures |SlotsOf(Part(s.mapInfo, s.new_, n, i), p)| < c.perAddress
    ensures p in r.mapInfo && c.Position(r.key, true, n, r.mapInfo[p].addr.service) == i
  {
    var id := ids[p];
    PartSlots(c, s, ids, n, i, p);
    Smaller(SlotsOf(Part(s.mapInfo, s.new_, n, i), p), SlotsOf(s.new_, id), (n, i));
    assert id in s.mapInfo && RefOk(c, s, id, s.mapInfo[id]);
    assert r.mapInfo[p] == Renumbered(s.mapInfo, ids, s.nNew, p);
  }

  lemma FilledNumbered(r: State, t: Table)
    requires Numbered(r, r.nIdCount)
    ensures Numbered(Filled(r, t), r.nIdCount)
  {
  }

  /** One position of a bucket, occupied or not. */
  lemma FillStep(c: Config, s: State, ids: seq<int>, r: State, n: nat, i: nat, q: State)
    requires Inv(c, s) && At(c, s, ids, r, |ids|) && r.nIdCount == |ids| && Numbered(q, q.nIdCount)
    requires forall sl: Slot | sl in s.new_ :: s.new_[sl] >= 0
    requires LoadIndices(c, q, n, BucketList(s.mapInfo, s.new_, n, i), true) == Filled(r, Part(s.mapInfo, s.new_, n, i))
    ensures LoadIndices(c, q, n, BucketList(s.mapInfo, s.new_, n, i + 1), true) ==
            Filled(r, Part(s.mapInfo, s.new_, n, i + 1))
  {
    PartStep(s.mapInfo, s.new_, n, i);
    var v, w := BucketList(s.mapInfo, s.new_, n, i), BucketList(s.mapInfo, s.new_, n, i + 1);
    if (n, i) in s.new_ {
      assert w[..|w| - 1] == v && w[|w| - 1] == Rank(s.mapInfo, s.new_[(n, i)]);
      FillOne(c, s, ids, r, n, i);
    } else {
      assert w == v;
    }
  }

  lemma {:induction false} FillBucket(c: Config, s: State, ids: seq<int>, r: State, n: nat, i: nat, q: State)
    requires Inv(c, s) && At(c, s, ids, r, |ids|) && r.nIdCount == |ids| && Numbered(q, q.nIdCount)
    requires forall sl: Slot | sl in s.new_ :: s.new_[sl] >= 0
    requires q == Filled(r, Part(s.mapInfo, s.new_, n, 0))
    ensures LoadIndices(c, q, n, BucketList(s.mapInfo, s.new_, n, i), true) == Filled(r, Part(s.mapInfo, s.new_, n, i))
  {
    hide Inv, At, Numbered, Filled, Part;
    if i > 0 {
      FillBucket(c, s, ids, r, n, i - 1, q);
      FillStep(c, s, ids, r, n, i - 1, q);
    }
  }

  lemma PartTurn(c: Config, s: State, n: nat)
    requires c.Valid() && Tables(c, s) && forall sl: Slot | sl in s.new_ :: s.new_[sl] >= 0
    ensures Part(s.mapInfo, s.new_, n + 1, 0) == Part(s.mapInfo, s.new_, n, c.bucketSize)
  {
    forall sl: Slot | sl in s.new_ ensures Before(sl, n + 1, 0) == Before(sl, n, c.bucketSize) { }
  }

  lemma {:induction false} BucketListsAt(m: map<int, Info>, t: Table, n: nat, size: nat, k: nat)
    requires (forall sl: Slot | sl in t :: t[sl] >= 0) && k < n
    ensures BucketLists(m, t, n, size)[k] == BucketList(m, t, k, size)
  {
    if k < n - 1 { BucketListsAt(m, t, n - 1, size, k); }
  }

  lemma FilledWithNothing(r: State)
    requires r.new_ == map[] && forall i | i in r.mapInfo :: r.mapInfo[i].nRefCount == 0
    ensures Filled(r, map[]) == r
  {
    forall i | i in r.mapInfo ensures WithRef(r.mapInfo[i], |SlotsOf(map[], i)|) == r.mapInfo[i] {
      assert SlotsOf(map[], i) == {};
    }
    assert Filled(r, map[]).mapInfo == r.mapInfo;
  }

  lemma FilledEmpty(c: Config, s: State, ids: seq<int>, r: State)
    requires s.nNew >= 0 && At(c, s, ids, r, |ids|) && forall sl: Slot | sl in s.new_ :: s.new_[sl] >= 0
    ensures Filled(r, Part(s.mapInfo, s.new_, 0, 0)) == r
  {
    assert Part(s.mapInfo, s.new_, 0, 0) == map[];
    forall i | i in r.mapInfo ensures r.mapInfo[i].nRefCount == 0 {
      assert r.mapInfo[i] == Renumbered(s.mapInfo, ids, s.nNew, i);
    }
    FilledWithNothing(r);
  }

  lemma FillBucketsStep(c: Config, s: State, ids: seq<int>, r: State, n: nat, q: State)
    requires c.Valid() && Inv(c, s) && At(c, s, ids, r, |ids|) && r.nIdCount == |ids| && n < c.newBuckets
    requires forall sl: Slot | sl in s.new_ :: s.new_[sl] >= 0
    requires q == Filled(r, Part(s.mapInfo, s.new_, n, 0)) && Numbered(q, q.nIdCount)
    ensures LoadIndices(c, q, n, BucketLists(s.mapInfo, s.new_, c.newBuckets, c.bucketSize)[n], true) ==
            Filled(r, Part(s.mapInfo, s.new_, n + 1, 0))
  {
    BucketListsAt(s.mapInfo, s.new_, c.newBuckets, c.bucketSize, n);
    FillBucket(c, s, ids, r, n, c.bucketSize, q);
    PartTurn(c, s, n);
  }

  lemma {:induction false} FillBuckets(c: Config, s: State, ids: seq<int>, r: State, lists: seq<seq<int>>, n: nat)
    requires c.Valid() && Inv(c, s) && At(c, s, ids, r, |ids|) && r.nIdCount == |ids| && n <= c.newBuckets &&
             Numbered(r, r.nIdCount)
    requires forall sl: Slot | sl in s.new_ :: s.new_[sl] >= 0
    requires lists == BucketLists(s.mapInfo, s.new_, c.newBuckets, c.bucketSize)
    ensures LoadBuckets(c, r, lists, n, true) == Filled(r, Part(s.mapInfo, s.new_, n, 0))
  {
    hide At, Numbered, Filled, Part;
    if n == 0 {
      FilledEmpty(c, s, ids, r);
    } else {
      FillBuckets(c, s, ids, r, lists, n - 1);
      FillBucketsStep(c, s, ids, r, n - 1, LoadBuckets(c, r, lists, n - 1, true));
    }
  }

  // ----- the whole -----

  lemma {:induction false} PrunedNone(s: State, n: nat)
    requires Numbered(s, s.nIdCount)
    requires forall id | id in s.mapInfo :: s.mapInfo[id].fInTried || s.mapInfo[id].nRefCount != 0
    ensures Pruned(s, n) == s
  {
    hide Listed;
    if n > 0 { PrunedNone(s, n - 1); }
  }

  /** The same manager, its entries numbered by their places in ids; what is kept in memory only may differ. */
  ghost predicate SameUpToNumbers(s: State, r: State, ids: seq<int>) {
    && r.key == s.key && r.nNew == s.nNew && r.nTried == s.nTried
    && (forall id | id in s.mapInfo :: id in ids)
    && (forall i, j | 0 <= i < j < |ids| :: ids[i] != ids[j])
    && (forall i :: i in r.mapInfo <==> 0 <= i < |ids|)
    && (forall i | 0 <= i < |ids| ::
          ids[i] in s.mapInfo && r.mapInfo[i] == s.mapInfo[ids[i]].(nLastTry := 0, nRandomPos := i))
    && SameTable(s.new_, r.new_, ids) && SameTable(s.tried, r.tried, ids)
  }

  /** The same slots, holding the same entries. */
  ghost predicate SameTable(t: Table, q: Table, ids: seq<int>) {
    && (forall sl: Slot :: sl in t <==> sl in q)
    && (forall sl: Slot | sl in q :: 0 <= q[sl] < |ids| && ids[q[sl]] == t[sl])
  }

  lemma TriedSame(c: Config, s: State, ids: seq<int>, t: Table)
    requires Inv(c, s) && Ordered(s.mapInfo, ids, s.nNew) && TriedAt(c, s.key, s.mapInfo, ids, s.nNew, t, |ids|)
    ensures SameTable(s.tried, t, ids)
  {
    forall sl: Slot | sl in t ensures sl in s.tried && 0 <= t[sl] < |ids| && ids[t[sl]] == s.tried[sl] {
      assert RefOk(c, s, ids[t[sl]], s.mapInfo[ids[t[sl]]]);
    }
    forall sl: Slot | sl in s.tried ensures sl in t {
      var id := s.tried[sl];
      assert id in s.mapInfo;
      assert id in ids;
      var i :| 0 <= i < |ids| && ids[i] == id;
    }
  }

  lemma NewSame(c: Config, s: State, ids: seq<int>)
    requires c.Valid() && Inv(c, s) && Ordered(s.mapInfo, ids, s.nNew)
    ensures forall sl: Slot | sl in s.new_ :: s.new_[sl] >= 0
    ensures SameTable(s.new_, Part(s.mapInfo, s.new_, c.newBuckets, 0), ids)
  {
    forall sl: Slot | sl in s.new_ ensures s.new_[sl] >= 0 && Before(sl, c.newBuckets, 0) &&
      Rank(s.mapInfo, s.new_[sl]) < s.nNew && ids[Rank(s.mapInfo, s.new_[sl])] == s.new_[sl]
    {
      FillRank(c, s, ids, sl);
    }
  }

  /** The reference counts come out as they were. */
  lemma CountsSame(c: Config, s: State, ids: seq<int>, i: nat)
    requires c.Valid() && Inv(c, s) && Ordered(s.mapInfo, ids, s.nNew) && i < |ids|
    ensures forall sl: Slot | sl in s.new_ :: s.new_[sl] >= 0
    ensures |SlotsOf(Part(s.mapInfo, s.new_, c.newBuckets, 0), i)| == s.mapInfo[ids[i]].nRefCount
  {
    hide Tables, Listed, Reverse, Unreferenced, Timed, NewIds, TriedIds;
    NewSame(c, s, ids);
    RefsAt(c, s, ids[i]);
    if i < s.nNew {
      PartSlots(c, s, ids, c.newBuckets, 0, i);
      PartAll(c, s, ids[i]);
    } else {
      TriedNone(c, s, ids, i);
    }
  }

  /** The walk passes all slots. */
  lemma PartAll(c: Config, s: State, id: int)
    requires c.Valid() && Tables(c, s)
    ensures (set sl: Slot | sl in SlotsOf(s.new_, id) && Before(sl, c.newBuckets, 0)) == SlotsOf(s.new_, id)
  {
  }

  lemma TriedNone(c: Config, s: State, ids: seq<int>, i: nat)
    requires Inv(c, s) && Ordered(s.mapInfo, ids, s.nNew) && s.nNew <= i < |ids|
    requires forall sl: Slot | sl in s.new_ :: s.new_[sl] >= 0
    ensures SlotsOf(Part(s.mapInfo, s.new_, c.newBuckets, 0), i) == {}
  {
    var t := Part(s.mapInfo, s.new_, c.newBuckets, 0);
    forall sl: Slot | sl in t ensures t[sl] != i { FillRank(c, s, ids, sl); }
  }

  lemma FilledSame(c: Config, s: State, ids: seq<int>, t: State)
    requires c.Valid() && Inv(c, s) && At(c, s, ids, t, |ids|)
    ensures forall sl: Slot | sl in s.new_ :: s.new_[sl] >= 0
    ensures SameUpToNumbers(s, Filled(t, Part(s.mapInfo, s.new_, c.newBuckets, 0)), ids)
  {
    NewSame(c, s, ids);
    TriedSame(c, s, ids, t.tried);
    var r := Filled(t, Part(s.mapInfo, s.new_, c.newBuckets, 0));
    forall i | 0 <= i < |ids| ensures r.mapInfo[i] == s.mapInfo[ids[i]].(nLastTry := 0, nRandomPos := i) {
      CountsSame(c, s, ids, i);
      assert t.mapInfo[i] == Renumbered(s.mapInfo, ids, s.nNew, i);
    }
  }

  lemma SlotsSame(t: Table, q: Table, ids: seq<int>, i: nat)
    requires SameTable(t, q, ids) && i < |ids| && forall i, j | 0 <= i < j < |ids| :: ids[i] != ids[j]
    ensures SlotsOf(q, i) == SlotsOf(t, ids[i])
  {
  }

  /** The ids at some places. */
  function IdsAt(places: set<int>, ids: seq<int>): set<int>
    requires forall i | i in places :: 0 <= i < |ids|
  {
    set i | i in places :: ids[i]
  }

  lemma IdsAtLess(places: set<int>, ids: seq<int>, p: int)
    requires (forall i | i in places :: 0 <= i < |ids|) && p in places
    requires forall i, j | 0 <= i < j < |ids| :: ids[i] != ids[j]
    ensures IdsAt(places, ids) == IdsAt(places - {p}, ids) + {ids[p]} && ids[p] !in IdsAt(places - {p}, ids)
  {
  }

  lemma {:induction false} PlacesSize(places: set<int>, ids: seq<int>)
    requires forall i | i in places :: 0 <= i < |ids|
    requires forall i, j | 0 <= i < j < |ids| :: ids[i] != ids[j]
    ensures |IdsAt(places, ids)| == |places|
    decreases places
  {
    hide IdsAt;
    if p :| p in places {
      PlacesSize(places - {p}, ids);
      IdsAtLess(places, ids, p);
    } else {
      forall i ensures i !in places { }
      assert places == {};
      NoIds(ids);
    }
  }

  lemma NoIds(ids: seq<int>)
    ensures IdsAt({}, ids) == {}
  {
  }

  lemma SizesSame(s: State, r: State, ids: seq<int>)
    requires SameUpToNumbers(s, r, ids)
    ensures |NewIds(r.mapInfo)| == |NewIds(s.mapInfo)| && |TriedIds(r.mapInfo)| == |TriedIds(s.mapInfo)|
    ensures Unreferenced(s.mapInfo) == {} ==> Unreferenced(r.mapInfo) == {}
  {
    forall id | id in s.mapInfo ensures exists i :: 0 <= i < |ids| && ids[i] == id && i in r.mapInfo {
      assert id in ids;
    }
    assert NewIds(s.mapInfo) == IdsAt(NewIds(r.mapInfo), ids);
    assert TriedIds(s.mapInfo) == IdsAt(TriedIds(r.mapInfo), ids);
    PlacesSize(NewIds(r.mapInfo), ids);
    PlacesSize(TriedIds(r.mapInfo), ids);
    if Unreferenced(s.mapInfo) == {} {
      forall i ensures i !in Unreferenced(r.mapInfo) {
        if i in r.mapInfo { assert ids[i] !in Unreferenced(s.mapInfo); }
      }
    }
  }

  lemma SameTables(c: Config, s: State, r: State, ids: seq<int>)
    requires Inv(c, s) && SameUpToNumbers(s, r, ids)
    ensures Tables(c, r) && Refs(c, r)
  {
    hide SlotsOf, Index, Unreferenced, NewIds, TriedIds, Timed;
    forall i | i in r.mapInfo ensures RefOk(c, r, i, r.mapInfo[i]) {
      RefsAt(c, s, ids[i]);
      SlotsSame(s.new_, r.new_, ids, i);
    }
  }

  lemma SameInv(c: Config, s: State, r: State, ids: seq<int>)
    requires Inv(c, s) && SameUpToNumbers(s, r, ids) && Index(r)
    ensures Inv(c, r)
  {
    SizesSame(s, r, ids);
    SameTables(c, s, r, ids);
  }

  lemma SavedReady(c: Config, s: State)
    requires Inv(c, s)
    ensures s.nIdCount >= 0 && s.nNew >= 0 && s.nTried >= 0 && forall sl: Slot | sl in s.new_ :: s.new_[sl] >= 0
    ensures Readable(Saved(c, s)) && Usable(c, Saved(c, s)) && NUBuckets(Saved(c, s)) == c.newBuckets
    ensures |SavedNew(s)| == s.nNew && |SavedTried(s)| == s.nTried
  {
    forall sl: Slot | sl in s.new_ ensures s.new_[sl] >= 0 { assert s.new_[sl] in s.mapInfo; }
    OrderIs(c, s);
    FlipTwice(c.newBuckets);
  }

  /**
    The saved form as documented: version 1, a key of 32 bytes, the two counts, and the
    number of buckets with bit 30 flipped. It is read back by flipping the bit again, which
    images of version 0 do without; only a key of 32 bytes is accepted.
   */
  lemma SavedFormat(c: Config, s: State)
    requires Inv(c, s) && c.newBuckets < 1073741824
    ensures s.nIdCount >= 0 && s.nNew >= 0 && s.nTried >= 0 && forall sl: Slot | sl in s.new_ :: s.new_[sl] >= 0
    ensures var img := Saved(c, s);
            && img.nVersion == 1 && img.nKeySize == 32 && img.key == s.key
            && img.nUBuckets == c.newBuckets + 1073741824 && |img.buckets| == c.newBuckets
            && |img.newEntries| == img.nNew == s.nNew && |img.triedEntries| == img.nTried == s.nTried
    ensures forall img: Image | Readable(img) :: img.nKeySize == 32
    ensures forall img: Image | Usable(c, img) :: img.nVersion == 1 && img.nUBuckets == c.newBuckets + 1073741824
    ensures forall img: Image | img.nVersion == 0 :: NUBuckets(img) == img.nUBuckets
  {
    SavedReady(c, s);
    forall img: Image | Usable(c, img) ensures img.nUBuckets == c.newBuckets + 1073741824 { FlipTwice(img.nUBuckets); }
  }

  /** The entries as loaded, before the buckets. */
  function LoadedEntries(c: Config, img: Image): (r: State)
    requires Readable(img)
    ensures Numbered(r, r.nIdCount)
  {
    LoadTried(c, LoadNew(c, img, img.nNew, Usable(c, img)).(nIdCount := img.nNew), img.triedEntries, img.nTried)
  }

  lemma AtNextId(c: Config, s: State, ids: seq<int>, r: State, n: nat)
    requires s.nNew >= 0 && At(c, s, ids, r, n)
    ensures At(c, s, ids, r.(nIdCount := n), n)
  {
  }

  lemma EntriesLoaded(c: Config, s: State)
    requires Inv(c, s)
    ensures s.nIdCount >= 0 && s.nNew >= 0 && s.nTried >= 0 && forall sl: Slot | sl in s.new_ :: s.new_[sl] >= 0
    ensures Readable(Saved(c, s)) && Got(c, s, LoadedEntries(c, Saved(c, s)), |Order(s)|)
  {
    hide At, LoadNew, LoadTried, Order, Ordered, Inv, SavedNew, SavedTried, Listed, Ids, Start, BucketLists;
    SavedReady(c, s);
    OrderIs(c, s);
    StartAt(c, s);
    LoadNewAt(c, s, Saved(c, s), s.nNew);
    var n := LoadNew(c, Saved(c, s), s.nNew, true).(nIdCount := s.nNew);
    AtNextId(c, s, Order(s), LoadNew(c, Saved(c, s), s.nNew, true), s.nNew);
    LoadTriedAt(c, s, n, s.nTried);
  }

  lemma LoadedIs(c: Config, s: State)
    requires c.Valid() && Inv(c, s)
    ensures s.nIdCount >= 0 && s.nNew >= 0 && s.nTried >= 0 && forall sl: Slot | sl in s.new_ :: s.new_[sl] >= 0
    ensures Readable(Saved(c, s))
    ensures var b := Filled(LoadedEntries(c, Saved(c, s)), Part(s.mapInfo, s.new_, c.newBuckets, 0));
            Numbered(b, b.nIdCount) && Loaded(c, Saved(c, s)) == Pruned(b, b.nIdCount)
  {
    SavedReady(c, s);
    EntriesLoaded(c, s);
    FillBuckets(c, s, Order(s), LoadedEntries(c, Saved(c, s)), Saved(c, s).buckets, c.newBuckets);
  }

  /** Saving and loading: nothing is lost and nothing changes but the numbers. */
  lemma RoundTrip(c: Config, s: State)
    requires c.Valid() && Inv(c, s)
    ensures s.nIdCount >= 0 && s.nNew >= 0 && s.nTried >= 0 && forall sl: Slot | sl in s.new_ :: s.new_[sl] >= 0
    ensures Readable(Saved(c, s))
    ensures var r := Loaded(c, Saved(c, s)); Inv(c, r) && SameUpToNumbers(s, r, Order(s))
  {
    var ids := Order(s);
    LoadedIs(c, s);
    EntriesLoaded(c, s);
    var t := LoadedEntries(c, Saved(c, s));
    var b := Filled(t, Part(s.mapInfo, s.new_, c.newBuckets, 0));
    FilledSame(c, s, ids, t);
    FilledIndex(s, ids, t, b.new_);
    SameInv(c, s, b, ids);
    forall id | id in b.mapInfo ensures b.mapInfo[id].fInTried || b.mapInfo[id].nRefCount != 0 {
      assert id !in Unreferenced(b.mapInfo);
    }
    PrunedNone(b, b.nIdCount);
  }

  lemma FilledIndex(s: State, ids: seq<int>, t: State, q: Table)
    requires s.nNew >= 0 && Ordered(s.mapInfo, ids, s.nNew) && t.nIdCount == |ids|
    requires EntriesAt(s.mapInfo, ids, s.nNew, t, |ids|) && AddrsAt(s.mapInfo, ids, t.mapAddr, |ids|)
    ensures Index(Filled(t, q))
  {
    forall i | 0 <= i < |ids| ensures t.mapInfo[i].addr == s.mapInfo[ids[i]].addr {
      assert t.mapInfo[i] == Renumbered(s.mapInfo, ids, s.nNew, i);
    }
  }
}
