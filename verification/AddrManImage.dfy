/**
  The saved form of the address manager. Saving lists the entries outside tried and
  the tried ones, each in the order of their ids, and the new buckets by index into
  the first list; loading numbers the entries afresh and rebuilds everything else.
 */
module AddrManImage {
  import opened AddrManState

  /** What is stored of an entry. */
  datatype Stored = Stored(addr: Address, source: NetAddr, nLastSuccess: int, nAttempts: int)

  function Store(info: Info): Stored { Stored(info.addr, info.source, info.nLastSuccess, info.nAttempts) }

  /** A stored entry read back; what is kept in memory only starts afresh. */
  function Restored(st: Stored): Info { Info(st.addr, st.source, st.nLastSuccess, 0, st.nAttempts, 0, false, -1) }

  datatype Image = Image(nVersion: nat, nKeySize: nat, key: Key, nNew: nat, nTried: nat, nUBuckets: int,
                         newEntries: seq<Stored>, triedEntries: seq<Stored>, buckets: seq<seq<int>>)

  /** Exclusive or with bit 30. */
  function Flip30(n: int): (r: int)
    ensures r != n
  {
    if (n / 0x4000_0000) % 2 == 0 then n + 0x4000_0000 else n - 0x4000_0000
  }

  lemma FlipTwice(n: int)
    ensures Flip30(Flip30(n)) == n
  {
    assert (n + 0x4000_0000) / 0x4000_0000 == n / 0x4000_0000 + 1;
    assert (n - 0x4000_0000) / 0x4000_0000 == n / 0x4000_0000 - 1;
  }

  // ----- ids in ascending order -----

  /** The members of a set below n, ascending: the order in which a map over them is walked. */
  function Ascending(ids: set<int>, n: nat): seq<int> {
    if n == 0 then [] else Ascending(ids, n - 1) + if n - 1 in ids then [n - 1] else []
  }

  lemma {:induction false} AscendingIs(ids: set<int>, n: nat, i: nat)
    requires i < |Ascending(ids, n)|
    ensures var x := Ascending(ids, n)[i]; x in ids && 0 <= x < n && |Ascending(ids, x)| == i
  {
    if i < |Ascending(ids, n - 1)| { AscendingIs(ids, n - 1, i); }
  }

  lemma {:induction false} AscendingHas(ids: set<int>, n: nat, x: nat)
    requires x in ids && x < n
    ensures |Ascending(ids, x)| < |Ascending(ids, n)| && Ascending(ids, n)[|Ascending(ids, x)|] == x
  {
    if x < n - 1 { AscendingHas(ids, n - 1, x); }
  }

  lemma {:induction false} AscendingSize(ids: set<int>, n: nat)
    requires forall x | x in ids :: 0 <= x < n
    ensures |Ascending(ids, n)| == |ids|
  {
    if n == 0 {
      forall x ensures x !in ids { }
      assert ids == {};
    } else {
      AscendingSize(ids - {n - 1}, n - 1);
      AscendingSame(ids, ids - {n - 1}, n - 1);
      assert n - 1 !in ids ==> ids - {n - 1} == ids;
    }
  }

  lemma {:induction false} AscendingSame(a: set<int>, b: set<int>, n: nat)
    requires forall x: int | 0 <= x < n :: x in a <==> x in b
    ensures Ascending(a, n) == Ascending(b, n)
  {
    if n > 0 { AscendingSame(a, b, n - 1); }
  }

  // ----- saving -----

  function Referenced(m: map<int, Info>): set<int> { set id | id in m && m[id].nRefCount != 0 }

  /** The index under which a reference to an entry is written. */
  function Rank(m: map<int, Info>, id: nat): nat { |Ascending(Referenced(m), id)| }

  function StoreAll(m: map<int, Info>, ids: seq<int>): (r: seq<Stored>)
    requires forall i | 0 <= i < |ids| :: ids[i] in m
    ensures |r| == |ids| && forall i | 0 <= i < |ids| :: r[i] == Store(m[ids[i]])
  {
    seq(|ids|, i requires 0 <= i < |ids| => Store(m[ids[i]]))
  }

  lemma AscendingAllIn(ids: set<int>, n: nat, m: map<int, Info>)
    requires forall x | x in ids :: x in m
    ensures forall i | 0 <= i < |Ascending(ids, n)| :: Ascending(ids, n)[i] in m
  {
    forall i | 0 <= i < |Ascending(ids, n)| ensures Ascending(ids, n)[i] in m { AscendingIs(ids, n, i); }
  }

  function SavedNew(s: State): seq<Stored>
    requires s.nIdCount >= 0
  {
    AscendingAllIn(Referenced(s.mapInfo), s.nIdCount, s.mapInfo);
    StoreAll(s.mapInfo, Ascending(Referenced(s.mapInfo), s.nIdCount))
  }

  function SavedTried(s: State): seq<Stored>
    requires s.nIdCount >= 0
  {
    AscendingAllIn(TriedIds(s.mapInfo), s.nIdCount, s.mapInfo);
    StoreAll(s.mapInfo, Ascending(TriedIds(s.mapInfo), s.nIdCount))
  }

  /** The indices written for the first i positions of a bucket. */
  function BucketList(m: map<int, Info>, t: Table, bucket: nat, i: nat): seq<int>
    requires forall sl: Slot | sl in t :: t[sl] >= 0
  {
    if i == 0 then []
    else BucketList(m, t, bucket, i - 1) + if (bucket, i - 1) in t then [Rank(m, t[(bucket, i - 1)])] else []
  }

  function BucketLists(m: map<int, Info>, t: Table, n: nat, size: nat): (r: seq<seq<int>>)
    requires forall sl: Slot | sl in t :: t[sl] >= 0
    ensures |r| == n
  {
    if n == 0 then [] else BucketLists(m, t, n - 1, size) + [BucketList(m, t, n - 1, size)]
  }

  function Saved(c: Config, s: State): Image
    requires s.nIdCount >= 0 && s.nNew >= 0 && s.nTried >= 0 && forall sl: Slot | sl in s.new_ :: s.new_[sl] >= 0
  {
    Image(1, 32, s.key, s.nNew, s.nTried, Flip30(c.newBuckets),
          SavedNew(s), SavedTried(s),
          BucketLists(s.mapInfo, s.new_, c.newBuckets, c.bucketSize))
  }

  // ----- loading -----

  /** vRandom and the entries agree, and all ids are below n. */
  ghost predicate Numbered(s: State, n: int) { Listed(s.mapInfo, s.vRandom) && Ids(s.mapInfo, n) }

  /** An entry is put in under a given id. */
  function WithEntry(s: State, info: Info, id: int): State {
    s.(mapInfo := s.mapInfo[id := info.(nRandomPos := |s.vRandom|)],
       mapAddr := s.mapAddr[info.addr.service.ip := id],
       vRandom := s.vRandom + [id])
  }

  lemma WithEntryNumbered(s: State, info: Info, id: int)
    ensures Numbered(s, id) ==> Numbered(WithEntry(s, info, id), id + 1)
  {
    if Numbered(s, id) { CreatedListed(s.mapInfo, s.vRandom, id, info.(nRandomPos := |s.vRandom|)); }
  }

  lemma RefNumbered(s: State, n: int, id: int, ref: int, t: Table)
    requires Numbered(s, n) && id in s.mapInfo
    ensures Numbered(WithInfo(s, id, WithRef(s.mapInfo[id], ref)).(new_ := t), n)
  {
  }

  function Start(img: Image): State { State(img.key, 0, map[], map[], [], img.nTried, map[], img.nNew, map[]) }

  /** One entry of the new table; without usable buckets it gets the slot of its source if that is free. */
  function LoadOneNew(c: Config, s: State, st: Stored, id: nat, usable: bool): (r: State)
    requires Numbered(s, id)
    ensures Numbered(r, id + 1)
  {
    var info := Restored(st);
    WithEntryNumbered(s, info, id);
    var r := WithEntry(s, info, id);
    var sl := NewSlot(c, s.key, info.addr.service, info.source);
    if !usable && sl !in r.new_ then RefNumbered(r, id + 1, id, 1, r.new_[sl := id]); Placed(r, id, sl) else r
  }

  function LoadNew(c: Config, img: Image, n: nat, usable: bool): (r: State)
    requires n <= |img.newEntries|
    ensures Numbered(r, n)
  {
    if n == 0 then Start(img) else LoadOneNew(c, LoadNew(c, img, n - 1, usable), img.newEntries[n - 1], n - 1, usable)
  }

  /** One entry of the tried table, lost if its slot is taken. */
  function LoadOneTried(c: Config, s: State, st: Stored): (r: State)
    ensures Numbered(s, s.nIdCount) ==> Numbered(r, r.nIdCount)
  {
    var info := Restored(st);
    var sl := TriedSlot(c, s.key, info.addr.service);
    if sl in s.tried then s.(nTried := s.nTried - 1)
    else
      WithEntryNumbered(s, info.(fInTried := true), s.nIdCount);
      WithEntry(s, info.(fInTried := true), s.nIdCount).(tried := s.tried[sl := s.nIdCount], nIdCount := s.nIdCount + 1)
  }

  function LoadTried(c: Config, s: State, entries: seq<Stored>, n: nat): (r: State)
    requires Numbered(s, s.nIdCount) && n <= |entries|
    ensures Numbered(r, r.nIdCount)
  {
    if n == 0 then s else LoadOneTried(c, LoadTried(c, s, entries, n - 1), entries[n - 1])
  }

  /** One index of a bucket. */
  function LoadIndex(c: Config, s: State, bucket: nat, nIndex: int, usable: bool): (r: State)
    requires Numbered(s, s.nIdCount)
    ensures Numbered(r, r.nIdCount) && r.nIdCount == s.nIdCount
  {
    if 0 <= nIndex < s.nNew && nIndex in s.mapInfo then
      var sl: Slot := (bucket, c.Position(s.key, true, bucket, s.mapInfo[nIndex].addr.service));
      if usable && sl !in s.new_ && s.mapInfo[nIndex].nRefCount < c.perAddress then
        RefNumbered(s, s.nIdCount, nIndex, s.mapInfo[nIndex].nRefCount + 1, s.new_[sl := nIndex]);
        Placed(s, nIndex, sl)
      else s
    else s
  }

  function LoadIndices(c: Config, s: State, bucket: nat, list: seq<int>, usable: bool): (r: State)
    requires Numbered(s, s.nIdCount)
    ensures Numbered(r, r.nIdCount) && r.nIdCount == s.nIdCount
  {
    if list == [] then s
    else LoadIndex(c, LoadIndices(c, s, bucket, list[..|list| - 1], usable), bucket, list[|list| - 1], usable)
  }

  function LoadBuckets(c: Config, s: State, buckets: seq<seq<int>>, n: nat, usable: bool): (r: State)
    requires Numbered(s, s.nIdCount) && n <= |buckets|
    ensures Numbered(r, r.nIdCount) && r.nIdCount == s.nIdCount
  {
    if n == 0 then s else LoadIndices(c, LoadBuckets(c, s, buckets, n - 1, usable), n - 1, buckets[n - 1], usable)
  }

  lemma DeletedNumbered(s: State, n: int, id: int)
    requires Numbered(s, n) && id in s.mapInfo
    ensures Numbered(Deleted(s, id), n)
  {
    hide Listed, Swapped;
    ListedReads(s, id);
    var last := |s.vRandom| - 1;
    var q := Swapped(s, s.mapInfo[id].nRandomPos, last);
    SwappedListed(s, s.mapInfo[id].nRandomPos, last);
    assert q.vRandom[last] == id;
    PoppedListed(q.mapInfo, q.vRandom);
    forall i | i in Deleted(s, id).mapInfo ensures 0 <= i < n { assert i in s.mapInfo; }
  }

  /** New entries nothing refers to are dropped. */
  function Pruned(s: State, n: nat): (r: State)
    requires Numbered(s, s.nIdCount)
    ensures Numbered(r, r.nIdCount)
  {
    if n == 0 then s
    else
      var r := Pruned(s, n - 1);
      if n - 1 in r.mapInfo && !r.mapInfo[n - 1].fInTried && r.mapInfo[n - 1].nRefCount == 0 then
        DeletedNumbered(r, r.nIdCount, n - 1); Deleted(r, n - 1)
      else r
  }

  function NUBuckets(img: Image): int { if img.nVersion != 0 then Flip30(img.nUBuckets) else img.nUBuckets }

  predicate Usable(c: Config, img: Image) { img.nVersion == 1 && NUBuckets(img) == c.newBuckets }

  /** An image that can be read to its end. */
  predicate Readable(img: Image) {
    img.nKeySize == 32 && img.nNew <= |img.newEntries| && img.nTried <= |img.triedEntries| &&
    NUBuckets(img) <= |img.buckets|
  }

  function Loaded(c: Config, img: Image): State
    requires Readable(img)
  {
    var usable := Usable(c, img);
    var n := LoadNew(c, img, img.nNew, usable).(nIdCount := img.nNew);
    var t := LoadTried(c, n, img.triedEntries, img.nTried);
    var b := LoadBuckets(c, t, img.buckets, if NUBuckets(img) < 0 then 0 else NUBuckets(img), usable);
    Pruned(b, b.nIdCount)
  }
}
