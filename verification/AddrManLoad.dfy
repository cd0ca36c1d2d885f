/**
  Loading any readable image of the address manager, in particular one written with
  other table sizes: what is loaded is consistent, and what is lost is what collides.
 */
module AddrManLoad {
  import opened AddrManImage
  import opened AddrManRoundTrip
  import opened AddrManState
  import opened Util

  /** All entries of an image, in the order in which they are read. */
  function Listing(img: Image): (r: seq<Stored>)
    requires Readable(img)
    ensures |r| == img.nNew + img.nTried
  {
    img.newEntries[..img.nNew] + img.triedEntries[..img.nTried]
  }

  function Ips(img: Image): (r: seq<NetAddr>)
    requires Readable(img)
    ensures |r| == img.nNew + img.nTried
    ensures forall i | 0 <= i < |r| :: r[i] == Listing(img)[i].addr.service.ip
  {
    seq(img.nNew + img.nTried, i requires 0 <= i < img.nNew + img.nTried => Listing(img)[i].addr.service.ip)
  }

  /** No address twice, no negative time, a key, and no tried entry that was never reached. */
  ghost predicate Sane(img: Image) {
    && Readable(img) && img.key != 0
    && (forall i, j | 0 <= i < j < |Ips(img)| :: Ips(img)[i] != Ips(img)[j])
    && (forall i | 0 <= i < img.nNew :: img.newEntries[i].nLastSuccess >= 0)
    && (forall i | 0 <= i < img.nTried :: img.triedEntries[i].nLastSuccess > 0)
  }

  /** What holds when the first m entries were read. */
  ghost predicate Going(c: Config, img: Image, s: State, m: nat)
    requires Readable(img)
  {
    && m <= |Ips(img)| && Core(c, s) && Timed(s.mapInfo) && s.key == img.key && s.nNew == img.nNew
    && NewOff(s) == Max(0, img.nNew - m) && TriedOff(s) == Min(img.nTried, img.nNew + img.nTried - m)
    && (forall id | id in s.mapInfo && id < img.nNew :: !s.mapInfo[id].fInTried)
    && (forall ip | ip in s.mapAddr :: ip in Ips(img)[..m])
  }

  lemma FreshIp(c: Config, img: Image, s: State, m: nat)
    requires Sane(img) && Going(c, img, s, m) && m < |Ips(img)|
    ensures Ips(img)[m] !in s.mapAddr
    ensures forall ip | ip in s.mapAddr || ip == Ips(img)[m] :: ip in Ips(img)[..m + 1]
  {
    hide Core, Timed, NewOff, TriedOff;
    NextOf(Ips(img), m);
  }

  lemma NextOf(ips: seq<NetAddr>, m: nat)
    requires m < |ips| && forall i, j | 0 <= i < j < |ips| :: ips[i] != ips[j]
    ensures ips[..m + 1] == ips[..m] + [ips[m]] && ips[m] !in ips[..m]
  {
    assert forall j | 0 <= j < m :: ips[..m][j] == ips[j] != ips[m];
  }

  // ----- entries -----

  /** An entry put in under the next id. */
  function Next(s: State, info: Info): State { WithEntry(s, info, s.nIdCount).(nIdCount := s.nIdCount + 1) }

  lemma NextCore(c: Config, s: State, info: Info)
    requires Core(c, s) && info.addr.service.ip !in s.mapAddr && !info.fInTried && info.nRefCount == 0
    ensures s.nIdCount !in s.mapInfo
    ensures var r := Next(s, info);
            && Core(c, r) && NewOff(r) == NewOff(s) - 1 && TriedOff(r) == TriedOff(s)
            && Unreferenced(r.mapInfo) == Unreferenced(s.mapInfo) + {s.nIdCount}
  {
    var id, entry := s.nIdCount, info.(nRandomPos := |s.vRandom|);
    CreatedListed(s.mapInfo, s.vRandom, id, entry);
    CreatedReverse(s.mapInfo, s.mapAddr, id, entry);
    CreatedTables(c, s, id, entry);
    SameParts(c, s.(mapInfo := s.mapInfo[id := entry]), Next(s, info));
  }

  lemma NewStep(c: Config, img: Image, s: State, n: nat)
    requires c.Valid() && Sane(img) && n < img.nNew && Numbered(s, n) && Going(c, img, s.(nIdCount := n), n)
    ensures var r := LoadOneNew(c, s, img.newEntries[n], n, Usable(c, img));
            Going(c, img, r.(nIdCount := n + 1), n + 1)
  {
    hide Core, NewIds, TriedIds, Unreferenced, Usable;
    var was, info := s.(nIdCount := n), Restored(img.newEntries[n]);
    FreshIp(c, img, was, n);
    assert Listing(img)[n] == img.newEntries[n];
    NextCore(c, was, info);
    var q := Next(was, info);
    TimedUpdate(s.mapInfo, n, info.(nRandomPos := |s.vRandom|));
    assert Going(c, img, q, n + 1);
    var sl := NewSlot(c, s.key, info.addr.service, info.source);
    if sl !in s.new_ {
      PlacedGoing(c, img, q, n, sl, n + 1);
      assert Placed(WithEntry(s, info, n), n, sl).(nIdCount := n + 1) == Placed(q, n, sl);
    }
  }

  /** A reference more, in a free slot. */
  lemma PlacedGoing(c: Config, img: Image, s: State, id: int, sl: Slot, m: nat)
    requires Readable(img) && Going(c, img, s, m) && id in s.mapInfo && !s.mapInfo[id].fInTried && sl !in s.new_
    requires sl.0 < c.newBuckets && sl.1 == c.Position(s.key, true, sl.0, s.mapInfo[id].addr.service)
    requires s.mapInfo[id].nRefCount < c.perAddress
    ensures Going(c, img, Placed(s, id, sl), m)
  {
    hide Core, NewIds, TriedIds, Unreferenced;
    PlacedCore(c, s, id, sl);
    TimedUpdate(s.mapInfo, id, WithRef(s.mapInfo[id], s.mapInfo[id].nRefCount + 1));
  }

  lemma {:induction false} NewGoing(c: Config, img: Image, n: nat)
    requires c.Valid() && Sane(img) && n <= img.nNew
    ensures Going(c, img, LoadNew(c, img, n, Usable(c, img)).(nIdCount := n), n)
  {
    hide Going, Numbered, LoadOneNew, Usable, Ips;
    if n > 0 {
      NewGoing(c, img, n - 1);
      NewStep(c, img, LoadNew(c, img, n - 1, Usable(c, img)), n - 1);
    } else {
      StartGoing(c, img);
    }
  }

  lemma StartGoing(c: Config, img: Image)
    requires Sane(img)
    ensures Going(c, img, Start(img), 0)
  {
  }

  // ----- tried entries -----

  lemma TriedGoing(c: Config, img: Image, s: State, k: nat)
    requires c.Valid() && Sane(img) && k < img.nTried && Numbered(s, s.nIdCount)
    requires Going(c, img, s, img.nNew + k) && s.nIdCount >= img.nNew
    ensures var r := LoadOneTried(c, s, img.triedEntries[k]);
            Going(c, img, r, img.nNew + k + 1) && r.nIdCount >= img.nNew
  {
    hide Core, NewIds, TriedIds, LoadOneTried;
    var st, m := img.triedEntries[k], img.nNew + k;
    FreshIp(c, img, s, m);
    assert Listing(img)[m] == st && st.nLastSuccess > 0;
    OneTried(c, s, st);
  }

  /** A tried entry is kept or lost; either way one less is to come. */
  lemma OneTried(c: Config, s: State, st: Stored)
    requires Core(c, s) && Timed(s.mapInfo) && Numbered(s, s.nIdCount)
    requires st.addr.service.ip !in s.mapAddr && st.nLastSuccess > 0
    ensures var r := LoadOneTried(c, s, st);
            && Core(c, r) && Timed(r.mapInfo) && r.key == s.key && r.nNew == s.nNew
            && NewOff(r) == NewOff(s) && TriedOff(r) == TriedOff(s) - 1
            && (if TriedSlot(c, s.key, st.addr.service) in s.tried
                then r.mapInfo == s.mapInfo && r.mapAddr == s.mapAddr && r.nIdCount == s.nIdCount
                else && s.nIdCount !in s.mapInfo && r.nIdCount == s.nIdCount + 1
                     && r.mapAddr == s.mapAddr[st.addr.service.ip := s.nIdCount]
                     && r.mapInfo == s.mapInfo[s.nIdCount :=
                                                 Restored(st).(fInTried := true, nRandomPos := |s.vRandom|)])
  {
    var info, sl := Restored(st), TriedSlot(c, s.key, st.addr.service);
    var q, id := Next(s, info), s.nIdCount;
    NextCore(c, s, info);
    OneTriedIs(c, s, st);
    hide Core, NewIds, TriedIds, Unreferenced, Next, LoadOneTried, TriedSlot;
    if sl in s.tried {
      LostCore(c, s);
    } else {
      NextIs(s, info);
      TimedUpdate(s.mapInfo, id, info.(fInTried := true, nRandomPos := |s.vRandom|));
      PromotedCore(c, q, id, sl);
      LostCore(c, Promoted(q, id, sl));
    }
  }

  lemma NextIs(s: State, info: Info)
    ensures var r, entry := Next(s, info), info.(nRandomPos := |s.vRandom|);
            && r.mapInfo == s.mapInfo[s.nIdCount := entry] && r.mapAddr == s.mapAddr[info.addr.service.ip := s.nIdCount]
            && r.nIdCount == s.nIdCount + 1 && r.tried == s.tried && r.key == s.key && r.nNew == s.nNew
  {
  }

  lemma OneTriedIs(c: Config, s: State, st: Stored)
    requires Numbered(s, s.nIdCount)
    ensures var sl := TriedSlot(c, s.key, st.addr.service);
            LoadOneTried(c, s, st) ==
            if sl in s.tried then Lost(s) else Lost(Promoted(Next(s, Restored(st)), s.nIdCount, sl))
  {
    hide Numbered, TriedSlot;
    var q := Next(s, Restored(st));
    assert s.mapInfo[s.nIdCount := Restored(st).(fInTried := true, nRandomPos := |s.vRandom|)] ==
           q.mapInfo[s.nIdCount := q.mapInfo[s.nIdCount].(fInTried := true)];
  }

  /** The counter of tried entries goes down. */
  function Lost(s: State): State { s.(nTried := s.nTried - 1) }

  lemma LostCore(c: Config, s: State)
    requires Core(c, s)
    ensures Core(c, Lost(s)) && NewOff(Lost(s)) == NewOff(s) && TriedOff(Lost(s)) == TriedOff(s) - 1
  {
    SameParts(c, s, Lost(s));
  }

  lemma {:induction false} TriedsGoing(c: Config, img: Image, s: State, k: nat)
    requires c.Valid() && Sane(img) && k <= img.nTried && Numbered(s, s.nIdCount)
    requires Going(c, img, s, img.nNew) && s.nIdCount >= img.nNew
    ensures var r := LoadTried(c, s, img.triedEntries, k); Going(c, img, r, img.nNew + k) && r.nIdCount >= img.nNew
  {
    hide Going, Numbered, LoadOneTried, Ips;
    if k > 0 {
      TriedsGoing(c, img, s, k - 1);
      TriedGoing(c, img, LoadTried(c, s, img.triedEntries, k - 1), k - 1);
    }
  }

  // ----- buckets -----

  lemma IndexGoing(c: Config, img: Image, s: State, bucket: nat, nIndex: int, usable: bool, m: nat)
    requires c.Valid() && Readable(img) && Numbered(s, s.nIdCount) && Going(c, img, s, m)
    requires usable ==> bucket < c.newBuckets
    ensures Going(c, img, LoadIndex(c, s, bucket, nIndex, usable), m)
  {
    hide Core, NewIds, TriedIds, Unreferenced;
    if 0 <= nIndex < s.nNew && nIndex in s.mapInfo {
      var sl: Slot := (bucket, c.Position(s.key, true, bucket, s.mapInfo[nIndex].addr.service));
      if usable && sl !in s.new_ && s.mapInfo[nIndex].nRefCount < c.perAddress {
        PlacedGoing(c, img, s, nIndex, sl, m);
      }
    }
  }

  lemma {:induction false} IndicesGoing(c: Config, img: Image, s: State, bucket: nat, list: seq<int>, usable: bool,
                                        m: nat)
    requires c.Valid() && Readable(img) && Numbered(s, s.nIdCount) && Going(c, img, s, m)
    requires usable ==> bucket < c.newBuckets
    ensures Going(c, img, LoadIndices(c, s, bucket, list, usable), m)
  {
    hide Going, Numbered, LoadIndex;
    if list != [] {
      var first := list[..|list| - 1];
      IndicesGoing(c, img, s, bucket, first, usable, m);
      IndexGoing(c, img, LoadIndices(c, s, bucket, first, usable), bucket, list[|list| - 1], usable, m);
    }
  }

  lemma {:induction false} BucketsGoing(c: Config, img: Image, s: State, n: nat, usable: bool, m: nat)
    requires c.Valid() && Readable(img) && Numbered(s, s.nIdCount) && Going(c, img, s, m) && n <= |img.buckets|
    requires usable ==> n <= c.newBuckets
    ensures Going(c, img, LoadBuckets(c, s, img.buckets, n, usable), m)
  {
    hide Going, Numbered, LoadIndices;
    if n > 0 {
      BucketsGoing(c, img, s, n - 1, usable, m);
      IndicesGoing(c, img, LoadBuckets(c, s, img.buckets, n - 1, usable), n - 1, img.buckets[n - 1], usable, m);
    }
  }

  // ----- pruning -----

  /** What pruning up to id n leaves: the entries that are tried, or referred to, or beyond; only places change. */
  ghost predicate Pruning(s: State, r: State, n: nat) {
    && (forall id :: id in r.mapInfo <==> id in s.mapInfo && !(id < n && id in Unreferenced(s.mapInfo)))
    && (forall id | id in r.mapInfo :: Moved(s.mapInfo[id], r.mapInfo[id]))
    && r.tried == s.tried && r.key == s.key
  }

  /** One id of the loop. */
  function PrunedAt(s: State, n: nat): State
    requires Numbered(s, s.nIdCount)
  {
    if n in Unreferenced(s.mapInfo) then ListedReads(s, n); Deleted(s, n) else s
  }

  lemma PruneDrops(s: State, r: State, q: State, n: nat)
    requires Pruning(s, r, n) && n in Unreferenced(r.mapInfo) && AllMoved(r.mapInfo - {n}, q.mapInfo)
    requires q.tried == r.tried && q.key == r.key
    ensures Pruning(s, q, n + 1)
  {
    var m := r.mapInfo - {n};
    assert Moved(s.mapInfo[n], r.mapInfo[n]);
    forall id | id in q.mapInfo ensures Moved(s.mapInfo[id], q.mapInfo[id]) {
      assert id in m && Moved(m[id], q.mapInfo[id]);
    }
  }

  lemma PruneKeeps(s: State, r: State, n: nat)
    requires Pruning(s, r, n) && n !in Unreferenced(r.mapInfo)
    ensures Pruning(s, r, n + 1)
  {
    if n in r.mapInfo { assert Moved(s.mapInfo[n], r.mapInfo[n]); }
  }

  lemma PruneStep(c: Config, s: State, r: State, n: nat)
    requires Core(c, r) && Pruning(s, r, n) && Numbered(r, r.nIdCount)
    ensures var q := PrunedAt(r, n);
            Core(c, q) && NewOff(q) == NewOff(r) && TriedOff(q) == TriedOff(r) && Pruning(s, q, n + 1)
  {
    if n in Unreferenced(r.mapInfo) {
      DeletedCore(c, r, n);
      DeletedRest(r, n);
      hide Core, Pruning, NewOff, TriedOff, Deleted, Numbered;
      PruneDrops(s, r, PrunedAt(r, n), n);
    } else {
      PruneKeeps(s, r, n);
    }
  }

  lemma CoreNumbered(c: Config, s: State)
    requires Core(c, s)
    ensures Numbered(s, s.nIdCount)
  {
  }

  lemma {:induction false} PruneCore(c: Config, s: State, n: nat)
    requires Core(c, s)
    ensures Numbered(s, s.nIdCount)
    ensures var r := Pruned(s, n);
            Core(c, r) && NewOff(r) == NewOff(s) && TriedOff(r) == TriedOff(s) && Pruning(s, r, n)
  {
    hide Core, NewOff, TriedOff, Pruning, Numbered, Deleted;
    CoreNumbered(c, s);
    if n > 0 {
      PruneCore(c, s, n - 1);
      PruneStep(c, s, Pruned(s, n - 1), n - 1);
      assert Pruned(s, n) == PrunedAt(Pruned(s, n - 1), n - 1);
    } else {
      PruningStart(s);
    }
  }

  lemma PruningStart(s: State)
    requires Numbered(s, s.nIdCount)
    ensures Pruning(s, s, 0)
  {
  }

  // ----- the whole -----

  /** The state before pruning. */
  function Unpruned(c: Config, img: Image): (r: State)
    requires Readable(img)
    ensures Numbered(r, r.nIdCount)
  {
    LoadBuckets(c, LoadedEntries(c, img), img.buckets, Max(0, NUBuckets(img)), Usable(c, img))
  }

  lemma UnprunedGoing(c: Config, img: Image)
    requires c.Valid() && Sane(img)
    ensures Going(c, img, Unpruned(c, img), img.nNew + img.nTried)
    ensures Loaded(c, img) == Pruned(Unpruned(c, img), Unpruned(c, img).nIdCount)
  {
    hide Going, Listed, Ids, LoadNew, LoadTried, LoadBuckets, Ips;
    NewGoing(c, img, img.nNew);
    TriedsGoing(c, img, LoadNew(c, img, img.nNew, Usable(c, img)).(nIdCount := img.nNew), img.nTried);
    BucketsGoing(c, img, LoadedEntries(c, img), Max(0, NUBuckets(img)), Usable(c, img), img.nNew + img.nTried);
  }

  /** Whatever the table sizes it was written with, and whatever its buckets say, an image loads consistently. */
  lemma LoadedInv(c: Config, img: Image)
    requires c.Valid() && Sane(img)
    ensures Inv(c, Loaded(c, img))
  {
    hide Tables, Refs, Index, NewIds, TriedIds;
    UnprunedGoing(c, img);
    var u := Unpruned(c, img);
    PruneCore(c, u, u.nIdCount);
    PrunedRest(c, u, Loaded(c, img));
  }

  lemma PrunedRest(c: Config, s: State, r: State)
    requires Core(c, s) && Pruning(s, r, s.nIdCount) && Timed(s.mapInfo)
    ensures Timed(r.mapInfo) && Unreferenced(r.mapInfo) == {}
  {
    hide Tables, Refs, Listed, Reverse;
    forall id | id in r.mapInfo ensures TimesOk(r.mapInfo[id]) && id !in Unreferenced(r.mapInfo) {
      assert Moved(s.mapInfo[id], r.mapInfo[id]) && TimesOk(s.mapInfo[id]);
    }
  }

  // ----- what is lost -----

  function SlotOfNew(c: Config, img: Image, i: nat): Slot
    requires i < |img.newEntries|
  {
    NewSlot(c, img.key, img.newEntries[i].addr.service, img.newEntries[i].source)
  }

  function SlotOfTried(c: Config, img: Image, i: nat): Slot
    requires i < |img.triedEntries|
  {
    TriedSlot(c, img.key, img.triedEntries[i].addr.service)
  }

  /** The slots the first n new entries ask for. */
  function NewTaken(c: Config, img: Image, n: nat): set<Slot>
    requires n <= |img.newEntries|
  {
    set i | 0 <= i < n :: SlotOfNew(c, img, i)
  }

  function TriedTaken(c: Config, img: Image, n: nat): set<Slot>
    requires n <= |img.triedEntries|
  {
    set i | 0 <= i < n :: SlotOfTried(c, img, i)
  }

  /** The manager has the entry, under its address, in tried or not. */
  ghost predicate Has(s: State, st: Stored, fInTried: bool) {
    var ip := st.addr.service.ip;
    ip in s.mapAddr && s.mapAddr[ip] in s.mapInfo && IsOf(s.mapInfo[s.mapAddr[ip]], st, fInTried)
  }

  predicate IsOf(info: Info, st: Stored, fInTried: bool) { Store(info) == st && info.fInTried == fInTried }

  /** A new entry as read without usable buckets: it has its slot, if no earlier one asked for it. */
  ghost predicate NewSettled(c: Config, img: Image, s: State, i: nat)
    requires i < |img.newEntries|
  {
    && i in s.mapInfo && IsOf(s.mapInfo[i], img.newEntries[i], false)
    && s.mapInfo[i].nRefCount == if SlotOfNew(c, img, i) in NewTaken(c, img, i) then 0 else 1
  }

  /** The first n new entries, and the slots they took. */
  ghost predicate NewDone(c: Config, img: Image, s: State, n: nat)
    requires n <= |img.newEntries|
  {
    && s.key == img.key && s.tried == map[] && s.new_.Keys == NewTaken(c, img, n)
    && forall i | 0 <= i < n :: NewSettled(c, img, s, i)
  }

  ghost predicate TriedSettled(c: Config, img: Image, s: State, j: nat)
    requires j < |img.triedEntries|
  {
    if SlotOfTried(c, img, j) in TriedTaken(c, img, j) then img.triedEntries[j].addr.service.ip !in s.mapAddr
    else Has(s, img.triedEntries[j], true)
  }

  ghost predicate TriedDone(c: Config, img: Image, s: State, k: nat)
    requires k <= |img.triedEntries|
  {
    s.tried.Keys == TriedTaken(c, img, k) && forall j | 0 <= j < k :: TriedSettled(c, img, s, j)
  }

  lemma TakenNext(c: Config, img: Image, n: nat)
    ensures n < |img.newEntries| ==> NewTaken(c, img, n + 1) == NewTaken(c, img, n) + {SlotOfNew(c, img, n)}
    ensures n < |img.triedEntries| ==> TriedTaken(c, img, n + 1) == TriedTaken(c, img, n) + {SlotOfTried(c, img, n)}
    ensures NewTaken(c, img, 0) == {} == TriedTaken(c, img, 0)
  {
  }

  lemma {:induction false} NewsDone(c: Config, img: Image, n: nat)
    requires Readable(img) && n <= img.nNew
    ensures NewDone(c, img, LoadNew(c, img, n, false), n)
  {
    hide NewDone, Numbered, LoadOneNew;
    if n > 0 {
      NewsDone(c, img, n - 1);
      NewDoneNext(c, img, LoadNew(c, img, n - 1, false), n - 1);
    } else {
      NoneDone(c, img);
    }
  }

  lemma NoneDone(c: Config, img: Image)
    ensures NewDone(c, img, Start(img), 0)
  {
    TakenNext(c, img, 0);
  }

  lemma NewDoneNext(c: Config, img: Image, s: State, n: nat)
    requires n < |img.newEntries| && Numbered(s, n) && NewDone(c, img, s, n)
    ensures NewDone(c, img, LoadOneNew(c, s, img.newEntries[n], n, false), n + 1)
  {
    TakenNext(c, img, n);
    LoadOneNewIs(c, s, img.newEntries[n], n);
    hide Numbered, NewTaken, LoadOneNew;
    var r := LoadOneNew(c, s, img.newEntries[n], n, false);
    forall i | 0 <= i < n + 1 ensures NewSettled(c, img, r, i) {
      if i < n { assert NewSettled(c, img, s, i); }
    }
  }

  lemma LoadOneNewIs(c: Config, s: State, st: Stored, id: nat)
    requires Numbered(s, id)
    ensures var r, sl := LoadOneNew(c, s, st, id, false), NewSlot(c, s.key, st.addr.service, st.source);
            && r.key == s.key && r.tried == s.tried && r.new_.Keys == s.new_.Keys + {sl} && id in r.mapInfo
            && IsOf(r.mapInfo[id], st, false) && r.mapInfo[id].nRefCount == (if sl in s.new_ then 0 else 1)
            && (forall i | i in s.mapInfo && i != id :: i in r.mapInfo && r.mapInfo[i] == s.mapInfo[i])
  {
    hide Numbered, NewSlot;
  }

  /** Tried entries come after the new ones, under ids and addresses of their own. */
  lemma {:induction false} TriedsDone(c: Config, img: Image, s: State, k: nat)
    requires c.Valid() && Sane(img) && k <= img.nTried && Numbered(s, s.nIdCount)
    requires Going(c, img, s, img.nNew) && s.nIdCount >= img.nNew && s.tried == map[]
    ensures var r := LoadTried(c, s, img.triedEntries, k); TriedDone(c, img, r, k) && Extends(s, r)
  {
    hide Going, Numbered, LoadOneTried, Ips, TriedDone, Extends;
    if k > 0 {
      var q := LoadTried(c, s, img.triedEntries, k - 1);
      TriedsDone(c, img, s, k - 1);
      TriedsGoing(c, img, s, k - 1);
      TriedDoneNext(c, img, q, k - 1);
      ExtendsOn(s, q, LoadOneTried(c, q, img.triedEntries[k - 1]));
    } else {
      NoTriedDone(c, img, s);
      ExtendsOn(s, s, s);
    }
  }

  lemma NoTriedDone(c: Config, img: Image, s: State)
    requires s.tried == map[]
    ensures TriedDone(c, img, s, 0)
  {
    TakenNext(c, img, 0);
  }

  /** Entries were added, and none changed. */
  ghost predicate Extends(s: State, r: State) {
    forall id | id in s.mapInfo :: id in r.mapInfo && r.mapInfo[id] == s.mapInfo[id]
  }

  lemma ExtendsOn(s: State, q: State, r: State)
    ensures Extends(s, s) && (Extends(s, q) && Extends(q, r) ==> Extends(s, r))
  {
  }

  /** Reading a tried entry settles whether the manager has it. */
  lemma OneTriedHas(c: Config, s: State, st: Stored)
    requires Core(c, s) && Timed(s.mapInfo) && Numbered(s, s.nIdCount)
    requires st.addr.service.ip !in s.mapAddr && st.nLastSuccess > 0
    ensures var r, sl := LoadOneTried(c, s, st), TriedSlot(c, s.key, st.addr.service);
            && r.tried.Keys == s.tried.Keys + {sl} && Extends(s, r)
            && (if sl in s.tried then st.addr.service.ip !in r.mapAddr else Has(r, st, true))
  {
    hide Core, Timed, NewOff, TriedOff, Numbered, LoadOneTried, TriedSlot;
    OneTried(c, s, st);
    OneTriedIs(c, s, st);
  }

  /** It does not concern other addresses. */
  lemma OneTriedOther(c: Config, s: State, st: Stored, other: Stored)
    requires Core(c, s) && Timed(s.mapInfo) && Numbered(s, s.nIdCount)
    requires st.addr.service.ip !in s.mapAddr && st.nLastSuccess > 0
    requires other.addr.service.ip != st.addr.service.ip
    ensures var r := LoadOneTried(c, s, st);
            && (other.addr.service.ip in r.mapAddr <==> other.addr.service.ip in s.mapAddr)
            && (Has(s, other, true) ==> Has(r, other, true))
  {
    hide Core, Timed, NewOff, TriedOff, Numbered, LoadOneTried, TriedSlot;
    OneTried(c, s, st);
  }

  lemma OwnIp(img: Image, j: nat, k: nat)
    requires Sane(img) && j < k < img.nTried
    ensures img.triedEntries[j].addr.service.ip != img.triedEntries[k].addr.service.ip
  {
    var i, m := img.nNew + j, img.nNew + k;
    assert Ips(img)[i] != Ips(img)[m];
    assert Listing(img)[i] == img.triedEntries[j] && Listing(img)[m] == img.triedEntries[k];
  }

  lemma NextTried(c: Config, img: Image, s: State, k: nat)
    requires Sane(img) && k < img.nTried && Going(c, img, s, img.nNew + k)
    ensures Core(c, s) && Timed(s.mapInfo) && s.key == img.key
    ensures img.triedEntries[k].addr.service.ip !in s.mapAddr && img.triedEntries[k].nLastSuccess > 0
  {
    hide Core, Timed, NewIds, TriedIds;
    FreshIp(c, img, s, img.nNew + k);
    assert Listing(img)[img.nNew + k] == img.triedEntries[k];
  }

  lemma TriedDoneNext(c: Config, img: Image, s: State, k: nat)
    requires c.Valid() && Sane(img) && k < img.nTried && Numbered(s, s.nIdCount)
    requires Going(c, img, s, img.nNew + k) && TriedDone(c, img, s, k)
    ensures var r := LoadOneTried(c, s, img.triedEntries[k]); TriedDone(c, img, r, k + 1) && Extends(s, r)
  {
    hide Core, Going, Timed, Numbered, LoadOneTried, Has, Ips, TriedTaken, Extends;
    var st := img.triedEntries[k];
    var r := LoadOneTried(c, s, st);
    NextTried(c, img, s, k);
    OneTriedHas(c, s, st);
    TakenNext(c, img, k);
    forall j | 0 <= j < k + 1 ensures TriedSettled(c, img, r, j) {
      if j < k {
        assert TriedSettled(c, img, s, j);
        OwnIp(img, j, k);
        OneTriedOther(c, s, st, img.triedEntries[j]);
      }
    }
  }

  /** The buckets change nothing but the new table and its counts; nothing at all if they are not usable. */
  ghost predicate OnlyCounts(s: State, r: State, usable: bool) {
    && r.mapAddr == s.mapAddr && r.tried == s.tried && (!usable ==> r == s)
    && forall id | id in s.mapInfo ::
         id in r.mapInfo && r.mapInfo[id] == s.mapInfo[id].(nRefCount := r.mapInfo[id].nRefCount)
  }

  lemma OnlyCountsOn(s: State, q: State, r: State, usable: bool)
    ensures OnlyCounts(s, s, usable)
    ensures OnlyCounts(s, q, usable) && OnlyCounts(q, r, usable) ==> OnlyCounts(s, r, usable)
  {
  }

  lemma IndexCounts(c: Config, s: State, bucket: nat, nIndex: int, usable: bool)
    requires Numbered(s, s.nIdCount)
    ensures OnlyCounts(s, LoadIndex(c, s, bucket, nIndex, usable), usable)
  {
    hide Numbered;
  }

  lemma {:induction false} IndicesCount(c: Config, s: State, bucket: nat, list: seq<int>, usable: bool)
    requires Numbered(s, s.nIdCount)
    ensures OnlyCounts(s, LoadIndices(c, s, bucket, list, usable), usable)
  {
    hide Numbered, LoadIndex, OnlyCounts;
    OnlyCountsOn(s, s, s, usable);
    if list != [] {
      var q := LoadIndices(c, s, bucket, list[..|list| - 1], usable);
      IndicesCount(c, s, bucket, list[..|list| - 1], usable);
      IndexCounts(c, q, bucket, list[|list| - 1], usable);
      OnlyCountsOn(s, q, LoadIndex(c, q, bucket, list[|list| - 1], usable), usable);
    }
  }

  lemma {:induction false} BucketsCount(c: Config, s: State, buckets: seq<seq<int>>, n: nat, usable: bool)
    requires Numbered(s, s.nIdCount) && n <= |buckets|
    ensures OnlyCounts(s, LoadBuckets(c, s, buckets, n, usable), usable)
  {
    hide Numbered, LoadIndices, OnlyCounts;
    OnlyCountsOn(s, s, s, usable);
    if n > 0 {
      var q := LoadBuckets(c, s, buckets, n - 1, usable);
      BucketsCount(c, s, buckets, n - 1, usable);
      IndicesCount(c, q, n - 1, buckets[n - 1], usable);
      OnlyCountsOn(s, q, LoadIndices(c, q, n - 1, buckets[n - 1], usable), usable);
    }
  }

  lemma CountsHas(s: State, r: State, st: Stored, usable: bool)
    requires OnlyCounts(s, r, usable)
    ensures st.addr.service.ip in r.mapAddr <==> st.addr.service.ip in s.mapAddr
    ensures Has(s, st, true) ==> Has(r, st, true)
  {
    if Has(s, st, true) {
      var id := s.mapAddr[st.addr.service.ip];
      assert id in r.mapInfo && r.mapInfo[id] == s.mapInfo[id].(nRefCount := r.mapInfo[id].nRefCount);
    }
  }

  /** Pruning drops the addresses of exactly the entries nothing refers to. */
  lemma PrunedAddr(c: Config, s: State, r: State, ip: NetAddr)
    requires Core(c, s) && Core(c, r) && Pruning(s, r, s.nIdCount)
    ensures ip in r.mapAddr <==> ip in s.mapAddr && s.mapAddr[ip] !in Unreferenced(s.mapInfo)
    ensures ip in r.mapAddr ==> r.mapAddr[ip] == s.mapAddr[ip] && s.mapAddr[ip] in r.mapInfo
  {
    hide Tables, Refs, Listed;
    if ip in r.mapAddr {
      var id := r.mapAddr[ip];
      assert id in r.mapInfo && Moved(s.mapInfo[id], r.mapInfo[id]);
    }
    if ip in s.mapAddr && s.mapAddr[ip] !in Unreferenced(s.mapInfo) {
      var id := s.mapAddr[ip];
      assert id in r.mapInfo && Moved(s.mapInfo[id], r.mapInfo[id]);
    }
  }

  lemma PrunedHas(c: Config, s: State, r: State, st: Stored, fInTried: bool)
    requires Core(c, s) && Core(c, r) && Pruning(s, r, s.nIdCount) && Has(s, st, fInTried)
    ensures var id := s.mapAddr[st.addr.service.ip];
            if id in Unreferenced(s.mapInfo) then st.addr.service.ip !in r.mapAddr else Has(r, st, fInTried)
  {
    hide Core;
    PrunedAddr(c, s, r, st.addr.service.ip);
    var id := s.mapAddr[st.addr.service.ip];
    if id in r.mapInfo { assert Moved(s.mapInfo[id], r.mapInfo[id]); }
  }

  /**
    Which tried entries an image keeps: those whose position no tried entry before
    them has taken. What is kept is as it was stored.
   */
  lemma TriedLosses(c: Config, img: Image, j: nat)
    requires c.Valid() && Sane(img) && j < img.nTried
    ensures var r, st := Loaded(c, img), img.triedEntries[j];
            if SlotOfTried(c, img, j) in TriedTaken(c, img, j) then st.addr.service.ip !in r.mapAddr
            else Has(r, st, true)
  {
    hide Core, Numbered, LoadNew, LoadTried, LoadBuckets, Ips, OnlyCounts, Has, TriedTaken, SlotOfTried, Going, Usable;
    var st := img.triedEntries[j];
    var u := Unpruned(c, img);
    TriedsLoaded(c, img);
    assert TriedSettled(c, img, LoadedEntries(c, img), j);
    BucketsCount(c, LoadedEntries(c, img), img.buckets, Max(0, NUBuckets(img)), Usable(c, img));
    CountsHas(LoadedEntries(c, img), u, st, Usable(c, img));
    LoadedPruning(c, img);
    PrunedAddr(c, u, Loaded(c, img), st.addr.service.ip);
    if Has(u, st, true) {
      HasTried(u, st);
      PrunedHas(c, u, Loaded(c, img), st, true);
    }
  }

  lemma HasTried(s: State, st: Stored)
    requires Has(s, st, true)
    ensures st.addr.service.ip in s.mapAddr && s.mapAddr[st.addr.service.ip] !in Unreferenced(s.mapInfo)
  {
  }

  lemma LoadedPruning(c: Config, img: Image)
    requires c.Valid() && Sane(img)
    ensures var u, r := Unpruned(c, img), Loaded(c, img); Core(c, u) && Core(c, r) && Pruning(u, r, u.nIdCount)
  {
    UnprunedGoing(c, img);
    hide Core, Pruning, Loaded, Unpruned;
    PruneCore(c, Unpruned(c, img), Unpruned(c, img).nIdCount);
  }

  lemma TriedsLoaded(c: Config, img: Image)
    requires c.Valid() && Sane(img)
    ensures TriedDone(c, img, LoadedEntries(c, img), img.nTried)
    ensures Extends(LoadNew(c, img, img.nNew, Usable(c, img)), LoadedEntries(c, img))
  {
    hide Going, Listed, Ids, LoadTried, Ips, TriedDone, LoadOneNew;
    var n := LoadNew(c, img, img.nNew, Usable(c, img)).(nIdCount := img.nNew);
    NewGoing(c, img, img.nNew);
    NewsUntried(c, img, img.nNew);
    TriedsDone(c, img, n, img.nTried);
  }

  lemma {:induction false} NewsUntried(c: Config, img: Image, n: nat)
    requires n <= |img.newEntries|
    ensures LoadNew(c, img, n, Usable(c, img)).tried == map[]
  {
    hide Numbered;
    if n > 0 { NewsUntried(c, img, n - 1); }
  }

  /**
    Which new entries an image keeps whose buckets cannot be used: those whose source's
    position no new entry before them has asked for.
   */
  lemma NewLosses(c: Config, img: Image, i: nat)
    requires c.Valid() && Sane(img) && !Usable(c, img) && i < img.nNew
    ensures var r, st := Loaded(c, img), img.newEntries[i];
            if SlotOfNew(c, img, i) in NewTaken(c, img, i) then st.addr.service.ip !in r.mapAddr
            else Has(r, st, false)
  {
    hide Core, Numbered, LoadNew, LoadTried, LoadBuckets, Ips, Going, NewTaken, SlotOfNew, Usable, Has;
    var u := Unpruned(c, img);
    NewsDone(c, img, img.nNew);
    assert NewSettled(c, img, LoadNew(c, img, img.nNew, false), i);
    TriedsLoaded(c, img);
    BucketsCount(c, LoadedEntries(c, img), img.buckets, Max(0, NUBuckets(img)), false);
    LoadedPruning(c, img);
    assert u == LoadedEntries(c, img);
    assert i in u.mapInfo && u.mapInfo[i] == LoadNew(c, img, img.nNew, false).mapInfo[i];
    SettledHas(c, img, u, i);
    PrunedHas(c, u, Loaded(c, img), img.newEntries[i], false);
  }

  lemma SettledHas(c: Config, img: Image, s: State, i: nat)
    requires Core(c, s) && i < |img.newEntries| && NewSettled(c, img, s, i)
    ensures Has(s, img.newEntries[i], false) && s.mapAddr[img.newEntries[i].addr.service.ip] == i
    ensures i in Unreferenced(s.mapInfo) <==> SlotOfNew(c, img, i) in NewTaken(c, img, i)
  {
    hide Tables, Refs, Listed, NewTaken;
  }

  // ----- an image written with other table sizes -----

  lemma SavedSane(c: Config, s: State)
    requires Inv(c, s)
    ensures s.nIdCount >= 0 && s.nNew >= 0 && s.nTried >= 0 && forall sl: Slot | sl in s.new_ :: s.new_[sl] >= 0
    ensures Sane(Saved(c, s)) && NUBuckets(Saved(c, s)) == c.newBuckets
  {
    SavedReady(c, s);
    OrderIs(c, s);
    var img, ids := Saved(c, s), Order(s);
    forall i | 0 <= i < |ids| ensures Listing(img)[i] == Store(s.mapInfo[ids[i]]) { ListingIs(c, s, i); }
    assert Reverse(s.mapInfo, s.mapAddr) && Timed(s.mapInfo);
    assert forall id | id in ids :: id in s.mapInfo;
    hide Inv, Reverse, Ordered, BucketLists, Order, SavedNew, SavedTried;
    OrderedSane(img, s.mapInfo, s.mapAddr, ids);
  }

  lemma OrderedSane(img: Image, m: map<int, Info>, a: map<NetAddr, int>, ids: seq<int>)
    requires Readable(img) && img.key != 0 && Reverse(m, a) && Timed(m) && Ordered(m, ids, img.nNew)
    requires |ids| == |Listing(img)| && forall i | 0 <= i < |ids| :: Listing(img)[i] == Store(m[ids[i]])
    ensures Sane(img)
  {
    hide Listing;
    var ips := Ips(img);
    forall i | 0 <= i < |ids| ensures ips[i] in a && a[ips[i]] == ids[i] { assert ids[i] in m; }
    forall i | 0 <= i < |ids|
      ensures Listing(img)[i].nLastSuccess >= 0 && (i >= img.nNew ==> Listing(img)[i].nLastSuccess > 0)
    {
      assert ids[i] in m && TimesOk(m[ids[i]]);
    }
    ListingParts(img);
  }

  lemma ListingParts(img: Image)
    requires Readable(img)
    ensures forall i | 0 <= i < img.nNew :: Listing(img)[i] == img.newEntries[i]
    ensures forall i | 0 <= i < img.nTried :: Listing(img)[img.nNew + i] == img.triedEntries[i]
  {
  }

  lemma ListingIs(c: Config, s: State, i: nat)
    requires Inv(c, s) && i < |Order(s)|
    ensures s.nIdCount >= 0 && s.nNew >= 0 && s.nTried >= 0 && forall sl: Slot | sl in s.new_ :: s.new_[sl] >= 0
    ensures Readable(Saved(c, s)) && i < |Listing(Saved(c, s))| && Order(s)[i] in s.mapInfo
    ensures Listing(Saved(c, s))[i] == Store(s.mapInfo[Order(s)[i]])
  {
    hide Inv, BucketLists, Ascending, Rank;
    InvSizes(c, s);
    SavedReady(c, s);
    OrderIs(c, s);
  }

  /** A manager saved under one set of table sizes loads consistently under any other. */
  lemma ResizedInv(c: Config, d: Config, s: State)
    requires c.Valid() && Inv(d, s)
    ensures s.nIdCount >= 0 && s.nNew >= 0 && s.nTried >= 0 && forall sl: Slot | sl in s.new_ :: s.new_[sl] >= 0
    ensures Readable(Saved(d, s)) && Inv(c, Loaded(c, Saved(d, s)))
    ensures Usable(c, Saved(d, s)) <==> c.newBuckets == d.newBuckets
  {
    hide Inv, Loaded;
    SavedSane(d, s);
    LoadedInv(c, Saved(d, s));
  }
}
