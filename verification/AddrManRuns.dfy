/**
  What the operations of the address manager mean, and what every run of them keeps.
 */
module AddrManRuns {
  import opened AddrManState
  import opened Util

  /** The slot an address goes to when a source reports it. */
  function ReportSlot(c: Config, s: State, addr: Address, source: NetAddr): Slot
    requires addr.service.ip in s.mapAddr ==> s.mapAddr[addr.service.ip] in s.mapInfo
  {
    var ip := addr.service.ip;
    var service := if ip in s.mapAddr then s.mapInfo[s.mapAddr[ip]].addr.service else addr.service;
    NewSlot(c, s.key, service, source)
  }

  lemma IntroducedOther(s: State, addr: Address, source: NetAddr, nTimePenalty: int, other: int)
    requires other in s.mapInfo && s.nIdCount !in s.mapInfo
    ensures var r := Introduced(s, addr, source, nTimePenalty);
            other in r.mapInfo && r.mapInfo[other] == s.mapInfo[other] && r.new_ == s.new_ && r.key == s.key
  {
  }

  lemma EnteredOther(c: Config, s: State, id: int, sl: Slot, nNow: int, other: int)
    requires Core(c, s) && id in s.mapInfo && !s.mapInfo[id].fInTried && other in s.mapInfo && other != id
    requires sl in s.new_ ==> s.new_[sl] != other
    ensures var r := Entered(c, s, id, sl, nNow); other in r.mapInfo && Moved(s.mapInfo[other], r.mapInfo[other])
  {
    if sl in s.new_ && s.new_[sl] == id {
    } else if Overwrites(s, id, sl, nNow) {
      ClearedOthers(c, s, sl, id);
      ClearedOthers(c, s, sl, other);
    } else if s.mapInfo[id].nRefCount == 0 {
      DeletedIndex(s, id);
      var m, k := s.mapInfo - {id}, Deleted(s, id).mapInfo;
      assert other in m && other in k && Moved(m[other], k[other]);
    }
  }

  /** News about a known entry never turn its time back, and never take a service away. */
  lemma NewsOnlyAdd(info: Info, addr: Address, nTimePenalty: int, nNow: int)
    requires info.addr.nTime >= 0
    ensures var r := Refreshed(info, addr, nTimePenalty, nNow);
            && r.addr.nTime >= info.addr.nTime && r.addr.services == info.addr.services + addr.services
            && (r.addr.nTime != info.addr.nTime ==>
                  addr.nTime != 0 && r.addr.nTime == Max(0, addr.nTime - nTimePenalty))
            && r == info.(addr := r.addr) && r.addr.service == info.addr.service
  {
  }

  /** The entry that enters a slot keeps its address, unless it is dropped for want of any slot. */
  lemma EnteredOwn(c: Config, s: State, id: int, sl: Slot, nNow: int)
    requires Core(c, s) && id in s.mapInfo && !s.mapInfo[id].fInTried && s.mapInfo[id].nRefCount > 0
    ensures var r := Entered(c, s, id, sl, nNow); id in r.mapInfo && r.mapInfo[id].addr == s.mapInfo[id].addr
  {
    if sl in s.new_ && s.new_[sl] == id {
    } else if Overwrites(s, id, sl, nNow) {
      ClearedOthers(c, s, sl, id);
    }
  }

  /**
    News keep a known entry up to date: its time is never more than an hour behind what was
    reported, if that is less than a day old, or else a day, apart from the penalty; and
    a time that is not that far behind stays. Services are only added.
   */
  lemma AddKeepsUp(c: Config, s: State, addr: Address, source: NetAddr, nTimePenalty: nat, nNow: int, nLater: int,
                   random: nat)
    requires c.Valid() && Inv(c, s) && addr.service.ip in s.mapAddr
    ensures var id, r := s.mapAddr[addr.service.ip], Added(c, s, addr, source, nTimePenalty, nNow, nLater, random);
            var behind := nTimePenalty + if nNow < addr.nTime + 86400 then 3600 else 86400;
            && id in s.mapInfo && id in r.mapInfo
            && var was, now := s.mapInfo[id].addr, r.mapInfo[id].addr;
               && now.service == was.service && now.services == was.services + addr.services
               && (addr.nTime != 0 ==> now.nTime >= addr.nTime - behind)
               && (addr.nTime == 0 || (was.nTime != 0 && was.nTime >= addr.nTime - behind) ==> now.nTime == was.nTime)
               && (now.nTime != was.nTime ==> now.nTime == Max(0, addr.nTime - nTimePenalty))
  {
    hide Core, Timed, Entered;
    var id := KnownId(c, s, addr.service.ip);
    var r := WithInfo(s, id, Refreshed(s.mapInfo[id], addr, nTimePenalty, nNow));
    RefreshedInv(c, s, id, addr, nTimePenalty, nNow);
    if WantsMore(c, r.mapInfo[id], addr, random) {
      KnownReferenced(c, r, id);
      EnteredOwn(c, r, id, ReportSlot(c, s, addr, source), nLater);
    }
  }

  /**
    A known entry gets a further reference, at the position for the source, exactly if the
    news are newer than its record as updated, it is not in tried, has room, is lucky once
    in 2^n times with n references, and the position is free or held by a terrible entry.
   */
  lemma AddGivesReference(c: Config, s: State, addr: Address, source: NetAddr, nTimePenalty: nat, nNow: int,
                          nLater: int, random: nat)
    requires c.Valid() && Inv(c, s) && addr.service.ip in s.mapAddr
    ensures var id, sl := s.mapAddr[addr.service.ip], ReportSlot(c, s, addr, source);
            var r := Added(c, s, addr, source, nTimePenalty, nNow, nLater, random);
            && id in s.mapInfo && id in r.mapInfo && (sl in s.new_ ==> s.new_[sl] in s.mapInfo)
            && var info, now := s.mapInfo[id], r.mapInfo[id].addr.nTime;
               sl in r.new_ && r.new_[sl] == id <==>
               || (sl in s.new_ && s.new_[sl] == id)
               || (addr.nTime != 0 && (now == 0 || addr.nTime > now) &&
                   !info.fInTried && info.nRefCount < c.perAddress && random % Pow2(info.nRefCount) == 0 &&
                   (sl in s.new_ ==> IsTerrible(s.mapInfo[s.new_[sl]], nLater)))
  {
    hide Timed, Deleted, ClearedNew, Factor;
    var id := KnownId(c, s, addr.service.ip);
    var sl := ReportSlot(c, s, addr, source);
    var r := WithInfo(s, id, Refreshed(s.mapInfo[id], addr, nTimePenalty, nNow));
    RefreshedInv(c, s, id, addr, nTimePenalty, nNow);
    assert RefOk(c, s, id, s.mapInfo[id]);
    FactorIs(s.mapInfo[id].nRefCount);
    CoreReads(c, s, id, sl);
    if WantsMore(c, r.mapInfo[id], addr, random) {
      KnownReferenced(c, r, id);
      EnteredOwn(c, r, id, sl, nLater);
      if Overwrites(r, id, sl, nLater) { ClearedRest(r, sl); }
    }
  }

  lemma KnownReferenced(c: Config, s: State, id: int)
    requires Inv(c, s) && id in s.mapInfo && !s.mapInfo[id].fInTried
    ensures s.mapInfo[id].nRefCount > 0
  {
    assert RefOk(c, s, id, s.mapInfo[id]);
    assert id !in Unreferenced(s.mapInfo);
  }

  /** Add disturbs no entry but the one added and the one in the slot it goes to. */
  lemma AddDisturbsOne(c: Config, s: State, addr: Address, source: NetAddr, nTimePenalty: int, nNow: int, nLater: int,
                       random: nat, other: int)
    requires c.Valid() && Inv(c, s) && other in s.mapInfo && s.mapInfo[other].addr.service.ip != addr.service.ip
    requires ReportSlot(c, s, addr, source) in s.new_ ==> s.new_[ReportSlot(c, s, addr, source)] != other
    ensures var r := Added(c, s, addr, source, nTimePenalty, nNow, nLater, random);
            other in r.mapInfo && Moved(s.mapInfo[other], r.mapInfo[other])
  {
    if addr.service.ip in s.mapAddr {
      var id := s.mapAddr[addr.service.ip];
      var r := WithInfo(s, id, Refreshed(s.mapInfo[id], addr, nTimePenalty, nNow));
      RefreshedInv(c, s, id, addr, nTimePenalty, nNow);
      if WantsMore(c, r.mapInfo[id], addr, random) {
        EnteredOther(c, r, id, ReportSlot(c, s, addr, source), nLater, other);
      }
    } else {
      IntroducedCore(c, s, addr, source, nTimePenalty);
      IntroducedOther(s, addr, source, nTimePenalty, other);
      var q := Introduced(s, addr, source, nTimePenalty);
      EnteredOther(c, q, s.nIdCount, ReportSlot(c, s, addr, source), nLater, other);
    }
  }

  lemma EnteredNewcomer(c: Config, s: State, id: int, source: NetAddr, nNow: int)
    requires c.Valid() && Core(c, s) && id in s.mapInfo && !s.mapInfo[id].fInTried && s.mapInfo[id].nRefCount == 0
    requires Unreferenced(s.mapInfo) == {id}
    ensures var service := s.mapInfo[id].addr.service;
            var sl := NewSlot(c, s.key, service, source);
            var r := Entered(c, s, id, sl, nNow);
            && (sl in s.new_ ==> s.new_[sl] in s.mapInfo)
            && (Overwrites(s, id, sl, nNow) <==> service.ip in r.mapAddr)
            && (Overwrites(s, id, sl, nNow) ==>
                  Known(r, service) && r.mapAddr[service.ip] == id && sl in r.new_ && r.new_[sl] == id &&
                  r.mapInfo[id] == s.mapInfo[id].(nRefCount := 1, nRandomPos := r.mapInfo[id].nRandomPos))
  {
    var service := s.mapInfo[id].addr.service;
    var sl := NewSlot(c, s.key, service, source);
    var r := Entered(c, s, id, sl, nNow);
    EnteredCore(c, s, id, source, nNow);
    assert RefOk(c, s, id, s.mapInfo[id]);
    assert sl !in SlotsOf(s.new_, id);
    if Overwrites(s, id, sl, nNow) {
      ClearedOthers(c, s, sl, id);
      assert id in r.mapInfo && r.mapInfo[id].addr.service == service;
    }
  }

  /** Whether the slot a new address goes to is free, or given up by the entry in it. */
  ghost predicate GivesWay(s: State, sl: Slot, nNow: int)
    requires sl in s.new_ ==> s.new_[sl] in s.mapInfo
  {
    sl in s.new_ ==> IsTerrible(s.mapInfo[s.new_[sl]], nNow) || s.mapInfo[s.new_[sl]].nRefCount > 1
  }

  /** A new entry: the address as reported, but for the penalty, its source, and no history. */
  predicate NewRecord(info: Info, addr: Address, source: NetAddr, nTimePenalty: int) {
    && info.addr == addr.(nTime := info.addr.nTime) && info.source == source
    && info.addr.nTime >= 0 && info.addr.nTime >= addr.nTime - nTimePenalty
    && (info.addr.nTime == 0 || info.addr.nTime == addr.nTime - nTimePenalty)
    && info.nLastSuccess == 0 && info.nLastTry == 0 && info.nAttempts == 0 && !info.fInTried
  }

  lemma IntroducedOverwrites(c: Config, s: State, addr: Address, source: NetAddr, nTimePenalty: int, sl: Slot,
                             nNow: int)
    requires Core(c, s)
    ensures sl in s.new_ ==> s.new_[sl] in s.mapInfo
    ensures var q := Introduced(s, addr, source, nTimePenalty);
            && s.nIdCount in q.mapInfo && q.key == s.key && q.mapInfo[s.nIdCount].nRefCount == 0
            && !q.mapInfo[s.nIdCount].fInTried && q.mapInfo[s.nIdCount].addr.service == addr.service
            && NewRecord(q.mapInfo[s.nIdCount], addr, source, nTimePenalty)
            && (sl in q.new_ ==> q.new_[sl] in q.mapInfo)
            && (Overwrites(q, s.nIdCount, sl, nNow) <==> GivesWay(s, sl, nNow))
  {
    if sl in s.new_ { IntroducedOther(s, addr, source, nTimePenalty, s.new_[sl]); }
  }

  /**
    A new address is kept exactly when its slot is free, or holds an entry that is
    terrible or has another slot. (The program answers true in either case.)
   */
  lemma AddKeepsNewcomer(c: Config, s: State, addr: Address, source: NetAddr, nTimePenalty: int, nNow: int, nLater: int,
                         random: nat)
    requires c.Valid() && Inv(c, s) && addr.service.ip !in s.mapAddr
    ensures var r, b := Added(c, s, addr, source, nTimePenalty, nNow, nLater, random),
                        c.NewBucket(s.key, addr.service, source);
            var sl := (b, c.Position(s.key, true, b, addr.service));
            && (sl in s.new_ ==> s.new_[sl] in s.mapInfo)
            && (addr.service.ip in r.mapAddr <==> GivesWay(s, sl, nLater))
            && (addr.service.ip in r.mapAddr ==>
                  Known(r, addr.service) && sl in r.new_ && r.new_[sl] == r.mapAddr[addr.service.ip] &&
                  NewRecord(r.mapInfo[r.mapAddr[addr.service.ip]], addr, source, nTimePenalty))
  {
    hide Core, Introduced, Entered, Overwrites, GivesWay;
    IntroducedCore(c, s, addr, source, nTimePenalty);
    IntroducedOverwrites(c, s, addr, source, nTimePenalty, ReportSlot(c, s, addr, source), nLater);
    EnteredNewcomer(c, Introduced(s, addr, source, nTimePenalty), s.nIdCount, source, nLater);
  }

  // ----- two failures, in a table of one position -----

  function OneSlot(): Config {
    Config(1, 1, 1, 8, (key, service, source) => 0, (key, service) => 0, (key, fNew, bucket, service) => 0)
  }

  function SeenAt(ip: NetAddr): Address { Address(Service(ip, 0), {}, 1000) }

  /** The manager after the first address was added. */
  function OneAdded(): (s: State)
    ensures OneSlot().Valid() && Inv(OneSlot(), s)
    ensures SlotsOf(s.new_, 0) == {(0, 0)}
    ensures Known(s, SeenAt(1).service) && s.mapAddr == map[1 := 0 as int]
    ensures s.mapInfo == map[0 as int := Info(SeenAt(1), 0, 0, 0, 0, 1, false, 0)]
    ensures s.new_ == map[(0, 0) := 0 as int]
  {
    var c := OneSlot();
    EmptyInv(c, 1);
    AddInv(c, Empty(1), SeenAt(1), 0, 0, 1000, 1000, 0);
    var q := Introduced(Empty(1), SeenAt(1), 0, 0);
    IntroducedCore(c, Empty(1), SeenAt(1), 0, 0);
    assert ClearedNew(q, (0, 0)) == q;
    Added(c, Empty(1), SeenAt(1), 0, 0, 1000, 1000, 0)
  }

  /** A second address finds the one position taken and is not kept, though Add answers that it is new. */
  lemma NewcomerLost()
    ensures var r := Added(OneSlot(), OneAdded(), SeenAt(2), 0, 0, 1000, 1000, 0);
            2 !in OneAdded().mapAddr && 2 !in r.mapAddr
  {
    AddKeepsNewcomer(OneSlot(), OneAdded(), SeenAt(2), 0, 0, 1000, 1000, 0);
  }

  /** A success at time zero leaves a tried entry that was never reached. */
  lemma GoodAtZero()
    ensures !Inv(OneSlot(), Gooded(OneSlot(), OneAdded(), SeenAt(1).service, 0))
  {
    GoodInv(OneSlot(), OneAdded(), SeenAt(1).service, 0);
  }

  /** An attempt before time zero leaves a negative time. */
  lemma AttemptBeforeZero()
    ensures !Inv(OneSlot(), Attempted(OneAdded(), SeenAt(1).service, -1))
  {
    AttemptInv(OneSlot(), OneAdded(), SeenAt(1).service, -1);
  }

  // ----- success -----

  /**
    A connection moves the time of its entry to now, unless that was set within twenty
    minutes, and changes nothing else.
   */
  lemma ConnectedKeepsUp(s: State, service: Service, nSeen: int)
    requires Known(s, service)
    ensures var id, r := s.mapAddr[service.ip], ConnectedTo(s, service, nSeen);
            var was, now := s.mapInfo[id].addr.nTime, r.mapInfo[id].addr.nTime;
            && now >= nSeen - 1200 && (now == nSeen || now == was) && (was >= nSeen - 1200 ==> now == was)
            && r == WithInfo(s, id, s.mapInfo[id].(addr := s.mapInfo[id].addr.(nTime := now)))
  {
  }

  /** Fields other than the place and the count. */
  predicate SameRecord(a: Info, b: Info) { b == a.(nRandomPos := b.nRandomPos, nRefCount := b.nRefCount) }

  /** Clearing a position drops its entry exactly if it has no other. */
  lemma ClearedEntry(c: Config, s: State, sl: Slot, other: int)
    requires Core(c, s) && other in s.mapInfo
    ensures var r := ClearedNew(s, sl);
            && (other in r.mapInfo <==> !(sl in s.new_ && s.new_[sl] == other && s.mapInfo[other].nRefCount == 1))
            && (other in r.mapInfo ==> SameRecord(s.mapInfo[other], r.mapInfo[other]))
  {
    if sl in s.new_ && s.new_[sl] == other {
      VacatedCore(c, s, sl);
      var v := Vacated(s, sl);
      if v.mapInfo[other].nRefCount == 0 {
        DeletedIndex(v, other);
        assert other !in v.mapInfo - {other};
      }
    } else {
      ClearedOthers(c, s, sl, other);
    }
  }

  /** Where the entry goes that a success pushes out of its tried position: the new position of its own source. */
  function BackSlot(c: Config, s: State, id: int): Slot
    requires id in s.mapInfo
  {
    NewSlot(c, s.key, s.mapInfo[id].addr.service, s.mapInfo[id].source)
  }

  lemma MovedBackEntry(c: Config, s: State, sl: Slot)
    requires c.Valid() && Core(c, s) && sl in s.tried
    ensures s.tried[sl] in s.mapInfo
    ensures var e, r := s.tried[sl], MovedBack(c, s, sl);
            && e in r.mapInfo && !r.mapInfo[e].fInTried && r.mapInfo[e].nRefCount == 1
            && SameRecord(s.mapInfo[e].(fInTried := false), r.mapInfo[e])
            && BackSlot(c, s, e) in r.new_ && r.new_[BackSlot(c, s, e)] == e
  {
    hide Core, ClearedNew;
    EvictedCore(c, s, sl);
    ClearedUnreferenced(c, Evicted(s, sl), BackSlot(c, s, s.tried[sl]), s.tried[sl]);
  }

  lemma MovedBackOthers(c: Config, s: State, sl: Slot, other: int)
    requires c.Valid() && Core(c, s) && sl in s.tried && other in s.mapInfo && other != s.tried[sl]
    ensures s.tried[sl] in s.mapInfo
    ensures var t, r := BackSlot(c, s, s.tried[sl]), MovedBack(c, s, sl);
            && (other in r.mapInfo <==> !(t in s.new_ && s.new_[t] == other && s.mapInfo[other].nRefCount == 1))
            && (other in r.mapInfo ==> SameRecord(s.mapInfo[other], r.mapInfo[other]))
  {
    hide Core, ClearedNew;
    EvictedCore(c, s, sl);
    ClearedEntry(c, Evicted(s, sl), BackSlot(c, s, s.tried[sl]), other);
  }

  /** The entry a success pushes out altogether: it has only the position to which the evicted entry goes back. */
  ghost predicate PushedOut(c: Config, s: State, service: Service, other: int)
    requires other in s.mapInfo
  {
    var sl := TriedSlot(c, s.key, service);
    && sl in s.tried && s.tried[sl] in s.mapInfo
    && var t := BackSlot(c, s, s.tried[sl]); t in s.new_ && s.new_[t] == other && s.mapInfo[other].nRefCount == 1
  }

  /**
    What a success means for the other entries. The one that had the tried position goes
    back to the new table, to the position of its own source; the one it finds there is
    dropped if it has no other; nothing else is changed or lost.
   */
  lemma GoodMovesOne(c: Config, s: State, service: Service, nTime: int, other: int)
    requires c.Valid() && Inv(c, s) && Known(s, service) && !s.mapInfo[s.mapAddr[service.ip]].fInTried
    requires other in s.mapInfo && other != s.mapAddr[service.ip]
    ensures var r, sl := Gooded(c, s, service, nTime), TriedSlot(c, s.key, service);
            if sl in s.tried && s.tried[sl] == other then
              && other in r.mapInfo && SameRecord(s.mapInfo[other].(fInTried := false), r.mapInfo[other])
              && BackSlot(c, s, other) in r.new_ && r.new_[BackSlot(c, s, other)] == other
            else
              && (other in r.mapInfo <==> !PushedOut(c, s, service, other))
              && (other in r.mapInfo ==> SameRecord(s.mapInfo[other], r.mapInfo[other]))
  {
    hide Core, MovedBack;
    var id, sl := s.mapAddr[service.ip], TriedSlot(c, s.key, service);
    var q := WithInfo(s, id, Succeeded(s.mapInfo[id], nTime));
    GoodReady(c, s, id, nTime);
    UnlistedCore(c, q, id);
    var u := Unlisted(q, id);
    if sl in u.tried {
      MovedBackCore(c, u, sl, id);
      if u.tried[sl] == other { MovedBackEntry(c, u, sl); } else { MovedBackOthers(c, u, sl, other); }
    }
  }

  // ----- failures over time -----

  /** Attempts to connect at a sequence of times. */
  function AttemptedAt(s: State, service: Service, times: seq<int>): State {
    if times == [] then s else Attempted(AttemptedAt(s, service, times[..|times| - 1]), service, times[|times| - 1])
  }

  lemma {:induction false} AttemptsCount(s: State, service: Service, times: seq<int>)
    requires Known(s, service)
    ensures var r, id := AttemptedAt(s, service, times), s.mapAddr[service.ip];
            && Known(r, service) && r.mapAddr == s.mapAddr
            && r.mapInfo[id] == s.mapInfo[id].(
                 nAttempts := s.mapInfo[id].nAttempts + |times|,
                 nLastTry := if times == [] then s.mapInfo[id].nLastTry else times[|times| - 1])
  {
    if times != [] { AttemptsCount(s, service, times[..|times| - 1]); }
  }

  /** Seen within the last thirty days, and not from the future. */
  predicate Recent(addr: Address, nNow: int) { addr.nTime != 0 && nNow - 2592000 <= addr.nTime <= nNow + 600 }

  /** An entry tried within the minute is never given up; any other that was not seen recently always is. */
  lemma UnseenIsTerrible(info: Info, nNow: int)
    ensures info.nLastTry != 0 && info.nLastTry >= nNow - 60 ==> !IsTerrible(info, nNow)
    ensures (info.nLastTry == 0 || info.nLastTry < nNow - 60) && !Recent(info.addr, nNow) ==> IsTerrible(info, nNow)
  {
  }

  /** An address never reached is given up exactly after three attempts, unless the last was within the minute. */
  lemma ThreeAttempts(s: State, service: Service, times: seq<int>, nNow: int)
    requires Known(s, service) && times != []
    requires var info := s.mapInfo[s.mapAddr[service.ip]];
             info.nAttempts == 0 && info.nLastSuccess == 0 && Recent(info.addr, nNow)
    ensures var r := AttemptedAt(s, service, times);
            Known(r, service) &&
            (IsTerrible(r.mapInfo[r.mapAddr[service.ip]], nNow) <==>
               |times| >= 3 && (times[|times| - 1] == 0 || times[|times| - 1] < nNow - 60))
  {
    AttemptsCount(s, service, times);
  }

  /**
    After a success, an address that is still being seen is given up exactly after ten
    failures and a week, unless the last failure was within the minute.
   */
  lemma SuccessLastsAWeek(c: Config, s: State, service: Service, nTime: int, times: seq<int>, nNow: int)
    requires c.Valid() && Inv(c, s) && Known(s, service) && nTime != 0
    requires Recent(s.mapInfo[s.mapAddr[service.ip]].addr, nNow)
    ensures var r := AttemptedAt(Gooded(c, s, service, nTime), service, times);
            Known(r, service) &&
            (IsTerrible(r.mapInfo[r.mapAddr[service.ip]], nNow) <==>
               |times| >= 10 && nNow - nTime > 604800 && (times[|times| - 1] == 0 || times[|times| - 1] < nNow - 60))
  {
    GoodIsTried(c, s, service, nTime);
    GoodEntry(c, s, service, nTime);
    AttemptsCount(Gooded(c, s, service, nTime), service, times);
  }

  // ----- runs -----

  datatype Op =
    | Good(service: Service, nTime: int)
    | Add(addr: Address, source: NetAddr, nTimePenalty: int, nNow: int, nLater: int, random: nat)
    | Attempt(service: Service, nTime: int)
    | Connected(service: Service, nSeen: int)
    | Shuffle(i: nat, j: nat)       // one swap of GetAddr_

  /** Times as a clock gives them: Good_ needs one that is positive, Attempt_ one that is not negative. */
  predicate Positive(op: Op) { (op.Good? ==> op.nTime > 0) && (op.Attempt? ==> op.nTime >= 0) }

  function Step(c: Config, s: State, op: Op): State
    requires c.Valid() && Inv(c, s)
  {
    match op
    case Good(service, nTime) => Gooded(c, s, service, nTime)
    case Add(addr, source, nTimePenalty, nNow, nLater, random) =>
      Added(c, s, addr, source, nTimePenalty, nNow, nLater, random)
    case Attempt(service, nTime) => Attempted(s, service, nTime)
    case Connected(service, nSeen) => ConnectedTo(s, service, nSeen)
    case Shuffle(i, j) => if i < |s.vRandom| && j < |s.vRandom| then Swapped(s, i, j) else s
  }

  lemma SwappedTimes(c: Config, s: State, i: nat, j: nat)
    requires Core(c, s) && Timed(s.mapInfo) && i < |s.vRandom| && j < |s.vRandom|
    ensures var r := Swapped(s, i, j); Timed(r.mapInfo) && r.key == s.key && r.nNew == s.nNew && r.nTried == s.nTried
  {
    SwappedIndex(s, i, j);
    MovedKept(s.mapInfo, s.mapInfo, Swapped(s, i, j).mapInfo);
    KeptTimed(s.mapInfo, Swapped(s, i, j).mapInfo);
  }

  lemma SwappedSets(c: Config, s: State, i: nat, j: nat)
    requires Core(c, s) && i < |s.vRandom| && j < |s.vRandom|
    ensures var m, k := s.mapInfo, Swapped(s, i, j).mapInfo;
            NewIds(k) == NewIds(m) && TriedIds(k) == TriedIds(m) && Unreferenced(k) == Unreferenced(m)
  {
    SwappedCore(c, s, i, j);
    SameSets(s.mapInfo, Swapped(s, i, j).mapInfo);
  }

  lemma SwappedInv(c: Config, s: State, i: nat, j: nat)
    requires Inv(c, s) && i < |s.vRandom| && j < |s.vRandom|
    ensures Inv(c, Swapped(s, i, j))
  {
    hide Core, Unreferenced, NewIds, TriedIds, AllMoved, Timed, SameEntries;
    SwappedCore(c, s, i, j);
    SwappedTimes(c, s, i, j);
    SwappedSets(c, s, i, j);
  }

  lemma StepInv(c: Config, s: State, op: Op)
    requires c.Valid() && Inv(c, s) && Positive(op)
    ensures Inv(c, Step(c, s, op))
  {
    hide Inv, Core, Gooded, Added, Attempted, ConnectedTo, Timed, NewOff, TriedOff, Unreferenced;
    match op
    case Good(service, nTime) => GoodInv(c, s, service, nTime);
    case Add(addr, source, nTimePenalty, nNow, nLater, random) =>
      AddInv(c, s, addr, source, nTimePenalty, nNow, nLater, random);
    case Attempt(service, nTime) => AttemptInv(c, s, service, nTime);
    case Connected(service, nSeen) => ConnectedInv(c, s, service, nSeen);
    case Shuffle(i, j) => if i < |s.vRandom| && j < |s.vRandom| { SwappedInv(c, s, i, j); }
  }

  /** Every state reached from an empty manager is consistent. */
  function Run(c: Config, key: Key, ops: seq<Op>): (s: State)
    requires c.Valid() && key != 0 && forall op | op in ops :: Positive(op)
    ensures Inv(c, s)
  {
    if ops == [] then EmptyInv(c, key); Empty(key)
    else
      var s := Run(c, key, ops[..|ops| - 1]);
      StepInv(c, s, ops[|ops| - 1]);
      Step(c, s, ops[|ops| - 1])
  }

  // ----- what the consistency check counts -----

  lemma SplitIds(m: map<int, Info>)
    ensures |m| == |NewIds(m)| + |TriedIds(m)|
  {
    assert m.Keys == NewIds(m) + TriedIds(m);
    assert NewIds(m) !! TriedIds(m);
    assert |m| == |m.Keys|;
  }

  function Elements(v: seq<int>, n: nat): set<int>
    requires n <= |v|
  {
    set i | 0 <= i < n :: v[i]
  }

  lemma {:induction false} DistinctElements(v: seq<int>, n: nat)
    requires n <= |v| && forall i, j | 0 <= i < j < |v| :: v[i] != v[j]
    ensures |Elements(v, n)| == n
  {
    if n > 0 {
      DistinctElements(v, n - 1);
      assert Elements(v, n) == Elements(v, n - 1) + {v[n - 1]};
    }
  }

  /** A sequence without repetition lists the keys of a map: it has its length. */
  lemma ListsKeys<V>(v: seq<int>, m: map<int, V>)
    requires forall i, j | 0 <= i < j < |v| :: v[i] != v[j]
    requires (forall i | 0 <= i < |v| :: v[i] in m) && (forall id | id in m :: id in v)
    ensures |m| == |v|
  {
    DistinctElements(v, |v|);
    forall id | id in m ensures id in Elements(v, |v|) {
      var i :| 0 <= i < |v| && v[i] == id;
    }
    assert m.Keys == Elements(v, |v|);
    assert |m| == |m.Keys|;
  }

  function IpsOf(m: map<int, Info>, v: seq<int>): (ips: seq<NetAddr>)
    requires forall i | 0 <= i < |v| :: v[i] in m
    ensures |ips| == |v| && forall i | 0 <= i < |v| :: ips[i] == m[v[i]].addr.service.ip
  {
    seq(|v|, i requires 0 <= i < |v| => m[v[i]].addr.service.ip)
  }

  lemma ListedOnce(m: map<int, Info>, v: seq<int>)
    requires Listed(m, v)
    ensures |m| == |v|
  {
    forall i, j | 0 <= i < j < |v| ensures v[i] != v[j] { assert m[v[i]].nRandomPos == i && m[v[j]].nRandomPos == j; }
    forall id | id in m ensures id in v { assert v[m[id].nRandomPos] == id; }
    ListsKeys(v, m);
  }

  lemma IpsOnce(m: map<int, Info>, v: seq<int>, a: map<NetAddr, int>)
    requires Listed(m, v) && Reverse(m, a)
    ensures |a| == |v|
  {
    var ips := IpsOf(m, v);
    forall i | 0 <= i < |v| ensures ips[i] in a && a[ips[i]] == v[i] && m[v[i]].nRandomPos == i {
      var id := v[i];
      assert id in m && m[id].addr.service.ip in a;
    }
    forall ip | ip in a ensures ip in ips {
      var i := m[a[ip]].nRandomPos;
      assert v[i] == a[ip];
      assert ips[i] == ip;
    }
    ListsKeys(ips, a);
  }

  /** vRandom is a bijection with the entries, and the two counters add up to its length. */
  lemma Sizes(c: Config, s: State)
    requires Inv(c, s)
    ensures |s.vRandom| == |s.mapInfo| == |s.mapAddr| == s.nNew + s.nTried
  {
    SplitIds(s.mapInfo);
    ListedOnce(s.mapInfo, s.vRandom);
    IpsOnce(s.mapInfo, s.vRandom, s.mapAddr);
  }
}
