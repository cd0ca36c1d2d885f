/**
  Votes of masternodes for the payee of a block: recorded by hash, tallied by height
  and payee, and cleaned up by height.
 */
module MasternodePayments {
  import opened Util

  type Script = nat
  type Hash = nat

  datatype Winner = Winner(voter: nat, nBlockHeight: int, payee: Script)

  datatype Payee = Payee(scriptPubKey: Script, nVotes: int)

  datatype BlockPayees = BlockPayees(nBlockHeight: int, vecPayments: seq<Payee>)

  datatype State = State(votes: map<Hash, Winner>, blocks: map<int, BlockPayees>)

  const SIGNATURES_REQUIRED: int := 6

  // ----- one block -----

  predicate DistinctPayees(v: seq<Payee>) { forall i, j | 0 <= i < j < |v| :: v[i].scriptPubKey != v[j].scriptPubKey }

  /** The first place of a payee, or the length. */
  function IndexOf(v: seq<Payee>, p: Script): (k: nat)
    ensures k <= |v| && (k < |v| ==> v[k].scriptPubKey == p) && forall j | 0 <= j < k :: v[j].scriptPubKey != p
  {
    if v == [] || v[0].scriptPubKey == p then 0 else 1 + IndexOf(v[1..], p)
  }

  /** More votes for a listed payee, or a new payee at the end. */
  function Bumped(v: seq<Payee>, p: Script, n: int): seq<Payee> {
    var k := IndexOf(v, p);
    if k < |v| then v[k := Payee(p, v[k].nVotes + n)] else v + [Payee(p, n)]
  }

  lemma BumpedDistinct(v: seq<Payee>, p: Script, n: int)
    requires DistinctPayees(v)
    ensures DistinctPayees(Bumped(v, p, n))
  {
  }

  method AddPayee(v: seq<Payee>, payeeIn: Script, nIncrement: int) returns (r: seq<Payee>)
    ensures r == Bumped(v, payeeIn, nIncrement)
  {
    var i := 0;
    while i < |v|
      invariant 0 <= i <= |v| && forall j | 0 <= j < i :: v[j].scriptPubKey != payeeIn
    {
      if v[i].scriptPubKey == payeeIn {
        assert IndexOf(v, payeeIn) == i;
        return v[i := v[i].(nVotes := v[i].nVotes + nIncrement)];
      }
      i := i + 1;
    }
    assert IndexOf(v, payeeIn) == |v|;
    r := v + [Payee(payeeIn, nIncrement)];
  }

  /** A payee with most votes, and the first of those, unless no payee has a non-negative number. */
  method GetPayee(v: seq<Payee>) returns (found: bool, payee: Script)
    ensures found <==> exists i :: 0 <= i < |v| && v[i].nVotes > -1
    ensures found ==> exists k | 0 <= k < |v| ::
              && v[k].scriptPubKey == payee
              && (forall i | 0 <= i < |v| :: v[i].nVotes <= v[k].nVotes)
              && (forall i | 0 <= i < k :: v[i].nVotes < v[k].nVotes)
  {
    var nVotes := -1;
    payee := 0;
    ghost var k := -1;
    for i := 0 to |v|
      invariant nVotes >= -1 && forall j | 0 <= j < i :: v[j].nVotes <= nVotes
      invariant nVotes == -1 ==> k == -1
      invariant nVotes > -1 ==>
                0 <= k < i && v[k] == Payee(payee, nVotes) && forall j | 0 <= j < k :: v[j].nVotes < nVotes
    {
      if v[i].nVotes > nVotes {
        payee, nVotes := v[i].scriptPubKey, v[i].nVotes;
        k := i;
      }
    }
    found := nVotes > -1;
  }

  method HasPayeeWithVotes(v: seq<Payee>, payee: Script, nVotesReq: int) returns (has: bool)
    ensures has <==> exists i :: 0 <= i < |v| && v[i].nVotes >= nVotesReq && v[i].scriptPubKey == payee
  {
    for i := 0 to |v|
      invariant forall j | 0 <= j < i :: !(v[j].nVotes >= nVotesReq && v[j].scriptPubKey == payee)
    {
      if v[i].nVotes >= nVotesReq && v[i].scriptPubKey == payee { return true; }
    }
    has := false;
  }

  datatype Out = Out(scriptPubKey: Script, nValue: int)

  ghost predicate Pays(vout: seq<Out>, payee: Script, required: int) {
    exists i :: 0 <= i < |vout| && vout[i].scriptPubKey == payee && vout[i].nValue >= required
  }

  /** A transaction passes unless enough votes are on some payee and none of those is paid what is required. */
  method IsTransactionValid(v: seq<Payee>, vout: seq<Out>, required: int) returns (valid: bool)
    ensures valid <==>
      || (forall i | 0 <= i < |v| :: v[i].nVotes < 6)
      || (exists i :: 0 <= i < |v| && v[i].nVotes >= 6 && Pays(vout, v[i].scriptPubKey, required))
  {
    var nMaxSignatures := 0;
    for i := 0 to |v|
      invariant nMaxSignatures < SIGNATURES_REQUIRED ==>
                nMaxSignatures == 0 && forall j | 0 <= j < i :: v[j].nVotes < SIGNATURES_REQUIRED
      invariant nMaxSignatures >= SIGNATURES_REQUIRED ==> exists j :: 0 <= j < i && v[j].nVotes >= SIGNATURES_REQUIRED
    {
      if v[i].nVotes >= nMaxSignatures && v[i].nVotes >= SIGNATURES_REQUIRED { nMaxSignatures := v[i].nVotes; }
    }
    if nMaxSignatures < SIGNATURES_REQUIRED { return true; }
    for i := 0 to |v|
      invariant forall j | 0 <= j < i ::
        !(v[j].nVotes >= SIGNATURES_REQUIRED && Pays(vout, v[j].scriptPubKey, required))
    {
      var found := IsPaid(vout, v[i].scriptPubKey, required);
      if v[i].nVotes >= SIGNATURES_REQUIRED {
        if found { return true; }
      }
    }
    valid := false;
  }

  method IsPaid(vout: seq<Out>, payee: Script, required: int) returns (found: bool)
    ensures found <==> Pays(vout, payee, required)
  {
    found := false;
    for i := 0 to |vout|
      invariant found <==> exists j :: 0 <= j < i && vout[j].scriptPubKey == payee && vout[j].nValue >= required
    {
      if payee == vout[i].scriptPubKey {
        if vout[i].nValue >= required { found := true; }
      }
    }
  }

  // ----- the tally -----

  /** The recorded votes for a payee at a height. */
  function For(votes: map<Hash, Winner>, h: int, p: Script): set<Hash> {
    set k | k in votes && votes[k].nBlockHeight == h && votes[k].payee == p
  }

  /** Distinct payees, exactly those voted for at the height, each with the number of votes recorded for it. */
  ghost predicate ExactTally(votes: map<Hash, Winner>, h: int, v: seq<Payee>) {
    && DistinctPayees(v)
    && (forall i | 0 <= i < |v| ::
          v[i].nVotes == |For(votes, h, v[i].scriptPubKey)| && For(votes, h, v[i].scriptPubKey) != {})
    && (forall k | k in votes && votes[k].nBlockHeight == h :: IndexOf(v, votes[k].payee) < |v|)
  }

  ghost predicate Tallied(s: State) {
    && (forall h :: h in s.blocks <==> exists k :: k in s.votes && s.votes[k].nBlockHeight == h)
    && (forall h | h in s.blocks :: s.blocks[h].nBlockHeight == h && ExactTally(s.votes, h, s.blocks[h].vecPayments))
  }

  function Recorded(s: State, hash: Hash, w: Winner): State {
    var v := if w.nBlockHeight in s.blocks then s.blocks[w.nBlockHeight] else BlockPayees(w.nBlockHeight, []);
    State(s.votes[hash := w], s.blocks[w.nBlockHeight := v.(vecPayments := Bumped(v.vecPayments, w.payee, 1))])
  }

  lemma ForMore(votes: map<Hash, Winner>, hash: Hash, w: Winner, h: int, p: Script)
    requires hash !in votes
    ensures For(votes[hash := w], h, p) == For(votes, h, p) + if h == w.nBlockHeight && p == w.payee then {hash} else {}
    ensures |For(votes[hash := w], h, p)| == |For(votes, h, p)| + if h == w.nBlockHeight && p == w.payee then 1 else 0
  {
    var was, more := For(votes, h, p), For(votes[hash := w], h, p);
    forall k ensures k in more <==> k in was || (k == hash && h == w.nBlockHeight && p == w.payee) { }
    assert hash !in was;
    if h == w.nBlockHeight && p == w.payee { assert more == was + {hash}; } else { assert more == was; }
  }

  lemma UnlistedHasNone(votes: map<Hash, Winner>, h: int, v: seq<Payee>, p: Script)
    requires ExactTally(votes, h, v) && IndexOf(v, p) == |v|
    ensures For(votes, h, p) == {}
  {
    forall q | q in votes && votes[q].nBlockHeight == h ensures votes[q].payee != p {
      assert IndexOf(v, votes[q].payee) < |v|;
    }
  }

  /** One more vote at the height of the list. */
  lemma TallyMore(votes: map<Hash, Winner>, hash: Hash, w: Winner, v: seq<Payee>)
    requires hash !in votes && ExactTally(votes, w.nBlockHeight, v)
    ensures ExactTally(votes[hash := w], w.nBlockHeight, Bumped(v, w.payee, 1))
  {
    hide For;
    var h, r, more := w.nBlockHeight, Bumped(v, w.payee, 1), votes[hash := w];
    BumpedDistinct(v, w.payee, 1);
    var k := IndexOf(v, w.payee);
    if k == |v| { UnlistedHasNone(votes, w.nBlockHeight, v, w.payee); }
    forall i | 0 <= i < |r|
      ensures r[i].nVotes == |For(more, h, r[i].scriptPubKey)| && For(more, h, r[i].scriptPubKey) != {}
    {
      ForMore(votes, hash, w, h, r[i].scriptPubKey);
      if i == k { assert hash in For(more, h, w.payee); }
    }
    forall q | q in more && more[q].nBlockHeight == h ensures IndexOf(r, more[q].payee) < |r| {
      if q == hash {
        assert r[k].scriptPubKey == w.payee;
      } else {
        assert r[IndexOf(v, votes[q].payee)].scriptPubKey == votes[q].payee;
      }
    }
  }

  /** A vote at another height. */
  lemma TallyElsewhere(votes: map<Hash, Winner>, hash: Hash, w: Winner, h: int, v: seq<Payee>)
    requires hash !in votes && h != w.nBlockHeight && ExactTally(votes, h, v)
    ensures ExactTally(votes[hash := w], h, v)
  {
    forall i | 0 <= i < |v|
      ensures v[i].nVotes == |For(votes[hash := w], h, v[i].scriptPubKey)| &&
              For(votes[hash := w], h, v[i].scriptPubKey) != {}
    {
      ForMore(votes, hash, w, h, v[i].scriptPubKey);
    }
  }

  lemma RecordedTallied(s: State, hash: Hash, w: Winner)
    requires Tallied(s) && hash !in s.votes
    ensures Tallied(Recorded(s, hash, w))
  {
    var r := Recorded(s, hash, w);
    var v := if w.nBlockHeight in s.blocks then s.blocks[w.nBlockHeight].vecPayments else [];
    if w.nBlockHeight !in s.blocks { assert ExactTally(s.votes, w.nBlockHeight, []); }
    TallyMore(s.votes, hash, w, v);
    forall h | h in r.blocks ensures r.blocks[h].nBlockHeight == h && ExactTally(r.votes, h, r.blocks[h].vecPayments) {
      if h != w.nBlockHeight { TallyElsewhere(s.votes, hash, w, h, s.blocks[h].vecPayments); }
    }
    forall h ensures h in r.blocks <==> exists k :: k in r.votes && r.votes[k].nBlockHeight == h {
      if h == w.nBlockHeight { assert hash in r.votes && r.votes[hash].nBlockHeight == h; }
      if h in s.blocks {
        var k :| k in s.votes && s.votes[k].nBlockHeight == h;
        assert k in r.votes && r.votes[k].nBlockHeight == h;
      }
      if k :| k in r.votes && r.votes[k].nBlockHeight == h {
        if k != hash { assert k in s.votes && s.votes[k].nBlockHeight == h; }
      }
    }
  }

  // ----- cleaning -----

  predicate Expired(h: int, nHeight: int, nLimit: int) { nHeight - h > nLimit }

  /** Expired votes among some hashes. */
  function Gone(votes: map<Hash, Winner>, among: set<Hash>, nHeight: int, nLimit: int): set<Hash> {
    set k | k in among && k in votes && Expired(votes[k].nBlockHeight, nHeight, nLimit)
  }

  /** Without the expired votes among some hashes, and without the blocks those were for. */
  function CleanedAmong(s: State, among: set<Hash>, nHeight: int, nLimit: int): State {
    var gone := Gone(s.votes, among, nHeight, nLimit);
    State(s.votes - gone, s.blocks - set k | k in gone :: s.votes[k].nBlockHeight)
  }

  function Cleaned(s: State, nHeight: int, nLimit: int): State { CleanedAmong(s, s.votes.Keys, nHeight, nLimit) }

  lemma CleanOne(s: State, among: set<Hash>, k: Hash, nHeight: int, nLimit: int)
    requires k in s.votes
    ensures var r := CleanedAmong(s, among, nHeight, nLimit);
            CleanedAmong(s, among + {k}, nHeight, nLimit) ==
            if Expired(s.votes[k].nBlockHeight, nHeight, nLimit)
            then State(r.votes - {k}, r.blocks - {s.votes[k].nBlockHeight}) else r
    ensures k !in among ==> k in CleanedAmong(s, among, nHeight, nLimit).votes &&
                            CleanedAmong(s, among, nHeight, nLimit).votes[k] == s.votes[k]
  {
    var was, more := Gone(s.votes, among, nHeight, nLimit), Gone(s.votes, among + {k}, nHeight, nLimit);
    if Expired(s.votes[k].nBlockHeight, nHeight, nLimit) {
      assert more == was + {k};
      assert (set q | q in more :: s.votes[q].nBlockHeight) ==
             (set q | q in was :: s.votes[q].nBlockHeight) + {s.votes[k].nBlockHeight};
    } else {
      assert more == was;
    }
  }

  lemma CleanNone(s: State, nHeight: int, nLimit: int)
    ensures CleanedAmong(s, {}, nHeight, nLimit) == s
  {
    assert Gone(s.votes, {}, nHeight, nLimit) == {};
  }

  /**
    Because it depends on the height alone whether a vote expires, a block goes with all
    of its votes or keeps them all.
   */
  lemma CleanedTallied(s: State, nHeight: int, nLimit: int)
    requires Tallied(s)
    ensures Tallied(Cleaned(s, nHeight, nLimit))
    ensures forall h :: h in Cleaned(s, nHeight, nLimit).blocks <==> h in s.blocks && !Expired(h, nHeight, nLimit)
  {
    hide ExactTally, Expired;
    var r := Cleaned(s, nHeight, nLimit);
    CleanedBlocks(s, nHeight, nLimit);
    forall h ensures h in r.blocks <==> exists k :: k in r.votes && r.votes[k].nBlockHeight == h {
      if h in r.blocks {
        var k :| k in s.votes && s.votes[k].nBlockHeight == h;
        assert k in r.votes && r.votes[k].nBlockHeight == h;
      }
      if k :| k in r.votes && r.votes[k].nBlockHeight == h { assert k in s.votes && s.votes[k].nBlockHeight == h; }
    }
    forall h | h in r.blocks ensures ExactTally(r.votes, h, r.blocks[h].vecPayments) {
      CleanedElsewhere(s, nHeight, nLimit, h, s.blocks[h].vecPayments);
    }
  }

  lemma CleanedBlocks(s: State, nHeight: int, nLimit: int)
    requires Tallied(s)
    ensures var r := Cleaned(s, nHeight, nLimit);
            && (forall h :: h in r.blocks <==> h in s.blocks && !Expired(h, nHeight, nLimit))
            && (forall h | h in r.blocks :: r.blocks[h] == s.blocks[h])
            && (forall k :: k in r.votes <==> k in s.votes && !Expired(s.votes[k].nBlockHeight, nHeight, nLimit))
            && (forall k | k in r.votes :: r.votes[k] == s.votes[k])
  {
    hide ExactTally, Expired;
    var r := Cleaned(s, nHeight, nLimit);
    forall h ensures h in r.blocks <==> h in s.blocks && !Expired(h, nHeight, nLimit) {
      if h in s.blocks { var k :| k in s.votes && s.votes[k].nBlockHeight == h; }
    }
  }

  /** The votes for a height that is not expired all stay. */
  lemma CleanedElsewhere(s: State, nHeight: int, nLimit: int, h: int, v: seq<Payee>)
    requires ExactTally(s.votes, h, v) && !Expired(h, nHeight, nLimit)
    ensures ExactTally(Cleaned(s, nHeight, nLimit).votes, h, v)
  {
    var r := Cleaned(s, nHeight, nLimit);
    forall p ensures For(r.votes, h, p) == For(s.votes, h, p) { }
  }

  // ----- the object -----

  class CMasternodePayments {
    var mapMasternodePayeeVotes: map<Hash, Winner>
    var mapMasternodeBlocks: map<int, BlockPayees>
    var mapMasternodesLastVote: map<nat, int>

    ghost function Abs(): State
      reads this
    {
      State(mapMasternodePayeeVotes, mapMasternodeBlocks)
    }

    ghost predicate Valid()
      reads this
    {
      Tallied(Abs())
    }

    constructor ()
      ensures Valid() && Abs() == State(map[], map[]) && mapMasternodesLastVote == map[]
    {
      mapMasternodePayeeVotes, mapMasternodeBlocks, mapMasternodesLastVote := map[], map[], map[];
    }

    method Clear()
      modifies `mapMasternodePayeeVotes, `mapMasternodeBlocks
      ensures Valid() && Abs() == State(map[], map[])
    {
      mapMasternodeBlocks := map[];
      mapMasternodePayeeVotes := map[];
    }

    /** The hash of the winner is given; known says whether the block a hundred below its height is. */
    method AddWinningMasternode(winnerIn: Winner, hash: Hash, known: bool) returns (added: bool)
      requires Valid()
      modifies `mapMasternodePayeeVotes, `mapMasternodeBlocks
      ensures Valid()
      ensures added <==> known && hash !in old(mapMasternodePayeeVotes)
      ensures Abs() == if added then Recorded(old(Abs()), hash, winnerIn) else old(Abs())
    {
      if !known { return false; }
      if hash in mapMasternodePayeeVotes { return false; }
      hide Tallied, Bumped, IndexOf;
      ghost var s := Abs();
      RecordedTallied(s, hash, winnerIn);
      mapMasternodePayeeVotes := mapMasternodePayeeVotes[hash := winnerIn];
      if winnerIn.nBlockHeight !in mapMasternodeBlocks {
        mapMasternodeBlocks := mapMasternodeBlocks[winnerIn.nBlockHeight := BlockPayees(winnerIn.nBlockHeight, [])];
      }
      var block := mapMasternodeBlocks[winnerIn.nBlockHeight];
      var v := AddPayee(block.vecPayments, winnerIn.payee, 1);
      mapMasternodeBlocks := mapMasternodeBlocks[winnerIn.nBlockHeight := block.(vecPayments := v)];
      assert mapMasternodeBlocks == s.blocks[winnerIn.nBlockHeight := block.(vecPayments := v)];
      added := true;
    }

    /** Nothing without a tip; masternodes is the number of known ones. */
    method CleanPaymentList(tip: Option<int>, masternodes: nat)
      requires Valid()
      modifies `mapMasternodePayeeVotes, `mapMasternodeBlocks
      ensures Valid()
      ensures Abs() == match tip
        case None => old(Abs())
        case Some(nHeight) => Cleaned(old(Abs()), nHeight, Limit(masternodes))
      ensures tip.Some? ==> forall k :: k in mapMasternodePayeeVotes <==>
        && k in old(mapMasternodePayeeVotes)
        && var age := tip.value - old(mapMasternodePayeeVotes)[k].nBlockHeight;
           age <= 1000 || 4 * age <= 5 * masternodes
      ensures tip.Some? ==> forall h :: h in mapMasternodeBlocks <==>
        h in old(mapMasternodeBlocks) && (tip.value - h <= 1000 || 4 * (tip.value - h) <= 5 * masternodes)
      ensures forall k | k in mapMasternodePayeeVotes ::
        k in old(mapMasternodePayeeVotes) && mapMasternodePayeeVotes[k] == old(mapMasternodePayeeVotes)[k]
      ensures forall h | h in mapMasternodeBlocks ::
        h in old(mapMasternodeBlocks) && mapMasternodeBlocks[h] == old(mapMasternodeBlocks)[h]
    {
      if tip.None? { return; }
      var nHeight := tip.value;
      var nLimit := Limit(masternodes);
      hide Tallied, CleanedAmong, Expired;
      ghost var s := Abs();
      CleanedTallied(s, nHeight, nLimit);
      CleanedBlocks(s, nHeight, nLimit);
      forall h ensures Expired(h, nHeight, nLimit) <==> !(nHeight - h <= 1000 || 4 * (nHeight - h) <= 5 * masternodes) {
        ExpiredMeans(h, nHeight, masternodes);
      }
      CleanNone(s, nHeight, nLimit);
      var left := mapMasternodePayeeVotes.Keys;
      ghost var done: set<Hash> := {};
      while left != {}
        invariant left + done == s.votes.Keys && left !! done
        invariant Abs() == CleanedAmong(s, done, nHeight, nLimit)
        decreases left
      {
        var it :| it in left;
        CleanOne(s, done, it, nHeight, nLimit);
        var winner := mapMasternodePayeeVotes[it];
        if Expired(winner.nBlockHeight, nHeight, nLimit) {
          mapMasternodePayeeVotes := mapMasternodePayeeVotes - {it};
          mapMasternodeBlocks := mapMasternodeBlocks - {winner.nBlockHeight};
        }
        left := left - {it};
        done := done + {it};
      }
      assert done == s.votes.Keys;
    }

    /** A payee with most recorded votes at the height; none only if no vote for the height is recorded. */
    method GetBlockPayee(nBlockHeight: int) returns (found: bool, payee: Script)
      requires Valid()
      ensures found <==>
              exists k :: k in mapMasternodePayeeVotes && mapMasternodePayeeVotes[k].nBlockHeight == nBlockHeight
      ensures found ==> For(mapMasternodePayeeVotes, nBlockHeight, payee) != {}
      ensures found ==> forall q :: |For(mapMasternodePayeeVotes, nBlockHeight, q)| <=
                                    |For(mapMasternodePayeeVotes, nBlockHeight, payee)|
    {
      if nBlockHeight !in mapMasternodeBlocks { return false, 0; }
      found, payee := GetPayee(mapMasternodeBlocks[nBlockHeight].vecPayments);
      MostVotes(mapMasternodePayeeVotes, nBlockHeight, mapMasternodeBlocks[nBlockHeight].vecPayments);
    }

    method CanVote(outpoint: nat, nBlockHeight: int) returns (can: bool)
      modifies `mapMasternodesLastVote
      ensures can <==>
              !(outpoint in old(mapMasternodesLastVote) && old(mapMasternodesLastVote)[outpoint] == nBlockHeight)
      ensures mapMasternodesLastVote == old(mapMasternodesLastVote)[outpoint := nBlockHeight]
    {
      if outpoint in mapMasternodesLastVote {
        if mapMasternodesLastVote[outpoint] == nBlockHeight {
          assert mapMasternodesLastVote == mapMasternodesLastVote[outpoint := nBlockHeight];
          return false;
        }
      }
      mapMasternodesLastVote := mapMasternodesLastVote[outpoint := nBlockHeight];
      can := true;
    }
  }

  /** Five quarters of the number of masternodes, but a thousand at least. */
  function Limit(masternodes: nat): int { if masternodes * 5 / 4 < 1000 then 1000 else masternodes * 5 / 4 }

  /** What is at most a thousand blocks old stays, and what is at most five quarters of the masternodes old. */
  lemma ExpiredMeans(h: int, nHeight: int, masternodes: nat)
    ensures Expired(h, nHeight, Limit(masternodes)) <==>
            !(nHeight - h <= 1000 || 4 * (nHeight - h) <= 5 * masternodes)
  {
  }

  /** In an exact tally no payee has more votes than the most listed, and a list is not empty. */
  lemma MostVotes(votes: map<Hash, Winner>, h: int, v: seq<Payee>)
    requires ExactTally(votes, h, v)
    ensures v == [] ==> forall k | k in votes :: votes[k].nBlockHeight != h
    ensures forall i | 0 <= i < |v| :: v[i].nVotes > 0
    ensures forall q :: |For(votes, h, q)| == if IndexOf(v, q) < |v| then v[IndexOf(v, q)].nVotes else 0
  {
    forall q ensures |For(votes, h, q)| == if IndexOf(v, q) < |v| then v[IndexOf(v, q)].nVotes else 0 {
      if IndexOf(v, q) == |v| {
        forall k | k in votes && votes[k].nBlockHeight == h ensures votes[k].payee != q {
          assert IndexOf(v, votes[k].payee) < |v|;
        }
        assert For(votes, h, q) == {};
      }
    }
  }

  // ----- runs -----

  datatype Op = Add(hash: Hash, winner: Winner) | Clean(nHeight: int, nLimit: int) | ClearAll

  function Step(s: State, op: Op): State {
    match op
    case Add(hash, winner) => if hash in s.votes then s else Recorded(s, hash, winner)
    case Clean(nHeight, nLimit) => Cleaned(s, nHeight, nLimit)
    case ClearAll => State(map[], map[])
  }

  /** After every run of additions, cleanings and clearings the tally is exact. */
  function Run(ops: seq<Op>): (s: State)
    ensures Tallied(s)
  {
    if ops == [] then State(map[], map[])
    else
      var s := Run(ops[..|ops| - 1]);
      StepTallied(s, ops[|ops| - 1]);
      Step(s, ops[|ops| - 1])
  }

  lemma StepTallied(s: State, op: Op)
    requires Tallied(s)
    ensures Tallied(Step(s, op))
  {
    match op
    case Add(hash, winner) => if hash !in s.votes { RecordedTallied(s, hash, winner); }
    case Clean(nHeight, nLimit) => CleanedTallied(s, nHeight, nLimit);
    case ClearAll =>
  }

  // ----- votes of one masternode -----

  /** A call of CanVote. */
  datatype Request = Request(outpoint: nat, nBlockHeight: int)

  /** The heights remembered after the requests. */
  function LastVotes(reqs: seq<Request>): map<nat, int> {
    if reqs == [] then map[]
    else
      var last := reqs[|reqs| - 1];
      LastVotes(reqs[..|reqs| - 1])[last.outpoint := last.nBlockHeight]
  }

  predicate Granted(reqs: seq<Request>, i: nat)
    requires i < |reqs|
  {
    var last := LastVotes(reqs[..i]);
    !(reqs[i].outpoint in last && last[reqs[i].outpoint] == reqs[i].nBlockHeight)
  }

  /** What is remembered is the height of the last request of the masternode. */
  lemma {:induction false} LastVoteIs(reqs: seq<Request>, i: nat, outpoint: nat)
    requires i <= |reqs|
    ensures var last := LastVotes(reqs[..i]);
            outpoint in last <==> exists k | 0 <= k < i :: reqs[k].outpoint == outpoint
    ensures var last := LastVotes(reqs[..i]);
            outpoint in last ==> exists k | 0 <= k < i ::
              reqs[k] == Request(outpoint, last[outpoint]) && forall q | k < q < i :: reqs[q].outpoint != outpoint
  {
    if i > 0 {
      assert reqs[..i][..i - 1] == reqs[..i - 1];
      LastVoteIs(reqs, i - 1, outpoint);
    }
  }

  lemma {:induction false} FirstRequest(reqs: seq<Request>, lo: nat, j: nat) returns (i: nat)
    requires lo <= j < |reqs|
    ensures lo <= i <= j && reqs[i] == reqs[j] && forall k | lo <= k < i :: reqs[k] != reqs[j]
    decreases j - lo
  {
    if reqs[lo] == reqs[j] { i := lo; } else { i := FirstRequest(reqs, lo + 1, j); }
  }

  /** No request of the masternode between the two is for another height. */
  ghost predicate InARow(reqs: seq<Request>, i: nat, j: nat)
    requires i < j < |reqs|
  {
    forall k | i < k < j && reqs[k].outpoint == reqs[j].outpoint :: reqs[k] == reqs[j]
  }

  /** Only one vote per masternode and height is granted, exactly if all requests for one come in a row. */
  lemma OneVoteEach(reqs: seq<Request>)
    ensures (forall i: nat, j: nat | i < j < |reqs| && Granted(reqs, i) && Granted(reqs, j) :: reqs[i] != reqs[j]) <==>
            (forall i: nat, j: nat | i < j < |reqs| && reqs[i] == reqs[j] :: InARow(reqs, i, j))
  {
    hide Granted, LastVotes;
    forall i: nat, j: nat | i < j < |reqs| && reqs[i] == reqs[j] && InARow(reqs, i, j) ensures !Granted(reqs, j) {
      NotAgain(reqs, i, j);
    }
    forall i: nat, j: nat | i < j < |reqs| && reqs[i] == reqs[j] && !InARow(reqs, i, j)
      ensures exists a: nat, b: nat :: a < b < |reqs| && Granted(reqs, a) && Granted(reqs, b) && reqs[a] == reqs[b]
    {
      var k :| i < k < j && reqs[k].outpoint == reqs[j].outpoint && reqs[k] != reqs[j];
      var a := FirstRequest(reqs, 0, i);
      var b := FirstRequest(reqs, k, j);
      GrantedFirst(reqs, 0, a);
      GrantedFirst(reqs, k, b);
    }
  }

  lemma NotAgain(reqs: seq<Request>, i: nat, j: nat)
    requires i < j < |reqs| && reqs[i] == reqs[j] && InARow(reqs, i, j)
    ensures !Granted(reqs, j)
  {
    LastVoteIs(reqs, j, reqs[j].outpoint);
  }

  /** The first request for a height after one for another height, or at all, is granted. */
  lemma GrantedFirst(reqs: seq<Request>, k: nat, j: nat)
    requires k <= j < |reqs| && forall q | k <= q < j :: reqs[q] != reqs[j]
    requires k == 0 || (k < j && reqs[k].outpoint == reqs[j].outpoint)
    ensures Granted(reqs, j)
  {
    LastVoteIs(reqs, j, reqs[j].outpoint);
  }

  /** A masternode asks for heights 5, 6 and 5, and may vote three times. */
  lemma VotesTwice(outpoint: nat)
    ensures var reqs := [Request(outpoint, 5), Request(outpoint, 6), Request(outpoint, 5)];
            Granted(reqs, 0) && Granted(reqs, 1) && Granted(reqs, 2)
  {
    var reqs := [Request(outpoint, 5), Request(outpoint, 6), Request(outpoint, 5)];
    GrantedFirst(reqs, 0, 0);
    GrantedFirst(reqs, 0, 1);
    GrantedFirst(reqs, 1, 2);
  }
}
