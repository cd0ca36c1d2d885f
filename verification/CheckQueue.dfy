/**
  The check queue: one master and any number of workers around one mutex and
  two condition variables. A step is what one thread does between acquiring
  the mutex and releasing it or waiting, or the evaluation of its own batch.
  Waiting threads may also wake without having been notified.
 */
module CheckQueue {
  import opened Util

  datatype Check = Check(id: nat, ok: bool)

  /** Where a thread is in Loop. Thread 0 is the master. */
  datatype Phase =
    | Outside                                    // not in Loop
    | Waiting(isNotified: bool)                  // on its condition variable
    | Working(batch: seq<Check>, fOk: bool)      // holds a batch it has not evaluated
    | Worked(batch: seq<Check>, fOk: bool)       // evaluated, about to report

  /** added and finished are history: the checks of the current round, and those reported. */
  datatype State = State(
    threads: seq<Phase>,
    queue: seq<Check>,
    nIdle: int,
    nTotal: int,
    fAllOk: bool,
    nTodo: int,
    fQuit: bool,
    nBatchSize: nat,
    added: multiset<Check>,
    finished: multiset<Check>)

  predicate Init(s: State) {
    && |s.threads| > 0 && (forall t | 0 <= t < |s.threads| :: s.threads[t] == Outside)
    && s.queue == [] && s.nIdle == 0 && s.nTotal == 0 && s.fAllOk && s.nTodo == 0 && !s.fQuit
    && s.added == multiset{} && s.finished == multiset{}
  }

  // ----- steps -----

  datatype Step =
    | Enter(t: nat)                              // calls Loop
    | Evaluate(t: nat)                           // runs the checks of its batch
    | Report(t: nat)                             // locks the mutex again after its batch
    | Wake(t: nat)                               // returns from wait
    | Add(checks: seq<Check>, woken: nat)        // master adds checks; woken: the worker notify_one picks

  /** How many checks to take. */
  function BatchSize(s: State): int
    requires s.nTotal + s.nIdle + 1 > 0
  {
    Max(1, Min(s.nBatchSize, Share(|s.queue|, s.nTotal + s.nIdle + 1)))
  }

  /** n / k by repeated subtraction. */
  function Share(n: nat, k: int): (r: nat)
    requires k > 0
    ensures r <= n
  {
    if n < k then 0 else 1 + Share(n - k, k)
  }

  lemma {:induction false} ShareIsQuotient(n: nat, k: int)
    requires k > 0
    ensures Share(n, k) == n / k
  {
    if n >= k {
      ShareIsQuotient(n - k, k);
      assert n - k == k * ((n - k) / k) + (n - k) % k;
      assert k * ((n - k) / k + 1) == k * ((n - k) / k) + k;
      DivIs(n, k, (n - k) / k + 1);
    }
  }

  function Reversed(q: seq<Check>): (r: seq<Check>)
    ensures |r| == |q|
  {
    if q == [] then [] else [q[|q| - 1]] + Reversed(q[..|q| - 1])
  }

  /** Evaluation stops at the first failure. */
  function RunBatch(fOk: bool, batch: seq<Check>): bool {
    if batch == [] then fOk else RunBatch(fOk && batch[0].ok, batch[1..])
  }

  function NotifyAll(ts: seq<Phase>): (r: seq<Phase>)
    ensures |r| == |ts|
  {
    seq(|ts|, t requires 0 <= t < |ts| => if t > 0 && ts[t].Waiting? then Waiting(true) else ts[t])
  }

  function Notify(ts: seq<Phase>, t: nat): (r: seq<Phase>)
    ensures |r| == |ts|
  {
    if t < |ts| && ts[t].Waiting? then ts[t := Waiting(true)] else ts
  }

  /**
    From the head of the inner loop, under the mutex: return, wait, or take a batch.
    The result is what a return yields.
   */
  function AtHead(s: State, t: nat): (State, Option<bool>)
    requires t < |s.threads| && s.nTotal + s.nIdle + 1 > 0
  {
    if s.queue == [] then
      if (t == 0 || s.fQuit) && s.nTodo == 0 then
        var left := s.(threads := s.threads[t := Outside], nTotal := s.nTotal - 1);
        (if t == 0 then left.(fAllOk := true, added := multiset{}, finished := multiset{}) else left, Some(s.fAllOk))
      else
        (s.(threads := s.threads[t := Waiting(false)], nIdle := s.nIdle + 1), None)
    else
      var n := BatchSize(s);
      var rest := if n <= |s.queue| then |s.queue| - n else 0;
      (s.(threads := s.threads[t := Working(Reversed(s.queue[rest..]), s.fAllOk)], queue := s.queue[..rest]), None)
  }

  /** Whom Add notifies. */
  function Notified(ts: seq<Phase>, n: nat, woken: nat): (r: seq<Phase>)
    ensures |r| == |ts|
  {
    if n == 1 then Notify(ts, woken) else if n > 1 then NotifyAll(ts) else ts
  }

  /** The state Report hands to the head of the loop. */
  function Reported(s: State, t: nat): State
    requires t < |s.threads| && s.threads[t].Worked?
  {
    var p := s.threads[t];
    var nTodo := s.nTodo - |p.batch|;
    var threads := if nTodo == 0 && t != 0 then Notify(s.threads, 0) else s.threads;
    s.(threads := threads, fAllOk := s.fAllOk && p.fOk, nTodo := nTodo, finished := s.finished + multiset(p.batch))
  }

  lemma NotifyCounts(s: State, t: nat)
    requires Counts(s)
    ensures Counts(s.(threads := Notify(s.threads, t)))
  {
    NotifySame(s.threads, t);
  }

  predicate Enabled(s: State, step: Step) {
    match step
    case Enter(t) => t < |s.threads| && s.threads[t].Outside? && s.nTotal + s.nIdle + 2 > 0
    case Evaluate(t) => t < |s.threads| && s.threads[t].Working?
    case Report(t) => t < |s.threads| && s.threads[t].Worked? && s.nTotal + s.nIdle + 1 > 0
    case Wake(t) => t < |s.threads| && s.threads[t].Waiting? && s.nTotal + s.nIdle > 0
    case Add(checks, woken) =>
      // notify_one picks a worker that waits un-notified, if there is one
      && |s.threads| > 0 && s.threads[0].Outside?
      && (|checks| == 1 ==> 0 < woken && ((exists t | 0 < t < |s.threads| :: s.threads[t] == Waiting(false)) ==>
                                           woken < |s.threads| && s.threads[woken] == Waiting(false)))
  }

  function Next(s: State, step: Step): (State, Option<bool>)
    requires Enabled(s, step)
  {
    match step
    case Enter(t) => AtHead(s.(nTotal := s.nTotal + 1), t)
    case Evaluate(t) =>
      var p := s.threads[t];
      (s.(threads := s.threads[t := Worked(p.batch, RunBatch(p.fOk, p.batch))]), None)
    case Report(t) => AtHead(Reported(s, t), t)
    case Wake(t) => AtHead(s.(nIdle := s.nIdle - 1), t)
    case Add(checks, woken) =>
      (s.(threads := Notified(s.threads, |checks|, woken), queue := s.queue + checks,
          nTodo := s.nTodo + |checks|, added := s.added + multiset(checks)), None)
  }

  // ----- counting over the threads -----

  function InLoop(p: Phase): nat { if p.Outside? then 0 else 1 }
  function Idle(p: Phase): nat { if p.Waiting? then 1 else 0 }
  function Held(p: Phase): nat { if p.Working? || p.Worked? then |p.batch| else 0 }
  function Batch(p: Phase): multiset<Check> { if p.Working? || p.Worked? then multiset(p.batch) else multiset{} }

  function Sum(ts: seq<Phase>, f: Phase -> nat): nat {
    if ts == [] then 0 else Sum(ts[..|ts| - 1], f) + f(ts[|ts| - 1])
  }

  function InFlight(ts: seq<Phase>): multiset<Check> {
    if ts == [] then multiset{} else InFlight(ts[..|ts| - 1]) + Batch(ts[|ts| - 1])
  }

  lemma {:induction false} SumUpdate(ts: seq<Phase>, f: Phase -> nat, t: nat, p: Phase)
    requires t < |ts|
    ensures Sum(ts[t := p], f) == Sum(ts, f) - f(ts[t]) + f(p)
    ensures Sum(ts, f) >= f(ts[t])
  {
    var n := |ts| - 1;
    if t < n {
      SumUpdate(ts[..n], f, t, p);
      assert ts[t := p][..n] == ts[..n][t := p];
    } else {
      assert ts[t := p][..n] == ts[..n];
    }
  }

  lemma {:induction false} InFlightUpdate(ts: seq<Phase>, t: nat, p: Phase)
    requires t < |ts|
    ensures Batch(ts[t]) <= InFlight(ts) && InFlight(ts[t := p]) == InFlight(ts) - Batch(ts[t]) + Batch(p)
  {
    hide Batch;
    var n := |ts| - 1;
    if t < n {
      InFlightUpdate(ts[..n], t, p);
      assert ts[t := p][..n] == ts[..n][t := p] && ts[t := p][n] == ts[n];
      Exchange(InFlight(ts[..n]), Batch(ts[n]), Batch(ts[t]), Batch(p));
    } else {
      assert ts[t := p][..n] == ts[..n];
      Exchange(InFlight(ts[..n]), Batch(ts[n]), Batch(ts[n]), Batch(p));
    }
  }

  /** One part of a whole gives way to another. */
  lemma Exchange(a: multiset<Check>, b: multiset<Check>, x: multiset<Check>, y: multiset<Check>)
    ensures x <= a ==> x <= a + b && (a - x + y) + b == (a + b) - x + y
    ensures x == b ==> x <= a + b && a + y == (a + b) - x + y
  {
  }

  /** Threads that differ only in what a sum does not see have the same sum. */
  lemma {:induction false} SumSame(a: seq<Phase>, b: seq<Phase>, f: Phase -> nat)
    requires |a| == |b| && forall t | 0 <= t < |a| :: f(a[t]) == f(b[t])
    ensures Sum(a, f) == Sum(b, f)
  {
    if a != [] { SumSame(a[..|a| - 1], b[..|b| - 1], f); }
  }

  lemma {:induction false} InFlightSame(a: seq<Phase>, b: seq<Phase>)
    requires |a| == |b| && forall t | 0 <= t < |a| :: Batch(a[t]) == Batch(b[t])
    ensures InFlight(a) == InFlight(b)
  {
    if a != [] { InFlightSame(a[..|a| - 1], b[..|b| - 1]); }
  }

  lemma {:induction false} InFlightSize(ts: seq<Phase>)
    ensures |InFlight(ts)| == Sum(ts, Held)
  {
    if ts != [] { InFlightSize(ts[..|ts| - 1]); }
  }

  lemma {:induction false} ReversedMultiset(q: seq<Check>)
    ensures multiset(Reversed(q)) == multiset(q)
  {
    if q != [] {
      ReversedMultiset(q[..|q| - 1]);
      assert q == q[..|q| - 1] + [q[|q| - 1]];
    }
  }

  // ----- the invariant -----

  ghost predicate AllOk(m: multiset<Check>) { forall c | c in m :: c.ok }

  /** A result so far is never better than the checks behind it, and bad only if some check of the round is. */
  ghost predicate Honest(fOk: bool, behind: multiset<Check>, added: multiset<Check>) {
    (fOk ==> AllOk(behind)) && (!fOk ==> !AllOk(added))
  }

  ghost predicate PhaseOk(p: Phase, added: multiset<Check>) {
    match p
    case Working(batch, fOk) => batch != [] && Honest(fOk, multiset{}, added)
    case Worked(batch, fOk) => batch != [] && Honest(fOk, multiset(batch), added)
    case _ => true
  }

  ghost predicate Counts(s: State) {
    && |s.threads| > 0
    && s.nTotal == Sum(s.threads, InLoop)
    && s.nIdle == Sum(s.threads, Idle)
    && s.nTodo == |s.queue| + Sum(s.threads, Held)
    && s.added == multiset(s.queue) + InFlight(s.threads) + s.finished
    && Honest(s.fAllOk, s.finished, s.added)
  }

  ghost predicate MasterOk(s: State) {
    |s.threads| > 0 && (s.threads[0].Waiting? ==> s.queue == []) && (s.threads[0] == Waiting(false) ==> s.nTodo > 0)
  }

  ghost predicate Inv(s: State) {
    && Counts(s) && MasterOk(s)
    && forall t | 0 <= t < |s.threads| :: PhaseOk(s.threads[t], s.added)
  }

  /** A thread that holds the mutex: in Loop, neither idle nor with a batch. */
  const HOLDING := Worked([], true)

  /** The invariant while thread t holds the mutex. */
  ghost predicate InvAt(s: State, t: nat) {
    && Counts(s) && MasterOk(s) && t < |s.threads| && s.threads[t] == HOLDING
    && forall i | 0 <= i < |s.threads| && i != t :: PhaseOk(s.threads[i], s.added)
  }

  /** What AtHead does does not depend on the phase the thread had before. */
  lemma AtHeadOverwrites(s: State, t: nat)
    requires t < |s.threads| && s.nTotal + s.nIdle + 1 > 0
    ensures AtHead(s, t) == AtHead(s.(threads := s.threads[t := HOLDING]), t)
  {
    UpdateTwice(s.threads, t, HOLDING, Outside);
    UpdateTwice(s.threads, t, HOLDING, Waiting(false));
    if s.queue != [] && BatchSize(s) <= |s.queue| {
      UpdateTwice(s.threads, t, HOLDING, Working(Reversed(s.queue[|s.queue| - BatchSize(s)..]), s.fAllOk));
    } else {
      UpdateTwice(s.threads, t, HOLDING, Working(Reversed(s.queue[0..]), s.fAllOk));
    }
  }

  lemma UpdateTwice(ts: seq<Phase>, t: nat, a: Phase, b: Phase)
    requires t < |ts|
    ensures ts[t := a][t := b] == ts[t := b]
  {
  }

  /** The size of a batch is between one and what is queued. */
  lemma BatchSizeFits(s: State)
    requires s.nTotal >= 0 && s.nIdle >= 0 && s.queue != []
    ensures 1 <= BatchSize(s) <= |s.queue|
  {
  }

  lemma BatchSizeIs(s: State)
    requires s.nTotal + s.nIdle + 1 > 0
    ensures BatchSize(s) == Max(1, Min(s.nBatchSize, Share(|s.queue|, s.nTotal + s.nIdle + 1)))
  {
  }

  lemma HeadTakes(s: State, t: nat)
    requires t < |s.threads| && s.nTotal >= 0 && s.nIdle >= 0 && s.queue != []
    ensures var (r, result), n := AtHead(s, t), BatchSize(s);
            && 1 <= n <= |s.queue| && result == None && |r.threads| == |s.threads|
            && r.threads[t] == Working(Reversed(s.queue[|s.queue| - n..]), s.fAllOk)
            && r.queue == s.queue[..|s.queue| - n]
  {
    hide Reversed, Share, BatchSize;
    BatchSizeFits(s);
  }

  /**
    What a thread takes from a queue that is not empty: its last checks, the last first. They are
    as many as an even share for all threads and one more allows, at most the batch size, but at least one.
   */
  lemma TakesBatch(s: State, t: nat)
    requires t < |s.threads| && s.nTotal >= 0 && s.nIdle >= 0 && s.queue != []
    ensures var (r, result) := AtHead(s, t);
            && result == None && r.threads[t].Working?
            && var batch, threads := r.threads[t].batch, s.nTotal + s.nIdle + 1;
               && 0 < |batch| <= |s.queue| && r.queue == s.queue[..|s.queue| - |batch|]
               && (forall i | 0 <= i < |batch| :: batch[i] == s.queue[|s.queue| - 1 - i])
               && (|batch| == 1 || (|batch| <= s.nBatchSize && |batch| * threads <= |s.queue|))
               && (|batch| >= s.nBatchSize || (|batch| + 1) * threads > |s.queue|)
  {
    hide AtHead, Reversed, Share, BatchSize;
    var n, k := BatchSize(s), s.nTotal + s.nIdle + 1;
    BatchSizeFits(s);
    HeadTakes(s, t);
    BatchSizeIs(s);
    ShareIsQuotient(|s.queue|, k);
    ShareBounds(|s.queue|, k, n);
    var taken := s.queue[|s.queue| - n..];
    forall i | 0 <= i < n ensures Reversed(taken)[i] == taken[n - 1 - i] { ReversedAt(taken, i); }
  }

  lemma ShareBounds(q: nat, k: int, n: nat)
    requires k > 0
    ensures n <= q / k ==> n * k <= q
    ensures n >= q / k ==> (n + 1) * k > q
  {
    assert q == q / k * k + q % k;
    if n <= q / k { MulMono(n, q / k, k); }
    if n >= q / k { MulMono(q / k + 1, n + 1, k); }
  }

  lemma {:induction false} ReversedAt(q: seq<Check>, i: nat)
    requires i < |q|
    ensures Reversed(q)[i] == q[|q| - 1 - i]
  {
    if i > 0 { ReversedAt(q[..|q| - 1], i - 1); }
  }

  lemma CountsUpdate(ts: seq<Phase>, t: nat, p: Phase)
    requires t < |ts|
    ensures Sum(ts[t := p], InLoop) == Sum(ts, InLoop) - InLoop(ts[t]) + InLoop(p)
    ensures Sum(ts[t := p], Idle) == Sum(ts, Idle) - Idle(ts[t]) + Idle(p)
    ensures Sum(ts[t := p], Held) == Sum(ts, Held) - Held(ts[t]) + Held(p)
    ensures Batch(ts[t]) <= InFlight(ts) && InFlight(ts[t := p]) == InFlight(ts) - Batch(ts[t]) + Batch(p)
  {
    SumUpdate(ts, InLoop, t, p);
    SumUpdate(ts, Idle, t, p);
    SumUpdate(ts, Held, t, p);
    InFlightUpdate(ts, t, p);
  }

  /** With nothing left to do, no thread holds a batch and every check of the round is reported. */
  lemma NothingTodo(s: State)
    requires Counts(s) && s.nTodo == 0
    ensures s.queue == [] && s.added == s.finished && InFlight(s.threads) == multiset{}
    ensures forall t | 0 <= t < |s.threads| :: Held(s.threads[t]) == 0
  {
    InFlightSize(s.threads);
    forall t | 0 <= t < |s.threads| ensures Held(s.threads[t]) == 0 { SumUpdate(s.threads, Held, t, Outside); }
  }

  lemma ReturnKeeps(s: State, t: nat)
    requires InvAt(s, t) && s.queue == [] && (t == 0 || s.fQuit) && s.nTodo == 0
    ensures Inv(AtHead(s, t).0)
    ensures AtHead(s, t).1 == Some(s.fAllOk) && (s.fAllOk <==> AllOk(s.added))
  {
    hide Batch, Honest, PhaseOk;
    NothingTodo(s);
    CountsUpdate(s.threads, t, Outside);
    assert Batch(Outside) == Batch(HOLDING) == multiset{} by { NoBatch(); }
    assert s.queue == [] && multiset(s.queue) == multiset{};
    ReturnHonest(s);
    forall i, added: multiset<Check> | 0 <= i < |s.threads| && i != t ensures PhaseOk(s.threads[i], added) {
      EmptyHanded(s.threads[i], s.added, added);
    }
    EmptyHanded(Outside, s.added, multiset{});
    EmptyHanded(Outside, s.added, s.added);
  }

  lemma NoBatch()
    ensures Batch(Outside) == Batch(HOLDING) == multiset{} && PhaseOk(Outside, multiset{})
  {
  }

  lemma ReturnHonest(s: State)
    requires Honest(s.fAllOk, s.finished, s.added) && s.added == s.finished
    ensures (s.fAllOk <==> AllOk(s.added)) && Honest(true, multiset{}, multiset{})
  {
  }

  /** The phase of a thread without a batch is in order in any round. */
  lemma EmptyHanded(p: Phase, before: multiset<Check>, after: multiset<Check>)
    requires Held(p) == 0 && (p.Working? || p.Worked? ==> PhaseOk(p, before))
    ensures PhaseOk(p, after)
  {
  }

  lemma WaitKeeps(s: State, t: nat)
    requires InvAt(s, t) && s.queue == [] && !((t == 0 || s.fQuit) && s.nTodo == 0)
    ensures Inv(AtHead(s, t).0)
  {
    CountsUpdate(s.threads, t, Waiting(false));
    var r := AtHead(s, t).0;
    forall i | 0 <= i < |r.threads| ensures PhaseOk(r.threads[i], r.added) {
      if i != t { assert PhaseOk(s.threads[i], s.added); }
    }
  }

  lemma TakeCounts(s: State, t: nat, rest: nat, batch: seq<Check>)
    requires Counts(s) && t < |s.threads| && s.threads[t] == HOLDING
    requires rest <= |s.queue| && |batch| == |s.queue| - rest && multiset(batch) == multiset(s.queue[rest..])
    ensures Counts(s.(threads := s.threads[t := Working(batch, s.fAllOk)], queue := s.queue[..rest]))
  {
    assert s.queue == s.queue[..rest] + s.queue[rest..];
    CountsUpdate(s.threads, t, Working(batch, s.fAllOk));
  }

  lemma TakeKeeps(s: State, t: nat)
    requires InvAt(s, t) && s.queue != []
    ensures Inv(AtHead(s, t).0)
  {
    hide Counts, Honest, Reversed;
    SumsFit(s);
    BatchSizeFits(s);
    var rest := |s.queue| - BatchSize(s);
    var batch := Reversed(s.queue[rest..]);
    ReversedMultiset(s.queue[rest..]);
    TakeCounts(s, t, rest, batch);
    var r := s.(threads := s.threads[t := Working(batch, s.fAllOk)], queue := s.queue[..rest]);
    PhasesKept(s.(threads := s.threads[t := Outside]), r, t);
    assert AtHead(s, t) == (r, None);
    TakenOk(s, batch);
  }

  lemma SumsFit(s: State)
    requires Counts(s)
    ensures s.nTotal >= 0 && s.nIdle >= 0 && |s.threads| > 0
  {
  }

  lemma TakenOk(s: State, batch: seq<Check>)
    requires Counts(s) && batch != []
    ensures PhaseOk(Working(batch, s.fAllOk), s.added)
  {
  }

  /**
    From the head of the inner loop the invariant comes out again, and a return yields
    the conjunction of the round.
   */
  lemma HeadKeeps(s: State, t: nat)
    requires InvAt(s, t)
    ensures Inv(AtHead(s, t).0)
    ensures AtHead(s, t).1.Some? ==> (AtHead(s, t).1.value <==> AllOk(s.added)) && s.nTodo == 0 && s.added == s.finished
  {
    if s.queue != [] {
      TakeKeeps(s, t);
    } else if (t == 0 || s.fQuit) && s.nTodo == 0 {
      ReturnKeeps(s, t);
      NothingTodo(s);
    } else {
      WaitKeeps(s, t);
    }
  }

  lemma {:induction false} RunBatchIs(fOk: bool, batch: seq<Check>)
    ensures RunBatch(fOk, batch) == (fOk && AllOk(multiset(batch)))
  {
    if batch != [] {
      RunBatchIs(fOk && batch[0].ok, batch[1..]);
      assert batch == [batch[0]] + batch[1..];
      assert multiset(batch) == multiset{batch[0]} + multiset(batch[1..]);
    }
  }

  /** One thread changes its phase, and the counters follow. */
  lemma CountsFollow(s: State, r: State, t: nat, p: Phase)
    requires Counts(s) && t < |s.threads| && r.threads == s.threads[t := p]
    requires r.queue == s.queue && r.added == s.added && Honest(r.fAllOk, r.finished, r.added)
    requires r.nTotal == s.nTotal - InLoop(s.threads[t]) + InLoop(p) &&
             r.nIdle == s.nIdle - Idle(s.threads[t]) + Idle(p)
    requires r.nTodo == s.nTodo - Held(s.threads[t]) + Held(p) &&
             Batch(p) + r.finished == Batch(s.threads[t]) + s.finished
    ensures Counts(r)
  {
    CountsUpdate(s.threads, t, p);
    Shift(multiset(s.queue), InFlight(s.threads), Batch(s.threads[t]), Batch(p), s.finished, r.finished);
  }

  /** Moving checks between a batch and the finished ones. */
  lemma Shift(q: multiset<Check>, all: multiset<Check>, a: multiset<Check>, b: multiset<Check>, f: multiset<Check>,
              g: multiset<Check>)
    requires a <= all && b + g == a + f
    ensures q + (all - a + b) + g == q + all + f
  {
    forall c ensures (q + (all - a + b) + g)[c] == (q + all + f)[c] { assert (b + g)[c] == (a + f)[c]; }
  }

  /** Phases that are kept, or only notified, stay in order while the round grows. */
  lemma PhasesKept(s: State, r: State, t: int)
    requires |r.threads| == |s.threads| && s.added <= r.added
    requires forall i | 0 <= i < |s.threads| :: PhaseOk(s.threads[i], s.added)
    requires forall i | 0 <= i < |s.threads| && i != t ::
               r.threads[i] == s.threads[i] || (r.threads[i].Waiting? && s.threads[i].Waiting?)
    ensures forall i | 0 <= i < |s.threads| && i != t :: PhaseOk(r.threads[i], r.added)
  {
    if !AllOk(s.added) {
      var c :| c in s.added && !c.ok;
      assert c in r.added;
    }
    forall i | 0 <= i < |s.threads| && i != t ensures PhaseOk(r.threads[i], r.added) {
      assert PhaseOk(s.threads[i], s.added);
    }
  }

  lemma EnterAt(s: State, t: nat)
    requires Inv(s) && t < |s.threads| && s.threads[t].Outside?
    ensures InvAt(s.(nTotal := s.nTotal + 1, threads := s.threads[t := HOLDING]), t)
  {
    var r := s.(nTotal := s.nTotal + 1, threads := s.threads[t := HOLDING]);
    CountsFollow(s, r, t, HOLDING);
    PhasesKept(s, r, t);
  }

  lemma WakeAt(s: State, t: nat)
    requires Inv(s) && t < |s.threads| && s.threads[t].Waiting?
    ensures InvAt(s.(nIdle := s.nIdle - 1, threads := s.threads[t := HOLDING]), t)
  {
    var r := s.(nIdle := s.nIdle - 1, threads := s.threads[t := HOLDING]);
    CountsFollow(s, r, t, HOLDING);
    PhasesKept(s, r, t);
  }

  /** Being notified changes no count. */
  lemma NotifySame(ts: seq<Phase>, t: nat)
    ensures Sum(Notify(ts, t), InLoop) == Sum(ts, InLoop) && Sum(Notify(ts, t), Idle) == Sum(ts, Idle)
    ensures Sum(Notify(ts, t), Held) == Sum(ts, Held) && InFlight(Notify(ts, t)) == InFlight(ts)
  {
    hide Sum, InFlight;
    if t < |ts| && ts[t].Waiting? { CountsUpdate(ts, t, Waiting(true)); }
  }

  lemma NotifyAllSame(ts: seq<Phase>)
    ensures Sum(NotifyAll(ts), InLoop) == Sum(ts, InLoop) && Sum(NotifyAll(ts), Idle) == Sum(ts, Idle)
    ensures Sum(NotifyAll(ts), Held) == Sum(ts, Held) && InFlight(NotifyAll(ts)) == InFlight(ts)
  {
    SumSame(NotifyAll(ts), ts, InLoop);
    SumSame(NotifyAll(ts), ts, Idle);
    SumSame(NotifyAll(ts), ts, Held);
    InFlightSame(NotifyAll(ts), ts);
  }

  lemma ReportCounts(s: State, t: nat)
    requires Counts(s) && t < |s.threads| && s.threads[t].Worked? && PhaseOk(s.threads[t], s.added)
    ensures var p := s.threads[t];
            Counts(s.(threads := s.threads[t := HOLDING], fAllOk := s.fAllOk && p.fOk, nTodo := s.nTodo - |p.batch|,
                      finished := s.finished + multiset(p.batch)))
  {
    var p := s.threads[t];
    var r := s.(threads := s.threads[t := HOLDING], fAllOk := s.fAllOk && p.fOk, nTodo := s.nTodo - |p.batch|,
                finished := s.finished + multiset(p.batch));
    assert Honest(r.fAllOk, r.finished, r.added);
    CountsFollow(s, r, t, HOLDING);
  }

  /** Notifying the master, as its last worker does, changes neither counts nor phases that matter. */
  lemma NotifyMaster(s: State)
    requires Counts(s) && forall i | 0 <= i < |s.threads| :: PhaseOk(s.threads[i], s.added)
    ensures var n := s.(threads := Notify(s.threads, 0));
            Counts(n) && n.threads[0] != Waiting(false) && (n.threads[0].Waiting? == s.threads[0].Waiting?) &&
            (forall i | 0 < i < |s.threads| :: n.threads[i] == s.threads[i]) &&
            forall i | 0 <= i < |s.threads| :: PhaseOk(n.threads[i], n.added)
  {
    NotifyCounts(s, 0);
    PhasesKept(s, s.(threads := Notify(s.threads, 0)), -1);
  }

  /** Reporting when the master need not be notified, or has been. */
  lemma ReportedAt(s: State, t: nat)
    requires Counts(s) && (forall i | 0 <= i < |s.threads| :: PhaseOk(s.threads[i], s.added))
    requires t < |s.threads| && s.threads[t].Worked? && (s.threads[0].Waiting? ==> s.queue == [])
    requires s.nTodo - |s.threads[t].batch| == 0 && t != 0 ==> s.threads[0] != Waiting(false)
    ensures var p := s.threads[t];
            InvAt(s.(threads := s.threads[t := HOLDING], fAllOk := s.fAllOk && p.fOk, nTodo := s.nTodo - |p.batch|,
                     finished := s.finished + multiset(p.batch)), t)
  {
    var p := s.threads[t];
    ReportCounts(s, t);
    PhasesKept(s, s.(threads := s.threads[t := HOLDING]), t);
    SumUpdate(s.threads, Held, t, HOLDING);
  }

  lemma ReportAt(s: State, t: nat)
    requires Inv(s) && t < |s.threads| && s.threads[t].Worked?
    ensures var r := Reported(s, t); InvAt(r.(threads := r.threads[t := HOLDING]), t)
  {
    hide Counts, PhaseOk;
    if s.nTodo - |s.threads[t].batch| == 0 && t != 0 {
      NotifyMaster(s);
      ReportedAt(s.(threads := Notify(s.threads, 0)), t);
    } else {
      ReportedAt(s, t);
    }
  }

  lemma EvaluateKeeps(s: State, t: nat)
    requires Inv(s) && t < |s.threads| && s.threads[t].Working?
    ensures Inv(Next(s, Evaluate(t)).0)
  {
    var p, r := s.threads[t], Next(s, Evaluate(t)).0;
    var q := Worked(p.batch, RunBatch(p.fOk, p.batch));
    assert PhaseOk(p, s.added);
    RunBatchIs(p.fOk, p.batch);
    BatchBelongs(s, t);
    assert PhaseOk(q, s.added);
    CountsFollow(s, r, t, q);
    PhasesKept(s, r, t);
  }

  /** A bad check in a batch is a bad check of the round. */
  lemma BatchBelongs(s: State, t: nat)
    requires Counts(s) && t < |s.threads|
    ensures !AllOk(Batch(s.threads[t])) ==> !AllOk(s.added)
  {
    InFlightUpdate(s.threads, t, Outside);
    if !AllOk(Batch(s.threads[t])) {
      var c :| c in Batch(s.threads[t]) && !c.ok;
      assert c in InFlight(s.threads);
      assert c in s.added;
    }
  }

  lemma AddKeeps(s: State, checks: seq<Check>, woken: nat)
    requires Inv(s) && Enabled(s, Add(checks, woken))
    ensures Inv(Next(s, Add(checks, woken)).0)
  {
    hide Counts, Honest, PhaseOk, Notified, Enabled, Next;
    NextAdd(s, checks, woken);
    var r := Next(s, Add(checks, woken)).0;
    AddThreads(s.threads, |checks|, woken);
    AddCounts(s, r, checks);
    PhasesKept(s, r, -1);
  }

  lemma NextAdd(s: State, checks: seq<Check>, woken: nat)
    requires Enabled(s, Add(checks, woken))
    ensures s.threads != [] && s.threads[0].Outside? && (|checks| == 1 ==> woken > 0)
    ensures Next(s, Add(checks, woken)) ==
            (s.(threads := Notified(s.threads, |checks|, woken), queue := s.queue + checks,
                nTodo := s.nTodo + |checks|, added := s.added + multiset(checks)), None)
  {
  }

  lemma AddThreads(ts: seq<Phase>, n: nat, woken: nat)
    requires n == 1 ==> woken > 0
    ensures var r := Notified(ts, n, woken);
            Sum(r, InLoop) == Sum(ts, InLoop) && Sum(r, Idle) == Sum(ts, Idle) && Sum(r, Held) == Sum(ts, Held) &&
            InFlight(r) == InFlight(ts) && (ts != [] ==> r[0] == ts[0]) &&
            forall i | 0 <= i < |ts| :: r[i] == ts[i] || (r[i].Waiting? && ts[i].Waiting?)
  {
    hide Sum, InFlight;
    NotifySame(ts, woken);
    NotifyAllSame(ts);
  }

  lemma AddCounts(s: State, r: State, checks: seq<Check>)
    requires Counts(s)
    requires Sum(r.threads, InLoop) == Sum(s.threads, InLoop) && Sum(r.threads, Idle) == Sum(s.threads, Idle)
    requires Sum(r.threads, Held) == Sum(s.threads, Held) && InFlight(r.threads) == InFlight(s.threads) &&
             |r.threads| == |s.threads|
    requires r == s.(threads := r.threads, queue := s.queue + checks,
                     nTodo := s.nTodo + |checks|, added := s.added + multiset(checks))
    ensures Counts(r)
  {
    assert multiset(s.queue + checks) == multiset(s.queue) + multiset(checks);
    if !AllOk(s.added) {
      var c :| c in s.added && !c.ok;
      assert c in r.added;
    }
  }

  /** What a step that goes through the head of the loop keeps and returns. */
  ghost predicate Kept(s: State, r: (State, Option<bool>)) {
    Inv(r.0) && (r.1.Some? ==> (r.1.value <==> AllOk(s.added)))
  }

  lemma HeadAt(s: State, x: State, t: nat)
    requires t < |x.threads| && x.added == s.added && InvAt(x.(threads := x.threads[t := HOLDING]), t)
    ensures x.nTotal + x.nIdle + 1 > 0 && Kept(s, AtHead(x, t))
  {
    AtHeadOverwrites(x, t);
    HeadKeeps(x.(threads := x.threads[t := HOLDING]), t);
  }

  lemma EnterKeeps(s: State, t: nat)
    requires Inv(s) && Enabled(s, Enter(t))
    ensures Kept(s, AtHead(s.(nTotal := s.nTotal + 1), t))
  {
    EnterAt(s, t);
    HeadAt(s, s.(nTotal := s.nTotal + 1), t);
  }

  lemma ReportKeeps(s: State, t: nat)
    requires Inv(s) && Enabled(s, Report(t))
    ensures Kept(s, AtHead(Reported(s, t), t))
  {
    ReportAt(s, t);
    HeadAt(s, Reported(s, t), t);
  }

  lemma WakeKeeps(s: State, t: nat)
    requires Inv(s) && Enabled(s, Wake(t))
    ensures Kept(s, AtHead(s.(nIdle := s.nIdle - 1), t))
  {
    WakeAt(s, t);
    HeadAt(s, s.(nIdle := s.nIdle - 1), t);
  }

  /** Unfolding of one kind of step. */
  lemma NextEnter(s: State, t: nat)
    requires Enabled(s, Enter(t))
    ensures Next(s, Enter(t)) == AtHead(s.(nTotal := s.nTotal + 1), t)
  {
  }

  lemma NextReport(s: State, t: nat)
    requires Enabled(s, Report(t))
    ensures Next(s, Report(t)) == AtHead(Reported(s, t), t)
  {
  }

  lemma NextWake(s: State, t: nat)
    requires Enabled(s, Wake(t))
    ensures Next(s, Wake(t)) == AtHead(s.(nIdle := s.nIdle - 1), t)
  {
  }

  lemma HeadStepKeeps(s: State, step: Step)
    requires Inv(s) && Enabled(s, step) && (step.Enter? || step.Report? || step.Wake?)
    ensures Kept(s, Next(s, step))
  {
    if step.Enter? {
      EnterKeeps(s, step.t);
      NextEnter(s, step.t);
    } else if step.Report? {
      ReportKeeps(s, step.t);
      NextReport(s, step.t);
    } else {
      WakeKeeps(s, step.t);
      NextWake(s, step.t);
    }
  }

  /**
    Every step of every thread keeps the invariant, and a thread that returns
    from Loop returns the conjunction of all checks of the round.
   */
  lemma StepKeeps(s: State, step: Step)
    requires Inv(s) && Enabled(s, step)
    ensures Kept(s, Next(s, step))
  {
    if step.Evaluate? {
      EvaluateKeeps(s, step.t);
    } else if step.Add? {
      AddKeeps(s, step.checks, step.woken);
    } else {
      HeadStepKeeps(s, step);
    }
  }

  // ----- whole runs -----

  ghost predicate Allowed(s: State, steps: seq<Step>)
    decreases |steps|
  {
    steps == [] || (Enabled(s, steps[0]) && Allowed(Next(s, steps[0]).0, steps[1..]))
  }

  ghost function Run(s: State, steps: seq<Step>): State
    requires Allowed(s, steps)
    decreases |steps|
  {
    if steps == [] then s else Run(Next(s, steps[0]).0, steps[1..])
  }

  lemma {:induction false} RunKeeps(s: State, steps: seq<Step>)
    requires Inv(s) && Allowed(s, steps)
    ensures Inv(Run(s, steps))
    decreases |steps|
  {
    if steps != [] {
      StepKeeps(s, steps[0]);
      RunKeeps(Next(s, steps[0]).0, steps[1..]);
    }
  }

  lemma {:induction false} OutsideSums(ts: seq<Phase>)
    requires forall t | 0 <= t < |ts| :: ts[t] == Outside
    ensures Sum(ts, InLoop) == 0 && Sum(ts, Idle) == 0 && Sum(ts, Held) == 0 && InFlight(ts) == multiset{}
  {
    if ts != [] { OutsideSums(ts[..|ts| - 1]); }
  }

  lemma InitInv(s: State)
    requires Init(s)
    ensures Inv(s)
  {
    OutsideSums(s.threads);
  }

  /** Every reachable state, for every interleaving of the master and any number of workers. */
  lemma Reachable(s: State, steps: seq<Step>)
    requires Init(s) && Allowed(s, steps)
    ensures Inv(Run(s, steps))
  {
    InitInv(s);
    RunKeeps(s, steps);
  }

  /** The step in which the master returns from Loop. */
  predicate MasterDone(s: State, step: Step)
    requires Enabled(s, step)
  {
    !step.Add? && step.t == 0 && Next(s, step).1.Some?
  }

  /** The checks that the steps of a run add after the last return of the master; before: those added before the run. */
  ghost function Round(s: State, steps: seq<Step>, before: multiset<Check>): multiset<Check>
    requires Allowed(s, steps)
    decreases |steps|
  {
    if steps == [] then before
    else
      Round(Next(s, steps[0]).0, steps[1..],
            if steps[0].Add? then before + multiset(steps[0].checks)
            else if MasterDone(s, steps[0]) then multiset{} else before)
  }

  lemma StepRound(s: State, step: Step)
    requires Enabled(s, step)
    ensures Next(s, step).0.added ==
            if step.Add? then s.added + multiset(step.checks) else if MasterDone(s, step) then multiset{} else s.added
  {
  }

  lemma {:induction false} RoundIs(s: State, steps: seq<Step>)
    requires Allowed(s, steps)
    ensures Run(s, steps).added == Round(s, steps, s.added)
    decreases |steps|
  {
    hide Next, Enabled;
    if steps != [] {
      StepRound(s, steps[0]);
      RoundIs(Next(s, steps[0]).0, steps[1..]);
    }
  }

  /**
    However the threads are scheduled, Wait returns true exactly if every check that was
    added since it returned before is: a round takes nothing over from the one before.
   */
  lemma WaitResult(s: State, steps: seq<Step>, step: Step)
    requires Init(s) && Allowed(s, steps) && Enabled(Run(s, steps), step) && MasterDone(Run(s, steps), step)
    ensures Next(Run(s, steps), step).1.value <==> AllOk(Round(s, steps, multiset{}))
  {
    hide Next, Enabled, Inv;
    Reachable(s, steps);
    RoundIs(s, steps);
    StepKeeps(Run(s, steps), step);
  }

  /**
    Whom Add wakes: every waiting worker if there are several checks; for one check one of
    those not notified yet, if there is one; and never the master.
   */
  lemma AddWakes(s: State, checks: seq<Check>, woken: nat)
    requires Enabled(s, Add(checks, woken))
    ensures var r := Next(s, Add(checks, woken)).0;
            && r.queue == s.queue + checks && |r.threads| == |s.threads| && r.threads[0] == s.threads[0]
            && (|checks| == 0 ==> r.threads == s.threads)
            && (|checks| > 1 ==> forall t | 0 < t < |r.threads| ::
                  r.threads[t] == if s.threads[t].Waiting? then Waiting(true) else s.threads[t])
            && (|checks| == 1 && (exists t | 0 < t < |s.threads| :: s.threads[t] == Waiting(false)) ==>
                  exists t | 0 < t < |s.threads| ::
                    s.threads[t] == Waiting(false) && r.threads == s.threads[t := Waiting(true)])
  {
    var r := Next(s, Add(checks, woken)).0;
    if |checks| == 1 && exists t | 0 < t < |s.threads| :: s.threads[t] == Waiting(false) {
      assert s.threads[woken] == Waiting(false) && r.threads == s.threads[woken := Waiting(true)];
    }
  }

  /** No thread holds more checks than the batch size, or one. */
  ghost predicate Bounded(s: State) {
    forall t | 0 <= t < |s.threads| :: Held(s.threads[t]) <= Max(1, s.nBatchSize)
  }

  lemma HeadBounded(s: State, t: nat)
    requires t < |s.threads| && s.nTotal + s.nIdle + 1 > 0
    requires forall i | 0 <= i < |s.threads| && i != t :: Held(s.threads[i]) <= Max(1, s.nBatchSize)
    ensures Bounded(AtHead(s, t).0) && AtHead(s, t).0.nBatchSize == s.nBatchSize
  {
    hide Share;
    assert 1 <= BatchSize(s) <= Max(1, s.nBatchSize);
  }

  lemma StepBounded(s: State, step: Step)
    requires Bounded(s) && Enabled(s, step)
    ensures Bounded(Next(s, step).0) && Next(s, step).0.nBatchSize == s.nBatchSize
  {
    hide AtHead;
    match step
    case Enter(t) => HeadBounded(s.(nTotal := s.nTotal + 1), t);
    case Evaluate(t) =>
    case Report(t) => HeadBounded(Reported(s, t), t);
    case Wake(t) => HeadBounded(s.(nIdle := s.nIdle - 1), t);
    case Add(checks, woken) =>
  }

  lemma {:induction false} RunBounded(s: State, steps: seq<Step>)
    requires Bounded(s) && Allowed(s, steps)
    ensures Bounded(Run(s, steps))
    decreases |steps|
  {
    if steps != [] {
      StepBounded(s, steps[0]);
      RunBounded(Next(s, steps[0]).0, steps[1..]);
    }
  }

  lemma BatchesBounded(s: State, steps: seq<Step>)
    requires Init(s) && Allowed(s, steps)
    ensures Bounded(Run(s, steps))
  {
    RunBounded(s, steps);
  }

  /** nTodo counts the queued checks and those in batches, and every check is in exactly one place. */
  lemma EveryCheckOnce(s: State)
    requires Inv(s)
    ensures s.nTodo == |s.queue| + |InFlight(s.threads)|
    ensures forall c: Check :: s.added[c] == multiset(s.queue)[c] + InFlight(s.threads)[c] + s.finished[c]
  {
    InFlightSize(s.threads);
  }

  /**
    The assert of CCheckQueueControl: between rounds, once every added check has been
    waited for, the queue is idle.
   */
  lemma IdleBetweenRounds(s: State)
    requires Inv(s) && s.added == multiset{} && s.threads[0].Outside?
    ensures s.nTotal == s.nIdle && s.nTodo == 0 && s.fAllOk
  {
    InFlightSize(s.threads);
    assert s.added == multiset(s.queue) + InFlight(s.threads) + s.finished;
    assert |multiset(s.queue)| == 0 && |InFlight(s.threads)| == 0;
    forall t | 0 <= t < |s.threads| ensures InLoop(s.threads[t]) == Idle(s.threads[t]) {
      SumUpdate(s.threads, Held, t, Outside);
      assert PhaseOk(s.threads[t], s.added);
    }
    InLoopIsIdle(s.threads);
  }

  lemma {:induction false} InLoopIsIdle(ts: seq<Phase>)
    requires forall t | 0 <= t < |ts| :: InLoop(ts[t]) == Idle(ts[t])
    ensures Sum(ts, InLoop) == Sum(ts, Idle)
  {
    if ts != [] { InLoopIsIdle(ts[..|ts| - 1]); }
  }

  // ----- progress -----

  /** A step that some thread takes without a spurious wakeup. */
  predicate Genuine(s: State, step: Step) {
    Enabled(s, step) && (step.Wake? ==> s.threads[step.t].isNotified) && !step.Add?
  }

  lemma {:induction false} SomeHeld(ts: seq<Phase>) returns (t: nat)
    requires Sum(ts, Held) > 0
    ensures t < |ts| && Held(ts[t]) > 0
  {
    t := |ts| - 1;
    if Held(ts[t]) == 0 { t := SomeHeld(ts[..t]); }
  }

  /**
    No wakeup is lost: while the master is in Loop, some thread can go on
    without a spurious wakeup. If the master waits un-notified, a worker still
    holds a batch.
   */
  lemma NoLostWakeup(s: State) returns (step: Step)
    requires Inv(s) && !s.threads[0].Outside?
    ensures Genuine(s, step) && !step.Enter?
  {
    var p := s.threads[0];
    if p.Working? { return Evaluate(0); }
    if p.Worked? { return Report(0); }
    SumUpdate(s.threads, InLoop, 0, Outside);
    SumUpdate(s.threads, Idle, 0, Outside);
    if p.isNotified { return Wake(0); }
    var t := SomeHeld(s.threads);
    step := if s.threads[t].Working? then Evaluate(t) else Report(t);
  }

  /** What is left to happen: each queued check and each phase weighs what it can still cause. */
  function Weight(p: Phase): nat {
    match p
    case Outside => 1
    case Waiting(isNotified) => if isNotified then 1 else 0
    case Working(_, _) => 3
    case Worked(_, _) => 2
  }

  function Measure(s: State): nat { 4 * |s.queue| + Sum(s.threads, Weight) }

  lemma HeadWeight(s: State, t: nat)
    requires t < |s.threads| && s.nTotal >= 0 && s.nIdle >= 0
    ensures AtHead(s, t).1.None? ==> Measure(AtHead(s, t).0) <= Measure(s) - Weight(s.threads[t]) ||
                                     (s.queue != [] && Measure(AtHead(s, t).0) < Measure(s) - Weight(s.threads[t]))
  {
    if s.queue == [] {
      SumUpdate(s.threads, Weight, t, Waiting(false));
    } else {
      BatchSizeFits(s);
      SumUpdate(s.threads, Weight, t, AtHead(s, t).0.threads[t]);
    }
  }

  lemma NotifyWeight(ts: seq<Phase>)
    ensures Sum(Notify(ts, 0), Weight) <= Sum(ts, Weight) + 1
  {
    if 0 < |ts| && ts[0].Waiting? { SumUpdate(ts, Weight, 0, Waiting(true)); }
  }

  /**
    Every genuine step uses up some of the measure, unless a thread returns
    from Loop with it; so between two returns only finitely many genuine steps
    happen, and by NoLostWakeup the master's Wait comes to its return.
   */
  lemma GenuineStepsRunOut(s: State, step: Step)
    requires Inv(s) && Genuine(s, step)
    ensures Next(s, step).1.None? ==> Measure(Next(s, step).0) < Measure(s)
  {
    if step.Enter? {
      NextEnter(s, step.t);
      HeadWeight(s.(nTotal := s.nTotal + 1), step.t);
    } else if step.Wake? {
      NextWake(s, step.t);
      WakeWeight(s, step.t);
    } else if step.Evaluate? {
      SumUpdate(s.threads, Weight, step.t, Next(s, step).0.threads[step.t]);
    } else {
      NextReport(s, step.t);
      ReportWeight(s, step.t);
    }
  }

  /** A run of genuine steps. */
  ghost predicate GenuineRun(s: State, steps: seq<Step>)
    decreases |steps|
  {
    steps == [] || (Genuine(s, steps[0]) && GenuineRun(Next(s, steps[0]).0, steps[1..]))
  }

  /** Somewhere in a run the master returns from Loop. */
  ghost predicate MasterReturns(s: State, steps: seq<Step>)
    requires GenuineRun(s, steps)
    decreases |steps|
  {
    steps != [] &&
    ((Next(s, steps[0]).1.Some? && steps[0].t == 0) || MasterReturns(Next(s, steps[0]).0, steps[1..]))
  }

  /** Unless the queue is told to quit, only the master returns; no step tells it to. */
  lemma OnlyMasterReturns(s: State, step: Step)
    requires Genuine(s, step) && !s.fQuit
    ensures !Next(s, step).0.fQuit && (Next(s, step).1.Some? ==> step.t == 0)
  {
  }

  /** However the threads are scheduled, the master returns before the genuine steps exceed the measure. */
  lemma {:induction false} WaitReturns(s: State, steps: seq<Step>)
    requires Inv(s) && !s.fQuit && GenuineRun(s, steps) && |steps| > Measure(s)
    ensures MasterReturns(s, steps)
    decreases |steps|
  {
    hide Inv, Next, Measure;
    OnlyMasterReturns(s, steps[0]);
    if Next(s, steps[0]).1.None? {
      GenuineKeeps(s, steps[0]);
      GenuineStepsRunOut(s, steps[0]);
      WaitReturns(Next(s, steps[0]).0, steps[1..]);
    }
  }

  lemma GenuineKeeps(s: State, step: Step)
    requires Inv(s) && Genuine(s, step)
    ensures Inv(Next(s, step).0)
  {
    StepKeeps(s, step);
  }

  /** And from any state with the master in Loop there is a run to its return. */
  lemma {:induction false} WaitCanReturn(s: State) returns (steps: seq<Step>)
    requires Inv(s) && !s.fQuit && !s.threads[0].Outside?
    ensures GenuineRun(s, steps) && MasterReturns(s, steps)
    decreases Measure(s)
  {
    hide Inv, Next, Measure;
    var step := NoLostWakeup(s);
    OnlyMasterReturns(s, step);
    GenuineKeeps(s, step);
    var r := Next(s, step).0;
    if Next(s, step).1.Some? {
      steps := [step];
      assert steps[1..] == [];
    } else {
      GenuineStepsRunOut(s, step);
      StaysInLoop(s, step);
      var rest := WaitCanReturn(r);
      steps := [step] + rest;
      assert steps[1..] == rest;
    }
  }

  /** Only a return takes the master out of Loop. */
  lemma StaysInLoop(s: State, step: Step)
    requires |s.threads| > 0 && Genuine(s, step) && !s.threads[0].Outside? && Next(s, step).1.None?
    ensures |Next(s, step).0.threads| > 0 && !Next(s, step).0.threads[0].Outside?
  {
    hide BatchSize, Notify, Reversed, RunBatch;
    if step.Report? { ReportedThreads(s, step.t); }
  }

  lemma ReportedThreads(s: State, t: nat)
    requires 0 < |s.threads| && t < |s.threads| && s.threads[t].Worked?
    ensures |Reported(s, t).threads| == |s.threads|
    ensures Reported(s, t).threads[0].Outside? == s.threads[0].Outside?
  {
  }

  lemma WakeWeight(s: State, t: nat)
    requires Counts(s) && t < |s.threads| && s.threads[t] == Waiting(true)
    ensures s.nIdle > 0
    ensures AtHead(s.(nIdle := s.nIdle - 1), t).1.None? ==> Measure(AtHead(s.(nIdle := s.nIdle - 1), t).0) < Measure(s)
  {
    SumUpdate(s.threads, Idle, t, Outside);
    HeadWeight(s.(nIdle := s.nIdle - 1), t);
  }

  lemma ReportWeight(s: State, t: nat)
    requires s.nTotal >= 0 && s.nIdle >= 0 && t < |s.threads| && s.threads[t].Worked?
    ensures AtHead(Reported(s, t), t).1.None? ==> Measure(AtHead(Reported(s, t), t).0) < Measure(s)
  {
    var r := Reported(s, t);
    NotifyWeight(s.threads);
    assert r.threads[t] == s.threads[t];
    HeadWeight(r, t);
  }
}
