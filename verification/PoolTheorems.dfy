/** What every run of the worker pool satisfies, whatever the interleaving. */
module PoolTheorems {
  import opened PoolProtocol

  ghost predicate Reaches(c: Setup, ls: seq<Label>, t: State) {
    Runs(c, Init(c), ls, t)
  }

  ghost predicate Reachable(c: Setup, s: State) {
    exists ls :: Reaches(c, ls, s)
  }

  lemma ReachedInv(c: Setup, ls: seq<Label>, t: State)
    requires Reaches(c, ls, t)
    ensures Inv(c, t)
  {
    InitInv(c);
    RunInv(c, Init(c), ls, t);
  }

  lemma ReachableInv(c: Setup, s: State)
    requires Reachable(c, s)
    ensures Inv(c, s)
  {
    var ls :| Reaches(c, ls, s);
    ReachedInv(c, ls, s);
  }

  lemma ReachableNext(c: Setup, s: State, l: Label)
    requires Reachable(c, s) && Enabled(c, s, l)
    ensures Reachable(c, Apply(c, s, l))
  {
    var ls :| Reaches(c, ls, s);
    RunsSnoc(c, Init(c), ls, s, l);
    assert Reaches(c, ls + [l], Apply(c, s, l));
  }

  // ---- Exactly once ----

  ghost predicate Queued(s: State, id: nat) {
    id in s.queue
  }

  ghost predicate Held(s: State, id: nat) {
    exists w: nat :: HeldBy(s, id, w)
  }

  ghost predicate Delivered(s: State, id: nat) {
    id < |s.reqs| && s.reqs[id].sent == 1
  }

  /**
   An accepted job is in exactly one of three places: queued, with one worker, or
   delivered.  A job that was not accepted is in none, and no result is ever dropped.
   */
  lemma ExactlyOnce(c: Setup, ls: seq<Label>, t: State, id: nat)
    requires Reaches(c, ls, t) && id < |t.reqs|
    ensures id in t.accepted ==> Queued(t, id) || Held(t, id) || Delivered(t, id)
    ensures id in t.accepted <==> WasAccepted(t.reqs[id].phase)
    ensures !(Queued(t, id) && Held(t, id))
    ensures !(Queued(t, id) && Delivered(t, id)) && !(Held(t, id) && Delivered(t, id))
    ensures id !in t.accepted ==> !Queued(t, id) && !Held(t, id) && t.reqs[id].sent == 0
    ensures forall w: nat, w': nat :: HeldBy(t, id, w) && HeldBy(t, id, w') ==> w == w'
    ensures t.reqs[id].dropped == 0 && t.reqs[id].sent <= 1
  {
    ReachedInv(c, ls, t);
    BegunDistinct(c, t);
    assert ChannelOk(c, t, id);
    assert id in t.begun ==> id in t.begun + t.queue;
    assert id in t.queue ==> id in t.begun + t.queue;
  }

  /** The jobs passed to `Submit`, in order of call. */
  function Submitted(ls: seq<Label>): seq<Job> {
    if ls == [] then [] else (if ls[0].Enter? then [ls[0].job] else []) + Submitted(ls[1..])
  }

  lemma JobsStep(c: Setup, s: State, l: Label)
    requires Enabled(c, s, l)
    ensures var t := Apply(c, s, l);
            && |t.reqs| == |s.reqs| + (if l.Enter? then 1 else 0)
            && (forall id :: 0 <= id < |s.reqs| ==> t.reqs[id].job == s.reqs[id].job)
            && (l.Enter? ==> t.reqs[|s.reqs|].job == l.job)
  {
  }

  lemma {:induction false} JobsKept(c: Setup, s: State, ls: seq<Label>, t: State)
    requires Runs(c, s, ls, t)
    ensures |t.reqs| == |s.reqs| + |Submitted(ls)|
    ensures forall id :: 0 <= id < |s.reqs| ==> t.reqs[id].job == s.reqs[id].job
    ensures forall k :: 0 <= k < |Submitted(ls)| ==> t.reqs[|s.reqs| + k].job == Submitted(ls)[k]
    decreases |ls|
  {
    if ls != [] {
      var s' := Apply(c, s, ls[0]);
      JobsStep(c, s, ls[0]);
      JobsKept(c, s', ls[1..], t);
      var here := if ls[0].Enter? then [ls[0].job] else [];
      assert Submitted(ls) == here + Submitted(ls[1..]);
      forall k | 0 <= k < |Submitted(ls)|
        ensures t.reqs[|s.reqs| + k].job == Submitted(ls)[k]
      {
        if k < |here| {
          assert s'.reqs[|s.reqs|].job == ls[0].job;
        } else {
          assert |s.reqs| + k == |s'.reqs| + (k - |here|);
          assert Submitted(ls)[k] == Submitted(ls[1..])[k - |here|];
        }
      }
    }
  }

  /** A submitter that gets a result gets the conversion of what it submitted, never another job's. */
  lemma OwnResult(c: Setup, ls: seq<Label>, t: State, id: nat)
    requires Reaches(c, ls, t) && id < |t.reqs|
    ensures |Submitted(ls)| == |t.reqs|
    ensures t.reqs[id].phase.Got? ==> ConversionOf(c, Submitted(ls)[id], t.reqs[id].phase.r)
    ensures forall r :: r in t.reqs[id].inbox ==> ConversionOf(c, Submitted(ls)[id], r)
    ensures |t.reqs[id].inbox| <= 1
  {
    ReachedInv(c, ls, t);
    JobsKept(c, Init(c), ls, t);
    assert ChannelOk(c, t, id);
    assert t.reqs[|Init(c).reqs| + id].job == Submitted(ls)[id];
    DispatchConverts(c, Submitted(ls)[id], Own(c, t, id));
  }

  /** When a worker sends, the channel is empty: the branch that drops a result is dead code. */
  lemma SendNeverDrops(c: Setup, ls: seq<Label>, t: State, w: nat)
    requires Reaches(c, ls, t) && Enabled(c, t, Deliver(w))
    ensures t.reqs[t.workers[w].id].inbox == []
    ensures Apply(c, t, Deliver(w)).reqs[t.workers[w].id].sent == 1
  {
    ReachedInv(c, ls, t);
    assert HeldBy(t, t.workers[w].id, w);
    assert ChannelOk(c, t, t.workers[w].id);
  }

  // ---- Order and backpressure ----

  /** The jobs sent to, and taken from, the queue by a run. */
  function Sends(ls: seq<Label>): seq<nat> {
    if ls == [] then [] else (if ls[0].Enqueue? then [ls[0].id] else []) + Sends(ls[1..])
  }

  lemma {:induction false} SendsAreAccepted(c: Setup, s: State, ls: seq<Label>, t: State)
    requires Runs(c, s, ls, t)
    ensures t.accepted == s.accepted + Sends(ls)
    decreases |ls|
  {
    if ls != [] {
      SendsAreAccepted(c, Apply(c, s, ls[0]), ls[1..], t);
    }
  }

  /** Jobs are begun in the order in which they were accepted, each at most once. */
  lemma FirstComeFirstServed(c: Setup, ls: seq<Label>, t: State)
    requires Reaches(c, ls, t)
    ensures Sends(ls) == t.begun + t.queue && Distinct(Sends(ls))
  {
    ReachedInv(c, ls, t);
    SendsAreAccepted(c, Init(c), ls, t);
    assert [] + Sends(ls) == Sends(ls);
  }

  /** The accepted jobs whose conversion is not finished. */
  function Unfinished(s: State): nat {
    Unsent(s.reqs, s.accepted)
  }

  lemma {:induction false} AllUnsent(reqs: seq<Request>, ids: seq<nat>)
    requires forall id :: id in ids ==> id >= |reqs| || reqs[id].sent == 0
    ensures Unsent(reqs, ids) == |ids|
  {
    if ids != [] {
      assert forall id :: id in ids[1..] ==> id in ids;
      AllUnsent(reqs, ids[1..]);
    }
  }

  lemma UnfinishedCount(c: Setup, s: State)
    requires Inv(c, s)
    ensures Unfinished(s) == |s.queue| + Working(s.workers)
  {
    BegunDistinct(c, s);
    forall id | id in s.queue
      ensures s.reqs[id].sent == 0
    {
      assert ChannelOk(c, s, id);
    }
    AllUnsent(s.reqs, s.queue);
    UnsentConcat(s.reqs, s.begun, s.queue);
  }

  /** Unfinished jobs are exactly the queued and the held ones, at most three per worker. */
  lemma Backpressure(c: Setup, ls: seq<Label>, t: State)
    requires Reaches(c, ls, t)
    ensures Unfinished(t) == |t.queue| + Working(t.workers) <= 3 * c.workers
  {
    ReachedInv(c, ls, t);
    UnfinishedCount(c, t);
    CountsBounded(t.workers);
  }

  ghost predicate Becomes(c: Setup, s: State, l: Label, id: nat, p: Phase)
    requires Enabled(c, s, l)
  {
    !InPhase(s, id, p) && InPhase(Apply(c, s, l), id, p)
  }

  predicate MovesPhase(l: Label, id: nat) {
    l in {PassStart(id), Enqueue(id), GiveUp(id), RefuseBusy(id), SendClosed(id), Label.Receive(id), Label.Abandon(id)}
  }

  /** A request's phase changes only by a step of that request. */
  lemma OthersKeepPhase(c: Setup, s: State, l: Label, id: nat)
    requires Enabled(c, s, l) && id < |s.reqs| && !MovesPhase(l, id)
    ensures Apply(c, s, l).reqs[id].phase == s.reqs[id].phase
  {
  }

  /** The steps that a call takes itself, or that its context takes. */
  predicate Touches(l: Label, id: nat) {
    MovesPhase(l, id) || l == Cancel(id)
  }

  lemma UntouchedStep(c: Setup, s: State, l: Label, id: nat)
    requires Enabled(c, s, l) && id < |s.reqs| && !Touches(l, id)
    ensures var t := Apply(c, s, l);
            id < |t.reqs| && t.reqs[id].job == s.reqs[id].job
            && t.reqs[id].phase == s.reqs[id].phase && t.reqs[id].cancelled == s.reqs[id].cancelled
  {
  }

  lemma BegunStays(c: Setup, s: State, l: Label)
    requires Enabled(c, s, l) && s.once == Begun
    ensures Apply(c, s, l).once == Begun
  {
  }

  /** Steps of other parties leave a call where it stands. */
  lemma {:induction false} UntouchedStays(c: Setup, s: State, ls: seq<Label>, t: State, id: nat)
    requires Runs(c, s, ls, t) && id < |s.reqs| && forall l :: l in ls ==> !Touches(l, id)
    ensures id < |t.reqs| && t.reqs[id].job == s.reqs[id].job
    ensures t.reqs[id].phase == s.reqs[id].phase && t.reqs[id].cancelled == s.reqs[id].cancelled
    ensures s.once == Begun ==> t.once == Begun
    decreases |ls|
  {
    if ls != [] {
      assert ls[0] in ls && forall l :: l in ls[1..] ==> l in ls;
      UntouchedStep(c, s, ls[0], id);
      if s.once == Begun {
        BegunStays(c, s, ls[0]);
      }
      UntouchedStays(c, Apply(c, s, ls[0]), ls[1..], t, id);
    }
  }

  lemma WhichStep(c: Setup, s: State, l: Label, id: nat)
    requires Enabled(c, s, l)
    ensures Becomes(c, s, l, id, Busy) ==> l == RefuseBusy(id)
    ensures Becomes(c, s, l, id, Phase.Cancelled) ==> l == GiveUp(id)
    ensures Becomes(c, s, l, id, Phase.Abandoned) ==> l == Label.Abandon(id)
    ensures Becomes(c, s, l, id, Panicked) ==> l == SendClosed(id)
  {
    if id < |s.reqs| && !MovesPhase(l, id) {
      OthersKeepPhase(c, s, l, id);
    }
  }

  lemma QueueBounded(c: Setup, ls: seq<Label>, t: State)
    requires Reaches(c, ls, t)
    ensures |t.queue| <= 2 * c.workers
  {
    ReachedInv(c, ls, t);
  }

  /**
   Why a `Submit` call returns.  Busy: two jobs per worker are queued and its context is not
   done.  With the context's error: its context is done.  By a panic: the pool is closed.
   */
  lemma ReturnReasons(c: Setup, ls: seq<Label>, t: State, l: Label, id: nat)
    requires Reaches(c, ls, t) && Enabled(c, t, l)
    ensures Becomes(c, t, l, id, Busy) ==>
              && !t.closed && !t.reqs[id].cancelled && |t.queue| == 2 * c.workers
              && 2 * c.workers <= Unfinished(t) <= 3 * c.workers
    ensures Becomes(c, t, l, id, Phase.Cancelled) ==> t.reqs[id].cancelled && id !in t.accepted
    ensures Becomes(c, t, l, id, Abandoned) ==> t.reqs[id].cancelled && id in t.accepted
    ensures Becomes(c, t, l, id, Panicked) ==> t.closed && id !in t.accepted
  {
    WhichStep(c, t, l, id);
    if id < |t.reqs| {
      Backpressure(c, ls, t);
      ExactlyOnce(c, ls, t, id);
      QueueBounded(c, ls, t);
    }
  }

  lemma {:induction false} CancelSticks(c: Setup, s: State, ls: seq<Label>, t: State, id: nat)
    requires Runs(c, s, ls, t) && id < |s.reqs| && s.reqs[id].cancelled
    ensures id < |t.reqs| && t.reqs[id].cancelled
    decreases |ls|
  {
    if ls != [] {
      CancelSticks(c, Apply(c, s, ls[0]), ls[1..], t, id);
    }
  }

  /** Once its context is done, a submitter at either select can return at any moment, and never as busy. */
  lemma CancelledCanReturn(c: Setup, s: State, id: nat, ls: seq<Label>, t: State)
    requires Runs(c, s, [Cancel(id)] + ls, t)
    ensures InPhase(t, id, Ready) ==> Enabled(c, t, GiveUp(id))
    ensures InPhase(t, id, Waiting) ==> Enabled(c, t, Abandon(id))
    ensures !Enabled(c, t, RefuseBusy(id))
  {
    assert ([Cancel(id)] + ls)[1..] == ls;
    CancelSticks(c, Apply(c, s, Cancel(id)), ls, t, id);
  }

  /** The outer select never blocks. */
  lemma SubmitNeverBlocks(c: Setup, s: State, id: nat)
    requires InPhase(s, id, Ready)
    ensures exists l :: l in {Enqueue(id), GiveUp(id), RefuseBusy(id), SendClosed(id)} && Enabled(c, s, l)
  {
    var l := if s.closed then SendClosed(id)
             else if |s.queue| < Capacity(c) then Enqueue(id)
             else if s.reqs[id].cancelled then GiveUp(id)
             else RefuseBusy(id);
    assert Enabled(c, s, l);
  }

  lemma BusyIsFinal(c: Setup, s: State, l: Label, id: nat)
    requires Enabled(c, s, l) && InPhase(s, id, Busy)
    ensures InPhase(Apply(c, s, l), id, Busy)
  {
  }

  lemma {:induction false} BusyForever(c: Setup, s: State, ls: seq<Label>, t: State, id: nat)
    requires Runs(c, s, ls, t) && InPhase(s, id, Busy)
    ensures InPhase(t, id, Busy)
    decreases |ls|
  {
    if ls != [] {
      BusyIsFinal(c, s, ls[0], id);
      BusyForever(c, Apply(c, s, ls[0]), ls[1..], t, id);
    }
  }

  /** A submission refused as busy is not in the queue, and never gets there. */
  lemma RefusedStaysOut(c: Setup, before: seq<Label>, s: State, ls: seq<Label>, t: State, id: nat)
    requires Reaches(c, before, s) && Runs(c, s, ls, t) && InPhase(s, id, Busy)
    ensures id !in t.accepted && !Queued(t, id) && !Held(t, id) && !Delivered(t, id)
  {
    ReachedInv(c, before, s);
    RunInv(c, s, ls, t);
    BusyForever(c, s, ls, t, id);
    assert ChannelOk(c, t, id);
    assert id in t.begun || id in t.queue ==> id in t.begun + t.queue;
  }

  /** By some moment of the run, `first` had been refused as busy and the call `second` not yet made. */
  ghost predicate RefusedBefore(c: Setup, ls: seq<Label>, first: nat, second: nat) {
    exists k: nat, s: State :: k <= |ls| && Reaches(c, ls[..k], s) && InPhase(s, first, Busy) && |s.reqs| <= second
  }

  /** The calls of one retrying caller: each but the first is made after its predecessor was refused. */
  ghost predicate Retried(c: Setup, ls: seq<Label>, ids: seq<nat>) {
    forall i :: 0 < i < |ids| ==> RefusedBefore(c, ls, ids[i - 1], ids[i])
  }

  lemma {:induction false} RunsSplit(c: Setup, s: State, ls: seq<Label>, k: nat, m: State, t: State)
    requires k <= |ls| && Runs(c, s, ls[..k], m) && Runs(c, s, ls, t)
    ensures Runs(c, m, ls[k..], t)
    decreases k
  {
    if k > 0 {
      assert ls[..k][1..] == ls[1..][..k - 1] && ls[1..][k - 1..] == ls[k..];
      RunsSplit(c, Apply(c, s, ls[0]), ls[1..], k - 1, m, t);
    } else {
      assert ls[..0] == [] && ls[0..] == ls;
    }
  }

  /**
   However often a caller retries, in any interleaving: all calls but the last end as busy
   and leave nothing in the pool, so the job is put into the queue at most once.
   */
  lemma RetriesEnqueueOnce(c: Setup, ls: seq<Label>, t: State, ids: seq<nat>, i: nat)
    requires Reaches(c, ls, t) && Retried(c, ls, ids) && i + 1 < |ids|
    ensures InPhase(t, ids[i], Busy) && ids[i] < ids[i + 1]
    ensures ids[i] !in Sends(ls) && ids[i] !in t.accepted
    ensures !Queued(t, ids[i]) && !Held(t, ids[i]) && !Delivered(t, ids[i])
  {
    assert RefusedBefore(c, ls, ids[i + 1 - 1], ids[i + 1]);
    var k: nat, s: State :| k <= |ls| && Reaches(c, ls[..k], s) && InPhase(s, ids[i], Busy) && |s.reqs| <= ids[i + 1];
    RunsSplit(c, Init(c), ls, k, s, t);
    BusyForever(c, s, ls[k..], t, ids[i]);
    RefusedStaysOut(c, ls[..k], s, ls[k..], t, ids[i]);
    SendsAreAccepted(c, Init(c), ls, t);
    assert [] + Sends(ls) == Sends(ls);
  }

  // ---- Progress and drain ----

  /** While a job is queued every worker is busy or can take one. */
  lemma QueuedMoves(c: Setup, s: State, id: nat)
    requires Inv(c, s) && id in s.queue
    ensures exists l: Label :: l.ByWorker() && Enabled(c, s, l)
  {
    assert s.workers[0] in s.workers;
    if s.workers[0].Holding? {
      assert HeldBy(s, s.workers[0].id, 0);
      assert Deliver(0).ByWorker() && Enabled(c, s, Deliver(0));
    } else {
      assert Take(0).ByWorker() && Enabled(c, s, Take(0));
    }
  }

  /** A submitter without its result has its job with a worker that can move, or queued before one that can. */
  lemma WaitingMoves(c: Setup, s: State, id: nat)
    requires Inv(c, s) && InPhase(s, id, Waiting) && s.reqs[id].inbox == []
    ensures exists l: Label :: l.ByWorker() && Enabled(c, s, l)
  {
    assert ChannelOk(c, s, id);
    if id in s.begun {
      var w: nat :| HeldBy(s, id, w);
      assert Deliver(w).ByWorker() && Enabled(c, s, Deliver(w));
    } else {
      QueuedMoves(c, s, id);
    }
  }

  /** The pool never stalls: a waiting submitter has its result, or some worker can move. */
  lemma NoLostJob(c: Setup, ls: seq<Label>, t: State, id: nat)
    requires Reaches(c, ls, t) && InPhase(t, id, Waiting)
    ensures Enabled(c, t, Receive(id)) || exists l: Label :: l.ByWorker() && Enabled(c, t, l)
  {
    ReachedInv(c, ls, t);
    if t.reqs[id].inbox == [] {
      WaitingMoves(c, t, id);
    }
  }

  /** Worker steps, at most, before the job at queue position p is begun: two for each ahead, one for each in work. */
  function Ahead(s: State, p: nat): nat {
    2 * p + Working(s.workers)
  }

  /** While the job waits, every worker step brings it nearer and no other step holds it up. */
  lemma AheadFalls(c: Setup, s: State, l: Label, p: nat)
    requires Inv(c, s) && Enabled(c, s, l) && p < |s.queue| && (l.Take? ==> p > 0)
    ensures var t := Apply(c, s, l); var p' := if l.Take? then p - 1 else p;
            && p' < |t.queue| && t.queue[p'] == s.queue[p]
            && Ahead(t, p') == Ahead(s, p) - (if l.ByWorker() then 1 else 0)
  {
    var t := Apply(c, s, l);
    if l.ByWorker() {
      CountsAfter(s.workers, l.w, t.workers[l.w]);
    } else if l.Spawn? {
      CountsAfter(s.workers, s.spawned, Idle);
    }
  }

  lemma {:induction false} BegunKept(c: Setup, s: State, ls: seq<Label>, t: State, id: nat)
    requires Runs(c, s, ls, t) && id in s.begun
    ensures id in t.begun
    decreases |ls|
  {
    if ls != [] {
      BegunKept(c, Apply(c, s, ls[0]), ls[1..], t, id);
    }
  }

  function WorkerSteps(ls: seq<Label>): nat {
    if ls == [] then 0 else (if ls[0].ByWorker() then 1 else 0) + WorkerSteps(ls[1..])
  }

  lemma {:induction false} BegunSoonFrom(c: Setup, s: State, p: nat, ls: seq<Label>, t: State)
    requires Inv(c, s) && p < |s.queue| && Runs(c, s, ls, t)
    ensures s.queue[p] in t.begun || (s.queue[p] in t.queue && WorkerSteps(ls) <= Ahead(s, p))
    decreases |ls|
  {
    if ls != [] {
      var l, s' := ls[0], Apply(c, s, ls[0]);
      StepInv(c, s, l);
      if l.Take? && p == 0 {
        assert s.queue[p] in s'.begun;
        BegunKept(c, s', ls[1..], t, s.queue[p]);
      } else {
        AheadFalls(c, s, l, p);
        BegunSoonFrom(c, s', if l.Take? then p - 1 else p, ls[1..], t);
      }
    }
  }

  /**
   Nobody waits in vain: whatever the scheduler does, a queued job is begun within
   `Ahead` + 1 worker steps, at most five per worker; and until it is, some worker can take a step.
   */
  lemma BegunSoon(c: Setup, before: seq<Label>, s: State, p: nat, ls: seq<Label>, t: State)
    requires Reaches(c, before, s) && p < |s.queue| && Runs(c, s, ls, t)
    ensures WorkerSteps(ls) > Ahead(s, p) ==> s.queue[p] in t.begun
    ensures s.queue[p] in t.begun || exists l: Label :: l.ByWorker() && Enabled(c, t, l)
    ensures Ahead(s, p) < 5 * c.workers
  {
    ReachedInv(c, before, s);
    BegunSoonFrom(c, s, p, ls, t);
    RunInv(c, s, ls, t);
    CountsBounded(s.workers);
    if s.queue[p] !in t.begun {
      QueuedMoves(c, t, s.queue[p]);
    }
  }

  lemma {:induction false} UnfinishedZero(reqs: seq<Request>, ids: seq<nat>)
    requires forall id :: id in ids ==> id < |reqs| && reqs[id].sent == 1
    ensures Unsent(reqs, ids) == 0
  {
    if ids != [] {
      assert ids[0] in ids && forall id :: id in ids[1..] ==> id in ids;
      UnfinishedZero(reqs, ids[1..]);
    }
  }

  /** When `Stop` returns, every job ever accepted has been converted and its result delivered. */
  lemma StopDrains(c: Setup, ls: seq<Label>, t: State, id: nat)
    requires Reaches(c, ls, t) && t.stopped && id in t.accepted
    ensures id < |t.reqs| && Delivered(t, id) && t.queue == [] && Unfinished(t) == 0
    ensures exists r :: ConversionOf(c, t.reqs[id].job, r) && (t.reqs[id].phase == Got(r) || t.reqs[id].inbox == [r])
  {
    ReachedInv(c, ls, t);
    assert ChannelOk(c, t, id);
    DispatchConverts(c, t.reqs[id].job, Own(c, t, id));
    UnfinishedZero(t.reqs, t.accepted);
    UnfinishedCount(c, t);
  }

  /** What the workers still have to do once the queue is closed. */
  function Work(s: State): nat {
    2 * |s.queue| + Working(s.workers) + Remaining(s.workers)
  }

  /** A worker step uses up work, before closing as well, and leaves the submitters' side alone. */
  lemma WorkerUsesWork(c: Setup, s: State, l: Label)
    requires l.ByWorker() && Enabled(c, s, l)
    ensures Work(Apply(c, s, l)) == Work(s) - 1
    ensures Apply(c, s, l).closed == s.closed && |Apply(c, s, l).reqs| == |s.reqs|
    ensures forall id :: 0 <= id < |s.reqs| ==>
              var q, q' := s.reqs[id], Apply(c, s, l).reqs[id];
              (q'.job, q'.phase, q'.cancelled) == (q.job, q.phase, q.cancelled)
  {
    var t := Apply(c, s, l);
    CountsAfter(s.workers, l.w, t.workers[l.w]);
  }

  /** After closing, every worker step uses up work and nobody else adds any. */
  lemma WorkFalls(c: Setup, s: State, l: Label)
    requires WorkersOk(c, s) && s.closed && Enabled(c, s, l)
    ensures Apply(c, s, l).closed
    ensures Work(Apply(c, s, l)) == Work(s) - (if l.ByWorker() then 1 else 0)
  {
    var t := Apply(c, s, l);
    if l.ByWorker() {
      WorkerUsesWork(c, s, l);
    } else if l.Spawn? {
      CountsAfter(s.workers, s.spawned, Idle);
    } else {
      assert t.queue == s.queue && t.workers == s.workers;
    }
  }

  lemma {:induction false} WorkSpent(c: Setup, s: State, ls: seq<Label>, t: State)
    requires Inv(c, s) && s.closed && Runs(c, s, ls, t)
    ensures Inv(c, t) && t.closed && WorkerSteps(ls) + Work(t) == Work(s)
    decreases |ls|
  {
    if ls != [] {
      WorkFalls(c, s, ls[0]);
      StepInv(c, s, ls[0]);
      WorkSpent(c, Apply(c, s, ls[0]), ls[1..], t);
    }
  }

  /** However long the run, few of its steps after closing are workers'. */
  lemma StepsAfterClosing(c: Setup, s: State, ls: seq<Label>, t: State)
    requires Inv(c, s) && s.closed && Runs(c, s, ls, t)
    ensures WorkerSteps(ls) <= Work(s) <= 6 * c.workers
  {
    WorkSpent(c, s, ls, t);
    CountsBounded(s.workers);
  }

  /** After closing nothing more is accepted. */
  lemma {:induction false} ClosedAcceptsNothing(c: Setup, s: State, ls: seq<Label>, t: State)
    requires Runs(c, s, ls, t) && s.closed
    ensures t.closed && t.accepted == s.accepted
    decreases |ls|
  {
    if ls != [] {
      ClosedAcceptsNothing(c, Apply(c, s, ls[0]), ls[1..], t);
    }
  }

  /** While `Stop` waits, some worker can move. */
  lemma StopNeverStuck(c: Setup, s: State)
    requires Inv(c, s) && s.closed && s.wg > 0
    ensures exists l: Label :: l.ByWorker() && Enabled(c, s, l)
  {
    CountsBounded(s.workers);
    var x :| x in s.workers && !x.Unborn? && !x.Exited?;
    var w: nat :| w < |s.workers| && s.workers[w] == x;
    if x.Holding? {
      assert HeldBy(s, x.id, w);
      assert Deliver(w).ByWorker() && Enabled(c, s, Deliver(w));
    } else if s.queue != [] {
      assert Take(w).ByWorker() && Enabled(c, s, Take(w));
    } else {
      assert Exit(w).ByWorker() && Enabled(c, s, Exit(w));
    }
  }

  /**
   `Stop` terminates: from closing on, the workers take at most `Work` steps, and a run
   that has come to the point where no worker can move is one where `Stop` can return
   and every accepted job is delivered.
   */
  lemma StopTerminates(c: Setup, before: seq<Label>, s: State, ls: seq<Label>, t: State)
    requires Reaches(c, before, s) && s.closed && Runs(c, s, ls, t)
    ensures WorkerSteps(ls) <= Work(s) <= 6 * c.workers
    ensures (forall l: Label :: l.ByWorker() ==> !Enabled(c, t, l)) ==>
              Enabled(c, t, StopReturn) && forall id :: id in t.accepted ==> Delivered(t, id)
  {
    ReachedInv(c, before, s);
    WorkSpent(c, s, ls, t);
    StepsAfterClosing(c, s, ls, t);
    if t.wg > 0 {
      StopNeverStuck(c, t);
    } else {
      AllSent(c, t);
    }
  }
}
