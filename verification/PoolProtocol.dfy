/**
 The worker pool of internal/converter/pool.go as a labelled step system.

 One label is one atomic action of a submitter, a worker, `Start` or `Stop`; the
 interleaving is arbitrary.  A job is named by the index of the `Submit` call that
 created it.  Conversion is an unknown function of the call a worker makes.
 */
module PoolProtocol {
  import opened Bytes

  datatype Job = Job(data: Bytes, scale: real, quality: int)

  /** The four conversion entry points. */
  datatype Call =
    | FastWithQuality(data: Bytes, scale: real, quality: int)
    | Fast(data: Bytes, scale: real)
    | WithQuality(data: Bytes, quality: int)
    | Plain(data: Bytes)

  datatype Result = Converted(image: Bytes) | Failed(error: string)

  datatype Setup = Setup(workers: nat, convert: Call -> Result)

  function Capacity(c: Setup): nat {
    c.workers * 2
  }

  /** The call a worker makes for a job. */
  function Dispatch(j: Job): Call {
    if j.quality > 0 && j.scale > 0.0 && j.scale < 1.0 then FastWithQuality(j.data, j.scale, j.quality)
    else if j.scale > 0.0 && j.scale < 1.0 then Fast(j.data, j.scale)
    else if j.quality > 0 then WithQuality(j.data, j.quality)
    else Plain(j.data)
  }

  /** The call for a job: its data, its scale if that lies strictly between 0 and 1, its quality if positive. */
  predicate Carries(call: Call, j: Job) {
    && call.data == j.data
    && (call.FastWithQuality? || call.Fast? <==> 0.0 < j.scale < 1.0)
    && (call.FastWithQuality? || call.Fast? ==> call.scale == j.scale)
    && (call.FastWithQuality? || call.WithQuality? <==> j.quality > 0)
    && (call.FastWithQuality? || call.WithQuality? ==> call.quality == j.quality)
  }

  /** The worker's call carries what the job says, and is the only one that does. */
  lemma DispatchCarries(j: Job)
    ensures forall call: Call :: Carries(call, j) <==> call == Dispatch(j)
  {
  }

  /** `r` is what the conversion makes of the job. */
  ghost predicate ConversionOf(c: Setup, j: Job, r: Result) {
    exists call: Call :: Carries(call, j) && r == c.convert(call)
  }

  lemma DispatchConverts(c: Setup, j: Job, r: Result)
    ensures ConversionOf(c, j, r) <==> r == c.convert(Dispatch(j))
  {
    DispatchCarries(j);
    assert Carries(Dispatch(j), j);
  }

  /** Where a `Submit` call stands. */
  datatype Phase =
    | Called              // before or inside Start
    | Ready               // at the outer select
    | Waiting             // job sent, at the inner select
    | Got(r: Result)      // returned the result
    | Cancelled           // returned the context error, job never sent
    | Abandoned           // returned the context error after sending the job
    | Busy                // returned ErrPoolBusy
    | Panicked            // sent on a closed channel

  /** `inbox` is the result channel, of capacity one; `sent` and `dropped` count what its worker did. */
  datatype Request = Request(job: Job, cancelled: bool, phase: Phase, inbox: seq<Result>, sent: nat, dropped: nat)

  datatype Worker = Unborn | Idle | Holding(id: nat) | Exited

  datatype Once = NotBegun | Spawning | Begun

  /** `accepted` and `begun` are history: the jobs sent to, and taken from, the queue, in order. */
  datatype State = State(
    queue: seq<nat>, workers: seq<Worker>, spawned: nat, wg: nat, once: Once, closed: bool, stopped: bool,
    reqs: seq<Request>, accepted: seq<nat>, begun: seq<nat>)

  datatype Label =
    | BeginStart | Spawn | EndStart
    | Enter(job: Job) | Cancel(id: nat) | PassStart(id: nat)
    | Enqueue(id: nat) | GiveUp(id: nat) | RefuseBusy(id: nat) | SendClosed(id: nat)
    | Receive(id: nat) | Abandon(id: nat)
    | Take(w: nat) | Deliver(w: nat) | Exit(w: nat)
    | Close | StopReturn
  {
    predicate ByWorker() {
      Take? || Deliver? || Exit?
    }
  }

  function Init(c: Setup): State {
    State([], seq(c.workers, _ => Unborn), 0, 0, NotBegun, false, false, [], [], [])
  }

  predicate InPhase(s: State, id: nat, p: Phase) {
    id < |s.reqs| && s.reqs[id].phase == p
  }

  predicate Enabled(c: Setup, s: State, l: Label) {
    match l
    case BeginStart => s.once == NotBegun
    case Spawn => s.once == Spawning && s.spawned < |s.workers|
    case EndStart => s.once == Spawning && s.spawned == |s.workers|
    case Enter(_) => true
    case Cancel(id) => id < |s.reqs|
    case PassStart(id) => InPhase(s, id, Called) && s.once == Begun
    case Enqueue(id) => InPhase(s, id, Ready) && !s.closed && |s.queue| < Capacity(c)
    case GiveUp(id) => InPhase(s, id, Ready) && s.reqs[id].cancelled
    case RefuseBusy(id) => InPhase(s, id, Ready) && !s.reqs[id].cancelled && !s.closed && !(|s.queue| < Capacity(c))
    case SendClosed(id) => InPhase(s, id, Ready) && s.closed
    case Receive(id) => InPhase(s, id, Waiting) && s.reqs[id].inbox != []
    case Abandon(id) => InPhase(s, id, Waiting) && s.reqs[id].cancelled
    case Take(w) => w < |s.workers| && s.workers[w] == Idle && s.queue != []
    case Deliver(w) => w < |s.workers| && s.workers[w].Holding? && s.workers[w].id < |s.reqs|
    case Exit(w) => w < |s.workers| && s.workers[w] == Idle && s.queue == [] && s.closed && s.wg > 0
    case Close => !s.closed
    case StopReturn => s.closed && s.wg == 0
  }

  function SetPhase(s: State, id: nat, p: Phase): State
    requires id < |s.reqs|
  {
    s.(reqs := s.reqs[id := s.reqs[id].(phase := p)])
  }

  /** A worker's non-blocking send: into the channel if it has room, else dropped. */
  function Posted(q: Request, r: Result): Request {
    if |q.inbox| < 1 then q.(inbox := q.inbox + [r], sent := q.sent + 1) else q.(dropped := q.dropped + 1)
  }

  function Apply(c: Setup, s: State, l: Label): State
    requires Enabled(c, s, l)
  {
    match l
    case BeginStart => s.(once := Spawning)
    case Spawn => s.(workers := s.workers[s.spawned := Idle], spawned := s.spawned + 1, wg := s.wg + 1)
    case EndStart => s.(once := Begun)
    case Enter(job) => s.(reqs := s.reqs + [Request(job, false, Called, [], 0, 0)])
    case Cancel(id) => s.(reqs := s.reqs[id := s.reqs[id].(cancelled := true)])
    case PassStart(id) => SetPhase(s, id, Ready)
    case Enqueue(id) => SetPhase(s, id, Waiting).(queue := s.queue + [id], accepted := s.accepted + [id])
    case GiveUp(id) => SetPhase(s, id, Phase.Cancelled)
    case RefuseBusy(id) => SetPhase(s, id, Busy)
    case SendClosed(id) => SetPhase(s, id, Panicked)
    case Receive(id) =>
      var q := s.reqs[id];
      s.(reqs := s.reqs[id := q.(phase := Got(q.inbox[0]), inbox := q.inbox[1..])])
    case Abandon(id) => SetPhase(s, id, Abandoned)
    case Take(w) =>
      s.(workers := s.workers[w := Holding(s.queue[0])], queue := s.queue[1..], begun := s.begun + [s.queue[0]])
    case Deliver(w) =>
      var id := s.workers[w].id;
      s.(workers := s.workers[w := Idle],
         reqs := s.reqs[id := Posted(s.reqs[id], c.convert(Dispatch(s.reqs[id].job)))])
    case Exit(w) => s.(workers := s.workers[w := Exited], wg := s.wg - 1)
    case Close => s.(closed := true)
    case StopReturn => s.(stopped := true)
  }

  /** `ls` leads from `s` to `t`. */
  ghost predicate Runs(c: Setup, s: State, ls: seq<Label>, t: State)
    decreases |ls|
  {
    if ls == [] then s == t
    else Enabled(c, s, ls[0]) && Runs(c, Apply(c, s, ls[0]), ls[1..], t)
  }

  lemma {:induction false} RunsConcat(c: Setup, s: State, ls: seq<Label>, t: State, ms: seq<Label>, u: State)
    requires Runs(c, s, ls, t) && Runs(c, t, ms, u)
    ensures Runs(c, s, ls + ms, u)
    decreases |ls|
  {
    if ls == [] {
      assert ls + ms == ms;
    } else {
      assert (ls + ms)[1..] == ls[1..] + ms;
      RunsConcat(c, Apply(c, s, ls[0]), ls[1..], t, ms, u);
    }
  }

  lemma RunsSnoc(c: Setup, s: State, ls: seq<Label>, t: State, l: Label)
    requires Runs(c, s, ls, t) && Enabled(c, t, l)
    ensures Runs(c, s, ls + [l], Apply(c, t, l))
  {
    assert [l][1..] == [];
    RunsConcat(c, s, ls, t, [l], Apply(c, t, l));
  }

  // ---- Counting ----

  function Alive(ws: seq<Worker>): nat {
    if ws == [] then 0 else (if ws[0].Idle? || ws[0].Holding? then 1 else 0) + Alive(ws[1..])
  }

  function Working(ws: seq<Worker>): nat {
    if ws == [] then 0 else (if ws[0].Holding? then 1 else 0) + Working(ws[1..])
  }

  function Remaining(ws: seq<Worker>): nat {
    if ws == [] then 0 else (if ws[0].Exited? then 0 else 1) + Remaining(ws[1..])
  }

  lemma {:induction false} CountsAfter(ws: seq<Worker>, w: nat, x: Worker)
    requires w < |ws|
    ensures Alive(ws[w := x]) == Alive(ws) - Alive([ws[w]]) + Alive([x])
    ensures Working(ws[w := x]) == Working(ws) - Working([ws[w]]) + Working([x])
    ensures Remaining(ws[w := x]) == Remaining(ws) - Remaining([ws[w]]) + Remaining([x])
  {
    if w == 0 {
      assert ws[w := x][1..] == ws[1..];
    } else {
      assert ws[w := x][1..] == ws[1..][w - 1 := x];
      CountsAfter(ws[1..], w - 1, x);
    }
  }

  lemma {:induction false} CountsBounded(ws: seq<Worker>)
    ensures Working(ws) <= Alive(ws) <= Remaining(ws) <= |ws|
    ensures Alive(ws) == 0 <==> forall x :: x in ws ==> x.Unborn? || x.Exited?
  {
    if ws != [] {
      CountsBounded(ws[1..]);
      assert forall x :: x in ws <==> x == ws[0] || x in ws[1..];
    }
  }

  /** How many of `ids` have no result sent yet. */
  function Unsent(reqs: seq<Request>, ids: seq<nat>): nat {
    if ids == [] then 0
    else Unsent(reqs, ids[1..]) + (if ids[0] < |reqs| && reqs[ids[0]].sent > 0 then 0 else 1)
  }

  lemma {:induction false} UnsentConcat(reqs: seq<Request>, xs: seq<nat>, ys: seq<nat>)
    ensures Unsent(reqs, xs + ys) == Unsent(reqs, xs) + Unsent(reqs, ys)
  {
    if xs == [] {
      assert xs + ys == ys;
    } else {
      assert (xs + ys)[1..] == xs[1..] + ys;
      UnsentConcat(reqs, xs[1..], ys);
    }
  }

  lemma {:induction false} UnsentSame(reqs: seq<Request>, reqs': seq<Request>, ids: seq<nat>)
    requires |reqs| <= |reqs'|
    requires forall id :: id in ids ==> id < |reqs| && reqs'[id].sent == reqs[id].sent
    ensures Unsent(reqs', ids) == Unsent(reqs, ids)
  {
    if ids != [] {
      assert forall id :: id in ids[1..] ==> id in ids;
      UnsentSame(reqs, reqs', ids[1..]);
    }
  }

  ghost predicate Distinct(ids: seq<nat>) {
    forall i, j :: 0 <= i < j < |ids| ==> ids[i] != ids[j]
  }

  lemma {:induction false} UnsentFalls(reqs: seq<Request>, id: nat, q: Request, ids: seq<nat>)
    requires id < |reqs| && reqs[id].sent == 0 && q.sent > 0
    requires Distinct(ids) && id in ids && forall i :: i in ids ==> i < |reqs|
    ensures Unsent(reqs[id := q], ids) == Unsent(reqs, ids) - 1
  {
    assert forall i :: i in ids[1..] ==> i in ids;
    if ids[0] == id {
      forall i | i in ids[1..] ensures i != id {
        var k :| 0 <= k < |ids[1..]| && ids[1..][k] == i;
        assert ids[k + 1] == i;
      }
      UnsentSame(reqs, reqs[id := q], ids[1..]);
    } else {
      UnsentFalls(reqs, id, q, ids[1..]);
    }
  }

  // ---- The invariant ----

  /** The conversion of a request's own data, scale and quality. */
  function Own(c: Setup, s: State, id: nat): Result
    requires id < |s.reqs|
  {
    c.convert(Dispatch(s.reqs[id].job))
  }

  predicate WasAccepted(p: Phase) {
    p.Waiting? || p.Got? || p.Abandoned?
  }

  /** The result channel of one request, against what its worker has done. */
  ghost predicate ChannelOk(c: Setup, s: State, id: nat)
    requires id < |s.reqs|
  {
    var q := s.reqs[id];
    && q.dropped == 0
    && q.sent <= 1
    && (q.phase.Got? ==> q.sent == 1 && q.inbox == [] && q.phase.r == Own(c, s, id))
    && (!q.phase.Got? ==> q.inbox == if q.sent == 1 then [Own(c, s, id)] else [])
    && (q.sent == 1 ==> id in s.begun)
    && (WasAccepted(q.phase) <==> id in s.accepted)
    && (!q.phase.Called? ==> s.once == Begun)
  }

  ghost predicate HeldBy(s: State, id: nat, w: nat) {
    w < |s.workers| && s.workers[w] == Holding(id)
  }

  ghost predicate QueueOk(c: Setup, s: State) {
    && s.accepted == s.begun + s.queue
    && Distinct(s.accepted)
    && |s.queue| <= Capacity(c)
    && (forall id :: id in s.accepted ==> id < |s.reqs|)
    && (s.accepted != [] ==> s.once == Begun)
  }

  ghost predicate WorkersOk(c: Setup, s: State) {
    && |s.workers| == c.workers
    && s.spawned <= c.workers
    && (s.once == NotBegun ==> s.spawned == 0)
    && (s.once == Begun ==> s.spawned == c.workers)
    && (forall w :: 0 <= w < |s.workers| ==> (s.workers[w].Unborn? <==> s.spawned <= w))
    && s.wg == Alive(s.workers)
    && (Exited in s.workers ==> s.closed && s.queue == [])
  }

  ghost predicate HoldersOk(s: State) {
    && (forall w: nat, id: nat :: HeldBy(s, id, w) ==> id in s.begun && id < |s.reqs| && s.reqs[id].sent == 0)
    && (forall w: nat, w': nat, id: nat :: HeldBy(s, id, w) && HeldBy(s, id, w') ==> w == w')
    && (forall id :: id in s.begun && id < |s.reqs| && s.reqs[id].sent == 0 ==> exists w: nat :: HeldBy(s, id, w))
    && Unsent(s.reqs, s.begun) == Working(s.workers)
  }

  ghost predicate Inv(c: Setup, s: State) {
    && QueueOk(c, s)
    && WorkersOk(c, s)
    && HoldersOk(s)
    && (forall id :: 0 <= id < |s.reqs| ==> ChannelOk(c, s, id))
    && (s.stopped ==> s.closed && forall id :: id in s.accepted ==> s.reqs[id].sent == 1)
  }

  lemma InitInv(c: Setup)
    ensures Inv(c, Init(c))
  {
    var s := Init(c);
    assert forall w :: 0 <= w < |s.workers| ==> s.workers[w] == Unborn;
    CountsBounded(s.workers);
    assert s.accepted == s.begun + s.queue;
  }

  lemma BegunDistinct(c: Setup, s: State)
    requires QueueOk(c, s)
    ensures Distinct(s.begun) && forall id :: id in s.begun ==> id < |s.reqs|
    ensures forall id :: id in s.queue ==> id < |s.reqs| && id in s.accepted && id !in s.begun
  {
    forall i | 0 <= i < |s.begun|
      ensures s.begun[i] == s.accepted[i] && s.begun[i] in s.accepted
    {
    }
    forall i | 0 <= i < |s.queue|
      ensures s.queue[i] == s.accepted[|s.begun| + i] && s.queue[i] in s.accepted && s.queue[i] !in s.begun
    {
    }
  }

  lemma ReplacedHolders(c: Setup, s: State, id: nat, q: Request)
    requires Inv(c, s) && id < |s.reqs| && q.sent == s.reqs[id].sent
    ensures HoldersOk(s.(reqs := s.reqs[id := q]))
  {
    var t := s.(reqs := s.reqs[id := q]);
    BegunDistinct(c, s);
    UnsentSame(s.reqs, t.reqs, s.begun);
    assert forall w: nat, i: nat :: HeldBy(t, i, w) <==> HeldBy(s, i, w);
  }

  /** Changing one request's phase, flag or inbox, but not what was sent, touches nothing else. */
  lemma KeepReplaced(c: Setup, s: State, id: nat, q: Request)
    requires Inv(c, s) && id < |s.reqs| && q.sent == s.reqs[id].sent
    requires ChannelOk(c, s.(reqs := s.reqs[id := q]), id)
    ensures Inv(c, s.(reqs := s.reqs[id := q]))
  {
    var t := s.(reqs := s.reqs[id := q]);
    ReplacedHolders(c, s, id, q);
    forall i | 0 <= i < |t.reqs|
      ensures ChannelOk(c, t, i)
    {
      assert ChannelOk(c, s, i);
    }
  }

  /** The steps of a submitter, and of its context, that leave the queue alone. */
  lemma KeepRequest(c: Setup, s: State, l: Label, id: nat)
    requires Inv(c, s) && Enabled(c, s, l)
    requires l in {Cancel(id), PassStart(id), GiveUp(id), RefuseBusy(id), SendClosed(id), Receive(id), Abandon(id)}
    ensures Inv(c, Apply(c, s, l))
  {
    var t := Apply(c, s, l);
    assert ChannelOk(c, s, id);
    assert t == s.(reqs := s.reqs[id := t.reqs[id]]);
    KeepReplaced(c, s, id, t.reqs[id]);
  }

  lemma KeepEnter(c: Setup, s: State, job: Job)
    requires Inv(c, s)
    ensures Inv(c, Apply(c, s, Enter(job)))
  {
    var t := Apply(c, s, Enter(job));
    BegunDistinct(c, s);
    UnsentSame(s.reqs, t.reqs, s.begun);
    assert forall w: nat, i: nat :: HeldBy(t, i, w) <==> HeldBy(s, i, w);
    forall i | 0 <= i < |t.reqs|
      ensures ChannelOk(c, t, i)
    {
      if i < |s.reqs| {
        assert ChannelOk(c, s, i);
      }
    }
  }

  /** Steps that leave the requests and the queue alone leave the channels and the holders alone. */
  lemma KeepChannels(c: Setup, s: State, t: State)
    requires Inv(c, s) && t.reqs == s.reqs && t.accepted == s.accepted && t.begun == s.begun
    requires s.once == Begun ==> t.once == Begun
    requires Working(t.workers) == Working(s.workers)
    requires forall w: nat, id: nat :: HeldBy(t, id, w) <==> HeldBy(s, id, w)
    ensures HoldersOk(t) && forall id :: 0 <= id < |t.reqs| ==> ChannelOk(c, t, id)
  {
    forall id | 0 <= id < |t.reqs|
      ensures ChannelOk(c, t, id)
    {
      assert ChannelOk(c, s, id);
    }
  }

  lemma KeepSpawn(c: Setup, s: State)
    requires Inv(c, s) && Enabled(c, s, Spawn)
    ensures Inv(c, Apply(c, s, Spawn))
  {
    var t := Apply(c, s, Spawn);
    CountsAfter(s.workers, s.spawned, Idle);
    KeepChannels(c, s, t);
  }

  lemma KeepFlag(c: Setup, s: State, l: Label)
    requires Inv(c, s) && Enabled(c, s, l) && (l.BeginStart? || l.EndStart? || l.Close?)
    ensures Inv(c, Apply(c, s, l))
  {
    var t := Apply(c, s, l);
    KeepChannels(c, s, t);
  }

  lemma EnqueueChannel(c: Setup, s: State, id: nat, i: nat)
    requires Enabled(c, s, Enqueue(id)) && i < |s.reqs| && ChannelOk(c, s, i) && ChannelOk(c, s, id)
    ensures ChannelOk(c, Apply(c, s, Enqueue(id)), i)
  {
  }

  lemma KeepEnqueue(c: Setup, s: State, id: nat)
    requires Inv(c, s) && Enabled(c, s, Enqueue(id))
    ensures Inv(c, Apply(c, s, Enqueue(id)))
  {
    var t := Apply(c, s, Enqueue(id));
    assert ChannelOk(c, s, id);
    assert QueueOk(c, t);
    BegunDistinct(c, s);
    UnsentSame(s.reqs, t.reqs, s.begun);
    assert forall w: nat, i: nat :: HeldBy(t, i, w) <==> HeldBy(s, i, w);
    assert HoldersOk(t) && WorkersOk(c, t);
    forall i | 0 <= i < |t.reqs|
      ensures ChannelOk(c, t, i)
    {
      EnqueueChannel(c, s, id, i);
    }
  }

  lemma TakeHolders(c: Setup, s: State, w: nat)
    requires Inv(c, s) && Enabled(c, s, Take(w))
    ensures HoldersOk(Apply(c, s, Take(w)))
  {
    var t := Apply(c, s, Take(w));
    var id := s.queue[0];
    CountsAfter(s.workers, w, Holding(id));
    BegunDistinct(c, s);
    assert id in s.queue;
    assert ChannelOk(c, s, id);
    UnsentConcat(s.reqs, s.begun, [id]);
    assert HeldBy(t, id, w);
    forall i: nat | i in t.begun && i < |t.reqs| && t.reqs[i].sent == 0
      ensures exists v: nat :: HeldBy(t, i, v)
    {
      if i != id {
        var v: nat :| HeldBy(s, i, v);
        assert HeldBy(t, i, v);
      }
    }
    forall v: nat, i: nat | HeldBy(t, i, v)
      ensures if v == w then i == id else HeldBy(s, i, v)
    {
    }
  }

  lemma KeepTake(c: Setup, s: State, w: nat)
    requires Inv(c, s) && Enabled(c, s, Take(w))
    ensures Inv(c, Apply(c, s, Take(w)))
  {
    var t := Apply(c, s, Take(w));
    TakeHolders(c, s, w);
    CountsAfter(s.workers, w, Holding(s.queue[0]));
    assert s.accepted == t.begun + t.queue;
    forall i | 0 <= i < |t.reqs|
      ensures ChannelOk(c, t, i)
    {
      assert ChannelOk(c, s, i);
    }
  }

  lemma KeepDeliver(c: Setup, s: State, w: nat)
    requires Inv(c, s) && Enabled(c, s, Deliver(w))
    ensures Inv(c, Apply(c, s, Deliver(w)))
  {
    var t := Apply(c, s, Deliver(w));
    var id := s.workers[w].id;
    assert HeldBy(s, id, w);
    assert ChannelOk(c, s, id);
    CountsAfter(s.workers, w, Idle);
    BegunDistinct(c, s);
    UnsentFalls(s.reqs, id, t.reqs[id], s.begun);
    assert t.reqs == s.reqs[id := t.reqs[id]];
    forall v: nat, i: nat | HeldBy(t, i, v)
      ensures HeldBy(s, i, v) && v != w && i != id
    {
      assert HeldBy(s, i, v);
    }
    forall i: nat | i in t.begun && i < |t.reqs| && t.reqs[i].sent == 0
      ensures exists v: nat :: HeldBy(t, i, v)
    {
      var v: nat :| HeldBy(s, i, v);
      assert HeldBy(t, i, v);
    }
    forall i | 0 <= i < |t.reqs|
      ensures ChannelOk(c, t, i)
    {
      assert ChannelOk(c, s, i);
    }
  }

  lemma KeepExit(c: Setup, s: State, w: nat)
    requires Inv(c, s) && Enabled(c, s, Exit(w))
    ensures Inv(c, Apply(c, s, Exit(w)))
  {
    var t := Apply(c, s, Exit(w));
    CountsAfter(s.workers, w, Exited);
    KeepChannels(c, s, t);
  }

  /** Once closed with no worker alive, every accepted job has had its result sent. */
  lemma AllSent(c: Setup, s: State)
    requires Inv(c, s) && s.closed && s.wg == 0
    ensures forall id :: id in s.accepted ==> s.reqs[id].sent == 1
    ensures s.queue == []
  {
    CountsBounded(s.workers);
    if s.accepted != [] && c.workers > 0 {
      assert s.workers[0] == Exited;
    }
    assert s.queue == [];
    forall w: nat, id: nat
      ensures !HeldBy(s, id, w)
    {
      assert w < |s.workers| ==> s.workers[w] in s.workers;
    }
    forall id | id in s.accepted
      ensures s.reqs[id].sent == 1
    {
      assert ChannelOk(c, s, id);
    }
  }

  lemma KeepStopReturn(c: Setup, s: State)
    requires Inv(c, s) && Enabled(c, s, StopReturn)
    ensures Inv(c, Apply(c, s, StopReturn))
  {
    var t := Apply(c, s, StopReturn);
    AllSent(c, s);
    KeepChannels(c, s, t);
  }

  /** Every step of every party keeps the invariant. */
  lemma StepInv(c: Setup, s: State, l: Label)
    requires Inv(c, s) && Enabled(c, s, l)
    ensures Inv(c, Apply(c, s, l))
  {
    match l {
      case Spawn => KeepSpawn(c, s);
      case BeginStart | EndStart | Close => KeepFlag(c, s, l);
      case Enqueue(id) => KeepEnqueue(c, s, id);
      case Take(w) => KeepTake(c, s, w);
      case Deliver(w) => KeepDeliver(c, s, w);
      case Exit(w) => KeepExit(c, s, w);
      case StopReturn => KeepStopReturn(c, s);
      case Enter(job) => KeepEnter(c, s, job);
      case Cancel(id) => KeepRequest(c, s, l, id);
      case PassStart(id) => KeepRequest(c, s, l, id);
      case GiveUp(id) => KeepRequest(c, s, l, id);
      case RefuseBusy(id) => KeepRequest(c, s, l, id);
      case SendClosed(id) => KeepRequest(c, s, l, id);
      case Receive(id) => KeepRequest(c, s, l, id);
      case Abandon(id) => KeepRequest(c, s, l, id);
    }
  }

  lemma {:induction false} RunInv(c: Setup, s: State, ls: seq<Label>, t: State)
    requires Inv(c, s) && Runs(c, s, ls, t)
    ensures Inv(c, t)
    decreases |ls|
  {
    if ls != [] {
      StepInv(c, s, ls[0]);
      RunInv(c, Apply(c, s, ls[0]), ls[1..], t);
    }
  }
}
