/**
 The pool as the mutable object of internal/converter/pool.go.

 The small methods are the code between two scheduling points; each contract says which
 step of the protocol the code takes, and `TakeStep` that together they take every step.
 `Start`, `Submit` and `Stop` are whole calls, composed of them.  Around and during such a
 call other parties move as a list of labels says; where it has to wait, workers chosen
 arbitrarily move until it can go on.
 */
module WorkerPools {
  import opened PoolProtocol
  import opened PoolTheorems
  import opened Wrappers

  /** What a reachable pool looks like from `Start`. */
  lemma Spawned(c: Setup, s: State)
    requires Reachable(c, s)
    ensures |s.workers| == c.workers && s.spawned <= c.workers
    ensures s.once == NotBegun ==> s.spawned == 0
    ensures s.once == Begun ==> s.spawned == c.workers
    ensures s.spawned == 0 ==> s.wg == 0
  {
    ReachableInv(c, s);
    CountsBounded(s.workers);
  }

  lemma IdleIsAlive(c: Setup, s: State, w: nat)
    requires Reachable(c, s) && w < |s.workers| && s.workers[w] == Idle
    ensures s.wg > 0
  {
    ReachableInv(c, s);
    CountsBounded(s.workers);
    assert s.workers[w] in s.workers;
  }

  lemma HolderKnown(c: Setup, s: State, w: nat)
    requires Reachable(c, s) && w < |s.workers| && s.workers[w].Holding?
    ensures Enabled(c, s, Deliver(w))
  {
    ReachableInv(c, s);
    assert HeldBy(s, s.workers[w].id, w);
  }

  /** The channel holds nothing but the conversion of its job once a worker has sent. */
  lemma SentConverts(c: Setup, s: State, w: nat)
    requires Reachable(c, s) && Enabled(c, s, Deliver(w))
    ensures var id, t := s.workers[w].id, Apply(c, s, Deliver(w));
            |t.reqs[id].inbox| == 1 && ConversionOf(c, s.reqs[id].job, t.reqs[id].inbox[0])
  {
    ReachableInv(c, s);
    var id := s.workers[w].id;
    assert HeldBy(s, id, w);
    assert ChannelOk(c, s, id);
    DispatchConverts(c, s.reqs[id].job, c.convert(Dispatch(s.reqs[id].job)));
  }

  lemma ChannelKnown(c: Setup, s: State, id: nat)
    requires Reachable(c, s) && id < |s.reqs|
    ensures ChannelOk(c, s, id)
  {
    ReachableInv(c, s);
  }

  lemma CallMoves(c: Setup, s: State, id: nat)
    requires Reachable(c, s) && InPhase(s, id, Waiting) && s.reqs[id].inbox == []
    ensures exists l: Label :: l.ByWorker() && Enabled(c, s, l)
  {
    ReachableInv(c, s);
    WaitingMoves(c, s, id);
  }

  lemma StopMoves(c: Setup, s: State)
    requires Reachable(c, s) && s.closed && s.wg > 0
    ensures exists l: Label :: l.ByWorker() && Enabled(c, s, l)
  {
    ReachableInv(c, s);
    StopNeverStuck(c, s);
  }

  /** A run from a closed pool to one without workers. */
  lemma Drained(c: Setup, s: State, ls: seq<Label>, t: State)
    requires Reachable(c, s) && Reachable(c, t) && Runs(c, s, ls, t) && s.closed && t.wg == 0
    ensures t.queue == [] && t.accepted == s.accepted && WorkerSteps(ls) <= 6 * c.workers
    ensures forall id :: id in t.accepted ==> id < |t.reqs| && t.reqs[id].sent == 1
  {
    ReachableInv(c, s);
    ReachableInv(c, t);
    ClosedAcceptsNothing(c, s, ls, t);
    StepsAfterClosing(c, s, ls, t);
    AllSent(c, t);
  }

  lemma {:induction false} StepsSnoc(ls: seq<Label>, l: Label)
    ensures WorkerSteps(ls + [l]) == WorkerSteps(ls) + if l.ByWorker() then 1 else 0
  {
    if ls == [] {
      assert [l][1..] == [];
    } else {
      assert (ls + [l])[1..] == ls[1..] + [l];
      StepsSnoc(ls[1..], l);
    }
  }

  /**
   What happens around one `Submit` call: the moves of other parties before its outer
   select and after its send, when its context ends, how late it notices, and which of
   several ready cases a select takes.  `patience` is the number of worker steps after
   which the context ends while the call waits; `Some(0)` ends it before the outer select.
   */
  datatype Around = Around(before: seq<Label>, after: seq<Label>, patience: Option<nat>, lag: nat, favourContext: bool)

  /** Of the given moves, those that can be taken one after the other, without any of the call `except`. */
  function Playable(c: Setup, s: State, moves: seq<Label>, except: Option<nat>): seq<Label>
    decreases |moves|
  {
    if moves == [] then []
    else if Enabled(c, s, moves[0]) && (except == None || !Touches(moves[0], except.value)) then
      [moves[0]] + Playable(c, Apply(c, s, moves[0]), moves[1..], except)
    else
      Playable(c, s, moves[1..], except)
  }

  lemma {:induction false} PlayableSpares(c: Setup, s: State, moves: seq<Label>, except: Option<nat>)
    ensures except.Some? ==> forall l :: l in Playable(c, s, moves, except) ==> !Touches(l, except.value)
    decreases |moves|
  {
    if moves != [] {
      PlayableSpares(c, s, moves[1..], except);
      if Enabled(c, s, moves[0]) {
        PlayableSpares(c, Apply(c, s, moves[0]), moves[1..], except);
      }
    }
  }

  /** From `start` on, the first of the moves that can be played have been, as `ls`, and `rest` is to come. */
  ghost predicate Playing(c: Setup, start: State, moves: seq<Label>, ls: seq<Label>, s: State, rest: seq<Label>,
                          except: Option<nat>) {
    Runs(c, start, ls, s) && ls + Playable(c, s, rest, except) == Playable(c, start, moves, except)
  }

  /** `step` is the move l, or nothing if l cannot be played. */
  ghost predicate Tries(c: Setup, s: State, step: seq<Label>, t: State, l: Label, except: Option<nat>) {
    if Enabled(c, s, l) && (except == None || !Touches(l, except.value)) then step == [l] && t == Apply(c, s, l)
    else step == [] && t == s
  }

  lemma PlayOn(c: Setup, start: State, moves: seq<Label>, ls: seq<Label>, s: State, rest: seq<Label>,
               except: Option<nat>, step: seq<Label>, t: State)
    requires rest != [] && Playing(c, start, moves, ls, s, rest, except) && Tries(c, s, step, t, rest[0], except)
    ensures Playing(c, start, moves, ls + step, t, rest[1..], except)
  {
    if step == [] {
      assert ls + step == ls;
    } else {
      RunsSnoc(c, start, ls, s, rest[0]);
      assert ls + ([rest[0]] + Playable(c, t, rest[1..], except)) == ls + step + Playable(c, t, rest[1..], except);
    }
  }

  /** What the outer select makes of a request. */
  function Chosen(closed: bool, full: bool, over: bool, favourContext: bool): Phase {
    if over && (favourContext || (full && !closed)) then Phase.Cancelled
    else if closed then Panicked
    else if full then Busy
    else Waiting
  }

  /**
   How a whole `Submit` call ends, from what it finds: whether the channel is closed or
   full, when its context ends, and what the random choice between ready cases favours.
   */
  predicate Returned(p: Phase, closed: bool, full: bool, around: Around, own: Result) {
    var over := around.patience == Some(0);
    && (p == Busy <==> full && !closed && !over)
    && (p == Phase.Cancelled <==> over && (around.favourContext || (full && !closed)))
    && (p == Panicked <==> closed && !(over && around.favourContext))
    && (p == Got(own) || p == Abandoned <==> !closed && !full && !(over && around.favourContext))
    && (p == Abandoned ==> around.patience.Some?)
  }

  class WorkerPool {
    const cfg: Setup
    var jobs: seq<nat>
    var workers: seq<Worker>
    var spawned: nat
    var wg: nat
    var once: Once
    var closed: bool
    var stopped: bool
    var reqs: seq<Request>
    ghost var accepted: seq<nat>
    ghost var begun: seq<nat>

    ghost function View(): State
      reads this
    {
      State(jobs, workers, spawned, wg, once, closed, stopped, reqs, accepted, begun)
    }

    /** The pool is as some run of the protocol leaves it, so that every theorem about runs applies to it. */
    ghost predicate Valid()
      reads this
    {
      Reachable(cfg, View())
    }

    constructor (cfg: Setup)
      ensures Valid() && this.cfg == cfg && View() == Init(cfg)
    {
      this.cfg := cfg;
      jobs, workers, spawned, wg := [], seq(cfg.workers, _ => Unborn), 0, 0;
      once, closed, stopped, reqs := NotBegun, false, false, [];
      accepted, begun := [], [];
      new;
      assert workers == Init(cfg).workers;
      assert Reaches(cfg, [], View());
    }

    /** `wg.Add(1)` and `go p.worker(i)`. */
    method SpawnWorker()
      requires Valid() && Enabled(cfg, View(), Spawn)
      modifies this
      ensures Valid() && View() == Apply(cfg, old(View()), Spawn)
    {
      ReachableNext(cfg, View(), Spawn);
      wg := wg + 1;
      workers := workers[spawned := Idle];
      spawned := spawned + 1;
    }

    method SetOnce(ghost l: Label)
      requires Valid() && (l == BeginStart || l == EndStart) && Enabled(cfg, View(), l)
      modifies this
      ensures Valid() && View() == Apply(cfg, old(View()), l)
    {
      ReachableNext(cfg, View(), l);
      once := if once == NotBegun then Spawning else Begun;
    }

    /** The loop inside the once-only function, from where it stands. */
    method SpawnAll() returns (ghost ls: seq<Label>)
      requires Valid() && once == Spawning
      modifies this
      ensures Valid() && Runs(cfg, old(View()), ls, View())
      ensures View() == old(View()).(once := Begun, workers := workers, spawned := cfg.workers, wg := wg)
      ensures old(spawned) == 0 ==> wg == cfg.workers == |workers| && forall w :: w in workers ==> w == Idle
    {
      ls := [];
      Spawned(cfg, View());
      var i := spawned;
      while i < cfg.workers
        invariant i == spawned <= cfg.workers == |workers|
        invariant old(spawned) == 0 ==> i == wg && forall w :: 0 <= w < i ==> workers[w] == Idle
        invariant once == Spawning && Valid()
        invariant View() == old(View()).(workers := workers, spawned := spawned, wg := wg)
        invariant Runs(cfg, old(View()), ls, View())
      {
        RunsSnoc(cfg, old(View()), ls, View(), Spawn);
        SpawnWorker();
        ls := ls + [Spawn];
        i := i + 1;
      }
      RunsSnoc(cfg, old(View()), ls, View(), EndStart);
      SetOnce(EndStart);
      ls := ls + [EndStart];
    }

    /**
     Spawns the workers on the first call; later calls return at once.  A call that finds
     the first one still spawning waits for it, and what it sees are that one's remaining steps.
     */
    method Start() returns (ghost ls: seq<Label>)
      requires Valid()
      modifies this
      ensures Valid() && once == Begun && Runs(cfg, old(View()), ls, View())
      ensures old(once) == Begun ==> View() == old(View())
      ensures old(once) == NotBegun ==> wg == cfg.workers == |workers| && forall w :: w in workers ==> w == Idle
      ensures View() == old(View()).(once := Begun, workers := workers, spawned := cfg.workers, wg := wg)
    {
      ls := [];
      Spawned(cfg, View());
      if once == NotBegun {
        RunsSnoc(cfg, View(), ls, View(), BeginStart);
        SetOnce(BeginStart);
        ls := ls + [BeginStart];
      }
      if once == Spawning {
        ghost var begun := View();
        ghost var rest := SpawnAll();
        RunsConcat(cfg, old(View()), ls, begun, rest, View());
        ls := ls + rest;
      }
    }

    /** `Submit` is called: a fresh job with an empty result channel. */
    method Enter(job: Job) returns (id: nat)
      requires Valid()
      modifies this
      ensures Valid() && id == |old(reqs)| && View() == Apply(cfg, old(View()), Label.Enter(job))
    {
      ReachableNext(cfg, View(), Label.Enter(job));
      id := |reqs|;
      reqs := reqs + [Request(job, false, Called, [], 0, 0)];
    }

    /** `Start` has returned to the submitter. */
    method PassStart(id: nat)
      requires Valid() && InPhase(View(), id, Called) && once == Begun
      modifies this
      ensures Valid() && View() == Apply(cfg, old(View()), Label.PassStart(id))
    {
      ReachableNext(cfg, View(), Label.PassStart(id));
      reqs := reqs[id := reqs[id].(phase := Ready)];
    }

    /** The context of a call ends: by its deadline, or because the client has gone. */
    method Cancel(id: nat)
      requires Valid() && id < |reqs|
      modifies this
      ensures Valid() && View() == Apply(cfg, old(View()), Label.Cancel(id))
    {
      ReachableNext(cfg, View(), Label.Cancel(id));
      reqs := reqs[id := reqs[id].(cancelled := true)];
    }

    /** The send case of the outer select, when it is ready: a closed channel makes it panic. */
    method Send(id: nat) returns (ghost l: Label)
      requires Valid() && InPhase(View(), id, Ready) && (closed || |jobs| < 2 * cfg.workers)
      modifies this
      ensures Valid() && Enabled(cfg, old(View()), l) && View() == Apply(cfg, old(View()), l)
      ensures l == if old(closed) then SendClosed(id) else Enqueue(id)
    {
      if closed {
        l := SendClosed(id);
        ReachableNext(cfg, View(), l);
        reqs := reqs[id := reqs[id].(phase := Panicked)];
      } else {
        l := Enqueue(id);
        ReachableNext(cfg, View(), l);
        jobs := jobs + [id];
        accepted := accepted + [id];
        reqs := reqs[id := reqs[id].(phase := Waiting)];
      }
    }

    /**
     The outer select of `Submit`.  `favourContext` is the runtime's choice when both the
     context and the send are ready; the busy branch needs neither to be.
     */
    method Offer(id: nat, favourContext: bool) returns (ghost l: Label)
      requires Valid() && InPhase(View(), id, Ready)
      modifies this
      ensures Valid() && Enabled(cfg, old(View()), l) && View() == Apply(cfg, old(View()), l)
      ensures l in {Enqueue(id), GiveUp(id), RefuseBusy(id), SendClosed(id)}
      ensures l == RefuseBusy(id) <==> |old(jobs)| >= 2 * cfg.workers && !old(reqs)[id].cancelled && !old(closed)
      ensures var full := |old(jobs)| >= 2 * cfg.workers;
              && (l == GiveUp(id) <==> old(reqs)[id].cancelled && (favourContext || (full && !old(closed))))
              && reqs[id].phase == Chosen(old(closed), full, old(reqs)[id].cancelled, favourContext)
    {
      var sendReady := closed || |jobs| < cfg.workers * 2;
      if reqs[id].cancelled && (favourContext || !sendReady) {
        l := GiveUp(id);
        ReachableNext(cfg, View(), l);
        reqs := reqs[id := reqs[id].(phase := Phase.Cancelled)];
      } else if sendReady {
        l := Send(id);
      } else {
        l := RefuseBusy(id);
        ReachableNext(cfg, View(), l);
        reqs := reqs[id := reqs[id].(phase := Busy)];
      }
    }

    /** The inner select of `Submit`, when it can proceed. */
    method Await(id: nat, favourContext: bool) returns (ghost l: Label)
      requires Valid() && InPhase(View(), id, Waiting) && (reqs[id].cancelled || reqs[id].inbox != [])
      modifies this
      ensures Valid() && Enabled(cfg, old(View()), l) && View() == Apply(cfg, old(View()), l)
      ensures l in {Label.Receive(id), Abandon(id)}
      ensures l == Abandon(id) <==> old(reqs)[id].cancelled && (favourContext || old(reqs)[id].inbox == [])
    {
      var q := reqs[id];
      if q.cancelled && (favourContext || q.inbox == []) {
        l := Abandon(id);
        ReachableNext(cfg, View(), l);
        reqs := reqs[id := q.(phase := Abandoned)];
      } else {
        l := Label.Receive(id);
        ReachableNext(cfg, View(), l);
        reqs := reqs[id := q.(phase := Got(q.inbox[0]), inbox := q.inbox[1..])];
      }
    }

    method TakeJob(w: nat)
      requires Valid() && w < |workers| && workers[w] == Idle && jobs != []
      modifies this
      ensures Valid() && View() == Apply(cfg, old(View()), Take(w))
    {
      ReachableNext(cfg, View(), Take(w));
      begun := begun + [jobs[0]];
      workers := workers[w := Holding(jobs[0])];
      jobs := jobs[1..];
    }

    /** The range loop ends and the deferred `wg.Done()` runs. */
    method Finish(w: nat)
      requires Valid() && Enabled(cfg, View(), Exit(w))
      modifies this
      ensures Valid() && View() == Apply(cfg, old(View()), Exit(w))
    {
      ReachableNext(cfg, View(), Exit(w));
      workers := workers[w := Exited];
      wg := wg - 1;
    }

    /** The worker's receive: takes the oldest job, or ends when the channel is closed and empty. */
    method Receive(w: nat) returns (ghost l: Label)
      requires Valid() && w < |workers| && workers[w] == Idle && (jobs != [] || closed)
      modifies this
      ensures Valid() && Enabled(cfg, old(View()), l) && View() == Apply(cfg, old(View()), l)
      ensures l == if old(jobs) != [] then Take(w) else Exit(w)
    {
      if jobs != [] {
        l := Take(w);
        TakeJob(w);
      } else {
        IdleIsAlive(cfg, View(), w);
        l := Exit(w);
        Finish(w);
      }
    }

    /** The worker converts the job it holds and posts the result without blocking. */
    method Process(w: nat)
      requires Valid() && w < |workers| && workers[w].Holding?
      modifies this
      ensures Valid() && Enabled(cfg, old(View()), Deliver(w)) && View() == Apply(cfg, old(View()), Deliver(w))
      ensures var id := old(workers)[w].id;
              |reqs[id].inbox| == 1 && ConversionOf(cfg, reqs[id].job, reqs[id].inbox[0])
    {
      var id := workers[w].id;
      ghost var before := View();
      HolderKnown(cfg, View(), w);
      ReachableNext(cfg, View(), Deliver(w));
      var job := reqs[id].job;
      var call: Call;
      if job.quality > 0 && job.scale > 0.0 && job.scale < 1.0 {
        call := FastWithQuality(job.data, job.scale, job.quality);
      } else if job.scale > 0.0 && job.scale < 1.0 {
        call := Fast(job.data, job.scale);
      } else if job.quality > 0 {
        call := WithQuality(job.data, job.quality);
      } else {
        call := Plain(job.data);
      }
      var result := cfg.convert(call);
      var q := reqs[id];
      if |q.inbox| < 1 {
        q := q.(inbox := q.inbox + [result], sent := q.sent + 1);
      } else {
        q := q.(dropped := q.dropped + 1);
      }
      reqs := reqs[id := q];
      workers := workers[w := Idle];
      SentConverts(cfg, before, w);
    }

    /** The first half of `Stop`. */
    method CloseJobs()
      requires Valid() && !closed
      modifies this
      ensures Valid() && View() == Apply(cfg, old(View()), Close)
    {
      ReachableNext(cfg, View(), Close);
      closed := true;
    }

    /** `Stop` has waited for the group: everything accepted is delivered. */
    method FinishStop()
      requires Valid() && closed && wg == 0
      modifies this
      ensures Valid() && View() == Apply(cfg, old(View()), StopReturn)
      ensures forall id :: id in accepted ==> id < |reqs| && reqs[id].sent == 1
    {
      Drained(cfg, View(), [], View());
      ReachableNext(cfg, View(), StopReturn);
      stopped := true;
    }

    /** The steps that a submitter's code takes, and its context's. */
    method TakeCallStep(l: Label)
      requires Valid() && Enabled(cfg, View(), l) && !l.ByWorker()
      requires !(l.BeginStart? || l.Spawn? || l.EndStart? || l.Close? || l.StopReturn?)
      modifies this
      ensures Valid() && View() == Apply(cfg, old(View()), l)
    {
      match l {
        case Enter(job) =>
          var id := Enter(job);
        case Cancel(id) =>
          Cancel(id);
        case PassStart(id) =>
          PassStart(id);
        case Enqueue(id) =>
          ghost var taken := Send(id);
        case SendClosed(id) =>
          ghost var taken := Send(id);
        case GiveUp(id) =>
          ghost var taken := Offer(id, true);
        case RefuseBusy(id) =>
          ghost var taken := Offer(id, false);
        case Receive(id) =>
          ghost var taken := Await(id, false);
        case Abandon(id) =>
          ghost var taken := Await(id, true);
      }
    }

    /** Every step of the protocol is one of these methods. */
    method TakeStep(l: Label)
      requires Valid() && Enabled(cfg, View(), l)
      modifies this
      ensures Valid() && View() == Apply(cfg, old(View()), l)
    {
      match l {
        case BeginStart => SetOnce(l);
        case Spawn => SpawnWorker();
        case EndStart => SetOnce(l);
        case Take(w) => TakeJob(w);
        case Deliver(w) => Process(w);
        case Exit(w) => Finish(w);
        case Close => CloseJobs();
        case StopReturn => FinishStop();
        case _ => TakeCallStep(l);
      }
    }

    /** Whether a step can be taken; the history plays no part in that. */
    method CanTake(l: Label) returns (b: bool)
      ensures b == Enabled(cfg, View(), l)
    {
      b := Enabled(cfg, State(jobs, workers, spawned, wg, once, closed, stopped, reqs, [], []), l);
    }

    /** A move of another party, if it can be taken and is not one of the call `except`. */
    method TryMove(l: Label, except: Option<nat>) returns (ghost step: seq<Label>)
      requires Valid()
      modifies this
      ensures Valid() && Tries(cfg, old(View()), step, View(), l, except)
    {
      step := [];
      var able := CanTake(l);
      if able && (except == None || !Touches(l, except.value)) {
        TakeStep(l);
        step := [l];
      }
    }

    /** Other parties move: those of the moves that can be taken are, but none of the call `except`. */
    method Interlude(moves: seq<Label>, except: Option<nat>) returns (ghost ls: seq<Label>)
      requires Valid()
      modifies this
      ensures Valid() && Runs(cfg, old(View()), ls, View())
      ensures except.Some? ==> forall l :: l in ls ==> !Touches(l, except.value)
      ensures ls == Playable(cfg, old(View()), moves, except)
    {
      ls := [];
      var rest := moves;
      while rest != []
        invariant Valid() && Playing(cfg, old(View()), moves, ls, View(), rest, except)
        decreases |rest|
      {
        ghost var before := View();
        ghost var step := TryMove(rest[0], except);
        PlayOn(cfg, old(View()), moves, ls, before, rest, except, step, View());
        ls, rest := ls + step, rest[1..];
      }
      PlayableSpares(cfg, old(View()), moves, except);
    }

    /** Some worker that can move does, the scheduler says which. */
    method WorkerStep() returns (ghost l: Label)
      requires Valid() && exists l: Label :: l.ByWorker() && Enabled(cfg, View(), l)
      modifies this
      ensures Valid() && l.ByWorker() && Enabled(cfg, old(View()), l) && View() == Apply(cfg, old(View()), l)
    {
      ghost var m: Label :| m.ByWorker() && Enabled(cfg, View(), m);
      assert m.w < |workers|;
      var w: nat :| w < |workers| && (workers[w].Holding? || (workers[w] == Idle && (jobs != [] || closed)));
      if workers[w].Holding? {
        l := Deliver(w);
        Process(w);
      } else {
        l := Receive(w);
      }
    }

    /** A worker's step as the next one of the run `ls`. */
    method WorkerTurn(ghost start: State, ghost ls: seq<Label>) returns (ghost longer: seq<Label>)
      requires Valid() && Runs(cfg, start, ls, View()) && exists l: Label :: l.ByWorker() && Enabled(cfg, View(), l)
      modifies this
      ensures Valid() && Runs(cfg, start, longer, View())
      ensures |longer| == |ls| + 1 && WorkerSteps(longer) == WorkerSteps(ls) + 1
      ensures Work(View()) == Work(old(View())) - 1
      ensures closed == old(closed) && accepted == old(accepted) && |reqs| == |old(reqs)|
      ensures forall id :: 0 <= id < |reqs| ==>
                var q, q' := old(reqs)[id], reqs[id]; (q'.job, q'.phase, q'.cancelled) == (q.job, q.phase, q.cancelled)
    {
      ghost var before := View();
      ghost var l := WorkerStep();
      WorkerUsesWork(cfg, before, l);
      StepsSnoc(ls, l);
      RunsSnoc(cfg, start, ls, before, l);
      longer := ls + [l];
    }

    /** The call is made, possibly with a context that is over already. */
    method Call(job: Job, over: bool) returns (id: nat, ghost ls: seq<Label>)
      requires Valid()
      modifies this
      ensures Valid() && Runs(cfg, old(View()), ls, View())
      ensures id == |old(reqs)| && View() == old(View()).(reqs := old(reqs) + [Request(job, over, Called, [], 0, 0)])
    {
      id := Enter(job);
      ls := [Label.Enter(job)];
      assert ls[1..] == [];
      if over {
        RunsSnoc(cfg, old(View()), ls, View(), Label.Cancel(id));
        Cancel(id);
        ls := ls + [Label.Cancel(id)];
      }
    }

    /** Up to the outer select: the call has the pool started. */
    method Begin(job: Job, over: bool) returns (id: nat, ghost ls: seq<Label>)
      requires Valid()
      modifies this
      ensures Valid() && Runs(cfg, old(View()), ls, View())
      ensures id == |old(reqs)| && reqs == old(reqs) + [Request(job, over, Ready, [], 0, 0)]
      ensures closed == old(closed) && jobs == old(jobs) && once == Begun
    {
      id, ls := Call(job, over);
      ghost var entered := View();
      ghost var starts := Start();
      RunsConcat(cfg, old(View()), ls, entered, starts, View());
      ls := ls + starts;
      assert reqs == entered.reqs && InPhase(View(), id, Called);
      RunsSnoc(cfg, old(View()), ls, View(), Label.PassStart(id));
      PassStart(id);
      ls := ls + [Label.PassStart(id)];
    }

    /** Up to the outer select, with other parties moving before it. */
    method Approach(job: Job, around: Around) returns (id: nat, ghost ls: seq<Label>)
      requires Valid()
      modifies this
      ensures Valid() && Runs(cfg, old(View()), ls, View())
      ensures id == |old(reqs)| < |reqs| && once == Begun
      ensures reqs[id].job == job && reqs[id].phase == Ready && reqs[id].cancelled == (around.patience == Some(0))
      ensures around.before == [] ==> jobs == old(jobs) && closed == old(closed)
    {
      id, ls := Begin(job, around.patience == Some(0));
      ghost var ready := View();
      ghost var moves := Interlude(around.before, Some(id));
      UntouchedStays(cfg, ready, moves, View(), id);
      RunsConcat(cfg, old(View()), ls, ready, moves, View());
      ls := ls + moves;
    }

    /**
     After the send.  Workers move until the result is there or the context has ended, which
     it does after `patience` of their steps; `lag` more may pass before the caller wakes up.
     */
    method WaitForResult(id: nat, patience: Option<nat>, lag: nat) returns (ghost ls: seq<Label>)
      requires Valid() && InPhase(View(), id, Waiting)
      modifies this
      ensures Valid() && Runs(cfg, old(View()), ls, View())
      ensures InPhase(View(), id, Waiting) && reqs[id].job == old(reqs)[id].job
      ensures reqs[id].inbox != [] || reqs[id].cancelled
      ensures reqs[id].cancelled && !old(reqs)[id].cancelled ==> patience.Some? && patience.value <= WorkerSteps(ls)
    {
      ls := [];
      var steps: nat, late := 0, lag;
      while reqs[id].inbox == [] && (!reqs[id].cancelled || late > 0)
        invariant Valid() && Runs(cfg, old(View()), ls, View())
        invariant |reqs| == |old(reqs)| && InPhase(View(), id, Waiting) && reqs[id].job == old(reqs)[id].job
        invariant 0 <= late && steps <= WorkerSteps(ls)
        invariant reqs[id].cancelled ==> old(reqs)[id].cancelled || patience == Some(steps)
        decreases Work(View()), !reqs[id].cancelled
      {
        if !reqs[id].cancelled && patience == Some(steps) {
          StepsSnoc(ls, Label.Cancel(id));
          RunsSnoc(cfg, old(View()), ls, View(), Label.Cancel(id));
          Cancel(id);
          ls := ls + [Label.Cancel(id)];
        } else {
          CallMoves(cfg, View(), id);
          ls := WorkerTurn(old(View()), ls);
          if reqs[id].cancelled {
            late := late - 1;
          } else {
            steps := steps + 1;
          }
        }
      }
    }

    /** After the outer select has sent the job: the call comes back with its own result or with the context's error. */
    method Conclude(id: nat, around: Around) returns (ghost ls: seq<Label>)
      requires Valid() && InPhase(View(), id, Waiting)
      modifies this
      ensures Valid() && Runs(cfg, old(View()), ls, View())
      ensures id < |reqs| && reqs[id].job == old(reqs)[id].job
      ensures reqs[id].phase == Got(cfg.convert(Dispatch(reqs[id].job)))
           || (reqs[id].phase == Abandoned && (old(reqs)[id].cancelled || around.patience.Some?))
    {
      ls := Interlude(around.after, Some(id));
      ghost var waiting := View();
      UntouchedStays(cfg, old(View()), ls, waiting, id);
      ghost var rest := WaitForResult(id, around.patience, around.lag);
      ghost var woken := View();
      RunsConcat(cfg, old(View()), ls, waiting, rest, woken);
      ls := ls + rest;
      ChannelKnown(cfg, woken, id);
      ghost var l := Await(id, around.favourContext);
      RunsSnoc(cfg, old(View()), ls, woken, l);
      ls := ls + [l];
    }

    /**
     A whole call.  `at` is the pool as the outer select finds it, and says how the call
     ends; `pre` and `post` are what happens before and after, all parties together.
     */
    method Submit(job: Job, around: Around)
      returns (id: nat, ghost pre: seq<Label>, ghost at: State, ghost post: seq<Label>)
      requires Valid()
      modifies this
      ensures Valid() && Runs(cfg, old(View()), pre, at) && Runs(cfg, at, post, View())
      ensures id == |old(reqs)| < |reqs| && reqs[id].job == job && InPhase(at, id, Ready)
      ensures Returned(reqs[id].phase, at.closed, |at.queue| >= 2 * cfg.workers, around, cfg.convert(Dispatch(job)))
      ensures id in accepted <==> WasAccepted(reqs[id].phase)
      ensures reqs[id].phase.Got? ==> ConversionOf(cfg, job, reqs[id].phase.r)
      ensures around.before == [] ==> at.queue == old(jobs) && at.closed == old(closed)
    {
      id, pre := Approach(job, around);
      at := View();
      ghost var l := Offer(id, around.favourContext);
      ghost var chosen := View();
      post := [];
      RunsSnoc(cfg, at, post, at, l);
      post := post + [l];
      if reqs[id].phase == Waiting {
        ghost var rest := Conclude(id, around);
        RunsConcat(cfg, at, post, chosen, rest, View());
        post := post + rest;
      }
      ChannelKnown(cfg, View(), id);
      DispatchConverts(cfg, job, cfg.convert(Dispatch(job)));
    }

    /** The wait of `Stop`, with other parties moving first: nothing is accepted any more, and the workers finish. */
    method Drain(others: seq<Label>) returns (ghost ls: seq<Label>)
      requires Valid() && closed
      modifies this
      ensures Valid() && Runs(cfg, old(View()), ls, View())
      ensures closed && wg == 0 && jobs == [] && accepted == old(accepted)
      ensures forall id :: id in accepted ==> id < |reqs| && reqs[id].sent == 1
      ensures WorkerSteps(ls) <= 6 * cfg.workers
    {
      ls := Interlude(others, None);
      ClosedAcceptsNothing(cfg, old(View()), ls, View());
      while wg > 0
        invariant Valid() && Runs(cfg, old(View()), ls, View()) && closed
        decreases Work(View())
      {
        StopMoves(cfg, View());
        ls := WorkerTurn(old(View()), ls);
      }
      Drained(cfg, old(View()), ls, View());
    }

    /**
     A whole call of `Stop`, with other parties moving once the channel is closed: closing a
     closed channel panics; otherwise the workers finish what was accepted, and the call returns.
     */
    method Stop(others: seq<Label>) returns (panicked: bool, ghost ls: seq<Label>)
      requires Valid()
      modifies this
      ensures Valid() && Runs(cfg, old(View()), ls, View())
      ensures panicked <==> old(closed)
      ensures panicked ==> View() == old(View())
      ensures !panicked ==> stopped && closed && wg == 0 && jobs == [] && accepted == old(accepted)
      ensures !panicked ==> forall id :: id in accepted ==> id < |reqs| && reqs[id].sent == 1
      ensures !panicked ==> WorkerSteps(ls) <= 6 * cfg.workers
    {
      ls := [];
      if closed {
        return true, ls;
      }
      panicked := false;
      CloseJobs();
      ghost var ms := Drain(others);
      ls := [Close] + ms;
      assert ls[1..] == ms;
      RunsSnoc(cfg, old(View()), ls, View(), StopReturn);
      StepsSnoc(ls, StopReturn);
      FinishStop();
      ls := ls + [StopReturn];
    }
  }
}
