/** `SubmitWithRetry` of internal/converter/pool.go: a loop of `Submit` calls on the pool with growing pauses. */
module Retry {
  import opened Bytes
  import opened Wrappers
  import opened PoolProtocol
  import opened PoolTheorems
  import opened WorkerPools

  datatype Error = PoolBusy | ContextDone | Conversion(message: string)

  /** What Go callers see: an image or nothing, an error or nothing. */
  datatype Reply = Reply(image: Option<Bytes>, err: Option<Error>)

  /**
   `each(i)` surrounds the call of attempt i, other parties make the moves `pause(i)` during
   the pause after it, and `interrupted(i)` tells whether the context ends that pause.
   */
  datatype Surroundings = Surroundings(
    each: nat -> Around, pause: nat -> seq<Label>, interrupted: nat -> bool)

  /** What a `Submit` call that ended like this returns; nothing if it panicked. */
  function ReplyOf(p: Phase): Option<Reply> {
    match p
    case Got(Converted(image)) => Some(Reply(Some(image), None))
    case Got(Failed(message)) => Some(Reply(None, Some(Conversion(message))))
    case Busy => Some(Reply(None, Some(PoolBusy)))
    case Panicked => None
    case _ => Some(Reply(None, Some(ContextDone)))
  }

  /** The calls `ids` were all made for `job` and refused as busy. */
  ghost predicate AllRefused(s: State, ids: seq<nat>, job: Job) {
    forall k :: 0 <= k < |ids| ==> InPhase(s, ids[k], Busy) && s.reqs[ids[k]].job == job
  }

  /** Refused calls stay refused, whoever moves. */
  lemma RefusedForever(c: Setup, s: State, ls: seq<Label>, t: State, ids: seq<nat>, job: Job)
    requires Runs(c, s, ls, t) && AllRefused(s, ids, job)
    ensures AllRefused(t, ids, job)
  {
    JobsKept(c, s, ls, t);
    forall k | 0 <= k < |ids|
      ensures InPhase(t, ids[k], Busy) && t.reqs[ids[k]].job == job
    {
      BusyForever(c, s, ls, t, ids[k]);
    }
  }

  lemma RefusedMore(s: State, ids: seq<nat>, id: nat, job: Job)
    ensures AllRefused(s, ids + [id], job) <==> AllRefused(s, ids, job) && InPhase(s, id, Busy) && s.reqs[id].job == job
  {
    assert (ids + [id])[|ids|] == id;
    assert forall k :: 0 <= k < |ids| ==> (ids + [id])[k] == ids[k];
  }

  /**
   A run of the pool from `s` to `t` in which the calls `ids` were made one after the other
   for `job`; all but the last were refused as busy and their pauses ran out.
   */
  ghost predicate Tried(c: Setup, s: State, ls: seq<Label>, t: State, ids: seq<nat>, job: Job, env: Surroundings) {
    && Runs(c, s, ls, t)
    && (forall k :: 0 <= k < |ids| ==> |s.reqs| <= ids[k] < |t.reqs| && t.reqs[ids[k]].job == job)
    && (forall i, k :: 0 <= i < k < |ids| ==> ids[i] < ids[k])
    && (forall k :: 0 <= k < |ids| - 1 ==> InPhase(t, ids[k], Busy) && !env.interrupted(k))
  }

  /** The same with the last call refused as well. */
  ghost predicate AllInVain(c: Setup, s: State, ls: seq<Label>, t: State, ids: seq<nat>, job: Job, env: Surroundings) {
    && Tried(c, s, ls, t, ids, job, env)
    && AllRefused(t, ids, job)
    && (ids != [] ==> !env.interrupted(|ids| - 1))
  }

  /** A call younger than all others goes to the end. */
  lemma YoungestLast(ids: seq<nat>, id: nat, from: nat)
    requires from <= id && forall k :: 0 <= k < |ids| ==> from <= ids[k] < id
    requires forall i, k :: 0 <= i < k < |ids| ==> ids[i] < ids[k]
    ensures forall k :: 0 <= k < |ids + [id]| ==> from <= (ids + [id])[k] <= id
    ensures forall i, k :: 0 <= i < k < |ids + [id]| ==> (ids + [id])[i] < (ids + [id])[k]
  {
  }

  lemma TriedAgain(c: Setup, s: State, ls: seq<Label>, m: State, steps: seq<Label>, t: State,
                   ids: seq<nat>, id: nat, job: Job, env: Surroundings)
    requires AllInVain(c, s, ls, m, ids, job, env) && Runs(c, m, steps, t)
    requires id == |m.reqs| < |t.reqs| && t.reqs[id].job == job
    ensures Tried(c, s, ls + steps, t, ids + [id], job, env)
    ensures InPhase(t, id, Busy) && !env.interrupted(|ids|) ==> AllInVain(c, s, ls + steps, t, ids + [id], job, env)
  {
    RunsConcat(c, s, ls, m, steps, t);
    JobsKept(c, s, ls, m);
    RefusedForever(c, m, steps, t, ids, job);
    RefusedMore(t, ids, id, job);
    YoungestLast(ids, id, |s.reqs|);
    forall k | 0 <= k < |ids|
      ensures !env.interrupted(k)
    {
    }
  }

  /** The milliseconds of the first n pauses together. */
  function Paused(n: nat): nat {
    5 * n * (n + 1)
  }

  lemma NextPause(n: nat)
    ensures Paused(n) + (n + 1) * 10 == Paused(n + 1)
  {
  }

  /** What the caller of `SubmitWithRetry` gets when the last call has ended in phase p. */
  ghost predicate Answered(c: Setup, job: Job, p: Phase, interrupted: bool, reply: Option<Reply>) {
    // The image or the error of the job's own conversion.
    && (forall image :: p == Got(Converted(image)) ==> reply == Some(Reply(Some(image), None)))
    && (forall message :: p == Got(Failed(message)) ==> reply == Some(Reply(None, Some(Conversion(message)))))
    && (p.Got? ==> ConversionOf(c, job, p.r))
    // The context's error, whether the call returns it or the pause after a refusal is interrupted.
    && (p.Cancelled? || p.Abandoned? || (p.Busy? && interrupted) ==> reply == Some(Reply(None, Some(ContextDone))))
    && (p.Busy? && !interrupted ==> reply == Some(Reply(None, Some(PoolBusy))))
    // No reply at all is a panic.
    && (reply == None <==> p.Panicked?)
    && (p.Got? || p.Cancelled? || p.Abandoned? || p.Busy? || p.Panicked?)
  }

  /** What `SubmitWithRetry` owes its caller, from the pool `s` that it finds to the pool `t` that it leaves. */
  ghost predicate Settled(c: Setup, s: State, ls: seq<Label>, t: State, ids: seq<nat>, job: Job, env: Surroundings,
                          maxRetries: int, reply: Option<Reply>, pausedMs: nat) {
    && Tried(c, s, ls, t, ids, job, env)
    // At most the last of the calls made has put the job into the queue.
    && (forall k :: 0 <= k < |ids| - 1 ==> ids[k] !in t.accepted)
    // No attempt is allowed: neither an image nor an error.
    && (ids == [] <==> maxRetries <= 0)
    && (ids == [] ==> reply == Some(Reply(None, None)) && pausedMs == 0)
    // The last call decides; the pauses before it, and an unbroken one after it, add up.
    && (ids != [] ==>
          var p, k := t.reqs[ids[|ids| - 1]].phase, |ids| - 1;
          && |ids| <= maxRetries
          && Answered(c, job, p, env.interrupted(k), reply)
          && (if p == Busy && !env.interrupted(k)
              then k + 1 == maxRetries && pausedMs == 5 * (k + 1) * (k + 2)
              else pausedMs == 5 * k * (k + 1)))
  }

  lemma SettledBy(c: Setup, s: State, ls: seq<Label>, t: State, ids: seq<nat>, job: Job, env: Surroundings,
                  maxRetries: int, reply: Option<Reply>, pausedMs: nat)
    requires Reachable(c, t) && Tried(c, s, ls, t, ids, job, env) && 0 < |ids| <= maxRetries
    requires var p, k := t.reqs[ids[|ids| - 1]].phase, |ids| - 1;
             && Answered(c, job, p, env.interrupted(k), reply)
             && (if p == Busy && !env.interrupted(k) then k + 1 == maxRetries && pausedMs == Paused(k + 1)
                 else pausedMs == Paused(k))
    ensures Settled(c, s, ls, t, ids, job, env, maxRetries, reply, pausedMs)
  {
    ReachableInv(c, t);
    forall k | 0 <= k < |ids| - 1
      ensures ids[k] !in t.accepted
    {
      assert InPhase(t, ids[k], Busy) && ChannelOk(c, t, ids[k]);
    }
  }

  /** One turn of the loop, from `m` to `t`: attempt `id`, and a pause if it was refused; `over` ends the loop. */
  ghost predicate Turned(c: Setup, m: State, steps: seq<Label>, t: State, id: nat, job: Job, interrupted: bool,
                         reply: Option<Reply>, over: bool) {
    && Runs(c, m, steps, t)
    && id == |m.reqs| < |t.reqs| && t.reqs[id].job == job
    && over == (t.reqs[id].phase != Busy || interrupted)
    && Answered(c, job, t.reqs[id].phase, interrupted, reply)
  }

  lemma AfterTurn(c: Setup, s: State, ls: seq<Label>, m: State, steps: seq<Label>, t: State, ids: seq<nat>, id: nat,
                  job: Job, env: Surroundings, maxRetries: int, reply: Option<Reply>, over: bool, pausedMs: nat)
    requires AllInVain(c, s, ls, m, ids, job, env) && |ids| < maxRetries && pausedMs == Paused(|ids|)
    requires Turned(c, m, steps, t, id, job, env.interrupted(|ids|), reply, over) && Reachable(c, t)
    ensures over ==> Settled(c, s, ls + steps, t, ids + [id], job, env, maxRetries, reply, pausedMs)
    ensures !over ==> AllInVain(c, s, ls + steps, t, ids + [id], job, env)
    ensures !over ==> reply == Some(Reply(None, Some(PoolBusy)))
  {
    TriedAgain(c, s, ls, m, steps, t, ids, id, job, env);
    if over {
      SettledBy(c, s, ls + steps, t, ids + [id], job, env, maxRetries, reply, pausedMs);
    }
  }

  method Turn(pool: WorkerPool, job: Job, around: Around, pause: seq<Label>, interrupted: bool)
    returns (id: nat, reply: Option<Reply>, over: bool, ghost ls: seq<Label>)
    requires pool.Valid()
    modifies pool
    ensures pool.Valid()
    ensures Turned(pool.cfg, old(pool.View()), ls, pool.View(), id, job, interrupted, reply, over)
  {
    ghost var before, at, post := pool.View(), pool.View(), [];
    id, ls, at, post := pool.Submit(job, around);
    RunsConcat(pool.cfg, before, ls, at, post, pool.View());
    ls := ls + post;
    reply := ReplyOf(pool.reqs[id].phase);
    if reply == None || reply.value.err == None {
      return id, reply, true, ls;
    }
    if reply.value.err != Some(PoolBusy) {
      return id, Some(Reply(None, reply.value.err)), true, ls;
    }
    ghost var refused := pool.View();
    ghost var steps := pool.Interlude(pause, None);
    JobsKept(pool.cfg, refused, steps, pool.View());
    BusyForever(pool.cfg, refused, steps, pool.View(), id);
    RunsConcat(pool.cfg, before, ls, refused, steps, pool.View());
    ls := ls + steps;
    over := interrupted;
    if interrupted {
      reply := Some(Reply(None, Some(ContextDone)));
    }
  }

  method SubmitWithRetry(pool: WorkerPool, job: Job, maxRetries: int, env: Surroundings)
    returns (reply: Option<Reply>, ids: seq<nat>, pausedMs: nat, ghost ls: seq<Label>)
    requires pool.Valid()
    modifies pool
    ensures pool.Valid()
    ensures Settled(pool.cfg, old(pool.View()), ls, pool.View(), ids, job, env, maxRetries, reply, pausedMs)
  {
    reply, pausedMs, ids, ls := Some(Reply(None, None)), 0, [], [];
    var i := 0;
    while i < maxRetries
      invariant 0 <= i && (i <= maxRetries || i == 0) && |ids| == i
      invariant pool.Valid() && AllInVain(pool.cfg, old(pool.View()), ls, pool.View(), ids, job, env)
      invariant pausedMs == Paused(i)
      invariant reply == Some(Reply(None, if i == 0 then None else Some(PoolBusy)))
    {
      var id: nat, over: bool;
      ghost var before, steps := pool.View(), [];
      id, reply, over, steps := Turn(pool, job, env.each(i), env.pause(i), env.interrupted(i));
      AfterTurn(pool.cfg, old(pool.View()), ls, before, steps, pool.View(), ids, id,
                job, env, maxRetries, reply, over, pausedMs);
      ls, ids := ls + steps, ids + [id];
      if over {
        return;
      }
      NextPause(i);
      var waitTime := (i + 1) * 10;
      pausedMs := pausedMs + waitTime;
      i := i + 1;
    }
    if maxRetries > 0 {
      SettledBy(pool.cfg, old(pool.View()), ls, pool.View(), ids, job, env, maxRetries, reply, pausedMs);
    }
  }
}
