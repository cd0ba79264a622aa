/**
 The concurrency limiter of internal/middleware/concurrency.go.

 `Acquire` and `Release` touch the semaphore and the `active` counter in separate
 atomic steps, and other requests may come in between.
 */
module SlotProtocol {

  /** Where a request stands in the middleware. */
  datatype Phase =
    | Entered      // before the semaphore send
    | Rejected     // the semaphore was full
    | Sent         // holds a slot, not yet counted as active
    | Running      // counted, inside the handler
    | Leaving      // the handler has returned or panicked, the deferred Release is due
    | Received     // gave the slot back, still counted as active
    | Done

  datatype State = State(semaphore: nat, active: int, reqs: seq<Phase>)

  /**
   `panicked` records how a handler ended and influences no step: Go runs the deferred
   `Release` in both cases.  That a panic leaks nothing holds by this construction.
   */
  datatype Label =
    | Enter | Send(id: nat) | Reject(id: nat) | CountIn(id: nat)
    | Leave(id: nat, panicked: bool) | Receive(id: nat) | CountOut(id: nat)

  const INIT := State(0, 0, [])

  predicate At(s: State, id: nat, p: Phase) {
    id < |s.reqs| && s.reqs[id] == p
  }

  predicate Enabled(max: nat, s: State, l: Label) {
    match l
    case Enter => true
    case Send(id) => At(s, id, Entered) && s.semaphore < max
    case Reject(id) => At(s, id, Entered) && !(s.semaphore < max)
    case CountIn(id) => At(s, id, Sent)
    case Leave(id, _) => At(s, id, Running)
    case Receive(id) => At(s, id, Leaving) && s.semaphore > 0
    case CountOut(id) => At(s, id, Received)
  }

  function Move(s: State, id: nat, p: Phase): State
    requires id < |s.reqs|
  {
    s.(reqs := s.reqs[id := p])
  }

  function Apply(max: nat, s: State, l: Label): State
    requires Enabled(max, s, l)
  {
    match l
    case Enter => s.(reqs := s.reqs + [Entered])
    case Send(id) => Move(s, id, Sent).(semaphore := s.semaphore + 1)
    case Reject(id) => Move(s, id, Rejected)
    case CountIn(id) => Move(s, id, Running).(active := s.active + 1)
    case Leave(id, _) => Move(s, id, Leaving)
    case Receive(id) => Move(s, id, Received).(semaphore := s.semaphore - 1)
    case CountOut(id) => Move(s, id, Done).(active := s.active - 1)
  }

  ghost predicate Runs(max: nat, s: State, ls: seq<Label>, t: State)
    decreases |ls|
  {
    if ls == [] then s == t
    else Enabled(max, s, ls[0]) && Runs(max, Apply(max, s, ls[0]), ls[1..], t)
  }

  ghost predicate Reachable(max: nat, t: State) {
    exists ls :: Runs(max, INIT, ls, t)
  }

  /** The number of requests in a given phase. */
  function Num(ps: seq<Phase>, p: Phase): nat {
    if ps == [] then 0 else Num(ps[..|ps| - 1], p) + (if ps[|ps| - 1] == p then 1 else 0)
  }

  lemma {:induction false} NumAfter(ps: seq<Phase>, id: nat, q: Phase, p: Phase)
    requires id < |ps|
    ensures Num(ps[id := q], p) == Num(ps, p) - (if ps[id] == p then 1 else 0) + (if q == p then 1 else 0)
    decreases |ps|
  {
    var n := |ps| - 1;
    if id == n {
      assert ps[id := q][..n] == ps[..n];
    } else {
      assert ps[id := q][..n] == ps[..n][id := q];
      NumAfter(ps[..n], id, q, p);
    }
  }

  lemma {:induction false} NumSome(ps: seq<Phase>, id: nat)
    requires id < |ps|
    ensures Num(ps, ps[id]) > 0
    decreases |ps|
  {
    if id < |ps| - 1 {
      NumSome(ps[..|ps| - 1], id);
    }
  }

  lemma {:induction false} NumNone(ps: seq<Phase>, p: Phase)
    requires p !in ps
    ensures Num(ps, p) == 0
    decreases |ps|
  {
    if ps != [] {
      NumNone(ps[..|ps| - 1], p);
    }
  }

  ghost predicate Inv(max: nat, s: State) {
    && s.semaphore == Num(s.reqs, Sent) + Num(s.reqs, Running) + Num(s.reqs, Leaving) <= max
    && s.active == Num(s.reqs, Running) + Num(s.reqs, Leaving) + Num(s.reqs, Received)
  }

  lemma MoveCounts(s: State, id: nat, q: Phase)
    requires id < |s.reqs|
    ensures forall p :: p in {Sent, Running, Leaving, Received} ==>
              Num(s.reqs[id := q], p) == Num(s.reqs, p) - (if s.reqs[id] == p then 1 else 0) + (if q == p then 1 else 0)
  {
    forall p | p in {Sent, Running, Leaving, Received} {
      NumAfter(s.reqs, id, q, p);
    }
  }

  lemma StepInv(max: nat, s: State, l: Label)
    requires Inv(max, s) && Enabled(max, s, l)
    ensures Inv(max, Apply(max, s, l))
  {
    var t := Apply(max, s, l);
    if l.Enter? {
      assert t.reqs[..|s.reqs|] == s.reqs;
    } else {
      MoveCounts(s, l.id, t.reqs[l.id]);
    }
  }

  lemma {:induction false} RunInv(max: nat, s: State, ls: seq<Label>, t: State)
    requires Inv(max, s) && Runs(max, s, ls, t)
    ensures Inv(max, t)
    decreases |ls|
  {
    if ls != [] {
      StepInv(max, s, ls[0]);
      RunInv(max, Apply(max, s, ls[0]), ls[1..], t);
    }
  }

  lemma ReachableInv(max: nat, t: State)
    requires Reachable(max, t)
    ensures Inv(max, t)
  {
    var ls :| Runs(max, INIT, ls, t);
    RunInv(max, INIT, ls, t);
  }

  /**
   What the limiter really guarantees.  Handlers never outnumber the slots.  The counter
   is not bounded by `max`: it still includes requests that have given their slot back.
   */
  lemma LimiterBounds(max: nat, t: State)
    requires Reachable(max, t)
    ensures Num(t.reqs, Running) <= t.semaphore <= max
    ensures t.active == Num(t.reqs, Running) + Num(t.reqs, Leaving) + Num(t.reqs, Received)
    ensures 0 <= t.active <= max + Num(t.reqs, Received)
    ensures t.active <= t.semaphore + Num(t.reqs, Received)
  {
    ReachableInv(max, t);
  }

  /** `Release` never blocks, and a request is turned away only when all slots are taken. */
  lemma NeverBlocks(max: nat, t: State, id: nat)
    requires Reachable(max, t) && id < |t.reqs|
    ensures t.reqs[id] == Leaving ==> Enabled(max, t, Receive(id))
    ensures Enabled(max, t, Reject(id)) ==>
              Num(t.reqs, Sent) + Num(t.reqs, Running) + Num(t.reqs, Leaving) == max
  {
    ReachableInv(max, t);
    NumSome(t.reqs, id);
  }

  ghost predicate Quiescent(s: State) {
    forall p :: p in s.reqs ==> p.Entered? || p.Rejected? || p.Done?
  }

  /** When nobody is between `Acquire` and the end of `Release`, nothing is left over. */
  lemma NothingLeaks(max: nat, t: State)
    requires Reachable(max, t) && Quiescent(t)
    ensures t.semaphore == 0 && t.active == 0
  {
    ReachableInv(max, t);
    forall p | p in {Sent, Running, Leaving, Received} {
      NumNone(t.reqs, p);
    }
  }

  // ---- How far the counter can exceed the limit ----

  lemma {:induction false} RunsConcat(max: nat, s: State, ls: seq<Label>, t: State, ls': seq<Label>, u: State)
    requires Runs(max, s, ls, t) && Runs(max, t, ls', u)
    ensures Runs(max, s, ls + ls', u)
    decreases |ls|
  {
    if ls == [] {
      assert ls + ls' == ls';
    } else {
      assert (ls + ls')[1..] == ls[1..] + ls';
      RunsConcat(max, Apply(max, s, ls[0]), ls[1..], t, ls', u);
    }
  }

  lemma ReachStep(max: nat, s: State, l: Label)
    requires Reachable(max, s) && Enabled(max, s, l)
    ensures Reachable(max, Apply(max, s, l))
  {
    var ls :| Runs(max, INIT, ls, s);
    assert Runs(max, s, [l], Apply(max, s, l)) by {
      assert [l][1..] == [];
    }
    RunsConcat(max, INIT, ls, s, [l], Apply(max, s, l));
  }

  /** A newcomer goes through `Acquire`. */
  lemma Admit(max: nat, s: State) returns (t: State)
    requires Reachable(max, s) && s.semaphore < max
    ensures Reachable(max, t) && t == State(s.semaphore + 1, s.active + 1, s.reqs + [Running])
  {
    var id := |s.reqs|;
    ReachStep(max, s, Enter);
    var s1 := Apply(max, s, Enter);
    ReachStep(max, s1, Send(id));
    var s2 := Apply(max, s1, Send(id));
    ReachStep(max, s2, CountIn(id));
    t := Apply(max, s2, CountIn(id));
    assert t.reqs == s.reqs + [Running];
  }

  /** A newcomer comes, goes, and is interrupted just before decrementing the counter. */
  lemma Linger(max: nat, s: State) returns (t: State)
    requires Reachable(max, s) && s.semaphore < max
    ensures Reachable(max, t) && t.semaphore == s.semaphore && t.active == s.active + 1
  {
    var id := |s.reqs|;
    var s1 := Admit(max, s);
    ReachStep(max, s1, Leave(id, false));
    var s2 := Apply(max, s1, Leave(id, false));
    ReachStep(max, s2, Receive(id));
    t := Apply(max, s2, Receive(id));
  }

  lemma {:induction false} LingerMany(max: nat, k: nat) returns (t: State)
    requires max > 0
    ensures Reachable(max, t) && t.semaphore == 0 && t.active == k
    decreases k
  {
    if k == 0 {
      t := INIT;
      assert Runs(max, INIT, [], INIT);
    } else {
      t := LingerMany(max, k - 1);
      t := Linger(max, t);
    }
  }

  lemma {:induction false} FillUp(max: nat, s: State) returns (t: State)
    requires Reachable(max, s) && s.semaphore <= max
    ensures Reachable(max, t) && t.semaphore == max && t.active == s.active + max - s.semaphore
    decreases max - s.semaphore
  {
    t := s;
    if s.semaphore < max {
      t := Admit(max, s);
      t := FillUp(max, t);
    }
  }

  /** The counter exceeds the limit by any amount at all, at every limit that admits someone. */
  lemma Overshoot(max: nat, k: nat) returns (t: State)
    requires max > 0
    ensures Reachable(max, t) && t.active == max + k && t.semaphore == max
  {
    t := LingerMany(max, k);
    t := FillUp(max, t);
  }

  lemma {:induction false} NobodyIn(s: State, ls: seq<Label>, t: State)
    requires Runs(0, s, ls, t) && s.active == 0 && forall p :: p in s.reqs ==> p.Entered? || p.Rejected?
    ensures t.active == 0
    decreases |ls|
  {
    if ls != [] {
      var l := ls[0];
      if !l.Enter? {
        assert s.reqs[l.id] in s.reqs;
      }
      NobodyIn(Apply(0, s, l), ls[1..], t);
    }
  }

  /** The claim `active <= max`, exactly: it is an invariant only of the limiter that admits nobody. */
  lemma ActiveBoundedIff(max: nat)
    ensures (forall t :: Reachable(max, t) ==> t.active <= max) <==> max == 0
  {
    if max > 0 {
      var t := Overshoot(max, 1);
      assert Reachable(max, t) && t.active > max;
    } else {
      forall t | Reachable(max, t)
        ensures t.active <= max
      {
        var ls :| Runs(max, INIT, ls, t);
        NobodyIn(INIT, ls, t);
      }
    }
  }
}
