/** The limiter as a mutable object; every method is one atomic step of SlotProtocol. */
module ConcurrencyLimiting {
  import opened SlotProtocol

  class ConcurrencyLimiter {
    var semaphore: nat
    var active: int
    const max: nat
    ghost var reqs: seq<Phase>

    ghost function View(): State
      reads this
    {
      State(semaphore, active, reqs)
    }

    ghost predicate Valid()
      reads this
    {
      Inv(max, View())
    }

    constructor (max: nat)
      ensures Valid() && this.max == max && View() == INIT
    {
      semaphore, active, reqs := 0, 0, [];
      this.max := max;
    }

    method Arrive() returns (ghost id: nat)
      requires Valid()
      modifies this
      ensures Valid() && id == |old(reqs)| && View() == Apply(max, old(View()), Enter)
    {
      StepInv(max, View(), Enter);
      id := |reqs|;
      reqs := reqs + [Entered];
    }

    /** First half of `Acquire`: the non-blocking send decides. */
    method TryTake(ghost id: nat) returns (ok: bool)
      requires Valid() && At(View(), id, Entered)
      modifies this
      ensures Valid() && ok == (old(semaphore) < max)
      ensures View() == Apply(max, old(View()), if ok then Send(id) else Reject(id))
    {
      ok := semaphore < max;
      StepInv(max, View(), if ok then Send(id) else Reject(id));
      if ok {
        semaphore := semaphore + 1;
      }
      reqs := reqs[id := if ok then Sent else Rejected];
    }

    /** Second half of `Acquire`, under the mutex; the value is what gets logged and exported. */
    method CountUp(ghost id: nat) returns (shown: int)
      requires Valid() && At(View(), id, Sent)
      modifies this
      ensures Valid() && View() == Apply(max, old(View()), CountIn(id))
      ensures shown == active && 1 <= shown <= max + Num(reqs, Received)
    {
      StepInv(max, View(), CountIn(id));
      active := active + 1;
      reqs := reqs[id := Running];
      shown := active;
      NumSome(reqs, id);
    }

    /** The handler ends; a panic runs the deferred release just the same. */
    method Finish(ghost id: nat, ghost panicked: bool)
      requires Valid() && At(View(), id, Running)
      modifies this`reqs
      ensures Valid() && View() == Apply(max, old(View()), Leave(id, panicked))
    {
      StepInv(max, View(), Leave(id, panicked));
      reqs := reqs[id := Leaving];
    }

    /** First half of `Release`: the receive always finds something. */
    method GiveBack(ghost id: nat)
      requires Valid() && At(View(), id, Leaving)
      modifies this
      ensures Valid() && old(semaphore) > 0 && View() == Apply(max, old(View()), SlotProtocol.Receive(id))
    {
      NumSome(reqs, id);
      StepInv(max, View(), SlotProtocol.Receive(id));
      semaphore := semaphore - 1;
      reqs := reqs[id := Received];
    }

    /** Second half of `Release`, under the mutex. */
    method CountDown(ghost id: nat) returns (shown: int)
      requires Valid() && At(View(), id, Received)
      modifies this
      ensures Valid() && View() == Apply(max, old(View()), CountOut(id))
      ensures shown == active && 0 <= shown
    {
      StepInv(max, View(), CountOut(id));
      active := active - 1;
      reqs := reqs[id := Done];
      shown := active;
    }
  }
}
