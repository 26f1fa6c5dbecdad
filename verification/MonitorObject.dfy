/**
 The monitor object itself. Each method is what one thread does between two points
 where another may run, and is proved to be exactly one step of the machine in
 BoundedMonitor; Execute interleaves them along a schedule.
 */
module MonitorObject {
  import opened Options
  import opened Runs
  import opened BoundedMonitor

  class Mydata {
    const capicity: nat
    const producers: nat
    var index: int
    var owner: Option<nat>     // who holds mutex1
    var threads: seq<Thread>   // the program counters
    var produced: nat
    var consumed: nat

    function Value(): State
      reads this
    {
      State(capicity, producers, index, owner, threads, produced, consumed)
    }

    constructor (n: nat, producers: nat, consumers: nat)
      ensures Value() == Init(n, producers, consumers)
      ensures Inv(Value())
    {
      capicity, this.producers := n, producers;
      index, produced, consumed := 0, 0, 0;
      owner := None;
      threads := seq(producers + consumers, i => Thread(if i < producers then Producer else Consumer, Start));
      new;
      InitInv(n, producers, consumers);
    }

    method MoveTo(t: nat, stage: Stage)
      requires t < |threads|
      modifies this`threads
      ensures threads == old(threads)[t := old(threads)[t].(stage := stage)]
    {
      threads := threads[t := threads[t].(stage := stage)];
    }

    /** pthread_mutex_lock, and the re-locking at the end of pthread_cond_wait. */
    method LockMutex(t: nat)
      requires t < |threads| && threads[t].stage in {Start, Woken} && owner.None?
      modifies this`owner, this`threads
      ensures Next(old(Value()), Act(t)) == Some(Value())
    {
      owner := Some(t);
      MoveTo(t, Test);
    }

    /** The test of the inner while loop. */
    method TestIndex(t: nat)
      requires t < |threads| && threads[t].stage == Test
      modifies this`threads
      ensures Next(old(Value()), Act(t)) == Some(Value())
    {
      var mustWait := if threads[t].role == Consumer then index <= 0 else index >= capicity;
      MoveTo(t, if mustWait then Wait else Update);
    }

    /** pthread_cond_wait up to the point where the thread sleeps. */
    method StartWaiting(t: nat)
      requires t < |threads| && threads[t].stage == Wait
      modifies this`owner, this`threads
      ensures Next(old(Value()), Act(t)) == Some(Value())
    {
      owner := None;
      MoveTo(t, Asleep);
    }

    /** `index--` in consume, `index++` in produce. */
    method ChangeIndex(t: nat)
      requires t < |threads| && threads[t].stage == Update
      modifies this`index, this`threads, this`produced, this`consumed
      ensures Next(old(Value()), Act(t)) == Some(Value())
    {
      if threads[t].role == Consumer {
        index, consumed := index - 1, consumed + 1;
      } else {
        index, produced := index + 1, produced + 1;
      }
      MoveTo(t, Notify);
    }

    /** pthread_cond_signal(&cond2) in consume, pthread_cond_broadcast(&cond1) in produce. */
    method NotifyOthers(t: nat, wake: set<nat>)
      requires t < |threads| && threads[t].stage == Notify && WakesEnough(Value(), threads[t].role, wake)
      modifies this`threads
      ensures Next(old(Value()), Signal(t, wake)) == Some(Value())
    {
      MoveTo(t, Unlock);
      threads := WakeUp(threads, wake);
    }

    method UnlockMutex(t: nat)
      requires t < |threads| && threads[t].stage == Unlock
      modifies this`owner, this`threads
      ensures owner.None? && threads == old(threads)[t := Thread(old(threads)[t].role, Start)]
      ensures Next(old(Value()), Act(t)) == Some(Value())
    {
      owner := None;
      MoveTo(t, Start);
    }

    method WakeSpuriously(t: nat)
      requires t < |threads| && threads[t].stage == Asleep
      modifies this`threads
      ensures Next(old(Value()), Spurious(t)) == Some(Value())
    {
      MoveTo(t, Woken);
    }

    method Dispatch(e: Event)
      requires Next(Value(), e).Some?
      modifies this
      ensures Next(old(Value()), e) == Some(Value())
    {
      match e {
        case Spurious(t) => WakeSpuriously(t);
        case Signal(t, wake) => NotifyOthers(t, wake);
        case Act(t) =>
          match threads[t].stage {
            case Start | Woken => LockMutex(t);
            case Test => TestIndex(t);
            case Wait => StartWaiting(t);
            case Update => ChangeIndex(t);
            case Unlock => UnlockMutex(t);
          }
      }
    }

    /** The threads run in the order the schedule gives. */
    method Execute(es: seq<Event>)
      requires Exec(Next, Value(), es).Some?
      modifies this
      ensures Exec(Next, old(Value()), es) == Some(Value())
    {
      ghost var s0 := Value();
      for i := 0 to |es|
        invariant Exec(Next, s0, es[..i]) == Some(Value())
      {
        ExecNext(Next, s0, es, i);
        Dispatch(es[i]);
      }
      assert es[..|es|] == es;
    }
  }
}
