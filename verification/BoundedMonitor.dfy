/**
 The producer/consumer monitor: one mutex, a counter `index` between 0 and the
 capacity, consumers waiting on cond1 and producers waiting on cond2. Locking, testing,
 waiting, updating, signalling and unlocking are separate steps, taken by any
 number of threads in any order; a sleeper may also wake up spuriously.
 */
module BoundedMonitor {
  import opened Options
  import opened Runs
  import opened Sums

  datatype Role = Producer | Consumer

  /** Where a thread stands in the body of `produce` or `consume`. */
  datatype Stage =
    | Start   // about to lock the mutex
    | Test    // holds the mutex, about to test `index`
    | Wait    // holds the mutex, about to call pthread_cond_wait
    | Asleep  // inside pthread_cond_wait, not yet woken
    | Woken   // inside pthread_cond_wait, woken, not yet holding the mutex again
    | Update  // holds the mutex, about to change `index`
    | Notify  // holds the mutex, about to signal or broadcast
    | Unlock  // holds the mutex, about to release it

  datatype Thread = Thread(role: Role, stage: Stage)

  /** `produced` and `consumed` count the updates of `index` so far. */
  datatype State = State(
    capacity: nat,
    producers: nat,
    index: int,
    owner: Option<nat>,
    threads: seq<Thread>,
    produced: nat,
    consumed: nat)

  datatype Event =
    | Act(tid: nat)                    // the next statement of a thread
    | Signal(tid: nat, wake: set<nat>) // a signal or broadcast, and the threads it wakes
    | Spurious(tid: nat)               // pthread_cond_wait returns without a signal

  function Init(capacity: nat, producers: nat, consumers: nat): State {
    State(capacity, producers, 0, None,
          seq(producers + consumers, i => Thread(if i < producers then Producer else Consumer, Start)), 0, 0)
  }

  predicate MustWait(s: State, role: Role) {
    match role
    case Consumer => s.index <= 0
    case Producer => s.index >= s.capacity
  }

  function Goto(s: State, t: nat, stage: Stage): State
    requires t < |s.threads|
  {
    s.(threads := s.threads[t := s.threads[t].(stage := stage)])
  }

  /** The threads asleep on the condition variable that `role` waits on. */
  function Sleepers(s: State, role: Role): set<nat> {
    set i: nat | i < |s.threads| && s.threads[i] == Thread(role, Asleep)
  }

  /** Producers broadcast to all consumers; consumers signal, which wakes at least one sleeping producer. */
  predicate WakesEnough(s: State, notifier: Role, wake: set<nat>) {
    match notifier
    case Producer => wake == Sleepers(s, Consumer)
    case Consumer => wake <= Sleepers(s, Producer) && (Sleepers(s, Producer) != {} ==> wake != {})
  }

  function WakeUp(threads: seq<Thread>, wake: set<nat>): seq<Thread> {
    seq(|threads|, i requires 0 <= i < |threads| => if i in wake then threads[i].(stage := Woken) else threads[i])
  }

  function UpdateIndex(s: State, role: Role): State {
    match role
    case Producer => s.(index := s.index + 1, produced := s.produced + 1)
    case Consumer => s.(index := s.index - 1, consumed := s.consumed + 1)
  }

  function Next(s: State, e: Event): Option<State> {
    if e.tid >= |s.threads| then None else
    var th := s.threads[e.tid];
    match e
    case Spurious(t) =>
      if th.stage == Asleep then Some(Goto(s, t, Woken)) else None
    case Signal(t, wake) =>
      if th.stage == Notify && WakesEnough(s, th.role, wake) then
        Some(Goto(s, t, Unlock).(threads := WakeUp(Goto(s, t, Unlock).threads, wake)))
      else None
    case Act(t) =>
      match th.stage
      case Start | Woken => if s.owner.None? then Some(Goto(s, t, Test).(owner := Some(t))) else None
      case Test => Some(Goto(s, t, if MustWait(s, th.role) then Wait else Update))
      case Wait => Some(Goto(s, t, Asleep).(owner := None))
      case Update => Some(UpdateIndex(Goto(s, t, Notify), th.role))
      case Unlock => Some(Goto(s, t, Start).(owner := None))
      case Asleep | Notify => None
  }

  // ---- The invariant ----

  predicate Holds(stage: Stage) {
    stage in {Test, Wait, Update, Notify, Unlock}
  }

  predicate OwnedProperly(s: State) {
    && (s.owner.Some? ==> s.owner.value < |s.threads|)
    && forall i :: 0 <= i < |s.threads| ==> (Holds(s.threads[i].stage) <==> s.owner == Some(i))
  }

  predicate RolesFixed(s: State) {
    && s.producers <= |s.threads|
    && forall i :: 0 <= i < |s.threads| ==> (s.threads[i].role == Producer <==> i < s.producers)
  }

  /** What a thread that passed or failed its test still knows, because it holds the mutex. */
  predicate TestStillHolds(s: State) {
    forall i :: 0 <= i < |s.threads| ==>
      && (s.threads[i].stage == Wait ==> MustWait(s, s.threads[i].role))
      && (s.threads[i].stage == Update ==> !MustWait(s, s.threads[i].role))
  }

  /** Who is bound to take, or to hand on, one free slot: a producer that was woken
      and has not changed `index` yet, and a consumer between its update and its signal. */
  function Due(th: Thread): nat {
    if (th.role == Producer && th.stage in {Woken, Test, Update}) || th == Thread(Consumer, Notify) then 1 else 0
  }

  function Dues(s: State): seq<nat> {
    seq(|s.threads|, i requires 0 <= i < |s.threads| => Due(s.threads[i]))
  }

  /** A consumer sleeps only while nothing is there, or while a producer is about to broadcast. */
  predicate ConsumersNotForgotten(s: State) {
    Sleepers(s, Consumer) != {} ==> s.index == 0 || (exists i :: 0 <= i < |s.threads| && s.threads[i] == Thread(Producer, Notify))
  }

  /** A producer sleeps only while every free slot is already due to someone. */
  predicate ProducersNotForgotten(s: State) {
    Sleepers(s, Producer) != {} ==> s.capacity - s.index <= Sum(Dues(s))
  }

  predicate Structure(s: State) {
    && OwnedProperly(s)
    && RolesFixed(s)
    && 0 <= s.index <= s.capacity
    && s.index == s.produced - s.consumed
    && TestStillHolds(s)
  }

  predicate Inv(s: State) {
    && Structure(s)
    && ConsumersNotForgotten(s)
    && ProducersNotForgotten(s)
  }

  lemma InitInv(capacity: nat, producers: nat, consumers: nat)
    ensures Inv(Init(capacity, producers, consumers))
  {
  }

  lemma GotoDues(s: State, t: nat, stage: Stage)
    requires t < |s.threads|
    ensures var s' := Goto(s, t, stage);
            Sum(Dues(s')) + Due(s.threads[t]) == Sum(Dues(s)) + Due(s'.threads[t])
  {
    var s' := Goto(s, t, stage);
    assert Dues(s') == Dues(s)[t := Due(s'.threads[t])];
    SumUpdate(Dues(s), t, Due(s'.threads[t]));
  }

  lemma WakeDues(s: State, wake: set<nat>)
    requires wake <= Sleepers(s, Producer) || wake <= Sleepers(s, Consumer)
    ensures var s' := s.(threads := WakeUp(s.threads, wake));
            && Sum(Dues(s)) <= Sum(Dues(s'))
            && (wake != {} && wake <= Sleepers(s, Producer) ==> Sum(Dues(s)) + 1 <= Sum(Dues(s')))
  {
    var s' := s.(threads := WakeUp(s.threads, wake));
    SumMonotone(Dues(s), Dues(s'));
    if wake != {} && wake <= Sleepers(s, Producer) {
      var j :| j in wake;
      SumUpdate(Dues(s), j, 1);
      SumMonotone(Dues(s)[j := 1], Dues(s'));
    }
  }

  lemma GotoSleepers(s: State, t: nat, stage: Stage, role: Role)
    requires t < |s.threads|
    ensures var others := Sleepers(s, role) - {t};
            Sleepers(Goto(s, t, stage), role) ==
            if stage == Asleep && s.threads[t].role == role then others + {t} else others
  {
  }

  lemma SignalSleepers(s: State, t: nat, wake: set<nat>, role: Role)
    requires Next(s, Signal(t, wake)).Some?
    ensures Sleepers(Next(s, Signal(t, wake)).value, role) == Sleepers(s, role) - wake
  {
  }

  lemma ActStructure(s: State, t: nat)
    requires Structure(s) && Next(s, Act(t)).Some?
    ensures Structure(Next(s, Act(t)).value)
  {
    var s' := Next(s, Act(t)).value;
    assert s'.threads == s.threads[t := s'.threads[t]];
    assert forall i :: 0 <= i < |s.threads| && i != t && Holds(s.threads[i].stage) ==> s.threads[t].stage in {Start, Woken, Asleep};
  }

  lemma SignalStructure(s: State, t: nat, wake: set<nat>)
    requires Structure(s) && Next(s, Signal(t, wake)).Some?
    ensures Structure(Next(s, Signal(t, wake)).value)
  {
    var s' := Next(s, Signal(t, wake)).value;
    forall i | 0 <= i < |s.threads| && i != t
      ensures s'.threads[i] == if i in wake then s.threads[i].(stage := Woken) else s.threads[i]
      ensures i in wake ==> s.threads[i].stage == Asleep
    {
    }
  }

  lemma ActConsumers(s: State, t: nat)
    requires Inv(s) && Next(s, Act(t)).Some?
    ensures ConsumersNotForgotten(Next(s, Act(t)).value)
  {
    var s' := Next(s, Act(t)).value;
    GotoSleepers(s, t, s'.threads[t].stage, Consumer);
    assert Sleepers(s', Consumer) == Sleepers(Goto(s, t, s'.threads[t].stage), Consumer);
  }

  lemma ActProducers(s: State, t: nat)
    requires Inv(s) && Next(s, Act(t)).Some?
    ensures ProducersNotForgotten(Next(s, Act(t)).value)
  {
    var s' := Next(s, Act(t)).value;
    var stage := s'.threads[t].stage;
    GotoSleepers(s, t, stage, Producer);
    GotoDues(s, t, stage);
    assert Sleepers(s', Producer) == Sleepers(Goto(s, t, stage), Producer);
    assert Dues(s') == Dues(Goto(s, t, stage));
  }

  lemma SignalCounts(s: State, t: nat, wake: set<nat>)
    requires Inv(s) && Next(s, Signal(t, wake)).Some?
    ensures ConsumersNotForgotten(Next(s, Signal(t, wake)).value)
    ensures ProducersNotForgotten(Next(s, Signal(t, wake)).value)
  {
    var mid := Goto(s, t, Unlock);
    SignalSleepers(s, t, wake, Producer);
    SignalSleepers(s, t, wake, Consumer);
    GotoDues(s, t, Unlock);
    WakeDues(mid, wake);
  }

  lemma SpuriousInv(s: State, t: nat)
    requires Inv(s) && Next(s, Spurious(t)).Some?
    ensures Inv(Next(s, Spurious(t)).value)
  {
    GotoDues(s, t, Woken);
    GotoSleepers(s, t, Woken, Producer);
    GotoSleepers(s, t, Woken, Consumer);
  }

  /** The invariant is inductive over every step, spurious wakeups included. */
  lemma NextInv(s: State, e: Event)
    requires Inv(s) && Next(s, e).Some?
    ensures Inv(Next(s, e).value)
  {
    match e
    case Act(t) =>
      ActStructure(s, t);
      ActConsumers(s, t);
      ActProducers(s, t);
    case Signal(t, wake) =>
      SignalStructure(s, t, wake);
      SignalCounts(s, t, wake);
    case Spurious(t) =>
      SpuriousInv(s, t);
  }
}
