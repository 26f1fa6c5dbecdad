/**
 The batch consumer: a producer adds one to `count` a fixed number of times, and
 signals after it has unlocked the mutex; a consumer takes a whole batch away
 whenever one is there, and otherwise waits. The signal lies outside the
 critical section, so the consumer may sleep with a full batch for a moment.
 */
module BatchCondition {
  import opened Options
  import opened Products
  import opened Runs

  datatype Role = Taker | Counter

  /** Where task1 stands. */
  datatype TakerStage = TLock | TTest | TWait | TAsleep | TWoken | TTake | TUnlock

  /** Where task2 stands; Finished when its loop is over. */
  datatype CounterStage = CLock | CIncrement | CUnlock | CSignal | CFinished

  datatype State = State(
    batch: nat,      // what the consumer takes at once, 10 in the code
    total: nat,      // how often the producer increments, 100 in the code
    count: int,
    owner: Option<Role>,
    taker: TakerStage,
    counter: CounterStage,
    i: nat,          // the producer's loop variable
    made: nat,       // increments so far
    batches: nat)    // batches taken so far

  datatype Event = Take | Count | Spurious

  function LoopTest(i: nat, total: nat): CounterStage {
    if i < total then CLock else CFinished
  }

  function Init(batch: nat, total: nat): State {
    State(batch, total, 0, None, TLock, LoopTest(0, total), 0, 0, 0)
  }

  /** The next statement of task1. */
  function TakerNext(s: State): Option<State> {
    match s.taker
    case TLock | TWoken => if s.owner.None? then Some(s.(owner := Some(Taker), taker := TTest)) else None
    case TTest => Some(s.(taker := if s.count < s.batch then TWait else TTake))
    case TWait => Some(s.(owner := None, taker := TAsleep))
    case TAsleep => None
    case TTake => Some(s.(count := s.count - s.batch, batches := s.batches + 1, taker := TUnlock))
    case TUnlock => Some(s.(owner := None, taker := TLock))
  }

  /** The next statement of task2. */
  function CounterNext(s: State): Option<State> {
    match s.counter
    case CLock => if s.owner.None? then Some(s.(owner := Some(Counter), counter := CIncrement)) else None
    case CIncrement => Some(s.(count := s.count + 1, made := s.made + 1, counter := CUnlock))
    case CUnlock => Some(s.(owner := None, counter := CSignal))
    case CSignal => Some(s.(taker := if s.taker == TAsleep then TWoken else s.taker,
                            i := s.i + 1, counter := LoopTest(s.i + 1, s.total)))
    case CFinished => None
  }

  function Next(s: State, e: Event): Option<State> {
    match e
    case Take => TakerNext(s)
    case Count => CounterNext(s)
    case Spurious => if s.taker == TAsleep then Some(s.(taker := TWoken)) else None
  }

  // ---- The invariant ----

  predicate BetweenIncrementAndSignal(s: State) {
    s.counter in {CUnlock, CSignal}
  }

  predicate Inv(s: State) {
    && (s.taker in {TTest, TWait, TTake, TUnlock} <==> s.owner == Some(Taker))
    && (s.counter in {CIncrement, CUnlock} <==> s.owner == Some(Counter))
    && s.made == s.i + (if BetweenIncrementAndSignal(s) then 1 else 0) <= s.total
    && (s.counter == CFinished <==> s.i == s.total)
    && s.count >= 0
    && s.count + s.batch * s.batches == s.made
    && (s.taker == TWait ==> s.count < s.batch)
    && (s.taker == TTake ==> s.count >= s.batch)
    && (s.taker == TAsleep && s.count >= s.batch ==> s.count == s.batch && BetweenIncrementAndSignal(s))
  }

  lemma NextInv(s: State, e: Event)
    requires Inv(s) && Next(s, e).Some?
    ensures Inv(Next(s, e).value)
  {
    if e == Take && s.taker == TTake {
      assert s.batch * (s.batches + 1) == s.batch * s.batches + s.batch;
    }
  }

  lemma RunInv(s: State, es: seq<Event>, s': State)
    requires Inv(s) && Reaches(Next, s, es, s')
    ensures Inv(s')
  {
    forall u, e | Inv(u) && Next(u, e).Some?
      ensures Inv(Next(u, e).value)
    {
      NextInv(u, e);
    }
    Preserved(Next, Inv, s, es);
  }

  lemma RunConstants(s: State, es: seq<Event>, s': State)
    requires Reaches(Next, s, es, s')
    ensures s'.batch == s.batch && s'.total == s.total
    decreases |es|
  {
    if es != [] {
      RunConstants(s, es[..|es| - 1], Exec(Next, s, es[..|es| - 1]).value);
    }
  }

  /** Signalling after the unlock loses no wakeup: the consumer sleeps on a full
      batch only while the very increment that completed it is not signalled yet.
      Nothing is lost or taken twice, and `count` is never negative. */
  lemma NoLostWakeup(batch: nat, total: nat, es: seq<Event>, s: State)
    requires batch >= 1 && Reaches(Next, Init(batch, total), es, s)
    ensures s.taker == TAsleep && s.count >= batch ==> s.count == batch && BetweenIncrementAndSignal(s)
    ensures s.count + batch * s.batches == s.made <= total
    ensures 0 <= s.count
  {
    RunInv(Init(batch, total), es, s);
    RunConstants(Init(batch, total), es, s);
  }

  // ---- What a whole round of each task does ----

  /** A round of the consumer that finds a batch takes exactly that, whatever the producer
      does outside the mutex, and gives the mutex back. */
  lemma TakerRound(s: State)
    requires s.owner.None? && s.taker in {TLock, TWoken} && s.count >= s.batch
    ensures Reaches(Next, s, [Take, Take, Take, Take],
                    s.(count := s.count - s.batch, batches := s.batches + 1, taker := TLock))
  {
    var inside := s.(owner := Some(Taker));
    var taken := s.(count := s.count - s.batch, batches := s.batches + 1, owner := Some(Taker), taker := TUnlock);
    ExecFour(Next, s, Take, inside.(taker := TTest), Take, inside.(taker := TTake), Take, taken, Take,
             taken.(owner := None, taker := TLock));
  }

  /** A round that finds none puts the consumer to sleep, without the mutex; woken, it
      starts over with the same test. */
  lemma TakerDozes(s: State)
    requires s.owner.None? && s.taker in {TLock, TWoken} && s.count < s.batch
    ensures Reaches(Next, s, [Take, Take, Take], s.(taker := TAsleep))
    ensures Next(s.(taker := TAsleep), Take).None?
    ensures Next(s.(taker := TAsleep), Spurious) == Some(s.(taker := TWoken))
  {
    var inside := s.(owner := Some(Taker));
    ExecThree(Next, s, Take, inside.(taker := TTest), Take, inside.(taker := TWait), Take, s.(taker := TAsleep));
  }

  /** The producer up to its unlock: the mutex is free again, and the signal still to come. */
  lemma CounterUnlocks(s: State)
    requires s.owner.None? && s.counter == CLock
    ensures Reaches(Next, s, [Count, Count, Count], s.(count := s.count + 1, made := s.made + 1, counter := CSignal))
  {
    var added := s.(count := s.count + 1, made := s.made + 1, owner := Some(Counter), counter := CUnlock);
    ExecThree(Next, s, Count, s.(owner := Some(Counter), counter := CIncrement), Count, added, Count,
              added.(owner := None, counter := CSignal));
  }

  /** The signal wakes the consumer if it sleeps and does nothing to it otherwise, whoever holds
      the mutex; then the loop goes on, or is over. */
  lemma CounterSignals(s: State)
    requires s.counter == CSignal
    ensures Next(s, Count) == Some(s.(taker := if s.taker == TAsleep then TWoken else s.taker, i := s.i + 1,
                                      counter := if s.i + 1 < s.total then CLock else CFinished))
  {
  }

  /** A whole round of the producer adds one and wakes the consumer. */
  lemma CounterRound(s: State)
    requires s.owner.None? && s.counter == CLock && s.i < s.total
    ensures Reaches(Next, s, [Count, Count, Count, Count],
                    s.(count := s.count + 1, made := s.made + 1, i := s.i + 1,
                       taker := if s.taker == TAsleep then TWoken else s.taker,
                       counter := if s.i + 1 == s.total then CFinished else CLock))
  {
    var added := s.(count := s.count + 1, made := s.made + 1, owner := Some(Counter), counter := CUnlock);
    var freed := added.(owner := None, counter := CSignal);
    CounterSignals(freed);
    ExecFour(Next, s, Count, s.(owner := Some(Counter), counter := CIncrement), Count, added, Count, freed,
             Count, Next(freed, Count).value);
  }

  /** Between the unlock and the signal the consumer may come in and take the batch just
      completed; the signal then finds nobody asleep, and nothing is lost. */
  lemma TakenBeforeTheSignal(s: State)
    requires s.owner.None? && s.counter == CLock && s.taker in {TLock, TWoken} && s.count + 1 >= s.batch
    ensures Reaches(Next, s, [Count, Count, Count] + [Take, Take, Take, Take],
                    s.(count := s.count + 1 - s.batch, made := s.made + 1, batches := s.batches + 1,
                       taker := TLock, counter := CSignal))
  {
    CounterUnlocks(s);
    var mid := s.(count := s.count + 1, made := s.made + 1, counter := CSignal);
    TakerRound(mid);
    ReachesConcat(Next, s, [Count, Count, Count], mid, [Take, Take, Take, Take],
                  mid.(count := mid.count - s.batch, batches := s.batches + 1, taker := TLock));
  }

  /** A whole program run, for any numbers: the producer makes k increments on its own. */
  lemma {:induction false} CountsAlone(batch: nat, total: nat, k: nat) returns (es: seq<Event>)
    requires k <= total
    ensures |es| == 4 * k && forall e :: e in es ==> e == Count
    ensures Reaches(Next, Init(batch, total), es,
                    State(batch, total, k, None, TLock, if k == total then CFinished else CLock, k, k, 0))
  {
    if k == 0 {
      es := [];
    } else {
      var before := CountsAlone(batch, total, k - 1);
      es := before + [Count, Count, Count, Count];
      var mid := State(batch, total, k - 1, None, TLock, CLock, k - 1, k - 1, 0);
      CounterRound(mid);
      ReachesConcat(Next, Init(batch, total), before, mid, [Count, Count, Count, Count],
                    State(batch, total, k, None, TLock, if k == total then CFinished else CLock, k, k, 0));
    }
  }

  /** The mutex does exclude: while the consumer holds it the producer can at most signal,
      while the producer holds it the consumer cannot move; and a free mutex is
      there for whoever wants it. */
  lemma Excluded(s: State)
    requires Inv(s)
    ensures s.owner == Some(Taker) && Next(s, Count).Some? ==> s.counter == CSignal
    ensures s.owner == Some(Taker) && Next(s, Count).Some? ==> Next(s, Count).value.count == s.count
    ensures s.owner == Some(Counter) ==> Next(s, Take).None?
    ensures Next(s, Spurious).Some? <==> s.taker == TAsleep
    ensures s.owner.None? && s.taker != TAsleep ==> Next(s, Take).Some? && Next(s, Take).value.owner == Some(Taker)
    ensures s.owner.None? && s.counter == CLock ==> Next(s, Count).Some? && Next(s, Count).value.owner == Some(Counter)
  {
  }

  // ---- Termination ----

  function TakerRank(stage: TakerStage): nat {
    match stage
    case TAsleep => 0
    case TWait => 1
    case TTake => 1
    case TTest => 2
    case TLock => 3
    case TWoken => 3
    case TUnlock => 4
  }

  function CounterRank(stage: CounterStage): nat {
    match stage
    case CFinished => 0
    case CLock => 11
    case CIncrement => 10
    case CUnlock => 5
    case CSignal => 4
  }

  /** An upper bound on the steps left, spurious wakeups not counted. An item in
      `count` pays for one more round of the consumer. */
  function StepsLeft(s: State): int {
    4 * s.count + TakerRank(s.taker) + CounterRank(s.counter) +
    11 * (s.total - s.i - if s.counter == CFinished then 0 else 1)
  }

  function Charge(e: Event): nat {
    if e.Spurious? then 4 else 0
  }

  ghost predicate RunningInv(s: State) {
    Inv(s) && s.batch >= 1
  }

  lemma StepsLeftFalls(s: State, e: Event)
    requires RunningInv(s) && Next(s, e).Some?
    ensures RunningInv(Next(s, e).value)
    ensures 0 <= StepsLeft(s)
    ensures StepsLeft(Next(s, e).value) + 1 <= StepsLeft(s) + Charge(e)
  {
    NextInv(s, e);
  }

  /** Nothing but a spurious wakeup can happen any more. */
  predicate Quiescent(s: State) {
    Next(s, Take).None? && Next(s, Count).None?
  }

  lemma QuiescentIff(s: State)
    requires Inv(s)
    ensures Quiescent(s) <==> s.taker == TAsleep && s.counter == CFinished
  {
    match s.owner
    case Some(Taker) => assert TakerNext(s).Some?;
    case Some(Counter) => assert CounterNext(s).Some?;
    case None => assert s.taker in {TLock, TWoken, TAsleep};
  }

  lemma QuiescentResult(s: State)
    requires RunningInv(s) && Quiescent(s)
    ensures s.taker == TAsleep && s.counter == CFinished
    ensures s.made == s.total && s.batches == s.total / s.batch && s.count == s.total % s.batch
  {
    QuiescentIff(s);
    QuotientUnique(s.batch, s.batches, s.count);
  }

  lemma RunLength(s: State, es: seq<Event>, s': State)
    requires RunningInv(s) && Reaches(Next, s, es, s')
    ensures |es| <= StepsLeft(s) + Credits(Charge, es)
  {
    forall u, e | RunningInv(u) && Next(u, e).Some?
      ensures RunningInv(Next(u, e).value) && StepsLeft(Next(u, e).value) + 1 <= StepsLeft(u) + Charge(e)
    {
      StepsLeftFalls(u, e);
    }
    Amortised(Next, RunningInv, StepsLeft, Charge, s, es);
    RunInv(s, es, s');
  }

  /** Every run has at most 11 * total + 3 steps, plus four for each spurious wakeup;
      and in a reachable quiescent state the producer has made all its increments,
      the consumer has taken all whole batches, and the remainder is left. */
  lemma RunsEndWithAllBatchesTaken(batch: nat, total: nat, es: seq<Event>, s: State)
    requires batch >= 1 && Reaches(Next, Init(batch, total), es, s)
    ensures |es| <= 11 * total + 3 + Credits(Charge, es)
    ensures Quiescent(s) ==> s.made == total && s.batches == total / batch && s.count == total % batch
  {
    RunInv(Init(batch, total), es, s);
    RunConstants(Init(batch, total), es, s);
    RunLength(Init(batch, total), es, s);
    if Quiescent(s) {
      QuiescentResult(s);
    }
  }

  lemma RunsQuiet(s: State) returns (rest: seq<Event>, last: State)
    requires RunningInv(s)
    ensures Reaches(Next, s, rest, last) && Credits(Charge, rest) == 0 && Quiescent(last)
  {
    forall u, e | RunningInv(u) && Next(u, e).Some?
      ensures RunningInv(Next(u, e).value) && StepsLeft(Next(u, e).value) + 1 <= StepsLeft(u) + Charge(e)
    {
      StepsLeftFalls(u, e);
    }
    forall u | RunningInv(u) && !Quiescent(u)
      ensures exists e :: Next(u, e).Some? && Charge(e) == 0
    {
      var e := if Next(u, Take).Some? then Take else Count;
      assert Next(u, e).Some? && Charge(e) == 0;
    }
    rest := Stops(Next, RunningInv, StepsLeft, Charge, Quiescent, s);
    last := Exec(Next, s, rest).value;
  }

  /** From every reachable state the two tasks can go on, without spurious wakeups, until
      they are quiescent; by the bound above no run can go on for longer. */
  lemma QuiescenceReachable(batch: nat, total: nat, es: seq<Event>, s: State) returns (rest: seq<Event>, last: State)
    requires batch >= 1 && Reaches(Next, Init(batch, total), es, s)
    ensures Reaches(Next, s, rest, last) && Credits(Charge, rest) == 0
    ensures last.counter == CFinished && last.batches == total / batch && last.count == total % batch
  {
    RunInv(Init(batch, total), es, s);
    RunConstants(Init(batch, total), es, s);
    rest, last := RunsQuiet(s);
    RunInv(s, rest, last);
    RunConstants(s, rest, last);
    QuiescentResult(last);
  }

  /** The program's own numbers: 100 increments in batches of 10 leave nothing behind. */
  lemma HundredByTen(es: seq<Event>, s: State)
    requires Reaches(Next, Init(10, 100), es, s) && Quiescent(s)
    ensures s.batches == 10 && s.count == 0 && s.taker == TAsleep
  {
    RunInv(Init(10, 100), es, s);
    RunConstants(Init(10, 100), es, s);
    QuiescentResult(s);
  }

  // ---- The program's variables, changed in place ----

  class Tasks {
    const batch: nat
    const total: nat
    var count: int
    var owner: Option<Role>
    var taker: TakerStage
    var counter: CounterStage
    var i: nat
    var made: nat
    var batches: nat

    function Value(): State
      reads this
    {
      State(batch, total, count, owner, taker, counter, i, made, batches)
    }

    constructor (batch: nat, total: nat)
      ensures Value() == Init(batch, total) && Inv(Value())
    {
      this.batch, this.total := batch, total;
      count, i, made, batches := 0, 0, 0, 0;
      owner := None;
      taker, counter := TLock, LoopTest(0, total);
    }

    /** One statement of task1. */
    method StepTask1()
      requires Next(Value(), Take).Some?
      modifies this
      ensures Next(old(Value()), Take) == Some(Value())
    {
      match taker {
        case TLock | TWoken =>
          owner, taker := Some(Taker), TTest;
        case TTest =>
          taker := if count < batch then TWait else TTake;
        case TWait =>
          owner, taker := None, TAsleep;
        case TTake =>
          count := count - batch;
          batches, taker := batches + 1, TUnlock;
        case TUnlock =>
          owner, taker := None, TLock;
      }
    }

    /** One statement of task2; the signal wakes the only thread that can be waiting. */
    method StepTask2()
      requires Next(Value(), Count).Some?
      modifies this
      ensures Next(old(Value()), Count) == Some(Value())
    {
      match counter {
        case CLock =>
          owner, counter := Some(Counter), CIncrement;
        case CIncrement =>
          count := count + 1;
          made, counter := made + 1, CUnlock;
        case CUnlock =>
          owner, counter := None, CSignal;
        case CSignal =>
          if taker == TAsleep {
            taker := TWoken;
          }
          i := i + 1;
          counter := LoopTest(i, total);
      }
    }

    /** The two tasks run in the order the schedule gives. */
    method Execute(es: seq<Event>)
      requires Exec(Next, Value(), es).Some?
      modifies this
      ensures Exec(Next, old(Value()), es) == Some(Value())
    {
      ghost var s0 := Value();
      for k := 0 to |es|
        invariant Exec(Next, s0, es[..k]) == Some(Value())
      {
        ExecNext(Next, s0, es, k);
        match es[k] {
          case Take => StepTask1();
          case Count => StepTask2();
          case Spurious => taker := TWoken;
        }
      }
      assert es[..|es|] == es;
    }
  }
}
