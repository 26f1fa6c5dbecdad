/**
 Double-checked locking: any number of threads call `get` any number of times. The
 first test, the lock, the second test, the allocation, the constructor, the
 publication, the unlock and the final read are separate steps of each call,
 interleaved under sequential consistency.
 */
module LazySingleton {
  import opened Distinct
  import opened Options
  import opened Runs
  import opened Sums

  datatype Stage =
    | Test       // about to read `instance` for the first time
    | Lock       // about to lock the mutex
    | Retest     // holds the mutex, about to read `instance` again
    | Allocate   // holds the mutex, about to obtain memory
    | Initialise // holds the mutex, about to run the constructor
    | Publish    // holds the mutex, about to assign `instance`
    | Unlock     // holds the mutex, about to release it
    | Return     // about to read `instance` for the result
    | Done       // not inside `get`

  datatype Thread = Thread(stage: Stage, tmp: Option<nat>)

  datatype State = State(
    instance: Option<nat>,       // the published object, if any
    owner: Option<nat>,          // the thread that holds the mutex
    objects: seq<bool>,          // the objects allocated, and whether each is constructed
    constructed: nat,            // how often the constructor has run
    threads: seq<Thread>,
    calls: nat,                  // calls of `get` begun
    returned: seq<Option<nat>>)  // what the finished calls returned, in order

  datatype Event = Act(tid: nat) | Call(tid: nat)

  /** n threads, each inside its first call of `get`. */
  function Init(n: nat): State {
    State(None, None, [], 0, seq(n, _ => Thread(Test, None)), n, [])
  }

  function Goto(s: State, t: nat, stage: Stage): State
    requires t < |s.threads|
  {
    s.(threads := s.threads[t := s.threads[t].(stage := stage)])
  }

  function Next(s: State, e: Event): Option<State> {
    if e.tid >= |s.threads| then None else
    var t := e.tid;
    var th := s.threads[t];
    if e.Call? then
      if th.stage == Done then Some(Goto(s, t, Test).(calls := s.calls + 1)) else None
    else
      match th.stage
      case Test => Some(Goto(s, t, if s.instance.None? then Lock else Return))
      case Lock => if s.owner.None? then Some(Goto(s, t, Retest).(owner := Some(t))) else None
      case Retest => Some(Goto(s, t, if s.instance.None? then Allocate else Unlock))
      case Allocate =>
        Some(s.(objects := s.objects + [false],
                threads := s.threads[t := Thread(Initialise, Some(|s.objects|))]))
      case Initialise =>
        if th.tmp.Some? && th.tmp.value < |s.objects| then
          Some(Goto(s, t, Publish).(objects := s.objects[th.tmp.value := true], constructed := s.constructed + 1))
        else None
      case Publish => Some(Goto(s, t, Unlock).(instance := th.tmp))
      case Unlock => Some(Goto(s, t, Return).(owner := None))
      case Return => Some(Goto(s, t, Done).(returned := s.returned + [s.instance]))
      case Done => None
  }

  // ---- The invariant ----

  predicate Holds(stage: Stage) {
    stage in {Retest, Allocate, Initialise, Publish, Unlock}
  }

  predicate OwnedProperly(s: State) {
    && (s.owner.Some? ==> s.owner.value < |s.threads|)
    && forall i :: 0 <= i < |s.threads| ==> (Holds(s.threads[i].stage) <==> s.owner == Some(i))
  }

  /** What the creation of the one object looks like, seen from a thread inside it. */
  predicate CreationSeenBy(s: State, th: Thread) {
    match th.stage
    case Allocate => s.instance.None? && s.objects == [] && s.constructed == 0
    case Initialise => s.instance.None? && s.objects == [false] && s.constructed == 0 && th.tmp == Some(0)
    case Publish => s.instance.None? && s.objects == [true] && s.constructed == 1 && th.tmp == Some(0)
    case Unlock | Return => s.instance.Some?
    case _ => true
  }

  /** Nobody is inside the creation: it has not begun, or it is complete. */
  predicate CreationSettled(s: State) {
    || (s.instance.None? && s.objects == [] && s.constructed == 0)
    || (s.instance == Some(0) && s.objects == [true] && s.constructed == 1)
  }

  predicate Creating(s: State) {
    s.owner.Some? && s.owner.value < |s.threads| && s.threads[s.owner.value].stage in {Initialise, Publish}
  }

  function Pendings(s: State): seq<nat> {
    seq(|s.threads|, i requires 0 <= i < |s.threads| => if s.threads[i].stage == Done then 0 else 1)
  }

  predicate Inv(s: State) {
    && OwnedProperly(s)
    && (forall i :: 0 <= i < |s.threads| ==> CreationSeenBy(s, s.threads[i]))
    && (!Creating(s) ==> CreationSettled(s))
    && (forall r :: r in s.returned ==> r.Some? && r == s.instance)
    && |s.returned| + Sum(Pendings(s)) == s.calls
  }

  lemma InitInv(n: nat)
    ensures Inv(Init(n))
  {
    AllOnes(n, Pendings(Init(n)));
  }

  lemma {:induction false} AllOnes(n: nat, xs: seq<nat>)
    requires |xs| == n && forall i :: 0 <= i < n ==> xs[i] == 1
    ensures Sum(xs) == n
    decreases n
  {
    if n > 0 {
      AllOnes(n - 1, xs[..n - 1]);
    }
  }

  lemma NextPendings(s: State, e: Event)
    requires Next(s, e).Some? && |s.returned| + Sum(Pendings(s)) == s.calls
    ensures var s' := Next(s, e).value; |s'.returned| + Sum(Pendings(s')) == s'.calls
  {
    var s' := Next(s, e).value;
    var pending := if s'.threads[e.tid].stage == Done then 0 else 1;
    assert Pendings(s') == Pendings(s)[e.tid := pending];
    SumUpdate(Pendings(s), e.tid, pending);
  }

  lemma NextOwner(s: State, e: Event)
    requires OwnedProperly(s) && Next(s, e).Some?
    ensures OwnedProperly(Next(s, e).value)
  {
    var s' := Next(s, e).value;
    assert s'.threads == s.threads[e.tid := s'.threads[e.tid]];
  }

  /** The mutex holder is alone inside the creation, so what it sees stays true. */
  lemma NextCreation(s: State, e: Event)
    requires Inv(s) && Next(s, e).Some?
    ensures var s' := Next(s, e).value;
            && (forall i :: 0 <= i < |s'.threads| ==> CreationSeenBy(s', s'.threads[i]))
            && (!Creating(s') ==> CreationSettled(s'))
  {
    var s' := Next(s, e).value;
    assert CreationSeenBy(s, s.threads[e.tid]);
    forall i | 0 <= i < |s'.threads|
      ensures CreationSeenBy(s', s'.threads[i])
    {
      if i != e.tid {
        assert s'.threads[i] == s.threads[i] && CreationSeenBy(s, s.threads[i]);
        assert Holds(s.threads[i].stage) ==> !Holds(s.threads[e.tid].stage);
      }
    }
  }

  lemma NextInv(s: State, e: Event)
    requires Inv(s) && Next(s, e).Some?
    ensures Inv(Next(s, e).value)
  {
    NextOwner(s, e);
    NextCreation(s, e);
    NextPendings(s, e);
    assert CreationSeenBy(s, s.threads[e.tid]);
  }

  lemma RunInv(s: State, es: seq<Event>, s': State)
    requires Inv(s) && Reaches(Next, s, es, s')
    ensures Inv(s')
  {
    forall u, e | Inv(u) && Next(u, e).Some?
      ensures Inv(Next(u, e).value)
    {
      NextInv(u, e);
    }
    Preserved(Next, Inv, s, es);
  }

  /** Under every interleaving the constructor runs at most once, and every call of
      `get` returns the same non-null, fully constructed object. */
  lemma ConstructedOnce(n: nat, es: seq<Event>, s: State)
    requires Reaches(Next, Init(n), es, s)
    ensures s.constructed <= 1 && |s.objects| <= 1
    ensures forall i :: 0 <= i < |s.returned| ==>
              s.returned[i] == Some(0) == s.instance && s.constructed == 1 && s.objects == [true]
  {
    InitInv(n);
    RunInv(Init(n), es, s);
    if s.returned != [] {
      assert s.returned[0] in s.returned;
    }
  }

  predicate InstanceConstructed(s: State) {
    s.instance.Some? ==> s.instance.value < |s.objects| && s.objects[s.instance.value]
  }

  lemma InvConstructed(s: State)
    requires Inv(s)
    ensures InstanceConstructed(s)
  {
    if Creating(s) {
      assert CreationSeenBy(s, s.threads[s.owner.value]);
    }
  }

  lemma NextInstance(s: State, e: Event)
    requires Inv(s) && Next(s, e).Some? && s.instance.Some?
    ensures Next(s, e).value.instance == s.instance
  {
    assert CreationSeenBy(s, s.threads[e.tid]);
  }

  /** `instance` only ever changes from null to an object that is already constructed. */
  lemma {:induction false} InstanceChangesOnce(s: State, es: seq<Event>, s': State)
    requires Inv(s) && Reaches(Next, s, es, s')
    ensures s.instance.Some? ==> s'.instance == s.instance
    ensures InstanceConstructed(s')
    decreases |es|
  {
    RunInv(s, es, s');
    InvConstructed(s');
    if es != [] {
      var mid := Exec(Next, s, es[..|es| - 1]).value;
      InstanceChangesOnce(s, es[..|es| - 1], mid);
      if s.instance.Some? {
        RunInv(s, es[..|es| - 1], mid);
        NextInstance(mid, es[|es| - 1]);
      }
    }
  }

  // ---- What each call of `get` does ----

  /** The thread is done with its call, which returned r; all else is as it was. */
  function Returned(s: State, t: nat, r: Option<nat>): State
    requires t < |s.threads|
  {
    Goto(s, t, Done).(returned := s.returned + [r])
  }

  lemma GotoTwice(s: State, t: nat, a: Stage, b: Stage)
    requires t < |s.threads|
    ensures Goto(Goto(s, t, a), t, b) == Goto(s, t, b)
  {
    assert Goto(Goto(s, t, a), t, b).threads == Goto(s, t, b).threads;
  }

  /** The fast path: once the object is published, a call reads `instance` twice and
      returns it, without the mutex and whoever may hold it. */
  lemma FastPath(s: State, t: nat)
    requires s.instance.Some? && t < |s.threads| && s.threads[t].stage == Test
    ensures Reaches(Next, s, [Act(t), Act(t)], Returned(s, t, s.instance))
  {
    GotoTwice(s, t, Return, Done);
    ExecTwo(Next, s, Act(t), Goto(s, t, Return), Act(t), Returned(s, t, s.instance));
  }

  /** The late path: a thread that saw null but comes to the mutex after the publication
      finds the object by its second test, constructs nothing, and gives the mutex back. */
  lemma LatePath(s: State, t: nat)
    requires s.instance.Some? && s.owner.None? && t < |s.threads| && s.threads[t].stage == Lock
    ensures Reaches(Next, s, [Act(t), Act(t), Act(t), Act(t)], Returned(s, t, s.instance))
  {
    GotoTwice(s, t, Retest, Unlock);
    GotoTwice(s, t, Unlock, Return);
    GotoTwice(s, t, Return, Done);
    ExecFour(Next, s, Act(t), Goto(s, t, Retest).(owner := Some(t)), Act(t), Goto(s, t, Unlock).(owner := Some(t)),
             Act(t), Goto(s, t, Return), Act(t), Returned(s, t, s.instance));
  }

  /** The eight statements of the call that creates the object. */
  function SlowCall(t: nat): seq<Event> {
    [Act(t), Act(t), Act(t)] + [Act(t), Act(t), Act(t)] + [Act(t), Act(t)]
  }

  /** The slow path up to the allocation. */
  lemma SlowPathBegins(s: State, t: nat)
    requires s.instance.None? && s.owner.None? && t < |s.threads| && s.threads[t].stage == Test
    ensures Reaches(Next, s, [Act(t), Act(t), Act(t)], Goto(s, t, Allocate).(owner := Some(t)))
  {
    GotoTwice(s, t, Lock, Retest);
    GotoTwice(s, t, Retest, Allocate);
    ExecThree(Next, s, Act(t), Goto(s, t, Lock), Act(t), Goto(s, t, Retest).(owner := Some(t)),
              Act(t), Goto(s, t, Allocate).(owner := Some(t)));
  }

  /** From the allocation to the publication. */
  lemma Creation(s: State, t: nat)
    requires t < |s.threads| && s.threads[t].stage == Allocate
    ensures var made := |s.objects|;
            Reaches(Next, s, [Act(t), Act(t), Act(t)],
                    s.(instance := Some(made), objects := s.objects + [true], constructed := s.constructed + 1,
                       threads := s.threads[t := Thread(Unlock, Some(made))]))
  {
    var made := |s.objects|;
    var a := s.(objects := s.objects + [false], threads := s.threads[t := Thread(Initialise, Some(made))]);
    var b := s.(objects := s.objects + [true], constructed := s.constructed + 1,
                threads := s.threads[t := Thread(Stage.Publish, Some(made))]);
    var c := b.(instance := Some(made), threads := s.threads[t := Thread(Unlock, Some(made))]);
    assert a.objects[made := true] == b.objects;
    assert a.threads[t := b.threads[t]] == b.threads && b.threads[t := c.threads[t]] == c.threads;
    ExecThree(Next, s, Act(t), a, Act(t), b, Act(t), c);
  }

  /** Unlocking and returning. */
  lemma Closing(s: State, t: nat)
    requires t < |s.threads| && s.threads[t].stage == Unlock
    ensures Reaches(Next, s, [Act(t), Act(t)], Returned(s, t, s.instance).(owner := None))
  {
    GotoTwice(s, t, Return, Done);
    ExecTwo(Next, s, Act(t), Goto(s, t, Return).(owner := None), Act(t), Returned(s, t, s.instance).(owner := None));
  }

  /** The slow path: the call that finds null twice constructs one object, publishes it,
      gives the mutex back and returns it. */
  lemma SlowPath(s: State, t: nat)
    requires s.instance.None? && s.owner.None? && t < |s.threads| && s.threads[t].stage == Test
    ensures var made := |s.objects|;
            Reaches(Next, s, SlowCall(t),
                    s.(instance := Some(made), objects := s.objects + [true], constructed := s.constructed + 1,
                       returned := s.returned + [Some(made)], threads := s.threads[t := Thread(Done, Some(made))]))
  {
    var made := |s.objects|;
    var alone := Goto(s, t, Allocate).(owner := Some(t));
    var done := alone.(instance := Some(made), objects := s.objects + [true], constructed := s.constructed + 1,
                       threads := s.threads[t := Thread(Unlock, Some(made))]);
    SlowPathBegins(s, t);
    Creation(alone, t);
    assert alone.threads[t := Thread(Unlock, Some(made))] == done.threads;
    Closing(done, t);
    assert Goto(done, t, Done).threads == s.threads[t := Thread(Done, Some(made))];
    var half := [Act(t), Act(t), Act(t)];
    ReachesConcat(Next, s, half, alone, half, done);
    ReachesConcat(Next, s, half + half, done, [Act(t), Act(t)], Returned(done, t, Some(made)).(owner := None));
  }

  /** The first thread runs its whole call, then each other one its own. */
  function Schedule(order: seq<nat>): seq<Event> {
    if order == [] then [] else
    var k := |order| - 1;
    Schedule(order[..k]) + (if k == 0 then SlowCall(order[k]) else [Act(order[k]), Act(order[k])])
  }

  /** The threads in `order` have called, and all got the one object. */
  predicate ServedInTurn(s: State, n: nat, order: seq<nat>) {
    && s.instance == Some(0) && s.objects == [true] && s.constructed == 1 && s.owner.None?
    && s.returned == seq(|order|, _ => Some(0))
    && |s.threads| == n
    && forall t: nat :: t < n ==> s.threads[t].stage == if t in order then Done else Test
  }

  ghost predicate Serves(n: nat, es: seq<Event>, order: seq<nat>) {
    Exec(Next, Init(n), es).Some? && ServedInTurn(Exec(Next, Init(n), es).value, n, order)
  }

  lemma FirstServed(n: nat, t: nat)
    requires t < n
    ensures Serves(n, SlowCall(t), [t])
  {
    SlowPath(Init(n), t);
  }

  lemma NextServed(n: nat, es: seq<Event>, order: seq<nat>, t: nat)
    requires Serves(n, es, order) && t < n && t !in order
    ensures Serves(n, es + [Act(t), Act(t)], order + [t])
  {
    var s := Exec(Next, Init(n), es).value;
    FastPath(s, t);
    ReachesConcat(Next, Init(n), es, s, [Act(t), Act(t)], Returned(s, t, s.instance));
  }

  lemma LastIsNew(order: seq<nat>, n: nat)
    requires order != [] && NoDuplicates(order) && forall t :: t in order ==> t < n
    ensures var before, t := order[..|order| - 1], order[|order| - 1];
            order == before + [t] && t < n && t !in before && NoDuplicates(before) && forall u :: u in before ==> u < n
  {
    var before, t := order[..|order| - 1], order[|order| - 1];
    assert order == before + [t] && t in order;
    assert forall u :: u in before ==> u in order;
  }

  /** When the threads call one after another, in whatever order, the first constructs the
      object and every call gets it. */
  lemma {:induction false} CallsInTurn(n: nat, order: seq<nat>)
    requires order != [] && NoDuplicates(order) && forall t :: t in order ==> t < n
    ensures Serves(n, Schedule(order), order)
    decreases |order|
  {
    var before, t := order[..|order| - 1], order[|order| - 1];
    LastIsNew(order, n);
    if before == [] {
      FirstServed(n, t);
      assert Schedule(order) == SlowCall(t);
    } else {
      CallsInTurn(n, before);
      NextServed(n, Schedule(before), before, t);
    }
  }

  // ---- After the publication the mutex is left alone ----

  /** Where a thread can stand in a call that began after the publication. */
  predicate OnFastPath(s: State, t: nat) {
    s.instance.Some? && t < |s.threads| && s.threads[t].stage in {Test, Return, Done}
  }

  lemma FastPathNext(s: State, t: nat, e: Event)
    requires Inv(s) && OnFastPath(s, t) && Next(s, e).Some?
    ensures OnFastPath(Next(s, e).value, t)
  {
    NextInstance(s, e);
  }

  /** A call that begins after the publication, and all later calls of that thread, never
      own the mutex and never wait for it: whatever the others do meanwhile, the
      thread can always go on unless it is not inside `get`. */
  lemma {:induction false} NeverLocksAgain(s: State, t: nat, es: seq<Event>, s': State)
    requires Inv(s) && OnFastPath(s, t) && Reaches(Next, s, es, s')
    ensures OnFastPath(s', t) && s'.owner != Some(t)
    ensures s'.threads[t].stage != Done ==> Next(s', Act(t)).Some? && Next(s', Act(t)).value.owner == s'.owner
    ensures s'.threads[t].stage == Done ==>
              Reaches(Next, s', [Call(t), Act(t), Act(t)], Returned(s', t, s.instance).(calls := s'.calls + 1))
    decreases |es|
  {
    RunInv(s, es, s');
    if es != [] {
      var mid := Exec(Next, s, es[..|es| - 1]).value;
      NeverLocksAgain(s, t, es[..|es| - 1], mid);
      RunInv(s, es[..|es| - 1], mid);
      FastPathNext(mid, t, es[|es| - 1]);
    }
    InstanceChangesOnce(s, es, s');
    if s'.threads[t].stage == Done {
      CallAgainReturns(s', t);
    }
  }

  lemma CallAgainReturns(s: State, t: nat)
    requires s.instance.Some? && t < |s.threads| && s.threads[t].stage == Done
    ensures Reaches(Next, s, [Call(t), Act(t), Act(t)], Returned(s, t, s.instance).(calls := s.calls + 1))
  {
    var called := Goto(s, t, Test).(calls := s.calls + 1);
    GotoTwice(s, t, Test, Return);
    GotoTwice(s, t, Return, Done);
    ExecThree(Next, s, Call(t), called, Act(t), Goto(s, t, Return).(calls := s.calls + 1),
              Act(t), Returned(s, t, s.instance).(calls := s.calls + 1));
  }

  // ---- Every call returns ----

  function Rank(stage: Stage): nat {
    match stage
    case Test => 8
    case Lock => 7
    case Retest => 6
    case Allocate => 5
    case Initialise => 4
    case Publish => 3
    case Unlock => 2
    case Return => 1
    case Done => 0
  }

  function Ranks(s: State): seq<nat> {
    seq(|s.threads|, i requires 0 <= i < |s.threads| => Rank(s.threads[i].stage))
  }

  function TotalRank(s: State): int {
    Sum(Ranks(s))
  }

  function Charge(e: Event): nat {
    if e.Call? then 9 else 0
  }

  lemma RankFalls(s: State, e: Event)
    requires Next(s, e).Some?
    ensures TotalRank(Next(s, e).value) + 1 <= TotalRank(s) + Charge(e)
  {
    var s' := Next(s, e).value;
    assert Ranks(s') == Ranks(s)[e.tid := Rank(s'.threads[e.tid].stage)];
    SumUpdate(Ranks(s), e.tid, Rank(s'.threads[e.tid].stage));
  }

  predicate AllDone(s: State) {
    forall i :: 0 <= i < |s.threads| ==> s.threads[i].stage == Done
  }

  /** Some thread inside `get` can always move: the lock never blocks everybody. */
  lemma NeverStuck(s: State)
    requires Inv(s) && !AllDone(s)
    ensures exists e :: Next(s, e).Some? && Charge(e) == 0
  {
    var t: nat :| t < |s.threads| && s.threads[t].stage != Done;
    var mover := if s.owner.Some? then s.owner.value else t;
    assert CreationSeenBy(s, s.threads[mover]);
    assert Next(s, Act(mover)).Some? && Charge(Act(mover)) == 0;
  }

  lemma RunLength(s: State, es: seq<Event>, s': State)
    requires Inv(s) && Reaches(Next, s, es, s')
    ensures |es| <= TotalRank(s) + Credits(Charge, es)
  {
    forall u, e | Inv(u) && Next(u, e).Some?
      ensures Inv(Next(u, e).value) && TotalRank(Next(u, e).value) + 1 <= TotalRank(u) + Charge(e)
    {
      NextInv(u, e);
      RankFalls(u, e);
    }
    Amortised(Next, Inv, TotalRank, Charge, s, es);
  }

  lemma RunsDone(s: State) returns (rest: seq<Event>, last: State)
    requires Inv(s)
    ensures Reaches(Next, s, rest, last) && Credits(Charge, rest) == 0 && AllDone(last)
  {
    forall u, e | Inv(u) && Next(u, e).Some?
      ensures Inv(Next(u, e).value) && TotalRank(Next(u, e).value) + 1 <= TotalRank(u) + Charge(e)
    {
      NextInv(u, e);
      RankFalls(u, e);
    }
    forall u | Inv(u) && !AllDone(u)
      ensures exists e :: Next(u, e).Some? && Charge(e) == 0
    {
      NeverStuck(u);
    }
    rest := Stops(Next, Inv, TotalRank, Charge, AllDone, s);
    last := Exec(Next, s, rest).value;
  }

  lemma InitRank(n: nat)
    ensures TotalRank(Init(n)) <= 8 * n
  {
    SumAtMost(Ranks(Init(n)), 8);
  }

  /** A run has at most eight steps per thread, plus nine for each further call; it can
      only stop when all calls have returned, and it can always be continued that far. */
  lemma EveryCallReturns(n: nat, es: seq<Event>, s: State) returns (rest: seq<Event>, last: State)
    requires Reaches(Next, Init(n), es, s)
    ensures |es| <= 8 * n + Credits(Charge, es)
    ensures AllDone(s) ==> |s.returned| == s.calls
    ensures Reaches(Next, s, rest, last) && Credits(Charge, rest) == 0 && AllDone(last) && |last.returned| == last.calls
  {
    InitInv(n);
    InitRank(n);
    RunLength(Init(n), es, s);
    RunInv(Init(n), es, s);
    SumAtMostWhenDone(s);
    rest, last := RunsDone(s);
    RunInv(s, rest, last);
    SumAtMostWhenDone(last);
  }

  lemma SumAtMostWhenDone(s: State)
    ensures AllDone(s) ==> Sum(Pendings(s)) == 0
  {
    if AllDone(s) {
      SumAtMost(Pendings(s), 0);
    }
  }

  // ---- The static members, changed in place ----

  class Singleton {
    var instance: Option<nat>
    var owner: Option<nat>
    var objects: seq<bool>
    var constructed: nat
    var threads: seq<Thread>
    var calls: nat
    var returned: seq<Option<nat>>

    function Value(): State
      reads this
    {
      State(instance, owner, objects, constructed, threads, calls, returned)
    }

    constructor (n: nat)
      ensures Value() == Init(n) && Inv(Value())
    {
      instance, owner, objects, constructed := None, None, [], 0;
      threads, calls, returned := seq(n, _ => Thread(Test, None)), n, [];
      new;
      InitInv(n);
    }

    /** One step of `get`, as thread t. */
    method StepGet(t: nat)
      requires Next(Value(), Act(t)).Some?
      modifies this
      ensures Next(old(Value()), Act(t)) == Some(Value())
    {
      var stage := Done;
      var tmp := threads[t].tmp;
      match threads[t].stage {
        case Test =>
          stage := if instance.None? then Lock else Return;
        case Lock =>
          owner, stage := Some(t), Retest;
        case Retest =>
          stage := if instance.None? then Allocate else Unlock;
        case Allocate =>
          tmp := Some(|objects|);
          objects, stage := objects + [false], Initialise;
        case Initialise =>
          objects := objects[tmp.value := true];
          constructed, stage := constructed + 1, Publish;
        case Publish =>
          instance, stage := tmp, Unlock;
        case Unlock =>
          owner, stage := None, Return;
        case Return =>
          returned := returned + [instance];
      }
      threads := threads[t := Thread(stage, tmp)];
    }

    method CallAgain(t: nat)
      requires Next(Value(), Call(t)).Some?
      modifies this`threads, this`calls
      ensures Next(old(Value()), Call(t)) == Some(Value())
    {
      threads := threads[t := threads[t].(stage := Test)];
      calls := calls + 1;
    }

    /** The threads run in the order the schedule gives. */
    method Execute(es: seq<Event>)
      requires Exec(Next, Value(), es).Some?
      modifies this
      ensures Exec(Next, old(Value()), es) == Some(Value())
    {
      ghost var s0 := Value();
      for k := 0 to |es|
        invariant Exec(Next, s0, es[..k]) == Some(Value())
      {
        ExecNext(Next, s0, es, k);
        if es[k].Call? {
          CallAgain(es[k].tid);
        } else {
          StepGet(es[k].tid);
        }
      }
      assert es[..|es|] == es;
    }
  }
}
