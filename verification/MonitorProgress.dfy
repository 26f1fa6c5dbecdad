/**
 Safety and progress of whole runs of the producer/consumer monitor.
 */
module MonitorProgress {
  import opened Options
  import opened Products
  import opened Runs
  import opened Sums
  import opened BoundedMonitor

  lemma RunInv(s: State, es: seq<Event>, s': State)
    requires Inv(s) && Reaches(Next, s, es, s')
    ensures Inv(s')
  {
    forall u, e | Inv(u) && Next(u, e).Some?
      ensures Inv(Next(u, e).value)
    {
      NextInv(u, e);
    }
    Preserved(Next, Inv, s, es);
  }

  /** Producers that were woken and wait to lock the mutex again. */
  function WokenProducers(s: State): set<nat> {
    set i: nat | i < |s.threads| && s.threads[i] == Thread(Producer, Woken)
  }

  /** No wakeup is lost: whenever the mutex is free, a consumer sleeps only on an
      empty buffer, and a producer sleeps only while every free slot is matched by
      a producer that is already awake and about to take it. Always, at most one
      thread is inside the monitor and the buffer bounds hold. */
  lemma NoLostWakeup(capacity: nat, producers: nat, consumers: nat, es: seq<Event>, s: State)
    requires Reaches(Next, Init(capacity, producers, consumers), es, s)
    ensures 0 <= s.index <= capacity && s.index == s.produced - s.consumed
    ensures forall i, j :: 0 <= i < j < |s.threads| ==> !(Holds(s.threads[i].stage) && Holds(s.threads[j].stage))
    ensures s.owner.None? && Sleepers(s, Consumer) != {} ==> s.index == 0
    ensures s.owner.None? && Sleepers(s, Producer) != {} ==> capacity - s.index <= |WokenProducers(s)|
  {
    InitInv(capacity, producers, consumers);
    RunInv(Init(capacity, producers, consumers), es, s);
    RunShape(Init(capacity, producers, consumers), es, s);
    if s.owner.None? {
      SumCounts(Dues(s));
      assert (set i | 0 <= i < |Dues(s)| && Dues(s)[i] == 1) == WokenProducers(s);
    }
  }

  lemma NextShape(s: State, e: Event)
    requires Next(s, e).Some?
    ensures var s' := Next(s, e).value;
            && s'.capacity == s.capacity && s'.producers == s.producers && |s'.threads| == |s.threads|
            && s'.produced >= s.produced && s'.consumed >= s.consumed
  {
  }

  /** A run never changes the capacity, nor the number and the roles of the threads, and the counts only grow. */
  lemma {:induction false} RunShape(s: State, es: seq<Event>, s': State)
    requires Reaches(Next, s, es, s')
    ensures s'.capacity == s.capacity && s'.producers == s.producers && |s'.threads| == |s.threads|
    ensures s'.produced >= s.produced && s'.consumed >= s.consumed
    decreases |es|
  {
    if es != [] {
      var mid := Exec(Next, s, es[..|es| - 1]).value;
      RunShape(s, es[..|es| - 1], mid);
      NextShape(mid, es[|es| - 1]);
    }
  }

  // ---- Deadlock freedom ----

  predicate AllAsleep(s: State) {
    forall i :: 0 <= i < |s.threads| ==> s.threads[i].stage == Asleep
  }

  /** The charge of an event in the progress argument; zero for all but spurious wakeups. */
  function Charge(e: Event): nat {
    if e.Spurious? then 4 else 0
  }

  /** The machine is stuck, but for spurious wakeups, exactly when all threads sleep. */
  lemma StuckIffAllAsleep(s: State)
    requires Inv(s)
    ensures AllAsleep(s) <==> forall e :: Next(s, e).Some? ==> e.Spurious?
  {
    if !AllAsleep(s) {
      if s.owner.Some? {
        var t := s.owner.value;
        var role := s.threads[t].role;
        if s.threads[t].stage == Notify {
          var wake := Sleepers(s, if role == Producer then Consumer else Producer);
          assert Next(s, Signal(t, wake)).Some?;
        } else {
          assert Next(s, Act(t)).Some?;
        }
      } else {
        var t :| 0 <= t < |s.threads| && s.threads[t].stage != Asleep;
        assert Next(s, Act(t)).Some?;
      }
    }
  }

  /** All threads of both kinds can be asleep only on a buffer that is full and empty at once. */
  lemma AllAsleepIndex(s: State)
    requires Inv(s) && AllAsleep(s)
    ensures s.producers >= 1 ==> s.index == s.capacity
    ensures s.producers < |s.threads| ==> s.index == 0
  {
    forall i | 0 <= i < |Dues(s)|
      ensures Dues(s)[i] <= 0
    {
    }
    SumAtMost(Dues(s), 0);
    assert s.producers >= 1 ==> 0 in Sleepers(s, Producer);
    assert s.producers < |s.threads| ==> |s.threads| - 1 in Sleepers(s, Consumer);
  }

  /** With a positive capacity and at least one thread of each kind, in every
      reachable state some thread is awake, and can take a step of its own. */
  lemma DeadlockFree(capacity: nat, producers: nat, consumers: nat, es: seq<Event>, s: State)
    requires capacity >= 1 && producers >= 1 && consumers >= 1
    requires Reaches(Next, Init(capacity, producers, consumers), es, s)
    ensures !AllAsleep(s)
    ensures exists e :: Next(s, e).Some? && !e.Spurious?
  {
    InitInv(capacity, producers, consumers);
    RunInv(Init(capacity, producers, consumers), es, s);
    RunShape(Init(capacity, producers, consumers), es, s);
    if AllAsleep(s) {
      AllAsleepIndex(s);
    }
    StuckIffAllAsleep(s);
  }

  // ---- Progress ----

  /** How many steps a thread can still take before it must change `index`; a
      thread about to notify also pays for the sleepers it may wake. */
  function Rank(n: nat, stage: Stage): nat {
    match stage
    case Asleep => 0
    case Wait => 1
    case Update => 1
    case Test => 2
    case Start => 3
    case Woken => 3
    case Unlock => 4
    case Notify => 5 + 3 * n
  }

  function Ranks(s: State): seq<nat> {
    seq(|s.threads|, i requires 0 <= i < |s.threads| => Rank(|s.threads|, s.threads[i].stage))
  }

  function TotalRank(s: State): nat {
    Sum(Ranks(s))
  }

  predicate IsUpdate(s: State, e: Event) {
    e.Act? && e.tid < |s.threads| && s.threads[e.tid].stage == Update
  }

  lemma GotoRank(s: State, t: nat, stage: Stage)
    requires t < |s.threads|
    ensures var n := |s.threads|;
            TotalRank(Goto(s, t, stage)) + Rank(n, s.threads[t].stage) == TotalRank(s) + Rank(n, stage)
  {
    var n := |s.threads|;
    assert Ranks(Goto(s, t, stage)) == Ranks(s)[t := Rank(n, stage)];
    SumUpdate(Ranks(s), t, Rank(n, stage));
  }

  lemma ActRank(s: State, t: nat)
    requires Inv(s) && Next(s, Act(t)).Some?
    ensures var n, s' := |s.threads|, Next(s, Act(t)).value;
            TotalRank(s') + Rank(n, s.threads[t].stage) == TotalRank(s) + Rank(n, s'.threads[t].stage)
  {
    var s' := Next(s, Act(t)).value;
    GotoRank(s, t, s'.threads[t].stage);
    assert s'.threads == Goto(s, t, s'.threads[t].stage).threads;
    assert Ranks(s') == Ranks(Goto(s, t, s'.threads[t].stage));
  }

  lemma WakeRank(s: State, wake: set<nat>)
    requires forall i :: i in wake ==> i < |s.threads| && s.threads[i].stage == Asleep
    ensures TotalRank(s.(threads := WakeUp(s.threads, wake))) <= TotalRank(s) + 3 * |s.threads|
  {
    SumGrowth(Ranks(s), Ranks(s.(threads := WakeUp(s.threads, wake))), 3);
  }

  lemma SignalRank(s: State, t: nat, wake: set<nat>)
    requires Next(s, Signal(t, wake)).Some?
    ensures TotalRank(Next(s, Signal(t, wake)).value) < TotalRank(s)
  {
    var mid := Goto(s, t, Unlock);
    GotoRank(s, t, Unlock);
    WakeRank(mid, wake);
  }

  /** The total rank strictly falls on every step that is neither an update of
      `index` nor a spurious wakeup; those raise it by at most 3n + 4 and by 3. */
  lemma RankFalls(s: State, e: Event)
    requires Inv(s) && Next(s, e).Some?
    ensures var s' := Next(s, e).value;
            && (!IsUpdate(s, e) && !e.Spurious? ==> TotalRank(s') < TotalRank(s))
            && (IsUpdate(s, e) ==> TotalRank(s') <= TotalRank(s) + 3 * |s.threads| + 4)
            && (e.Spurious? ==> TotalRank(s') == TotalRank(s) + 3)
  {
    match e
    case Spurious(t) =>
      GotoRank(s, t, Woken);
    case Act(t) =>
      ActRank(s, t);
    case Signal(t, wake) =>
      SignalRank(s, t, wake);
  }

  /** Only the owner of the mutex can have more than four steps in hand. */
  lemma RankBound(s: State)
    requires Inv(s)
    ensures TotalRank(s) <= 7 * |s.threads| + 1
  {
    var n := |s.threads|;
    if s.owner.Some? {
      var t := s.owner.value;
      SumUpdate(Ranks(s), t, 4);
      SumAtMost(Ranks(s)[t := 4], 4);
    } else {
      SumAtMost(Ranks(s), 4);
    }
  }

  function Updates(s: State): nat {
    s.produced + s.consumed
  }

  /** What the changes of `index` so far have paid for: 3n + 5 steps each. */
  function Paid(s: State): int {
    (3 * |s.threads| + 5) * Updates(s)
  }

  function Potential(s: State): int {
    TotalRank(s) - Paid(s)
  }

  lemma NextPaid(s: State, e: Event)
    requires Next(s, e).Some?
    ensures Paid(Next(s, e).value) == Paid(s) + if IsUpdate(s, e) then 3 * |s.threads| + 5 else 0
  {
    var s', k := Next(s, e).value, 3 * |s.threads| + 5;
    assert |s'.threads| == |s.threads|;
    assert Updates(s') == Updates(s) + if IsUpdate(s, e) then 1 else 0;
    assert k * (Updates(s) + 1) == k * Updates(s) + k;
  }

  lemma PotentialFalls(s: State, e: Event)
    requires Inv(s) && Next(s, e).Some?
    ensures Potential(Next(s, e).value) + 1 <= Potential(s) + Charge(e)
  {
    RankFalls(s, e);
    NextPaid(s, e);
  }

  function SpuriousCount(es: seq<Event>): nat {
    if es == [] then 0 else SpuriousCount(es[..|es| - 1]) + if es[|es| - 1].Spurious? then 1 else 0
  }

  lemma ChargesAreSpurious(es: seq<Event>)
    ensures Credits(Charge, es) == 4 * SpuriousCount(es)
    decreases |es|
  {
    if es != [] {
      ChargesAreSpurious(es[..|es| - 1]);
    }
  }

  /** The most steps that n threads can take with that many changes of `index`:
      7n + 1, and 3n + 5 more for each change. */
  function Window(n: nat, updates: nat): nat {
    if updates == 0 then 7 * n + 1 else Window(n, updates - 1) + 3 * n + 5
  }

  lemma {:induction false} WindowIs(n: nat, updates: nat)
    ensures Window(n, updates) == 7 * n + 1 + (3 * n + 5) * updates
    decreases updates
  {
    if updates > 0 {
      WindowIs(n, updates - 1);
      assert (3 * n + 5) * updates == (3 * n + 5) * (updates - 1) + (3 * n + 5);
    }
  }

  lemma {:induction false} WindowMonotone(n: nat, a: nat, b: nat)
    requires a <= b
    ensures Window(n, a) <= Window(n, b)
    decreases b
  {
    if a < b {
      WindowMonotone(n, a, b - 1);
    }
  }

  lemma RunPotential(s: State, es: seq<Event>, s': State)
    requires Inv(s) && Reaches(Next, s, es, s')
    ensures |es| + Potential(s') <= Potential(s) + 4 * SpuriousCount(es)
  {
    forall u, e | Inv(u) && Next(u, e).Some?
      ensures Inv(Next(u, e).value) && Potential(Next(u, e).value) + 1 <= Potential(u) + Charge(e)
    {
      NextInv(u, e);
      PotentialFalls(u, e);
    }
    Amortised(Next, Inv, Potential, Charge, s, es);
    ChargesAreSpurious(es);
  }

  lemma WindowIsPaid(s: State, s': State)
    requires |s'.threads| == |s.threads| && Updates(s') >= Updates(s)
    ensures Window(|s.threads|, Updates(s') - Updates(s)) == 7 * |s.threads| + 1 + Paid(s') - Paid(s)
  {
    var k := 3 * |s.threads| + 5;
    assert k * Updates(s') - k * Updates(s) == k * (Updates(s') - Updates(s));
    WindowIs(|s.threads|, Updates(s') - Updates(s));
  }

  lemma StretchBound(s: State, es: seq<Event>, s': State)
    requires Inv(s) && Reaches(Next, s, es, s')
    ensures Updates(s') >= Updates(s)
    ensures |es| <= Window(|s.threads|, Updates(s') - Updates(s)) + 4 * SpuriousCount(es)
  {
    RunPotential(s, es, s');
    RunShape(s, es, s');
    RankBound(s);
    WindowIsPaid(s, s');
  }

  /** Throughput, for every stretch `es` of every run: the number of steps is at most linear
      in the number of threads for each change of `index`, plus four per spurious wakeup. */
  lemma Throughput(capacity: nat, producers: nat, consumers: nat, before: seq<Event>, s: State, es: seq<Event>, s': State)
    requires Reaches(Next, Init(capacity, producers, consumers), before, s) && Reaches(Next, s, es, s')
    ensures Updates(s') >= Updates(s)
    ensures |es| <= Window(producers + consumers, Updates(s') - Updates(s)) + 4 * SpuriousCount(es)
  {
    InitInv(capacity, producers, consumers);
    RunInv(Init(capacity, producers, consumers), before, s);
    RunShape(Init(capacity, producers, consumers), before, s);
    StretchBound(s, es, s');
  }

  lemma IndexBounds(capacity: nat, producers: nat, consumers: nat, es: seq<Event>, s: State)
    requires Reaches(Next, Init(capacity, producers, consumers), es, s)
    ensures 0 <= s.produced - s.consumed <= capacity
  {
    NoLostWakeup(capacity, producers, consumers, es, s);
  }

  /** Any stretch without spurious wakeups longer than 7n + 1 steps changes `index`, and
      any number of changes happens within a length linear in the number of threads. */
  lemma Progress(capacity: nat, producers: nat, consumers: nat, before: seq<Event>, s: State, es: seq<Event>, s': State, changes: nat)
    requires Reaches(Next, Init(capacity, producers, consumers), before, s)
    requires Reaches(Next, s, es, s') && SpuriousCount(es) == 0
    requires |es| > Window(producers + consumers, changes)
    ensures Updates(s') - Updates(s) > changes
  {
    Throughput(capacity, producers, consumers, before, s, es, s');
    if Updates(s') - Updates(s) <= changes {
      WindowMonotone(producers + consumers, Updates(s') - Updates(s), changes);
    }
  }

  /** The changes of a stretch are spread over both kinds, because the buffer is bounded. */
  lemma ChangesAreShared(capacity: nat, producers: nat, consumers: nat, before: seq<Event>, s: State, es: seq<Event>, s': State, m: nat)
    requires Reaches(Next, Init(capacity, producers, consumers), before, s) && Reaches(Next, s, es, s')
    requires Updates(s') - Updates(s) > 2 * m + capacity
    ensures s'.produced >= s.produced + m && s'.consumed >= s.consumed + m
  {
    IndexBounds(capacity, producers, consumers, before, s);
    ExecConcat(Next, Init(capacity, producers, consumers), before, es);
    IndexBounds(capacity, producers, consumers, before + es, s');
  }

  /** Hence neither side starves the other: m items are produced and m consumed within
      a length that is linear in the number of threads, whatever the schedule. */
  lemma BothSidesProgress(capacity: nat, producers: nat, consumers: nat, before: seq<Event>, s: State, es: seq<Event>, s': State, m: nat)
    requires Reaches(Next, Init(capacity, producers, consumers), before, s)
    requires Reaches(Next, s, es, s') && SpuriousCount(es) == 0
    requires |es| > Window(producers + consumers, 2 * m + capacity)
    ensures s'.produced >= s.produced + m && s'.consumed >= s.consumed + m
  {
    Progress(capacity, producers, consumers, before, s, es, s', 2 * m + capacity);
    ChangesAreShared(capacity, producers, consumers, before, s, es, s', m);
  }

  /** And such stretches exist: from every reachable state the monitor can go on for any
      number of steps without a spurious wakeup. */
  lemma {:induction false} GoesOn(capacity: nat, producers: nat, consumers: nat, before: seq<Event>, s: State, length: nat)
    returns (es: seq<Event>, s': State)
    requires capacity >= 1 && producers >= 1 && consumers >= 1
    requires Reaches(Next, Init(capacity, producers, consumers), before, s)
    ensures Reaches(Next, s, es, s') && |es| == length && SpuriousCount(es) == 0
  {
    if length == 0 {
      es, s' := [], s;
    } else {
      var shorter, mid := GoesOn(capacity, producers, consumers, before, s, length - 1);
      ExecConcat(Next, Init(capacity, producers, consumers), before, shorter);
      DeadlockFree(capacity, producers, consumers, before + shorter, mid);
      var e :| Next(mid, e).Some? && !e.Spurious?;
      es, s' := shorter + [e], Next(mid, e).value;
      ExecSnoc(Next, s, shorter, e);
      assert es[..|es| - 1] == shorter;
    }
  }

  // ---- When the monitor can deadlock ----

  /** No thread can ever undo what the others do: no slots, or one kind of thread only. */
  predicate OneSided(s: State) {
    s.capacity == 0 || s.producers == 0 || s.producers == |s.threads|
  }

  /** With one kind of thread only, the other counter stays at zero. */
  predicate OneSidedInv(s: State) {
    && Inv(s)
    && OneSided(s)
    && (s.producers == 0 ==> s.produced == 0)
    && (s.producers == |s.threads| ==> s.consumed == 0)
    && (s.capacity == 0 ==> Updates(s) == 0)
  }

  /** What changes of `index` can still pay for: there are at most `capacity` of them. */
  function Budget(s: State): int {
    (3 * |s.threads| + 5) * s.capacity
  }

  function OneSidedPotential(s: State): int {
    Potential(s) + Budget(s)
  }

  lemma OneSidedNext(s: State, e: Event)
    requires OneSidedInv(s) && Next(s, e).Some?
    ensures OneSidedInv(Next(s, e).value)
  {
    NextInv(s, e);
  }

  lemma OneSidedFalls(s: State, e: Event)
    requires Inv(s) && Next(s, e).Some?
    ensures OneSidedPotential(Next(s, e).value) + 1 <= OneSidedPotential(s) + Charge(e)
  {
    PotentialFalls(s, e);
    NextShape(s, e);
    assert Budget(Next(s, e).value) == Budget(s);
  }

  lemma OneSidedNonnegative(s: State)
    requires OneSidedInv(s)
    ensures 0 <= OneSidedPotential(s)
  {
    ScaleMonotone(3 * |s.threads| + 5, Updates(s), s.capacity);
  }

  lemma OneSidedDeadlocks(s: State) returns (es: seq<Event>, s': State)
    requires OneSidedInv(s)
    ensures Reaches(Next, s, es, s') && AllAsleep(s') && SpuriousCount(es) == 0
  {
    forall u, e | OneSidedInv(u) && Next(u, e).Some?
      ensures OneSidedInv(Next(u, e).value)
      ensures OneSidedPotential(Next(u, e).value) + 1 <= OneSidedPotential(u) + Charge(e)
    {
      OneSidedNext(u, e);
      OneSidedFalls(u, e);
    }
    forall u | OneSidedInv(u)
      ensures 0 <= OneSidedPotential(u)
    {
      OneSidedNonnegative(u);
    }
    forall u | OneSidedInv(u) && !AllAsleep(u)
      ensures exists e :: Next(u, e).Some? && Charge(e) == 0
    {
      StuckIffAllAsleep(u);
      var e :| Next(u, e).Some? && !e.Spurious?;
      assert Charge(e) == 0;
    }
    es := Stops(Next, OneSidedInv, OneSidedPotential, Charge, AllAsleep, s);
    s' := Exec(Next, s, es).value;
    ChargesAreSpurious(es);
  }

  /** A state in which every thread sleeps forever is reachable if and only if there
      are no slots, no producers or no consumers. */
  lemma DeadlockIff(capacity: nat, producers: nat, consumers: nat)
    ensures (exists es, s :: Reaches(Next, Init(capacity, producers, consumers), es, s) && AllAsleep(s))
            <==> capacity == 0 || producers == 0 || consumers == 0
  {
    var s0 := Init(capacity, producers, consumers);
    if capacity == 0 || producers == 0 || consumers == 0 {
      InitInv(capacity, producers, consumers);
      var es, s := OneSidedDeadlocks(s0);
    } else {
      forall es, s | Reaches(Next, s0, es, s)
        ensures !AllAsleep(s)
      {
        DeadlockFree(capacity, producers, consumers, es, s);
      }
    }
  }
}
