/**
 What the monitor is for: to its callers each call of `produce` or `consume` is one
 indivisible action. AtomicNext is that simple monitor, without mutex and program
 counters, and the fine-grained one in BoundedMonitor is proved to show exactly its behaviour.
 */
module MonitorRefinement {
  import opened Options
  import opened Runs
  import opened BoundedMonitor
  import opened MonitorProgress

  /** What a caller can see: how full the buffer is, and who waits. */
  datatype View = View(capacity: nat, roles: seq<Role>, index: int, asleep: set<nat>, produced: int, consumed: int)

  datatype Step =
    | Change(tid: nat, wake: set<nat>) // a thread changes `index` and wakes others
    | Doze(tid: nat)                   // a thread finds that it cannot, and falls asleep
    | Rouse(tid: nat)                  // a sleeper wakes up for no reason

  function FirstView(capacity: nat, producers: nat, consumers: nat): View {
    View(capacity, seq(producers, _ => Producer) + seq(consumers, _ => Consumer), 0, {}, 0, 0)
  }

  function Waiting(v: View, role: Role): set<nat> {
    set i | i in v.asleep && i < |v.roles| && v.roles[i] == role
  }

  function AtomicNext(v: View, step: Step): Option<View> {
    var t := step.tid;
    if t >= |v.roles| || (step.Rouse? <==> t !in v.asleep) then None else
    match (step, v.roles[t])
    case (Rouse(_), _) => Some(v.(asleep := v.asleep - {t}))
    case (Doze(_), Producer) => if v.index == v.capacity then Some(v.(asleep := v.asleep + {t})) else None
    case (Doze(_), Consumer) => if v.index == 0 then Some(v.(asleep := v.asleep + {t})) else None
    case (Change(_, wake), Producer) =>
      if v.index < v.capacity && wake == Waiting(v, Consumer) then
        Some(v.(index := v.index + 1, produced := v.produced + 1, asleep := v.asleep - wake))
      else None
    case (Change(_, wake), Consumer) =>
      if 0 < v.index && wake <= Waiting(v, Producer) && (wake == {} ==> Waiting(v, Producer) == {}) then
        Some(v.(index := v.index - 1, consumed := v.consumed + 1, asleep := v.asleep - wake))
      else None
  }

  // ---- Every run of the fine-grained monitor is one of the atomic monitor ----

  predicate AboutToNotify(s: State, role: Role) {
    s.owner.Some? && s.owner.value < |s.threads| && s.threads[s.owner.value] == Thread(role, Notify)
  }

  function Sleeping(s: State): set<nat> {
    set i: nat | i < |s.threads| && s.threads[i].stage == Asleep
  }

  /** A change of `index` shows from the signal on: nobody can look before. */
  function ViewOf(s: State): View {
    var p := if AboutToNotify(s, Producer) then 1 else 0;
    var c := if AboutToNotify(s, Consumer) then 1 else 0;
    View(s.capacity, seq(|s.threads|, i requires 0 <= i < |s.threads| => s.threads[i].role),
         s.index - p + c, Sleeping(s), s.produced - p, s.consumed - c)
  }

  /** What an event shows to the callers: at most one step. */
  function Visible(s: State, e: Event): seq<Step> {
    match e
    case Spurious(t) => [Rouse(t)]
    case Signal(t, wake) => [Change(t, wake)]
    case Act(t) => if t < |s.threads| && s.threads[t].stage == Wait then [Doze(t)] else []
  }

  function Trace(s: State, es: seq<Event>): seq<Step>
    requires Exec(Next, s, es).Some?
  {
    if es == [] then [] else
    var before := es[..|es| - 1];
    Trace(s, before) + Visible(Exec(Next, s, before).value, es[|es| - 1])
  }

  lemma ExecOne(v: View, step: Step)
    ensures Exec(AtomicNext, v, [step]) == AtomicNext(v, step)
  {
    ExecSnoc(AtomicNext, v, [], step);
    assert [] + [step] == [step];
  }

  lemma SleepersAre(s: State, role: Role)
    ensures Waiting(ViewOf(s), role) == Sleepers(s, role)
  {
  }

  lemma ActIsVisible(s: State, t: nat)
    requires Inv(s) && Next(s, Act(t)).Some?
    ensures Exec(AtomicNext, ViewOf(s), Visible(s, Act(t))) == Some(ViewOf(Next(s, Act(t)).value))
  {
    var s' := Next(s, Act(t)).value;
    var v, v' := ViewOf(s), ViewOf(s');
    assert v'.roles == v.roles;
    if s.threads[t].stage == Wait {
      ExecOne(v, Doze(t));
      assert v'.asleep == v.asleep + {t};
    } else {
      assert v'.asleep == v.asleep;
    }
  }

  /** A signal moves its own thread and those it wakes, and nothing else. */
  lemma SignalMoves(s: State, t: nat, wake: set<nat>)
    requires Next(s, Signal(t, wake)).Some?
    ensures var s' := Next(s, Signal(t, wake)).value;
            && s' == s.(threads := s'.threads) && |s'.threads| == |s.threads|
            && wake <= Sleeping(s) && t !in Sleeping(s)
            && forall i: nat :: i < |s.threads| ==>
                 s'.threads[i] == Thread(s.threads[i].role,
                                         if i == t then Unlock else if i in wake then Woken else s.threads[i].stage)
  {
  }

  lemma SignalView(s: State, t: nat, wake: set<nat>)
    requires s.owner == Some(t) && Next(s, Signal(t, wake)).Some?
    ensures var v := ViewOf(s);
            ViewOf(Next(s, Signal(t, wake)).value) ==
            if s.threads[t].role == Producer then
              v.(index := v.index + 1, produced := v.produced + 1, asleep := v.asleep - wake)
            else
              v.(index := v.index - 1, consumed := v.consumed + 1, asleep := v.asleep - wake)
  {
    SignalMoves(s, t, wake);
    var v, v' := ViewOf(s), ViewOf(Next(s, Signal(t, wake)).value);
    assert v'.roles == v.roles;
    assert v'.asleep == v.asleep - wake;
  }

  lemma SignalIsVisible(s: State, t: nat, wake: set<nat>)
    requires Inv(s) && Next(s, Signal(t, wake)).Some?
    ensures AtomicNext(ViewOf(s), Change(t, wake)) == Some(ViewOf(Next(s, Signal(t, wake)).value))
  {
    assert s.owner == Some(t);
    SignalView(s, t, wake);
    SleepersAre(s, Producer);
    SleepersAre(s, Consumer);
  }

  lemma EventIsVisible(s: State, e: Event)
    requires Inv(s) && Next(s, e).Some?
    ensures Exec(AtomicNext, ViewOf(s), Visible(s, e)) == Some(ViewOf(Next(s, e).value))
  {
    match e
    case Act(t) =>
      ActIsVisible(s, t);
    case Signal(t, wake) =>
      ExecOne(ViewOf(s), Change(t, wake));
      SignalIsVisible(s, t, wake);
    case Spurious(t) =>
      ExecOne(ViewOf(s), Rouse(t));
      var s' := Next(s, e).value;
      assert ViewOf(s').roles == ViewOf(s).roles;
      assert ViewOf(s').asleep == ViewOf(s).asleep - {t};
  }

  /** Soundness: whatever the threads do, and however their statements interleave, the
      callers see a run of the atomic monitor. */
  lemma {:induction false} RunIsAtomic(s: State, es: seq<Event>, s': State)
    requires Inv(s) && Reaches(Next, s, es, s')
    ensures Exec(AtomicNext, ViewOf(s), Trace(s, es)) == Some(ViewOf(s'))
    decreases |es|
  {
    if es != [] {
      var before, e := es[..|es| - 1], es[|es| - 1];
      var mid := Exec(Next, s, before).value;
      RunIsAtomic(s, before, mid);
      RunInv(s, before, mid);
      EventIsVisible(mid, e);
      ExecConcat(AtomicNext, ViewOf(s), Trace(s, before), Visible(mid, e));
    }
  }

  // ---- Every run of the atomic monitor can happen ----

  /** The statements by which a thread makes one step, when nobody holds the mutex. */
  function Statements(step: Step): seq<Event> {
    match step
    case Change(t, wake) => [Act(t), Act(t), Act(t), Signal(t, wake), Act(t)]
    case Doze(t) => [Act(t), Act(t), Act(t)]
    case Rouse(t) => [Spurious(t)]
  }

  /** Where every thread stands after a step. */
  function StageAfter(s: State, step: Step, i: nat): Stage
    requires i < |s.threads|
  {
    match step
    case Change(t, wake) => if i == t then Start else if i in wake then Woken else s.threads[i].stage
    case Doze(t) => if i == t then Asleep else s.threads[i].stage
    case Rouse(t) => if i == t then Woken else s.threads[i].stage
  }

  lemma GotoTwice(s: State, t: nat, a: Stage, b: Stage)
    requires t < |s.threads|
    ensures Goto(Goto(s, t, a), t, b) == Goto(s, t, b)
  {
    assert Goto(Goto(s, t, a), t, b).threads == Goto(s, t, b).threads;
  }

  /** Locking, testing and updating, when the test lets the thread through. */
  lemma UpTillSignal(s: State, t: nat)
    requires s.owner.None? && t < |s.threads| && s.threads[t].stage in {Start, Woken}
    requires if s.threads[t].role == Producer then s.index < s.capacity else 0 < s.index
    ensures Reaches(Next, s, [Act(t), Act(t), Act(t)],
                    UpdateIndex(Goto(s, t, Notify).(owner := Some(t)), s.threads[t].role))
  {
    var locked, tested := Goto(s, t, Test).(owner := Some(t)), Goto(s, t, Update).(owner := Some(t));
    GotoTwice(s, t, Test, Update);
    GotoTwice(s, t, Update, Notify);
    ExecThree(Next, s, Act(t), locked, Act(t), tested, Act(t),
              UpdateIndex(Goto(s, t, Notify).(owner := Some(t)), s.threads[t].role));
  }

  /** The statements after the update. */
  lemma FromSignalOn(s: State, t: nat, wake: set<nat>)
    requires Next(s, Signal(t, wake)).Some?
    ensures Reaches(Next, s, [Signal(t, wake), Act(t)],
                    Goto(Next(s, Signal(t, wake)).value, t, Start).(owner := None))
  {
    SignalMoves(s, t, wake);
    var s' := Next(s, Signal(t, wake)).value;
    ExecTwo(Next, s, Signal(t, wake), s', Act(t), Goto(s', t, Start).(owner := None));
  }

  lemma ChangeRuns(s: State, t: nat, wake: set<nat>) returns (changed: State, last: State)
    requires Inv(s) && s.owner.None? && AtomicNext(ViewOf(s), Change(t, wake)).Some?
    ensures t < |s.threads| && changed == UpdateIndex(Goto(s, t, Notify).(owner := Some(t)), s.threads[t].role)
    ensures Next(changed, Signal(t, wake)).Some?
    ensures last == Goto(Next(changed, Signal(t, wake)).value, t, Start).(owner := None)
    ensures Reaches(Next, s, Statements(Change(t, wake)), last)
  {
    SleepersAre(s, Producer);
    SleepersAre(s, Consumer);
    UpTillSignal(s, t);
    changed := UpdateIndex(Goto(s, t, Notify).(owner := Some(t)), s.threads[t].role);
    assert Sleepers(changed, Producer) == Sleepers(s, Producer) && Sleepers(changed, Consumer) == Sleepers(s, Consumer);
    FromSignalOn(changed, t, wake);
    last := Goto(Next(changed, Signal(t, wake)).value, t, Start).(owner := None);
    ReachesConcat(Next, s, [Act(t), Act(t), Act(t)], changed, [Signal(t, wake), Act(t)], last);
    assert Statements(Change(t, wake)) == [Act(t), Act(t), Act(t)] + [Signal(t, wake), Act(t)];
  }

  /** Seen from outside, the whole call moves the threads as told and shows the change. */
  lemma ChangeShows(s: State, t: nat, wake: set<nat>, last: State)
    requires s.owner.None? && last.owner.None? && t < |s.threads| == |last.threads|
    requires s.threads[t].stage in {Start, Woken} && wake <= Sleeping(s)
    requires forall i: nat :: i < |s.threads| ==>
               last.threads[i] == Thread(s.threads[i].role, StageAfter(s, Change(t, wake), i))
    requires last == UpdateIndex(s, s.threads[t].role).(threads := last.threads)
    ensures var v := ViewOf(s);
            ViewOf(last) ==
            if s.threads[t].role == Producer then
              v.(index := v.index + 1, produced := v.produced + 1, asleep := v.asleep - wake)
            else
              v.(index := v.index - 1, consumed := v.consumed + 1, asleep := v.asleep - wake)
  {
    assert ViewOf(last).roles == ViewOf(s).roles;
    assert ViewOf(last).asleep == ViewOf(s).asleep - wake;
  }

  lemma ChangeHappens(s: State, t: nat, wake: set<nat>) returns (last: State)
    requires Inv(s) && s.owner.None? && AtomicNext(ViewOf(s), Change(t, wake)).Some?
    ensures Reaches(Next, s, Statements(Change(t, wake)), last) && last.owner.None?
    ensures ViewOf(last) == AtomicNext(ViewOf(s), Change(t, wake)).value
    ensures |last.threads| == |s.threads|
    ensures forall i: nat :: i < |s.threads| ==> last.threads[i] == Thread(s.threads[i].role, StageAfter(s, Change(t, wake), i))
  {
    var changed: State;
    changed, last := ChangeRuns(s, t, wake);
    SignalMoves(changed, t, wake);
    SleepersAre(s, Producer);
    SleepersAre(s, Consumer);
    ChangeShows(s, t, wake, last);
  }

  lemma DozeHappens(s: State, t: nat) returns (last: State)
    requires Inv(s) && s.owner.None? && AtomicNext(ViewOf(s), Doze(t)).Some?
    ensures Reaches(Next, s, Statements(Doze(t)), last) && last.owner.None?
    ensures ViewOf(last) == AtomicNext(ViewOf(s), Doze(t)).value
    ensures |last.threads| == |s.threads|
    ensures forall i: nat :: i < |s.threads| ==> last.threads[i] == Thread(s.threads[i].role, StageAfter(s, Doze(t), i))
  {
    last := Goto(s, t, Asleep);
    GotoTwice(s, t, Test, Wait);
    GotoTwice(s, t, Wait, Asleep);
    ExecThree(Next, s, Act(t), Goto(s, t, Test).(owner := Some(t)), Act(t), Goto(s, t, Wait).(owner := Some(t)), Act(t), last);
    assert ViewOf(last).roles == ViewOf(s).roles;
    assert ViewOf(last).asleep == ViewOf(s).asleep + {t};
  }

  /** Completeness, for one step: a thread that finds the mutex free makes the step by its
      own statements alone, leaves the mutex free again, and moves no other thread
      but those it wakes. */
  lemma StepHappens(s: State, step: Step) returns (last: State)
    requires Inv(s) && s.owner.None? && AtomicNext(ViewOf(s), step).Some?
    ensures Reaches(Next, s, Statements(step), last) && last.owner.None?
    ensures ViewOf(last) == AtomicNext(ViewOf(s), step).value
    ensures |last.threads| == |s.threads|
    ensures forall i: nat :: i < |s.threads| ==> last.threads[i] == Thread(s.threads[i].role, StageAfter(s, step, i))
  {
    match step
    case Change(t, wake) =>
      last := ChangeHappens(s, t, wake);
    case Doze(t) =>
      last := DozeHappens(s, t);
    case Rouse(t) =>
      ExecSnoc(Next, s, [], Spurious(t));
      assert [] + [Spurious(t)] == [Spurious(t)];
      last := Goto(s, t, Woken);
      assert ViewOf(last).roles == ViewOf(s).roles;
      assert ViewOf(last).asleep == ViewOf(s).asleep - {t};
  }

  /** Completeness: every run of the atomic monitor is seen in some run of the threads. */
  lemma {:induction false} AtomicRunHappens(s: State, steps: seq<Step>) returns (es: seq<Event>, s': State)
    requires Inv(s) && s.owner.None? && Exec(AtomicNext, ViewOf(s), steps).Some?
    ensures Reaches(Next, s, es, s') && s'.owner.None?
    ensures ViewOf(s') == Exec(AtomicNext, ViewOf(s), steps).value
    decreases |steps|
  {
    if steps == [] {
      es, s' := [], s;
    } else {
      var step := steps[|steps| - 1];
      var before, mid := AtomicRunHappens(s, steps[..|steps| - 1]);
      RunInv(s, before, mid);
      s' := StepHappens(mid, step);
      es := before + Statements(step);
      ReachesConcat(Next, s, before, mid, Statements(step), s');
    }
  }

  lemma InitView(capacity: nat, producers: nat, consumers: nat)
    ensures ViewOf(Init(capacity, producers, consumers)) == FirstView(capacity, producers, consumers)
    ensures Inv(Init(capacity, producers, consumers))
  {
    InitInv(capacity, producers, consumers);
    assert ViewOf(Init(capacity, producers, consumers)).roles == FirstView(capacity, producers, consumers).roles;
  }

  /** The monitor is atomic: what callers can see whenever the mutex is free is exactly
      what the atomic monitor can show, no more and no less. */
  lemma MonitorIsAtomic(capacity: nat, producers: nat, consumers: nat, v: View)
    ensures (exists es, s :: Reaches(Next, Init(capacity, producers, consumers), es, s) && s.owner.None? && ViewOf(s) == v)
            <==> exists steps :: Reaches(AtomicNext, FirstView(capacity, producers, consumers), steps, v)
  {
    var s0, v0 := Init(capacity, producers, consumers), FirstView(capacity, producers, consumers);
    InitView(capacity, producers, consumers);
    if es, s :| Reaches(Next, s0, es, s) && s.owner.None? && ViewOf(s) == v {
      RunIsAtomic(s0, es, s);
      assert Reaches(AtomicNext, v0, Trace(s0, es), v);
    }
    if steps :| Reaches(AtomicNext, v0, steps, v) {
      var es, s := AtomicRunHappens(s0, steps);
      assert Reaches(Next, s0, es, s) && s.owner.None? && ViewOf(s) == v;
    }
  }

  // ---- The mutex is given back ----

  /** After the last statement of a call the mutex is free, nothing else has changed, and
      any other thread that wants the mutex can have it next. */
  lemma UnlockFrees(s: State, t: nat)
    requires Inv(s) && t < |s.threads| && s.threads[t].stage == Unlock
    ensures var s' := Next(s, Act(t));
            && s'.Some? && s'.value.owner.None? && ViewOf(s'.value) == ViewOf(s)
            && |s'.value.threads| == |s.threads| && s'.value.threads[t] == Thread(s.threads[t].role, Start)
            && forall j: nat :: j < |s.threads| && j != t ==>
                 && s'.value.threads[j] == s.threads[j]
                 && (s.threads[j].stage in {Start, Woken} ==>
                       Next(s'.value, Act(j)).Some? && Next(s'.value, Act(j)).value.owner == Some(j))
  {
    var s' := Next(s, Act(t)).value;
    assert ViewOf(s').roles == ViewOf(s).roles;
    assert ViewOf(s').asleep == ViewOf(s).asleep;
  }

  /** Once it has changed `index`, a thread keeps the mutex only to signal and to unlock. */
  predicate Closing(s: State, t: nat) {
    s.owner == Some(t) && t < |s.threads| && s.threads[t].stage in {Notify, Unlock}
  }

  lemma ClosingNext(s: State, t: nat, e: Event)
    requires Inv(s) && Closing(s, t) && Next(s, e).Some?
    ensures Next(s, e).value.owner.None? || Closing(Next(s, e).value, t)
  {
  }

  lemma {:induction false} ClosingUntilFree(s: State, t: nat, es: seq<Event>, s': State) returns (i: nat)
    requires Inv(s) && Closing(s, t) && Reaches(Next, s, es, s')
    ensures i <= |es| && Exec(Next, s, es[..i]).Some?
    ensures Exec(Next, s, es[..i]).value.owner.None? || Closing(s', t)
    decreases |es|
  {
    i := |es|;
    assert es[..i] == es;
    if es != [] {
      var before := es[..|es| - 1];
      var mid := Exec(Next, s, before).value;
      i := ClosingUntilFree(s, t, before, mid);
      assert before[..i] == es[..i];
      if Closing(mid, t) {
        RunInv(s, before, mid);
        ClosingNext(mid, t, es[|es| - 1]);
        i := |es|;
      }
    }
  }

  /** Between any two changes of `index` there is a moment when nobody holds the mutex. */
  lemma FreeBetweenChanges(s: State, first: Event, es: seq<Event>, s': State, second: Event) returns (i: nat)
    requires Inv(s) && IsUpdate(s, first) && Next(s, first).Some?
    requires Reaches(Next, Next(s, first).value, es, s') && IsUpdate(s', second)
    ensures i <= |es| && Exec(Next, Next(s, first).value, es[..i]).Some?
    ensures Exec(Next, Next(s, first).value, es[..i]).value.owner.None?
  {
    var changed := Next(s, first).value;
    NextInv(s, first);
    i := ClosingUntilFree(changed, first.tid, es, s');
    RunInv(changed, es, s');
  }
}
