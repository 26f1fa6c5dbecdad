/**
 The process pool: the parent deals tasks out to the pipes of its workers in rotation, and
 each worker reads one task at a time and runs it. A task is an opaque record that is
 written and read whole.
 */
module ProcessPool {
  import opened Options
  import opened Products
  import opened Runs
  import opened Sums

  datatype State<T> = State(
    next: nat,                // nextWorker
    submitted: seq<T>,        // all tasks so far, in order
    pipes: seq<seq<T>>,       // what is in each worker's pipe
    current: seq<Option<T>>,  // what each worker has read and not finished
    executed: seq<seq<T>>)    // what each worker has run, in order

  datatype Event<T> = Submit(task: T) | Read(w: nat) | Run(w: nat)

  function Init<T>(n: nat): State<T> {
    State(0, [], seq(n, _ => []), seq(n, _ => None), seq(n, _ => []))
  }

  predicate Shape<T>(s: State<T>) {
    |s.pipes| == |s.current| == |s.executed| >= 1 && s.next < |s.pipes|
  }

  function Next<T>(s: State<T>, e: Event<T>): Option<State<T>> {
    if !Shape(s) then None else
    match e
    case Submit(task) =>
      Some(s.(submitted := s.submitted + [task],
              pipes := s.pipes[s.next := s.pipes[s.next] + [task]],
              next := (s.next + 1) % |s.pipes|))
    case Read(w) =>
      if w < |s.pipes| && s.current[w].None? && s.pipes[w] != [] then
        Some(s.(current := s.current[w := Some(s.pipes[w][0])], pipes := s.pipes[w := s.pipes[w][1..]]))
      else None
    case Run(w) =>
      if w < |s.pipes| && s.current[w].Some? then
        Some(s.(current := s.current[w := None], executed := s.executed[w := s.executed[w] + [s.current[w].value]]))
      else None
  }

  // ---- Dealing in rotation ----

  /** Every n-th task, starting with number w. */
  function Share<T>(tasks: seq<T>, n: nat, w: nat): seq<T>
    requires w < n
  {
    if tasks == [] then
      []
    else
      var k := |tasks| - 1;
      Share(tasks[..k], n, w) + if k % n == w then [tasks[k]] else []
  }

  lemma NextRemainder(k: nat, n: nat)
    requires n >= 1
    ensures (k + 1) / n == if k % n == n - 1 then k / n + 1 else k / n
    ensures (k + 1) % n == if k % n == n - 1 then 0 else k % n + 1
  {
    var q, r := k / n, k % n;
    assert k == n * q + r;
    if r == n - 1 {
      assert n * (q + 1) == n * q + n;
      QuotientUnique(n, q + 1, 0);
    } else {
      QuotientUnique(n, q, r + 1);
    }
  }

  /** A share has length total / n, or one more for the first total mod n workers; so
      any two differ by at most one. */
  lemma {:induction false} ShareSize<T>(tasks: seq<T>, n: nat, w: nat)
    requires w < n
    ensures |Share(tasks, n, w)| == |tasks| / n + if w < |tasks| % n then 1 else 0
    decreases |tasks|
  {
    if tasks != [] {
      ShareSize(tasks[..|tasks| - 1], n, w);
      NextRemainder(|tasks| - 1, n);
    } else {
      QuotientUnique(n, 0, 0);
    }
  }

  /** Task number t is element t / n of the share of worker t mod n. */
  lemma {:induction false} ShareAt<T>(tasks: seq<T>, n: nat, t: nat)
    requires n >= 1 && t < |tasks|
    ensures t / n < |Share(tasks, n, t % n)| && Share(tasks, n, t % n)[t / n] == tasks[t]
    decreases |tasks|
  {
    var k := |tasks| - 1;
    if t < k {
      ShareAt(tasks[..k], n, t);
    } else {
      ShareSize(tasks[..k], n, t % n);
    }
  }

  // ---- The invariant ----

  /** The tasks of worker w that are still somewhere, in order: run, running, waiting. */
  function Held<T>(s: State<T>, w: nat): seq<T>
    requires Shape(s) && w < |s.pipes|
  {
    s.executed[w] + (if s.current[w].Some? then [s.current[w].value] else []) + s.pipes[w]
  }

  ghost predicate Inv<T>(s: State<T>) {
    && Shape(s)
    && s.next == |s.submitted| % |s.pipes|
    && forall w :: 0 <= w < |s.pipes| ==> Held(s, w) == Share(s.submitted, |s.pipes|, w)
  }

  lemma InitInv<T>(n: nat)
    requires n >= 1
    ensures Inv<T>(Init(n))
  {
    QuotientUnique(n, 0, 0);
  }

  lemma NextInv<T>(s: State<T>, e: Event<T>)
    requires Inv(s) && Next(s, e).Some?
    ensures Inv(Next(s, e).value)
  {
    var s' := Next(s, e).value;
    var n := |s.pipes|;
    if e.Submit? {
      NextRemainder(|s.submitted|, n);
      NextRemainder(s.next, n);
      QuotientUnique(n, 0, s.next);
      assert s'.submitted[..|s.submitted|] == s.submitted;
    }
    forall w | 0 <= w < n
      ensures Held(s', w) == Share(s'.submitted, n, w)
    {
      assert Held(s, w) == Share(s.submitted, n, w);
      if e.Submit? && w == s.next {
        assert Held(s', w) == Held(s, w) + [e.task];
      } else {
        assert Held(s', w) == Held(s, w);
      }
    }
  }

  lemma RunInv<T(!new)>(s: State<T>, es: seq<Event<T>>, s': State<T>)
    requires Inv(s) && Reaches(Next, s, es, s')
    ensures Inv(s') && |s'.pipes| == |s.pipes|
    decreases |es|
  {
    if es != [] {
      var mid := Exec(Next, s, es[..|es| - 1]).value;
      RunInv(s, es[..|es| - 1], mid);
      NextInv(mid, es[|es| - 1]);
    }
  }

  /** Task t is, or was, the (t / n)-th task of worker t mod n. */
  predicate PlacedRight<T(==)>(s: State<T>, t: nat)
    requires Shape(s) && t < |s.submitted|
  {
    var n := |s.pipes|;
    t / n < |Held(s, t % n)| && Held(s, t % n)[t / n] == s.submitted[t]
  }

  lemma Placed<T>(s: State<T>, t: nat)
    requires Inv(s) && t < |s.submitted|
    ensures PlacedRight(s, t)
  {
    ShareAt(s.submitted, |s.pipes|, t);
    assert Held(s, t % |s.pipes|) == Share(s.submitted, |s.pipes|, t % |s.pipes|);
  }

  lemma Balanced<T>(s: State<T>, v: nat, w: nat)
    requires Inv(s) && v < |s.pipes| && w < |s.pipes|
    ensures |Held(s, v)| <= |Held(s, w)| + 1
  {
    ShareSize(s.submitted, |s.pipes|, v);
    ShareSize(s.submitted, |s.pipes|, w);
    assert Held(s, v) == Share(s.submitted, |s.pipes|, v);
    assert Held(s, w) == Share(s.submitted, |s.pipes|, w);
  }

  /** The tasks that a run submits, in order. */
  function TasksOf<T>(es: seq<Event<T>>): seq<T> {
    if es == [] then [] else
    var e := es[|es| - 1];
    TasksOf(es[..|es| - 1]) + if e.Submit? then [e.task] else []
  }

  lemma {:induction false} SubmittedIs<T(!new)>(s: State<T>, es: seq<Event<T>>, s': State<T>)
    requires Reaches(Next, s, es, s')
    ensures s'.submitted == s.submitted + TasksOf(es)
    decreases |es|
  {
    if es != [] {
      var before := es[..|es| - 1];
      SubmittedIs(s, before, Exec(Next, s, before).value);
    }
  }

  /** Under every interleaving of submissions, reads and runs: task t goes to worker t
      mod n and is its (t / n)-th; each worker runs its tasks in the order of
      submission; and the loads differ by at most one. */
  lemma DealtInRotation<T(!new)>(n: nat, es: seq<Event<T>>, s: State<T>, t: nat, v: nat, w: nat)
    requires n >= 1 && Reaches(Next, Init(n), es, s) && v < n && w < n
    ensures Shape(s) && |s.pipes| == n && s.submitted == TasksOf(es)
    ensures t < |s.submitted| ==> PlacedRight(s, t)
    ensures s.executed[w] <= Share(s.submitted, n, w)
    ensures |Held(s, v)| <= |Held(s, w)| + 1
  {
    InitInv<T>(n);
    RunInv(Init(n), es, s);
    SubmittedIs(Init(n), es, s);
    if t < |s.submitted| {
      Placed(s, t);
    }
    assert Held(s, w) == Share(s.submitted, n, w);
    Balanced(s, v, w);
  }

  // ---- Each task exactly once ----

  /** All the tasks in a sequence of queues. */
  ghost function Gather<T>(queues: seq<seq<T>>): multiset<T> {
    if queues == [] then multiset{} else Gather(queues[..|queues| - 1]) + multiset(queues[|queues| - 1])
  }

  function Singles<T>(xs: seq<Option<T>>): seq<seq<T>> {
    seq(|xs|, i requires 0 <= i < |xs| => if xs[i].Some? then [xs[i].value] else [])
  }

  lemma {:induction false} GatherAppend<T>(queues: seq<seq<T>>, w: nat, x: T)
    requires w < |queues|
    ensures Gather(queues[w := queues[w] + [x]]) == Gather(queues) + multiset{x}
    decreases |queues|
  {
    var k := |queues| - 1;
    if w < k {
      GatherAppend(queues[..k], w, x);
      assert queues[w := queues[w] + [x]][..k] == queues[..k][w := queues[w] + [x]];
    } else {
      assert queues[w := queues[w] + [x]][..k] == queues[..k];
    }
  }

  lemma {:induction false} GatherEmpty<T>(queues: seq<seq<T>>)
    requires forall w :: 0 <= w < |queues| ==> queues[w] == []
    ensures Gather(queues) == multiset{}
    decreases |queues|
  {
    if queues != [] {
      GatherEmpty(queues[..|queues| - 1]);
    }
  }

  lemma {:induction false} GatherConcat<T>(a: seq<seq<T>>, b: seq<seq<T>>, c: seq<seq<T>>)
    requires |a| == |b| == |c|
    requires forall w :: 0 <= w < |a| ==> c[w] == a[w] + b[w]
    ensures Gather(c) == Gather(a) + Gather(b)
    decreases |a|
  {
    if a != [] {
      GatherConcat(a[..|a| - 1], b[..|a| - 1], c[..|a| - 1]);
    }
  }

  function Shares<T>(tasks: seq<T>, n: nat): seq<seq<T>> {
    seq(n, w requires 0 <= w < n => Share(tasks, n, w))
  }

  /** The last task makes the share of one worker longer. */
  lemma SharesGrow<T>(tasks: seq<T>, n: nat)
    requires n >= 1 && tasks != []
    ensures var k := |tasks| - 1;
            var before := Shares(tasks[..k], n);
            k % n < n && Shares(tasks, n) == before[k % n := before[k % n] + [tasks[k]]]
  {
    var k := |tasks| - 1;
    var before := Shares(tasks[..k], n);
    var after := before[k % n := before[k % n] + [tasks[k]]];
    forall w: nat | w < n
      ensures Shares(tasks, n)[w] == after[w]
    {
      assert before[w] == Share(tasks[..k], n, w);
    }
    assert Shares(tasks, n) == after;
  }

  /** The shares of all workers together are all the tasks. */
  lemma {:induction false} SharesAreAll<T>(tasks: seq<T>, n: nat)
    requires n >= 1
    ensures Gather(Shares(tasks, n)) == multiset(tasks)
    decreases |tasks|
  {
    if tasks == [] {
      GatherEmpty(Shares(tasks, n));
    } else {
      var k := |tasks| - 1;
      SharesAreAll(tasks[..k], n);
      SharesGrow(tasks, n);
      GatherAppend(Shares(tasks[..k], n), k % n, tasks[k]);
      assert tasks == tasks[..k] + [tasks[k]];
    }
  }

  /** No task is lost and none is run twice: what was submitted is what has been run,
      what is running and what waits in a pipe, each counted once. */
  lemma EachTaskOnce<T(!new)>(n: nat, es: seq<Event<T>>, s: State<T>)
    requires n >= 1 && Reaches(Next, Init(n), es, s)
    ensures s.submitted == TasksOf(es)
    ensures Gather(s.executed) + Gather(Singles(s.current)) + Gather(s.pipes) == multiset(s.submitted)
  {
    InitInv<T>(n);
    RunInv(Init(n), es, s);
    SubmittedIs(Init(n), es, s);
    var begun := seq(n, w requires 0 <= w < n => s.executed[w] + Singles(s.current)[w]);
    GatherConcat(s.executed, Singles(s.current), begun);
    GatherConcat(begun, s.pipes, Shares(s.submitted, n));
    SharesAreAll(s.submitted, n);
  }

  // ---- Every task is run ----

  function Work<T>(s: State<T>): seq<nat> {
    if !Shape(s) then [] else
    seq(|s.pipes|, w requires 0 <= w < |s.pipes| => 2 * |s.pipes[w]| + if s.current[w].Some? then 1 else 0)
  }

  function TotalWork<T>(s: State<T>): int {
    Sum(Work(s))
  }

  function Charge<T>(e: Event<T>): nat {
    if e.Submit? then 3 else 0
  }

  lemma WorkFalls<T>(s: State<T>, e: Event<T>)
    requires Inv(s) && Next(s, e).Some?
    ensures TotalWork(Next(s, e).value) + 1 <= TotalWork(s) + Charge(e)
  {
    NextInv(s, e);
    var s' := Next(s, e).value;
    var w := if e.Submit? then s.next else e.w;
    assert Work(s') == Work(s)[w := Work(s')[w]];
    SumUpdate(Work(s), w, Work(s')[w]);
  }

  predicate Finished<T>(s: State<T>) {
    Shape(s) && forall w :: 0 <= w < |s.pipes| ==> s.pipes[w] == [] && s.current[w].None?
  }

  lemma WorkersCanStep<T>(s: State<T>)
    requires Inv(s) && !Finished(s)
    ensures exists e :: Next(s, e).Some? && Charge(e) == 0
  {
    var w: nat :| w < |s.pipes| && !(s.pipes[w] == [] && s.current[w].None?);
    var e: Event<T> := if s.current[w].Some? then Run(w) else Read(w);
    assert Next(s, e).Some? && Charge(e) == 0;
  }

  /** A run has at most three steps per submission; and the workers, left to themselves,
      come to an end where everything submitted has been run exactly once, by the
      right worker and in order. */
  lemma EverythingRuns<T(!new)>(n: nat, es: seq<Event<T>>, s: State<T>) returns (rest: seq<Event<T>>, last: State<T>)
    requires n >= 1 && Reaches(Next, Init(n), es, s)
    ensures |es| <= Credits(Charge, es)
    ensures Reaches(Next, s, rest, last) && Credits(Charge, rest) == 0 && Finished(last)
    ensures last.submitted == s.submitted
    ensures Gather(last.executed) == multiset(s.submitted)
    ensures |last.executed| == n && forall w: nat :: w < n ==> last.executed[w] == Share(s.submitted, n, w)
  {
    InitInv<T>(n);
    RunInv(Init(n), es, s);
    forall u: State<T>, e | Inv(u) && Next(u, e).Some?
      ensures Inv(Next(u, e).value) && TotalWork(Next(u, e).value) + 1 <= TotalWork(u) + Charge(e)
    {
      NextInv(u, e);
      WorkFalls(u, e);
    }
    Amortised<State<T>, Event<T>>(Next, Inv, TotalWork, Charge, Init(n), es);
    SumAtMost(Work<T>(Init(n)), 0);
    forall u: State<T> | Inv(u) && !Finished(u)
      ensures exists e :: Next(u, e).Some? && Charge(e) == 0
    {
      WorkersCanStep(u);
    }
    rest := Stops<State<T>, Event<T>>(Next, Inv, TotalWork, Charge, Finished, s);
    last := Exec(Next, s, rest).value;
    NothingSubmitted(s, rest, last);
    RunInv(s, rest, last);
    GatherShares(last);
  }

  lemma NothingSubmitted<T(!new)>(s: State<T>, es: seq<Event<T>>, s': State<T>)
    requires Reaches(Next, s, es, s') && Credits(Charge, es) == 0
    ensures s'.submitted == s.submitted
    decreases |es|
  {
    if es != [] {
      NothingSubmitted(s, es[..|es| - 1], Exec(Next, s, es[..|es| - 1]).value);
    }
  }

  lemma GatherShares<T>(s: State<T>)
    requires Inv(s) && Finished(s)
    ensures forall w: nat :: w < |s.pipes| ==> s.executed[w] == Share(s.submitted, |s.pipes|, w)
    ensures Gather(s.executed) == multiset(s.submitted)
  {
    var n := |s.pipes|;
    forall w: nat | w < n
      ensures s.executed[w] == Share(s.submitted, n, w)
    {
      assert Held(s, w) == s.executed[w];
    }
    assert s.executed == Shares(s.submitted, n);
    SharesAreAll(s.submitted, n);
  }

  // ---- The pool object ----

  class Pool<T> {
    var nextWorker: nat
    var pipes: seq<seq<T>>
    var current: seq<Option<T>>
    var executed: seq<seq<T>>
    ghost var submitted: seq<T>

    ghost function Value(): State<T>
      reads this
    {
      State(nextWorker, submitted, pipes, current, executed)
    }

    constructor (numWorkers: nat)
      requires numWorkers >= 1
      ensures Value() == Init(numWorkers) && Inv(Value())
    {
      nextWorker, submitted := 0, [];
      pipes, current, executed := seq(numWorkers, _ => []), seq(numWorkers, _ => None), seq(numWorkers, _ => []);
      new;
      InitInv<T>(numWorkers);
    }

    /** submit */
    method SubmitTask(task: T)
      requires Inv(Value())
      modifies this`nextWorker, this`pipes, this`submitted
      ensures Next(old(Value()), Submit(task)) == Some(Value()) && Inv(Value())
      ensures submitted == old(submitted) + [task]
    {
      ghost var s := Value();
      pipes := pipes[nextWorker := pipes[nextWorker] + [task]];
      nextWorker := (nextWorker + 1) % |pipes|;
      submitted := submitted + [task];
      NextInv(s, Submit(task));
    }

    /** The read in worker w; it blocks while the pipe is empty. */
    method ReadTask(w: nat)
      requires Inv(Value()) && w < |pipes| && current[w].None? && pipes[w] != []
      modifies this`pipes, this`current
      ensures Next(old(Value()), Read(w)) == Some(Value()) && Inv(Value())
    {
      ghost var s := Value();
      current := current[w := Some(pipes[w][0])];
      pipes := pipes[w := pipes[w][1..]];
      NextInv(s, Read(w));
    }

    /** `task()` in worker w. */
    method RunTask(w: nat)
      requires Inv(Value()) && w < |pipes| && current[w].Some?
      modifies this`current, this`executed
      ensures Next(old(Value()), Run(w)) == Some(Value()) && Inv(Value())
    {
      ghost var s := Value();
      executed := executed[w := executed[w] + [current[w].value]];
      current := current[w := None];
      NextInv(s, Run(w));
    }
  }
}
