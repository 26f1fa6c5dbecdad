/**
 Runs of a step machine, and the three facts about them that every concurrent
 model here uses: an inductive invariant holds after any run, a potential bounds
 the length of any run, and a machine whose potential falls can be driven until it stops.
 */
module Runs {
  import opened Options

  /** The state after performing `es` in order from `s`; None when some event is not enabled. */
  function Exec<S, E>(step: (S, E) -> Option<S>, s: S, es: seq<E>): Option<S> {
    if es == [] then
      Some(s)
    else
      var before := Exec(step, s, es[..|es| - 1]);
      if before.None? then None else step(before.value, es[|es| - 1])
  }

  ghost predicate Reaches<S, E>(step: (S, E) -> Option<S>, s: S, es: seq<E>, s': S) {
    Exec(step, s, es) == Some(s')
  }

  /** The sum of what the events of a run are charged. */
  function Credits<E>(credit: E -> nat, es: seq<E>): nat {
    if es == [] then 0 else Credits(credit, es[..|es| - 1]) + credit(es[|es| - 1])
  }

  lemma ExecSnoc<S, E>(step: (S, E) -> Option<S>, s: S, es: seq<E>, e: E)
    ensures var before := Exec(step, s, es);
            Exec(step, s, es + [e]) == if before.None? then None else step(before.value, e)
  {
    assert (es + [e])[..|es|] == es;
  }

  /** A run may be cut in two anywhere. */
  lemma {:induction false} ExecConcat<S, E>(step: (S, E) -> Option<S>, s: S, a: seq<E>, b: seq<E>)
    ensures var mid := Exec(step, s, a);
            Exec(step, s, a + b) == if mid.None? then None else Exec(step, mid.value, b)
    decreases |b|
  {
    if b == [] {
      assert a + b == a;
    } else {
      var init := b[..|b| - 1];
      ExecConcat(step, s, a, init);
      assert a + b == (a + init) + [b[|b| - 1]];
      ExecSnoc(step, s, a + init, b[|b| - 1]);
    }
  }

  /** A run begins with its first event. */
  lemma ExecCons<S, E>(step: (S, E) -> Option<S>, s: S, e: E, es: seq<E>)
    ensures Exec(step, s, [e] + es) == if step(s, e).None? then None else Exec(step, step(s, e).value, es)
  {
    ExecConcat(step, s, [e], es);
    ExecSnoc(step, s, [], e);
    assert [] + [e] == [e];
  }

  /** If a run is possible, so is every prefix of it. */
  lemma EnabledPrefix<S, E>(step: (S, E) -> Option<S>, s: S, es: seq<E>, i: nat)
    requires Exec(step, s, es).Some? && i <= |es|
    ensures Exec(step, s, es[..i]).Some?
  {
    assert es == es[..i] + es[i..];
    ExecConcat(step, s, es[..i], es[i..]);
  }

  /** Event i of a possible run is enabled after the events before it, and leads one prefix further. */
  lemma ExecNext<S, E>(step: (S, E) -> Option<S>, s: S, es: seq<E>, i: nat)
    requires Exec(step, s, es).Some? && i < |es|
    ensures var before := Exec(step, s, es[..i]);
            before.Some? && step(before.value, es[i]).Some? && Exec(step, s, es[..i + 1]) == step(before.value, es[i])
  {
    EnabledPrefix(step, s, es, i + 1);
    assert es[..i + 1] == es[..i] + [es[i]];
    ExecSnoc(step, s, es[..i], es[i]);
  }

  lemma ReachesConcat<S, E>(step: (S, E) -> Option<S>, s: S, a: seq<E>, mid: S, b: seq<E>, last: S)
    requires Reaches(step, s, a, mid) && Reaches(step, mid, b, last)
    ensures Reaches(step, s, a + b, last)
  {
    ExecConcat(step, s, a, b);
  }

  // Short runs, given by the states they go through.

  lemma ExecTwo<S, E>(step: (S, E) -> Option<S>, s0: S, a: E, s1: S, b: E, s2: S)
    requires step(s0, a) == Some(s1) && step(s1, b) == Some(s2)
    ensures Reaches(step, s0, [a, b], s2)
  {
    ExecCons(step, s0, a, []);
    assert [a] + [] == [a];
    ExecSnoc(step, s0, [a], b);
    assert [a] + [b] == [a, b];
  }

  lemma ExecThree<S, E>(step: (S, E) -> Option<S>, s0: S, a: E, s1: S, b: E, s2: S, c: E, s3: S)
    requires step(s0, a) == Some(s1) && step(s1, b) == Some(s2) && step(s2, c) == Some(s3)
    ensures Reaches(step, s0, [a, b, c], s3)
  {
    ExecTwo(step, s0, a, s1, b, s2);
    ExecSnoc(step, s0, [a, b], c);
    assert [a, b] + [c] == [a, b, c];
  }

  lemma ExecFour<S, E>(step: (S, E) -> Option<S>, s0: S, a: E, s1: S, b: E, s2: S, c: E, s3: S, d: E, s4: S)
    requires step(s0, a) == Some(s1) && step(s1, b) == Some(s2) && step(s2, c) == Some(s3) && step(s3, d) == Some(s4)
    ensures Reaches(step, s0, [a, b, c, d], s4)
  {
    ExecThree(step, s0, a, s1, b, s2, c, s3);
    ExecSnoc(step, s0, [a, b, c], d);
    assert [a, b, c] + [d] == [a, b, c, d];
  }

  /** What one step keeps, every run keeps. */
  lemma {:induction false} Preserved<S(!new), E(!new)>(step: (S, E) -> Option<S>, inv: S -> bool, s: S, es: seq<E>)
    requires inv(s)
    requires forall u, e :: inv(u) && step(u, e).Some? ==> inv(step(u, e).value)
    ensures Exec(step, s, es).Some? ==> inv(Exec(step, s, es).value)
    decreases |es|
  {
    if es != [] {
      Preserved(step, inv, s, es[..|es| - 1]);
    }
  }

  /** The potential method: if each step lowers the potential by one, up to the
      event's credit, then the length of a run is at most the fall of the
      potential plus the credits. */
  lemma {:induction false} Amortised<S(!new), E(!new)>(step: (S, E) -> Option<S>, inv: S -> bool,
        potential: S -> int, credit: E -> nat, s: S, es: seq<E>)
    requires inv(s)
    requires forall u, e :: inv(u) && step(u, e).Some? ==>
               inv(step(u, e).value) && potential(step(u, e).value) + 1 <= potential(u) + credit(e)
    ensures var last := Exec(step, s, es);
            last.Some? ==> |es| + potential(last.value) <= potential(s) + Credits(credit, es)
    decreases |es|
  {
    if es != [] {
      var init := es[..|es| - 1];
      Preserved(step, inv, s, init);
      Amortised(step, inv, potential, credit, s, init);
    }
  }

  /** If free events are enabled in every state that is not stopped, and lower a
      potential that is never negative, then free events alone lead to a stopped state. */
  lemma {:induction false} Stops<S(!new), E(!new)>(step: (S, E) -> Option<S>, inv: S -> bool,
        potential: S -> int, credit: E -> nat, stopped: S -> bool, s: S)
    returns (es: seq<E>)
    requires inv(s)
    requires forall u, e :: inv(u) && step(u, e).Some? ==>
               inv(step(u, e).value) && potential(step(u, e).value) + 1 <= potential(u) + credit(e)
    requires forall u :: inv(u) ==> 0 <= potential(u)
    requires forall u :: inv(u) && !stopped(u) ==> exists e :: step(u, e).Some? && credit(e) == 0
    ensures Exec(step, s, es).Some? && stopped(Exec(step, s, es).value)
    ensures Credits(credit, es) == 0
    decreases potential(s)
  {
    if stopped(s) {
      es := [];
    } else {
      var e :| step(s, e).Some? && credit(e) == 0;
      var rest := Stops(step, inv, potential, credit, stopped, step(s, e).value);
      es := [e] + rest;
      ExecConcat(step, s, [e], rest);
      ExecSnoc(step, s, [], e);
      assert [] + [e] == [e];
      CreditsConcat(credit, [e], rest);
    }
  }

  lemma {:induction false} CreditsConcat<E>(credit: E -> nat, a: seq<E>, b: seq<E>)
    ensures Credits(credit, a + b) == Credits(credit, a) + Credits(credit, b)
    decreases |b|
  {
    if b == [] {
      assert a + b == a;
    } else {
      assert (a + b)[..|a + b| - 1] == a + b[..|b| - 1];
      CreditsConcat(credit, a, b[..|b| - 1]);
    }
  }
}
