/**
 The forking server and its SIGCHLD handler. Any number of children may exit at any
 moment, but the pending signal is a single bit, so several exits may be announced by
 one delivery. The handler calls waitpid, without blocking, until it finds no zombie.
 The signal is blocked while the handler runs, and the handler stays installed.
 */
module Reaper {
  import opened Distinct
  import opened Options
  import opened Runs

  datatype Child = Running | Zombie | Reaped

  datatype Handler =
    | Idle
    | Looping   // about to call waitpid
    | Returning // waitpid found no zombie, the handler is about to return

  datatype Server = Accepting | Forking

  datatype State = State(
    children: seq<Child>, // one entry for each successful fork
    pending: bool,
    handler: Handler,
    server: Server,       // where the main loop stands; it stands still while the handler runs
    reaped: seq<nat>)     // the children waitpid returned, in order

  datatype Event =
    | Accept(ok: bool)
    | Fork(ok: bool)
    | Exit(child: nat)
    | Deliver
    | Wait(child: nat) // waitpid returns this zombie
    | WaitNone         // waitpid finds no zombie
    | Leave            // the handler returns

  const Start := State([], false, Idle, Accepting, [])

  function Zombies(s: State): set<nat> {
    set c: nat | c < |s.children| && s.children[c] == Zombie
  }

  function Alive(s: State): set<nat> {
    set c: nat | c < |s.children| && s.children[c] == Running
  }

  function Next(s: State, e: Event): Option<State> {
    match e
    case Accept(ok) =>
      if s.handler == Idle && s.server == Accepting then
        Some(s.(server := if ok then Forking else Accepting))
      else None
    case Fork(ok) =>
      if s.handler == Idle && s.server == Forking then
        Some(s.(server := Accepting, children := if ok then s.children + [Running] else s.children))
      else None
    case Exit(c) =>
      if c in Alive(s) then Some(s.(children := s.children[c := Zombie], pending := true)) else None
    case Deliver =>
      if s.pending && s.handler == Idle then Some(s.(pending := false, handler := Looping)) else None
    case Wait(c) =>
      if s.handler == Looping && c in Zombies(s) then
        Some(s.(children := s.children[c := Reaped], reaped := s.reaped + [c]))
      else None
    case WaitNone =>
      if s.handler == Looping && Zombies(s) == {} then Some(s.(handler := Returning)) else None
    case Leave =>
      if s.handler == Returning then Some(s.(handler := Idle)) else None
  }

  // ---- The invariant ----

  /** A zombie is always announced, or the handler is still going to look for it. */
  predicate NoneForgotten(s: State) {
    Zombies(s) != {} ==> s.pending || s.handler == Looping
  }

  /** waitpid returns a child at most once, and only after its exit. */
  predicate ReapedOnce(s: State) {
    && (forall c :: c in s.reaped ==> c < |s.children|)
    && (forall c :: 0 <= c < |s.children| ==> (c in s.reaped <==> s.children[c] == Reaped))
    && NoDuplicates(s.reaped)
  }

  predicate Inv(s: State) {
    && NoneForgotten(s)
    && ReapedOnce(s)
    && |Alive(s)| + |Zombies(s)| + |s.reaped| == |s.children|
  }

  /** The sets of living children and of zombies after a step. */
  lemma NextSets(s: State, e: Event)
    requires Next(s, e).Some?
    ensures var s' := Next(s, e).value;
            match e
            case Exit(c) => Alive(s') == Alive(s) - {c} && Zombies(s') == Zombies(s) + {c} && c !in Zombies(s)
            case Wait(c) => Alive(s') == Alive(s) && Zombies(s') == Zombies(s) - {c}
            case Fork(ok) => Zombies(s') == Zombies(s) && Alive(s') == if ok then Alive(s) + {|s.children|} else Alive(s)
            case _ => Alive(s') == Alive(s) && Zombies(s') == Zombies(s)
  {
  }

  lemma NextNoneForgotten(s: State, e: Event)
    requires NoneForgotten(s) && Next(s, e).Some?
    ensures NoneForgotten(Next(s, e).value)
  {
    NextSets(s, e);
  }

  lemma NextReapedOnce(s: State, e: Event)
    requires ReapedOnce(s) && Next(s, e).Some?
    ensures ReapedOnce(Next(s, e).value)
  {
  }

  lemma NextCounts(s: State, e: Event)
    requires |Alive(s)| + |Zombies(s)| + |s.reaped| == |s.children| && Next(s, e).Some?
    ensures var s' := Next(s, e).value; |Alive(s')| + |Zombies(s')| + |s'.reaped| == |s'.children|
  {
    NextSets(s, e);
    if e.Fork? {
      assert |s.children| !in Alive(s);
    }
  }

  lemma NextInv(s: State, e: Event)
    requires Inv(s) && Next(s, e).Some?
    ensures Inv(Next(s, e).value)
  {
    NextNoneForgotten(s, e);
    NextReapedOnce(s, e);
    NextCounts(s, e);
  }

  lemma RunInv(s: State, es: seq<Event>, s': State)
    requires Inv(s) && Reaches(Next, s, es, s')
    ensures Inv(s')
  {
    forall u, e | Inv(u) && Next(u, e).Some?
      ensures Inv(Next(u, e).value)
    {
      NextInv(u, e);
    }
    Preserved(Next, Inv, s, es);
  }

  lemma RunFacts(s: State, es: seq<Event>, s': State)
    requires Inv(s) && Reaches(Next, s, es, s')
    ensures |s'.reaped| <= |s'.children| && NoneForgotten(s')
  {
    RunInv(s, es, s');
  }

  /** No further handler step is due. */
  predicate Quiescent(s: State) {
    !s.pending && s.handler == Idle
  }

  /** How many forks of a run have succeeded. */
  function Forks(es: seq<Event>): nat {
    if es == [] then 0 else Forks(es[..|es| - 1]) + if es[|es| - 1] == Fork(true) then 1 else 0
  }

  lemma {:induction false} ChildrenAreForked(es: seq<Event>, s: State)
    requires Reaches(Next, Start, es, s)
    ensures |s.children| == Forks(es)
    decreases |es|
  {
    if es != [] {
      ChildrenAreForked(es[..|es| - 1], Exec(Next, Start, es[..|es| - 1]).value);
    }
  }

  /** While the handler runs it is not entered again and the main loop stands still. */
  lemma OnlyHandlerAndChildren(s: State, e: Event)
    requires s.handler != Idle && Next(s, e).Some?
    ensures e.Exit? || e.Wait? || e.WaitNone? || e.Leave?
    ensures Next(s, e).value.server == s.server && |Next(s, e).value.children| == |s.children|
    ensures !e.Exit? ==> Next(s, e).value.pending == s.pending
  {
  }

  /** However the exits are coalesced, no child is lost: every forked child is running, a
      zombie that will still be looked for, or reaped, exactly once; and when no signal
      is pending and the handler is not running there are no zombies. */
  lemma NoChildLost(es: seq<Event>, s: State)
    requires Reaches(Next, Start, es, s)
    ensures Zombies(s) != {} ==> s.pending || s.handler == Looping
    ensures |Alive(s)| + |Zombies(s)| + |s.reaped| == |s.children| == Forks(es)
    ensures forall c :: 0 <= c < |s.children| ==>
              (s.children[c] == Reaped <==> multiset(s.reaped)[c] == 1) &&
              (s.children[c] != Reaped <==> multiset(s.reaped)[c] == 0)
    ensures Quiescent(s) ==> forall c :: 0 <= c < |s.children| ==> s.children[c] in {Running, Reaped}
  {
    RunInv(Start, es, s);
    ChildrenAreForked(es, s);
    forall c | 0 <= c < |s.children|
      ensures multiset(s.reaped)[c] == if s.children[c] == Reaped then 1 else 0
    {
      Multiplicity(s.reaped, c);
    }
    if Quiescent(s) {
      forall c | 0 <= c < |s.children|
        ensures s.children[c] != Zombie
      {
        assert c !in Zombies(s);
      }
    }
  }

  // ---- The work of the handler ----

  /** The handler steps that are due; each exit adds at most four. */
  function Due(s: State): int {
    |Zombies(s)| + (if s.pending then 3 else 0) +
    match s.handler
    case Looping => 2
    case Returning => 1
    case Idle => 0
  }

  predicate HandlerStep(e: Event) {
    e.Deliver? || e.Wait? || e.WaitNone? || e.Leave?
  }

  function Charge(e: Event): nat {
    if HandlerStep(e) then 0 else if e.Exit? then 5 else 1
  }

  function HandlerSteps(es: seq<Event>): nat {
    if es == [] then 0 else HandlerSteps(es[..|es| - 1]) + if HandlerStep(es[|es| - 1]) then 1 else 0
  }

  function Exits(es: seq<Event>): nat {
    if es == [] then 0 else Exits(es[..|es| - 1]) + if es[|es| - 1].Exit? then 1 else 0
  }

  lemma DueFalls(s: State, e: Event)
    requires Next(s, e).Some?
    ensures Due(Next(s, e).value) + 1 <= Due(s) + Charge(e)
  {
    NextSets(s, e);
  }

  lemma ChargesSplit(es: seq<Event>)
    ensures Credits(Charge, es) + HandlerSteps(es) == |es| + 4 * Exits(es)
    decreases |es|
  {
    if es != [] {
      ChargesSplit(es[..|es| - 1]);
    }
  }

  /** In every run the handler takes at most four steps per exit, however the signals
      arrive; and if only the handler runs from some point on, it comes to rest with
      every child that has exited reaped and the living ones untouched. */
  lemma HandlerCatchesUp(es: seq<Event>, s: State) returns (rest: seq<Event>, last: State)
    requires Reaches(Next, Start, es, s)
    ensures HandlerSteps(es) <= 4 * Exits(es)
    ensures Reaches(Next, s, rest, last) && Credits(Charge, rest) == 0 && Quiescent(last)
    ensures Zombies(last) == {} && Alive(last) == Alive(s)
  {
    RunInv(Start, es, s);
    forall u, e | Inv(u) && Next(u, e).Some?
      ensures Inv(Next(u, e).value) && Due(Next(u, e).value) + 1 <= Due(u) + Charge(e)
    {
      NextInv(u, e);
      DueFalls(u, e);
    }
    Amortised(Next, Inv, Due, Charge, Start, es);
    ChargesSplit(es);
    forall u | Inv(u) && !Quiescent(u)
      ensures exists e :: Next(u, e).Some? && Charge(e) == 0
    {
      HandlerCanStep(u);
    }
    rest := Stops(Next, Inv, Due, Charge, Quiescent, s);
    last := Exec(Next, s, rest).value;
    RunInv(s, rest, last);
    HandlerKeepsAlive(s, rest, last);
  }

  lemma HandlerCanStep(s: State)
    requires !Quiescent(s)
    ensures exists e :: Next(s, e).Some? && Charge(e) == 0
  {
    var e: Event;
    match s.handler {
      case Idle => e := Deliver;
      case Returning => e := Leave;
      case Looping =>
        if Zombies(s) == {} {
          e := WaitNone;
        } else {
          var c :| c in Zombies(s);
          e := Wait(c);
        }
    }
    assert Next(s, e).Some? && Charge(e) == 0;
  }

  lemma HandlerKeepsAlive(s: State, es: seq<Event>, s': State)
    requires Reaches(Next, s, es, s') && Credits(Charge, es) == 0
    ensures Alive(s') == Alive(s)
    decreases |es|
  {
    if es != [] {
      var mid := Exec(Next, s, es[..|es| - 1]).value;
      HandlerKeepsAlive(s, es[..|es| - 1], mid);
      NextSets(mid, es[|es| - 1]);
    }
  }

  // ---- Coalescing: many exits, one delivery ----

  /** These children exit, in this order. */
  function ExitsOf(cs: seq<nat>): seq<Event> {
    seq(|cs|, i requires 0 <= i < |cs| => Exit(cs[i]))
  }

  /** waitpid returns these children, in this order. */
  function WaitsOf(cs: seq<nat>): seq<Event> {
    seq(|cs|, i requires 0 <= i < |cs| => Wait(cs[i]))
  }

  /** The children in `cs` have become `to`; the others are as before. */
  predicate Became(before: seq<Child>, cs: seq<nat>, to: Child, after: seq<Child>) {
    |after| == |before| && forall c :: 0 <= c < |before| ==> after[c] == if c in cs then to else before[c]
  }

  predicate AllAre(s: State, cs: seq<nat>, what: Child) {
    NoDuplicates(cs) && forall c :: c in cs ==> c < |s.children| && s.children[c] == what
  }

  lemma AllButLast(s: State, cs: seq<nat>, what: Child)
    requires cs != [] && AllAre(s, cs, what)
    ensures var before, c := cs[..|cs| - 1], cs[|cs| - 1];
            cs == before + [c] && AllAre(s, before, what) && c !in before && c < |s.children| && s.children[c] == what
  {
    var before, c := cs[..|cs| - 1], cs[|cs| - 1];
    assert cs == before + [c] && c in cs;
    assert forall d :: d in before ==> d in cs;
  }

  lemma OneMoreExit(s: State, cs: seq<nat>, c: nat, mid: State)
    requires Became(s.children, cs, Zombie, mid.children) && mid == s.(children := mid.children, pending := mid.pending)
    requires c < |s.children| && s.children[c] == Running && c !in cs
    ensures var last := Next(mid, Exit(c));
            && last.Some? && last.value == s.(children := last.value.children, pending := true)
            && Became(s.children, cs + [c], Zombie, last.value.children)
  {
    assert c in Alive(mid);
  }

  /** Any running children can exit, at any time and in any order, also while a signal is
      pending or being handled; they all become zombies and the one bit is set. */
  lemma {:induction false} ChildrenCanExit(s: State, cs: seq<nat>)
    requires AllAre(s, cs, Running)
    ensures var last := Exec(Next, s, ExitsOf(cs));
            && last.Some? && last.value == s.(children := last.value.children, pending := s.pending || cs != [])
            && Became(s.children, cs, Zombie, last.value.children)
    decreases |cs|
  {
    if cs != [] {
      var before, c := cs[..|cs| - 1], cs[|cs| - 1];
      AllButLast(s, cs, Running);
      ChildrenCanExit(s, before);
      OneMoreExit(s, before, c, Exec(Next, s, ExitsOf(before)).value);
      assert ExitsOf(cs) == ExitsOf(before) + [Exit(c)];
      ExecSnoc(Next, s, ExitsOf(before), Exit(c));
    }
  }

  /** waitpid may return the zombies in any order. */
  lemma {:induction false} ZombiesInAnyOrder(s: State, cs: seq<nat>)
    requires AllAre(s, cs, Zombie) && s.handler == Looping
    ensures var last := Exec(Next, s, WaitsOf(cs));
            && last.Some? && last.value == s.(children := last.value.children, reaped := s.reaped + cs)
            && Became(s.children, cs, Reaped, last.value.children)
    decreases |cs|
  {
    if cs == [] {
      assert s.reaped + [] == s.reaped;
    } else {
      var before, c := cs[..|cs| - 1], cs[|cs| - 1];
      AllButLast(s, cs, Zombie);
      ZombiesInAnyOrder(s, before);
      assert WaitsOf(cs) == WaitsOf(before) + [Wait(c)];
      ExecSnoc(Next, s, WaitsOf(before), Wait(c));
      assert s.reaped + before + [c] == s.reaped + cs;
    }
  }

  /** The handler's whole run on these zombies. */
  function HandlerRun(cs: seq<nat>): seq<Event> {
    [Deliver] + WaitsOf(cs) + [WaitNone, Leave]
  }

  lemma HandlerEnds(s: State)
    requires s.handler == Looping && Zombies(s) == {}
    ensures Reaches(Next, s, [WaitNone, Leave], s.(handler := Idle))
  {
    ExecTwo(Next, s, WaitNone, s.(handler := Returning), Leave, s.(handler := Idle));
  }

  lemma HandlerBegins(s: State)
    requires s.handler == Idle && s.pending
    ensures Reaches(Next, s, [Deliver], s.(pending := false, handler := Looping))
  {
    ExecSnoc(Next, s, [], Deliver);
    assert [] + [Deliver] == [Deliver];
  }

  /** One delivery is enough for all zombies, whatever their number and order: the handler
      reaps exactly these and returns, and the server stands where it stood. */
  lemma OneDeliveryReapsAll(s: State, order: seq<nat>)
    requires s.handler == Idle && s.pending && AllAre(s, order, Zombie)
    requires forall c :: c in Zombies(s) ==> c in order
    ensures var last := Exec(Next, s, HandlerRun(order));
            && last.Some?
            && last.value == s.(children := last.value.children, pending := false, reaped := s.reaped + order)
            && Became(s.children, order, Reaped, last.value.children)
  {
    HandlerBegins(s);
    var begun := s.(pending := false, handler := Looping);
    ZombiesInAnyOrder(begun, order);
    var waited := Exec(Next, begun, WaitsOf(order)).value;
    forall c: nat | c < |s.children|
      ensures waited.children[c] != Zombie
    {
      assert s.children[c] == Zombie ==> c in Zombies(s);
    }
    assert Zombies(waited) == {};
    HandlerEnds(waited);
    ExecConcat(Next, s, [Deliver], WaitsOf(order));
    ExecConcat(Next, s, [Deliver] + WaitsOf(order), [WaitNone, Leave]);
  }

  /** Exits coalesce and no child is lost by it: from any quiescent state, whichever children
      exit and in whichever order waitpid then finds them, one delivery reaps them all. */
  lemma ExitsCoalesce(es: seq<Event>, s: State, exits: seq<nat>, order: seq<nat>)
    requires Reaches(Next, Start, es, s) && Quiescent(s) && exits != []
    requires AllAre(s, exits, Running) && NoDuplicates(order) && forall c :: c in order <==> c in exits
    ensures var last := Exec(Next, s, ExitsOf(exits) + HandlerRun(order));
            && last.Some? && Quiescent(last.value)
            && last.value == s.(children := last.value.children, reaped := s.reaped + order)
            && Became(s.children, exits, Reaped, last.value.children)
  {
    NoChildLost(es, s);
    ChildrenCanExit(s, exits);
    var exited := Exec(Next, s, ExitsOf(exits)).value;
    OneDeliveryReapsAll(exited, order);
    ExecConcat(Next, s, ExitsOf(exits), HandlerRun(order));
  }

  // ---- The program, changing the process table in place ----

  class Process {
    var children: seq<Child>
    var pending: bool
    var handler: Handler
    var server: Server
    var reaped: seq<nat>

    function Value(): State
      reads this
    {
      State(children, pending, handler, server, reaped)
    }

    constructor ()
      ensures Value() == Start && Inv(Value())
    {
      children, pending, handler, server, reaped := [], false, Idle, Accepting, [];
    }

    /** One round of the main loop: accept a client and fork a child for it; either may fail. */
    method ServeOne(accepted: bool, forked: bool) returns (ghost trace: seq<Event>)
      requires Inv(Value()) && handler == Idle && server == Accepting
      modifies this`children, this`server
      ensures Exec(Next, old(Value()), trace) == Some(Value()) && Inv(Value())
      ensures server == Accepting
      ensures children == old(children) + if accepted && forked then [Running] else []
    {
      ghost var s0 := Value();
      ExecSnoc(Next, s0, [], Accept(accepted));
      trace := [] + [Accept(accepted)];
      if accepted {
        ExecSnoc(Next, s0, trace, Fork(forked));
        trace := trace + [Fork(forked)];
        if forked {
          children := children + [Running];
        }
      }
      RunInv(s0, trace, Value());
    }

    /** The environment: the named children exit, those of them that still run. */
    method ChildrenExit(cs: seq<nat>, ghost s0: State, ghost before: seq<Event>) returns (ghost trace: seq<Event>)
      requires Exec(Next, s0, before) == Some(Value())
      modifies this`children, this`pending
      ensures Exec(Next, s0, trace) == Some(Value())
      ensures |children| == old(|children|)
      ensures cs == [] ==> children == old(children)
    {
      trace := before;
      for k := 0 to |cs|
        invariant Exec(Next, s0, trace) == Some(Value())
        invariant |children| == old(|children|)
        invariant k == 0 ==> children == old(children)
      {
        if cs[k] < |children| && children[cs[k]] == Running {
          ExecSnoc(Next, s0, trace, Exit(cs[k]));
          trace := trace + [Exit(cs[k])];
          children := children[cs[k] := Zombie];
          pending := true;
        }
      }
    }

    /** waitpid(-1, nullptr, WNOHANG): some zombie, or none. */
    method Waitpid(ghost s0: State, ghost before: seq<Event>) returns (pid: Option<nat>, ghost trace: seq<Event>)
      requires Exec(Next, s0, before) == Some(Value()) && handler == Looping
      modifies this`children, this`reaped, this`handler
      ensures Exec(Next, s0, trace) == Some(Value())
      ensures |children| == old(|children|)
      ensures pid.Some? ==> handler == Looping && |reaped| == old(|reaped|) + 1
      ensures pid.None? ==> handler == Returning
      ensures pid.None? ==> Zombies(Value()) == {} && reaped == old(reaped)
    {
      var c := 0;
      while c < |children| && children[c] != Zombie
        invariant 0 <= c <= |children|
        invariant forall i :: 0 <= i < c ==> children[i] != Zombie
      {
        c := c + 1;
      }
      if c < |children| {
        assert c in Zombies(Value());
        pid, trace := Some(c), before + [Wait(c)];
        children, reaped := children[c := Reaped], reaped + [c];
      } else {
        assert Zombies(Value()) == {};
        pid, trace := None, before + [WaitNone];
        handler := Returning;
        assert Zombies(Value()) == {};
      }
      ExecSnoc(Next, s0, before, trace[|before|]);
    }

    /** One call of waitpid in the loop, after which the children in `cs` exit. */
    method WaitRound(cs: seq<nat>, ghost s0: State, ghost before: seq<Event>)
      returns (pid: Option<nat>, ghost trace: seq<Event>)
      requires Inv(s0) && Exec(Next, s0, before) == Some(Value()) && handler == Looping
      modifies this`children, this`reaped, this`handler, this`pending
      ensures Exec(Next, s0, trace) == Some(Value())
      ensures handler == if pid.Some? then Looping else Returning
      ensures old(|children| - |reaped|) - (if pid.Some? then 1 else 0) == |children| - |reaped| >= 0
      ensures pid.None? ==> NoneForgotten(Value()) && (cs == [] ==> Zombies(Value()) == {})
    {
      pid, trace := Waitpid(s0, before);
      ghost var waited := Value();
      trace := ChildrenExit(cs, s0, trace);
      RunFacts(s0, trace, Value());
      assert cs == [] ==> Zombies(Value()) == Zombies(waited);
    }

    /** A delivery and reapZombies, during which further children may exit: those of
        exits[k] after the k-th waitpid. Whatever they do the loop ends, and a zombie
        left behind has set the pending bit again. */
    method ReapZombies(exits: seq<seq<nat>>) returns (ghost trace: seq<Event>)
      requires Inv(Value()) && pending && handler == Idle
      modifies this`children, this`reaped, this`handler, this`pending
      ensures Exec(Next, old(Value()), trace) == Some(Value()) && Inv(Value())
      ensures handler == Idle
      ensures Zombies(Value()) != {} ==> pending
      ensures exits == [] ==> Zombies(Value()) == {}
    {
      ghost var s0 := Value();
      ExecSnoc(Next, s0, [], Deliver);
      trace := [] + [Deliver];
      pending, handler := false, Looping;
      var round, pid := 0, Some(0);
      while pid.Some?
        invariant Exec(Next, s0, trace) == Some(Value())
        invariant handler == if pid.Some? then Looping else Returning
        invariant pid.None? ==> NoneForgotten(Value()) && (exits == [] ==> Zombies(Value()) == {})
        decreases |children| - |reaped|, pid.Some?
      {
        pid, trace := WaitRound(if round < |exits| then exits[round] else [], s0, trace);
        round := round + 1;
      }
      ghost var before := Value();
      ExecSnoc(Next, s0, trace, Leave);
      trace := trace + [Leave];
      handler := Idle;
      assert Zombies(Value()) == Zombies(before);
      RunInv(s0, trace, Value());
    }
  }
}
