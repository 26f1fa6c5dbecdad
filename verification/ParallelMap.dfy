/**
 The parallel map: the array is split into equal ranges, one per worker, and each worker
 multiplies its elements by ten in place. Reading an element and writing it back are
 separate steps, so the workers may interleave between them; main creates the workers
 one by one and then joins them in order.
 */
module ParallelMap {
  import opened Options
  import opened Products
  import opened Runs
  import opened Sums

  /** `at` is the loop variable i; `read` is the element read and not written back yet. */
  datatype Worker = Worker(at: nat, read: Option<int>)

  datatype State = State(
    input: seq<int>,   // the array as main filled it
    chunk: nat,
    data: seq<int>,    // the array now
    workers: seq<Worker>,
    spawned: nat,      // workers 0..spawned have been created
    joined: nat)       // workers 0..joined have been joined

  datatype Event = Spawn | Read(w: nat) | Write(w: nat) | Join

  function Begin(chunk: nat, w: nat): nat { w * chunk }

  function End(chunk: nat, w: nat): nat { (w + 1) * chunk }

  function Init(input: seq<int>, count: nat, chunk: nat): State {
    State(input, chunk, input, seq(count, w requires 0 <= w => Worker(Begin(chunk, w), None)), 0, 0)
  }

  function Next(s: State, e: Event): Option<State> {
    match e
    case Spawn =>
      if s.spawned < |s.workers| then Some(s.(spawned := s.spawned + 1)) else None
    case Read(w) =>
      if w < s.spawned && w < |s.workers| && s.workers[w].read.None? && s.workers[w].at < End(s.chunk, w) && s.workers[w].at < |s.data| then
        Some(s.(workers := s.workers[w := s.workers[w].(read := Some(s.data[s.workers[w].at]))]))
      else None
    case Write(w) =>
      if w < |s.workers| && s.workers[w].read.Some? && s.workers[w].at < |s.data| then
        Some(s.(data := s.data[s.workers[w].at := s.workers[w].read.value * 10],
                workers := s.workers[w := Worker(s.workers[w].at + 1, None)]))
      else None
    case Join =>
      if s.spawned == |s.workers| && s.joined < |s.workers| && s.workers[s.joined] == Worker(End(s.chunk, s.joined), None) then
        Some(s.(joined := s.joined + 1))
      else None
  }

  // ---- The split of the array ----

  lemma RangesOrdered(chunk: nat, w: nat, v: nat)
    requires w < v
    ensures End(chunk, w) <= Begin(chunk, v)
  {
    ScaleMonotone(chunk, w + 1, v);
  }

  lemma RangeOf(chunk: nat, k: nat, w: nat)
    requires chunk > 0
    ensures Begin(chunk, w) <= k < End(chunk, w) <==> w == k / chunk
  {
    var q := k / chunk;
    assert k == chunk * q + k % chunk;
    if w < q {
      RangesOrdered(chunk, w, q);
    } else if w > q {
      RangesOrdered(chunk, q, w);
    }
  }

  lemma RangeInside(count: nat, chunk: nat, w: nat)
    requires w < count
    ensures End(chunk, w) <= count * chunk
  {
    ScaleMonotone(chunk, w + 1, count);
  }

  lemma WorkerExists(count: nat, chunk: nat, k: nat)
    requires k < count * chunk
    ensures chunk > 0 && k / chunk < count
  {
    assert chunk == 0 ==> count * chunk == 0;
    var q := k / chunk;
    assert k == chunk * q + k % chunk;
    if q >= count {
      ScaleMonotone(chunk, count, q);
    }
  }

  /** Every index below count * chunk lies in the range of exactly one worker, and no range reaches beyond. */
  lemma RangesPartition(count: nat, chunk: nat, k: nat)
    requires k < count * chunk
    ensures chunk > 0 && k / chunk < count
    ensures forall w: nat :: Begin(chunk, w) <= k < End(chunk, w) <==> w == k / chunk
    ensures forall w: nat :: w < count ==> End(chunk, w) <= count * chunk
  {
    WorkerExists(count, chunk, k);
    forall w: nat
      ensures Begin(chunk, w) <= k < End(chunk, w) <==> w == k / chunk
    {
      RangeOf(chunk, k, w);
    }
    forall w: nat | w < count
      ensures End(chunk, w) <= count * chunk
    {
      RangeInside(count, chunk, w);
    }
  }

  // ---- The invariant ----

  /** What a worker has done so far: its elements before `at` are multiplied, those from `at` on are not. */
  predicate WorkerInv(s: State, w: nat)
    requires w < |s.workers|
  {
    var at := s.workers[w].at;
    && Begin(s.chunk, w) <= at <= End(s.chunk, w) <= |s.data| == |s.input|
    && (forall k :: Begin(s.chunk, w) <= k < End(s.chunk, w) ==>
          s.data[k] == if k < at then s.input[k] * 10 else s.input[k])
    && (s.workers[w].read.Some? ==> at < End(s.chunk, w) && s.workers[w].read.value == s.input[at])
  }

  predicate MainInv(s: State) {
    && s.joined <= s.spawned <= |s.workers|
    && (s.joined > 0 ==> s.spawned == |s.workers|)
    && (forall w :: s.spawned <= w < |s.workers| ==> s.workers[w] == Worker(Begin(s.chunk, w), None))
    && |s.data| == |s.input| == |s.workers| * s.chunk
    && forall w :: 0 <= w < s.joined ==> s.workers[w] == Worker(End(s.chunk, w), None)
  }

  predicate Inv(s: State) {
    MainInv(s) && forall w :: 0 <= w < |s.workers| ==> WorkerInv(s, w)
  }

  lemma InitInv(input: seq<int>, count: nat, chunk: nat)
    requires |input| == count * chunk
    ensures Inv(Init(input, count, chunk))
  {
    forall w | 0 <= w < count
      ensures WorkerInv(Init(input, count, chunk), w)
    {
      RangeInside(count, chunk, w);
    }
  }

  lemma WriteInv(s: State, w: nat)
    requires Inv(s) && Next(s, Write(w)).Some?
    ensures Inv(Next(s, Write(w)).value)
  {
    var s' := Next(s, Write(w)).value;
    assert WorkerInv(s, w);
    forall v | 0 <= v < |s.workers|
      ensures WorkerInv(s', v)
    {
      assert WorkerInv(s, v);
      if v < w {
        RangesOrdered(s.chunk, v, w);
      } else if v > w {
        RangesOrdered(s.chunk, w, v);
      }
    }
  }

  lemma NextInv(s: State, e: Event)
    requires Inv(s) && Next(s, e).Some?
    ensures Inv(Next(s, e).value)
  {
    var s' := Next(s, e).value;
    match e
    case Write(w) =>
      WriteInv(s, w);
    case _ =>
      forall v | 0 <= v < |s.workers|
        ensures WorkerInv(s', v)
      {
        assert WorkerInv(s, v);
      }
  }

  lemma RunInv(s: State, es: seq<Event>, s': State)
    requires Inv(s) && Reaches(Next, s, es, s')
    ensures Inv(s')
  {
    forall u, e | Inv(u) && Next(u, e).Some?
      ensures Inv(Next(u, e).value)
    {
      NextInv(u, e);
    }
    Preserved(Next, Inv, s, es);
  }

  lemma RunConstants(s: State, es: seq<Event>, s': State)
    requires Reaches(Next, s, es, s')
    ensures s'.input == s.input && s'.chunk == s.chunk && |s'.workers| == |s.workers|
    decreases |es|
  {
    if es != [] {
      RunConstants(s, es[..|es| - 1], Exec(Next, s, es[..|es| - 1]).value);
    }
  }

  /** The sequential meaning of the program. */
  function TimesTen(xs: seq<int>): seq<int> {
    seq(|xs|, i requires 0 <= i < |xs| => xs[i] * 10)
  }

  predicate InFlight(s: State, w: nat) {
    w < |s.workers| && s.workers[w].read.Some?
  }

  /** An element is untouched or multiplied, and multiplied once its worker is joined. */
  lemma ElementOf(s: State, k: nat)
    requires Inv(s) && k < |s.input|
    ensures s.data[k] == s.input[k] || s.data[k] == s.input[k] * 10
    ensures s.joined == |s.workers| ==> s.data[k] == s.input[k] * 10
  {
    WorkerExists(|s.workers|, s.chunk, k);
    RangeOf(s.chunk, k, k / s.chunk);
    assert WorkerInv(s, k / s.chunk);
  }

  /** In every reachable state no two workers have the same index in flight, and each
      element is either untouched or multiplied once; when main has joined all
      workers the array is the sequential result, whatever the interleaving was. */
  lemma JoinedResult(input: seq<int>, count: nat, chunk: nat, es: seq<Event>, s: State)
    requires |input| == count * chunk && Reaches(Next, Init(input, count, chunk), es, s)
    ensures forall v: nat, w: nat :: InFlight(s, v) && InFlight(s, w) && v != w ==> s.workers[v].at != s.workers[w].at
    ensures |s.data| == |input| && forall k :: 0 <= k < |input| ==> s.data[k] == input[k] || s.data[k] == input[k] * 10
    ensures s.joined > 0 ==> s.spawned == count
    ensures forall w: nat :: s.spawned <= w < |s.workers| ==> s.workers[w] == Worker(Begin(chunk, w), None)
    ensures s.joined == count ==> s.data == TimesTen(input)
  {
    InitInv(input, count, chunk);
    RunInv(Init(input, count, chunk), es, s);
    RunConstants(Init(input, count, chunk), es, s);
    forall v: nat, w: nat | InFlight(s, v) && InFlight(s, w) && v < w
      ensures s.workers[v].at < s.workers[w].at
    {
      assert WorkerInv(s, v) && WorkerInv(s, w);
      RangesOrdered(chunk, v, w);
    }
    forall k: nat | k < |input|
      ensures s.data[k] == input[k] || s.data[k] == input[k] * 10
      ensures s.joined == count ==> s.data[k] == input[k] * 10
    {
      ElementOf(s, k);
    }
  }

  predicate FitsInt32(x: int) {
    -0x8000_0000 <= x <= 0x7fff_ffff
  }

  predicate AllFit(xs: seq<int>) {
    forall k :: 0 <= k < |xs| ==> FitsInt32(xs[k])
  }

  /** Nothing overflows a 32-bit int, in no interleaving, if the sequential result does
      not; and after the joins that condition is also necessary. */
  lemma NoOverflow(input: seq<int>, count: nat, chunk: nat, es: seq<Event>, s: State)
    requires |input| == count * chunk && Reaches(Next, Init(input, count, chunk), es, s)
    ensures AllFit(TimesTen(input)) ==>
              AllFit(s.data) && forall w: nat :: InFlight(s, w) ==> FitsInt32(s.workers[w].read.value * 10)
    ensures s.joined == count ==> (AllFit(s.data) <==> AllFit(TimesTen(input)))
  {
    JoinedResult(input, count, chunk, es, s);
    InitInv(input, count, chunk);
    RunInv(Init(input, count, chunk), es, s);
    RunConstants(Init(input, count, chunk), es, s);
    if AllFit(TimesTen(input)) {
      assert forall k :: 0 <= k < |input| ==> TimesTen(input)[k] == input[k] * 10;
      forall w: nat | InFlight(s, w)
        ensures FitsInt32(s.workers[w].read.value * 10)
      {
        assert WorkerInv(s, w);
        assert FitsInt32(TimesTen(input)[s.workers[w].at]);
      }
      forall k | 0 <= k < |s.data|
        ensures FitsInt32(s.data[k])
      {
        assert FitsInt32(TimesTen(input)[k]);
      }
    }
  }

  // ---- The order does not matter ----

  /** The workers that two writes and reads concern have different indices in hand. */
  lemma Apart(s: State, v: nat, w: nat)
    requires Inv(s) && v < |s.workers| && w < |s.workers| && v != w
    requires s.workers[v].at < End(s.chunk, v) && s.workers[w].at < End(s.chunk, w)
    ensures s.workers[v].at != s.workers[w].at
  {
    assert WorkerInv(s, v) && WorkerInv(s, w);
    if v < w {
      RangesOrdered(s.chunk, v, w);
    } else {
      RangesOrdered(s.chunk, w, v);
    }
  }

  /** What a worker can do it can still do after any step of another, and it has the same effect. */
  predicate Commute(s: State, a: Event, b: Event)
    requires Next(s, a).Some? && Next(s, b).Some?
  {
    && Next(Next(s, a).value, b).Some? && Next(Next(s, b).value, a).Some?
    && Next(Next(s, a).value, b) == Next(Next(s, b).value, a)
  }

  lemma WriteAndRead(s: State, w: nat, v: nat)
    requires Inv(s) && Next(s, Write(w)).Some? && Next(s, Read(v)).Some?
    ensures Commute(s, Write(w), Read(v))
  {
    assert WorkerInv(s, w);
    Apart(s, v, w);
    var written, read := Worker(s.workers[w].at + 1, None), s.workers[v].(read := Some(s.data[s.workers[v].at]));
    assert s.workers[w := written][v := read] == s.workers[v := read][w := written];
  }

  lemma WriteAndWrite(s: State, w: nat, v: nat)
    requires Inv(s) && Next(s, Write(w)).Some? && Next(s, Write(v)).Some? && v != w
    ensures Commute(s, Write(w), Write(v))
  {
    assert WorkerInv(s, v) && WorkerInv(s, w);
    Apart(s, v, w);
    var i, j, x, y := s.workers[w].at, s.workers[v].at, s.workers[w].read.value * 10, s.workers[v].read.value * 10;
    assert s.data[i := x][j := y] == s.data[j := y][i := x];
    assert s.workers[w := Worker(i + 1, None)][v := Worker(j + 1, None)] ==
           s.workers[v := Worker(j + 1, None)][w := Worker(i + 1, None)];
  }

  lemma WriteDoesNotDisturb(s: State, w: nat, e: Event)
    requires Inv(s) && Next(s, Write(w)).Some? && Next(s, e).Some? && e != Write(w)
    ensures Commute(s, Write(w), e)
  {
    match e
    case Read(v) =>
      WriteAndRead(s, w, v);
    case Write(v) =>
      WriteAndWrite(s, w, v);
    case Join =>
      assert s.joined != w;
    case Spawn =>
  }

  lemma ReadDoesNotDisturb(s: State, w: nat, e: Event)
    requires Inv(s) && Next(s, Read(w)).Some? && Next(s, e).Some? && e != Read(w) && !e.Write?
    ensures Commute(s, Read(w), e)
  {
    match e
    case Read(v) =>
      var a, b := Next(Next(s, Read(w)).value, e).value, Next(Next(s, e).value, Read(w)).value;
      assert a.workers == b.workers;
    case Join =>
      assert s.joined != w;
    case Spawn =>
  }

  /** Two different things that can happen next can happen in either order, with the same
      result: no step of one worker, or of main, disables or changes a step of another. */
  lemma StepsCommute(s: State, a: Event, b: Event)
    requires Inv(s) && Next(s, a).Some? && Next(s, b).Some? && a != b
    ensures Next(Next(s, a).value, b).Some? && Next(Next(s, b).value, a).Some?
    ensures Next(Next(s, a).value, b) == Next(Next(s, b).value, a)
  {
    match (a, b)
    case (Write(w), _) => WriteDoesNotDisturb(s, w, b);
    case (_, Write(w)) => WriteDoesNotDisturb(s, w, a);
    case (Read(w), _) => ReadDoesNotDisturb(s, w, b);
    case (_, Read(w)) => ReadDoesNotDisturb(s, w, a);
    case (_, _) =>
  }

  /** A worker that exists and has not finished can always go on, whatever the others are in
      the middle of: two steps alone take it one element further. */
  lemma NeverBlocked(s: State, w: nat)
    requires Inv(s) && w < s.spawned && s.workers[w].at < End(s.chunk, w)
    ensures s.workers[w].read.Some? ==> Next(s, Write(w)).Some?
    ensures var at := s.workers[w].at;
            s.workers[w].read.None? ==>
              && at < |s.data|
              && Reaches(Next, s, [Read(w), Write(w)],
                         s.(data := s.data[at := s.data[at] * 10], workers := s.workers[w := Worker(at + 1, None)]))
  {
    assert WorkerInv(s, w);
    if s.workers[w].read.None? {
      var at := s.workers[w].at;
      var mid := s.(workers := s.workers[w := Worker(at, Some(s.data[at]))]);
      var last := s.(data := s.data[at := s.data[at] * 10], workers := s.workers[w := Worker(at + 1, None)]);
      assert Next(s, Read(w)) == Some(mid);
      assert mid.workers[w := Worker(at + 1, None)] == last.workers;
      assert Next(mid, Write(w)) == Some(last);
      ExecTwo(Next, s, Read(w), mid, Write(w), last);
    }
  }

  // ---- Every run finishes ----

  /** The steps a worker still has to take. */
  function Left(chunk: nat, w: nat, worker: Worker): nat {
    var steps := 2 * (End(chunk, w) - worker.at) - if worker.read.Some? then 1 else 0;
    if steps >= 0 then steps else 0
  }

  function Lefts(s: State): seq<nat> {
    seq(|s.workers|, w requires 0 <= w < |s.workers| => Left(s.chunk, w, s.workers[w]))
  }

  function Remaining(s: State): int {
    Sum(Lefts(s)) + (|s.workers| - s.spawned) + (|s.workers| - s.joined)
  }

  lemma RemainingFalls(s: State, e: Event)
    requires Inv(s) && Next(s, e).Some?
    ensures Remaining(Next(s, e).value) + 1 == Remaining(s)
  {
    var s' := Next(s, e).value;
    if e.Read? || e.Write? {
      assert WorkerInv(s, e.w);
      assert Left(s.chunk, e.w, s'.workers[e.w]) == Lefts(s)[e.w] - 1;
      assert Lefts(s') == Lefts(s)[e.w := Lefts(s)[e.w] - 1];
      SumUpdate(Lefts(s), e.w, Lefts(s)[e.w] - 1);
    } else {
      assert Lefts(s') == Lefts(s);
    }
  }

  predicate AllJoined(s: State) {
    s.joined == |s.workers|
  }

  lemma CanStep(s: State)
    requires Inv(s) && !AllJoined(s)
    ensures exists e :: Next(s, e).Some?
  {
    if s.spawned < |s.workers| {
      assert Next(s, Spawn).Some?;
    } else {
      var w := s.joined;
      assert WorkerInv(s, w);
      if s.workers[w].read.Some? {
        assert Next(s, Write(w)).Some?;
      } else if s.workers[w].at < End(s.chunk, w) {
        assert Next(s, Read(w)).Some?;
      } else {
        assert Next(s, Join).Some?;
      }
    }
  }

  function Free(e: Event): nat { 0 }

  lemma RunLength(s: State, es: seq<Event>, s': State)
    requires Inv(s) && Reaches(Next, s, es, s')
    ensures |es| <= Remaining(s)
  {
    forall u, e | Inv(u) && Next(u, e).Some?
      ensures Inv(Next(u, e).value) && Remaining(Next(u, e).value) + 1 <= Remaining(u) + Free(e)
    {
      NextInv(u, e);
      RemainingFalls(u, e);
    }
    Amortised(Next, Inv, Remaining, Free, s, es);
    NoCredits(es);
    RunInv(s, es, s');
  }

  lemma InitLeft(chunk: nat, w: nat)
    ensures Left(chunk, w, Worker(Begin(chunk, w), None)) == 2 * chunk
  {
    assert End(chunk, w) - Begin(chunk, w) == chunk;
  }

  lemma InitRemaining(input: seq<int>, count: nat, chunk: nat)
    ensures Remaining(Init(input, count, chunk)) <= 2 * count + 2 * chunk * count
  {
    var lefts := Lefts(Init(input, count, chunk));
    forall w: nat | w < count
      ensures lefts[w] <= 2 * chunk
    {
      InitLeft(chunk, w);
    }
    SumAtMost(lefts, 2 * chunk);
  }

  /** Every run that goes on until nothing can happen ends with the sequential result,
      and no run is longer than one creation and one join per worker and two steps
      per element. */
  lemma EveryRunEndsRight(input: seq<int>, count: nat, chunk: nat, es: seq<Event>, s: State)
    requires |input| == count * chunk && Reaches(Next, Init(input, count, chunk), es, s)
    ensures |es| <= 2 * count + 2 * |input|
    ensures (forall e :: Next(s, e).None?) ==> s.data == TimesTen(input)
  {
    var s0 := Init(input, count, chunk);
    InitInv(input, count, chunk);
    InitRemaining(input, count, chunk);
    assert 2 * chunk * count == 2 * (count * chunk);
    RunLength(s0, es, s);
    RunInv(s0, es, s);
    RunConstants(s0, es, s);
    if AllJoined(s) {
      JoinedResult(input, count, chunk, es, s);
    } else {
      CanStep(s);
    }
  }

  lemma NoCredits(es: seq<Event>)
    ensures Credits(Free, es) == 0
    decreases |es|
  {
    if es != [] {
      NoCredits(es[..|es| - 1]);
    }
  }

  // ---- The array, changed in place ----

  /** One worker running alone: the body of `process`. */
  method Process(a: array<int>, begin: nat, end: nat)
    requires begin <= end <= a.Length
    modifies a
    ensures a[..] == old(a[..begin]) + TimesTen(old(a[begin..end])) + old(a[end..])
  {
    var i := begin;
    while i < end
      invariant begin <= i <= end
      invariant forall k :: begin <= k < i ==> a[k] == old(a[k]) * 10
      invariant forall k :: 0 <= k < a.Length && !(begin <= k < i) ==> a[k] == old(a[k])
    {
      a[i] := a[i] * 10;
      i := i + 1;
    }
  }

  class Program {
    const input: seq<int>
    const chunk: nat
    const a: array<int>
    var workers: seq<Worker>
    var spawned: nat
    var joined: nat

    function Value(): State
      reads this, a
    {
      State(input, chunk, a[..], workers, spawned, joined)
    }

    constructor (a: array<int>, count: nat, chunk: nat)
      requires a.Length == count * chunk
      ensures this.a == a && Value() == Init(a[..], count, chunk) && Inv(Value())
    {
      this.a, this.input, this.chunk := a, a[..], chunk;
      workers := seq(count, w requires 0 <= w => Worker(Begin(chunk, w), None));
      spawned, joined := 0, 0;
      new;
      InitInv(a[..], count, chunk);
    }

    /** The first half of `array[i] = array[i] * 10`. */
    method ReadElement(w: nat)
      requires Next(Value(), Read(w)).Some?
      modifies this`workers
      ensures Next(old(Value()), Read(w)) == Some(Value())
    {
      workers := workers[w := workers[w].(read := Some(a[workers[w].at]))];
    }

    /** The second half, and `i++`. */
    method WriteElement(w: nat)
      requires Next(Value(), Write(w)).Some?
      modifies this`workers, a
      ensures Next(old(Value()), Write(w)) == Some(Value())
    {
      ghost var data := a[..];
      a[workers[w].at] := workers[w].read.value * 10;
      assert a[..] == data[workers[w].at := workers[w].read.value * 10];
      workers := workers[w := Worker(workers[w].at + 1, None)];
    }

    method Dispatch(e: Event)
      requires Next(Value(), e).Some?
      modifies this, a
      ensures Next(old(Value()), e) == Some(Value())
    {
      match e {
        case Spawn => spawned := spawned + 1;
        case Join => joined := joined + 1;
        case Read(w) => ReadElement(w);
        case Write(w) => WriteElement(w);
      }
    }

    /** Main and the workers run in the order the schedule gives. */
    method Execute(es: seq<Event>)
      requires Exec(Next, Value(), es).Some?
      modifies this, a
      ensures Exec(Next, old(Value()), es) == Some(Value())
    {
      ghost var s0 := Value();
      for k := 0 to |es|
        invariant Exec(Next, s0, es[..k]) == Some(Value())
      {
        ExecNext(Next, s0, es, k);
        Dispatch(es[k]);
      }
      assert es[..|es|] == es;
    }

    /** A complete execution, up to the last join. */
    method ExecuteAll(es: seq<Event>)
      requires Inv(Value()) && Exec(Next, Value(), es).Some? && AllJoined(Exec(Next, Value(), es).value)
      modifies this, a
      ensures Inv(Value()) && a[..] == TimesTen(input)
    {
      ghost var s0 := Value();
      Execute(es);
      RunInv(s0, es, Value());
      AllJoinedResult(Value());
    }
  }

  lemma AllJoinedResult(s: State)
    requires Inv(s) && AllJoined(s)
    ensures s.data == TimesTen(s.input)
  {
    forall k: nat | k < |s.input|
      ensures s.data[k] == s.input[k] * 10
    {
      ElementOf(s, k);
    }
  }
}
