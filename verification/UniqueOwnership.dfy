/**
 Exclusive ownership: the operations of UniquePtr over a heap of handles and objects.
 H and P are the identities of handles and objects.
 */
module UniqueOwnership {
  import opened Distinct
  import opened Options
  import opened Runs

  datatype Heap<H, P> = Heap(
    ptrs: map<H, Option<P>>, // the live handles and what each holds
    created: set<P>,         // every object made so far
    live: set<P>,            // those not yet deleted
    deleted: seq<P>)         // the objects deleted so far, in order

  datatype Op<H, P> =
    | New(p: P)                           // the program makes an object, held by no handle yet
    | Construct(h: H, source: Option<P>)  // from nullptr or from a raw pointer
    | MoveConstruct(h: H, other: H)
    | MoveAssign(h: H, other: H)
    | Release(h: H)
    | Reset(h: H, source: Option<P>)
    | Destroy(h: H)

  function Empty<H, P>(): Heap<H, P> {
    Heap(map[], {}, {}, [])
  }

  function Holders<H(==), P(==)>(heap: Heap<H, P>, p: P): set<H> {
    set h | h in heap.ptrs && heap.ptrs[h] == Some(p)
  }

  predicate Unowned<H(==), P(==)>(heap: Heap<H, P>, p: P) {
    p in heap.live && Holders(heap, p) == {}
  }

  /** `delete ptr`: nothing for nullptr, None for an object that is not there to delete. */
  function Delete<H, P(==)>(heap: Heap<H, P>, ptr: Option<P>): Option<Heap<H, P>> {
    if ptr.None? then
      Some(heap)
    else if ptr.value !in heap.live then
      None
    else
      Some(heap.(live := heap.live - {ptr.value}, deleted := heap.deleted + [ptr.value]))
  }

  /** Which handles must exist for an operation to make sense. */
  predicate HandlesFit<H(==), P(==)>(heap: Heap<H, P>, op: Op<H, P>) {
    match op
    case New(p) => p !in heap.created
    case Construct(h, _) => h !in heap.ptrs
    case MoveConstruct(h, other) => h !in heap.ptrs && other in heap.ptrs
    case MoveAssign(h, other) => h in heap.ptrs && other in heap.ptrs
    case Release(h) => h in heap.ptrs
    case Reset(h, _) => h in heap.ptrs
    case Destroy(h) => h in heap.ptrs
  }

  /** What the program must see to: a raw pointer given to a handle belongs to no other handle. */
  predicate SourceFits<H(==), P(==)>(heap: Heap<H, P>, op: Op<H, P>) {
    match op
    case Construct(_, source) => source.None? || Unowned(heap, source.value)
    case Reset(h, source) => source.None? || Unowned(heap, source.value) || (h in heap.ptrs && heap.ptrs[h] == source)
    case _ => true
  }

  function Next<H(==), P(==)>(heap: Heap<H, P>, op: Op<H, P>): Option<Heap<H, P>> {
    if !HandlesFit(heap, op) then None else
    match op
    case New(p) =>
      Some(heap.(created := heap.created + {p}, live := heap.live + {p}))
    case Construct(h, source) =>
      Some(heap.(ptrs := heap.ptrs[h := source]))
    case MoveConstruct(h, other) =>
      Some(heap.(ptrs := heap.ptrs[h := heap.ptrs[other]][other := None]))
    case MoveAssign(h, other) =>
      if h == other then Some(heap) else
      var dropped := Delete(heap, heap.ptrs[h]);
      if dropped.None? then None else
      Some(dropped.value.(ptrs := heap.ptrs[h := heap.ptrs[other]][other := None]))
    case Release(h) =>
      Some(heap.(ptrs := heap.ptrs[h := None]))
    case Reset(h, source) =>
      if heap.ptrs[h] == source then Some(heap) else
      var dropped := Delete(heap, heap.ptrs[h]);
      if dropped.None? then None else
      Some(dropped.value.(ptrs := heap.ptrs[h := source]))
    case Destroy(h) =>
      var dropped := Delete(heap, heap.ptrs[h]);
      if dropped.None? then None else
      Some(dropped.value.(ptrs := heap.ptrs - {h}))
  }

  /** Handles hold live objects, and no two the same one. */
  ghost predicate Exclusive<H, P>(heap: Heap<H, P>) {
    && (forall h :: h in heap.ptrs && heap.ptrs[h].Some? ==> heap.ptrs[h].value in heap.live)
    && (forall g, h :: g in heap.ptrs && h in heap.ptrs && g != h && heap.ptrs[g].Some? ==> heap.ptrs[g] != heap.ptrs[h])
  }

  /** Every object made is alive or deleted, and deleted at most once. */
  ghost predicate Accounted<H, P>(heap: Heap<H, P>) {
    && heap.created == heap.live + (set p | p in heap.deleted)
    && (forall p :: p in heap.deleted ==> p !in heap.live)
    && NoDuplicates(heap.deleted)
  }

  ghost predicate Inv<H, P>(heap: Heap<H, P>) {
    Exclusive(heap) && Accounted(heap)
  }

  lemma NextExclusive<H, P>(heap: Heap<H, P>, op: Op<H, P>)
    requires Exclusive(heap) && HandlesFit(heap, op) && SourceFits(heap, op)
    ensures Next(heap, op).Some? && Exclusive(Next(heap, op).value)
  {
    if (op.Construct? || op.Reset?) && op.source.Some? {
      assert forall h :: h in heap.ptrs && heap.ptrs[h] == op.source ==> h in Holders(heap, op.source.value);
    }
  }

  lemma NextAccounted<H, P>(heap: Heap<H, P>, op: Op<H, P>)
    requires Accounted(heap) && Next(heap, op).Some?
    ensures Accounted(Next(heap, op).value)
  {
    var heap' := Next(heap, op).value;
    assert (set p | p in heap'.deleted) ==
           (set p | p in heap.deleted) + (if heap'.deleted == heap.deleted then {} else {heap'.deleted[|heap.deleted|]});
  }

  lemma NextInv<H, P>(heap: Heap<H, P>, op: Op<H, P>)
    requires Inv(heap) && HandlesFit(heap, op) && SourceFits(heap, op)
    ensures Next(heap, op).Some? && Inv(Next(heap, op).value)
  {
    NextExclusive(heap, op);
    NextAccounted(heap, op);
  }

  /** The obligation on raw pointers is exact: a construction or a reset that breaks it
      breaks exclusive ownership, and one that meets it never does. */
  lemma SourceFitsIff<H, P>(heap: Heap<H, P>, op: Op<H, P>)
    requires Inv(heap) && HandlesFit(heap, op)
    ensures SourceFits(heap, op) <==> Next(heap, op).Some? && Inv(Next(heap, op).value)
  {
    if SourceFits(heap, op) {
      NextInv(heap, op);
    } else if Next(heap, op).Some? {
      var heap' := Next(heap, op).value;
      var p := op.source.value;
      assert heap'.ptrs[op.h] == Some(p);
      if p in heap.live {
        var g :| g in Holders(heap, p);
        assert g != op.h && heap'.ptrs[g] == heap'.ptrs[op.h];
      } else {
        assert p !in heap'.live;
      }
    }
  }

  // ---- What holds after every sequence of operations ----

  ghost predicate AllFit<H, P>(heap: Heap<H, P>, ops: seq<Op<H, P>>) {
    ops == [] ||
    (AllFit(heap, ops[..|ops| - 1]) &&
     (Exec(Next, heap, ops[..|ops| - 1]).Some? ==>
        var before := Exec(Next, heap, ops[..|ops| - 1]).value;
        HandlesFit(before, ops[|ops| - 1]) && SourceFits(before, ops[|ops| - 1])))
  }

  lemma {:induction false} RunInv<H, P>(heap: Heap<H, P>, ops: seq<Op<H, P>>)
    requires Inv(heap) && AllFit(heap, ops)
    ensures Exec(Next, heap, ops).Some? && Inv(Exec(Next, heap, ops).value)
    decreases |ops|
  {
    if ops != [] {
      RunInv(heap, ops[..|ops| - 1]);
      NextInv(Exec(Next, heap, ops[..|ops| - 1]).value, ops[|ops| - 1]);
    }
  }

  datatype Fate = Owned | Released | Deleted

  /** The state of an object that was created. */
  function FateOf<H(==), P(==)>(heap: Heap<H, P>, p: P): Fate {
    if p !in heap.live then Deleted else if Holders(heap, p) == {} then Released else Owned
  }

  /** The objects are those the program has made. */
  lemma {:induction false} CreatedIff<H, P>(heap: Heap<H, P>, ops: seq<Op<H, P>>, p: P)
    requires Exec(Next, heap, ops).Some?
    ensures p in Exec(Next, heap, ops).value.created <==> p in heap.created || New(p) in ops
    decreases |ops|
  {
    if ops != [] {
      var before, op := ops[..|ops| - 1], ops[|ops| - 1];
      assert ops == before + [op];
      CreatedIff(heap, before, p);
    }
  }

  /** After any sequence of operations each object the program has made is owned by exactly
      one handle, or alive and owned by none, or deleted, exactly once and held by nobody. */
  lemma ExactlyOneFate<H, P>(ops: seq<Op<H, P>>, p: P)
    requires AllFit(Empty(), ops)
    ensures Exec(Next, Empty(), ops).Some?
    ensures var heap := Exec(Next, Empty(), ops).value;
            New(p) in ops ==>
              match FateOf(heap, p)
              case Owned => |Holders(heap, p)| == 1 && multiset(heap.deleted)[p] == 0
              case Released => Holders(heap, p) == {} && multiset(heap.deleted)[p] == 0
              case Deleted => Holders(heap, p) == {} && multiset(heap.deleted)[p] == 1
  {
    RunInv(Empty(), ops);
    var heap := Exec(Next, Empty(), ops).value;
    CreatedIff(Empty(), ops, p);
    if New(p) in ops && FateOf(heap, p) == Owned {
      var h :| h in Holders(heap, p);
      assert Holders(heap, p) == {h};
    }
    Multiplicity(heap.deleted, p);
  }

  // ---- What each operation does ----

  /** An object is made alive and unowned, and a pointer to it can then be given to a handle. */
  lemma NewObject<H, P>(heap: Heap<H, P>, p: P)
    requires Inv(heap) && p !in heap.created
    ensures Next(heap, New(p)).Some?
    ensures var heap' := Next(heap, New(p)).value;
            && p in heap'.created && FateOf(heap', p) == Released && Unowned(heap', p)
            && heap'.deleted == heap.deleted && heap'.ptrs == heap.ptrs
            && forall h: H :: h !in heap.ptrs ==> SourceFits(heap', Construct(h, Some(p))) && HandlesFit(heap', Construct(h, Some(p)))
  {
    assert Holders(Next(heap, New(p)).value, p) == {};
  }

  /** Which objects and handles exist after an operation: `new` makes one object, the
      constructors one handle, the destructor takes one away, and the others none. */
  lemma ExistsAfter<H, P>(heap: Heap<H, P>, op: Op<H, P>)
    requires Next(heap, op).Some?
    ensures var heap' := Next(heap, op).value;
            && heap'.created == heap.created + (if op.New? then {op.p} else {})
            && heap'.ptrs.Keys ==
               match op
               case New(_) => heap.ptrs.Keys
               case Construct(h, _) => heap.ptrs.Keys + {h}
               case MoveConstruct(h, _) => heap.ptrs.Keys + {h}
               case Destroy(h) => heap.ptrs.Keys - {h}
               case _ => heap.ptrs.Keys
  {
  }

  /** Which operations delete an object, and which: move assignment, `reset` and the
      destructor delete what their handle held, unless it keeps it; the others delete nothing. */
  lemma DeletedBy<H, P>(heap: Heap<H, P>, op: Op<H, P>)
    requires Inv(heap) && HandlesFit(heap, op) && SourceFits(heap, op)
    ensures Next(heap, op).Some?
    ensures var lost := match op
                        case MoveAssign(h, other) => if h == other then None else heap.ptrs[h]
                        case Reset(h, source) => if heap.ptrs[h] == source then None else heap.ptrs[h]
                        case Destroy(h) => heap.ptrs[h]
                        case _ => None;
            Next(heap, op).value.deleted == heap.deleted + (if lost.None? then [] else [lost.value])
  {
    NextExclusive(heap, op);
  }

  /** A whole life: an object that is made, given to a handle and destroyed with it has been
      deleted once, and all else is as before. */
  lemma LifeOfObject<H, P>(heap: Heap<H, P>, p: P, h: H)
    requires Inv(heap) && p !in heap.created && h !in heap.ptrs
    ensures var held := heap.(ptrs := heap.ptrs[h := Some(p)], created := heap.created + {p}, live := heap.live + {p});
            && Reaches(Next, heap, [New(p), Construct(h, Some(p))], held)
            && Holders(held, p) == {h} && FateOf(held, p) == Owned
    ensures Reaches(Next, heap, [New(p), Construct(h, Some(p)), Destroy(h)],
                    heap.(created := heap.created + {p}, deleted := heap.deleted + [p]))
  {
    var made := heap.(created := heap.created + {p}, live := heap.live + {p});
    var held := made.(ptrs := heap.ptrs[h := Some(p)]);
    var last := heap.(created := heap.created + {p}, deleted := heap.deleted + [p]);
    assert Holders(held, p) == {h};
    assert held.ptrs - {h} == heap.ptrs;
    assert held.live - {p} == heap.live;
    ExecTwo(Next<H, P>, heap, New(p), made, Construct(h, Some(p)), held);
    ExecThree(Next<H, P>, heap, New(p), made, Construct(h, Some(p)), held, Destroy(h), last);
  }

  /** The life of an object that is handed over: `release` leaves it alive and unowned, the next
      handle takes it over, and it is deleted with that handle and not with the first. */
  lemma HandedOver<H, P>(heap: Heap<H, P>, p: P, g: H, h: H)
    requires Inv(heap) && Holders(heap, p) == {h} && g !in heap.ptrs
    ensures var ops := [Release(h), Construct(g, Some(p)), Destroy(h), Destroy(g)];
            Reaches(Next, heap, ops,
                    heap.(ptrs := heap.ptrs - {h}, live := heap.live - {p}, deleted := heap.deleted + [p]))
  {
    assert h in Holders(heap, p);
    var a := heap.(ptrs := heap.ptrs[h := None]);
    var b := heap.(ptrs := heap.ptrs[h := None][g := Some(p)]);
    var c := heap.(ptrs := (heap.ptrs - {h})[g := Some(p)]);
    var d := heap.(ptrs := heap.ptrs - {h}, live := heap.live - {p}, deleted := heap.deleted + [p]);
    assert b.ptrs - {h} == c.ptrs && c.ptrs - {g} == d.ptrs;
    ExecFour(Next<H, P>, heap, Release(h), a, Construct(g, Some(p)), b, Destroy(h), c, Destroy(g), d);
  }

  /** The handles an operation overwrites. */
  function Overwritten<H(==), P>(op: Op<H, P>): set<H> {
    match op
    case New(_) => {}
    case MoveConstruct(h, other) => {h, other}
    case MoveAssign(h, other) => {h, other}
    case _ => {op.h}
  }

  /** What the handle operated on holds afterwards. */
  function Incoming<H(==), P>(heap: Heap<H, P>, op: Op<H, P>): Option<P>
    requires op.MoveConstruct? || op.MoveAssign? ==> op.other in heap.ptrs
  {
    match op
    case Construct(_, source) => source
    case Reset(_, source) => source
    case MoveConstruct(_, other) => heap.ptrs[other]
    case MoveAssign(_, other) => heap.ptrs[other]
    case _ => None
  }

  /** One law for all operations, self-move and reset to the same pointer included: the
      handles overwritten let go of what they held, and the one operated on takes
      what comes in. */
  lemma HoldersAfter<H, P>(heap: Heap<H, P>, op: Op<H, P>, p: P)
    requires Inv(heap) && HandlesFit(heap, op) && SourceFits(heap, op)
    ensures Next(heap, op).Some?
    ensures Holders(Next(heap, op).value, p) ==
            Holders(heap, p) - Overwritten(op) + (if !op.New? && Incoming(heap, op) == Some(p) then {op.h} else {})
  {
    NextExclusive(heap, op);
  }

  /** How an object changes its fate: it is deleted exactly when its holder lets it go
      otherwise than by `release`, and then no handle holds it any more; it is
      released only by `release`; a deleted object stays deleted. */
  lemma FateChanges<H, P>(heap: Heap<H, P>, op: Op<H, P>, p: P)
    requires Inv(heap) && HandlesFit(heap, op) && SourceFits(heap, op) && p in heap.created
    ensures Next(heap, op).Some?
    ensures var heap' := Next(heap, op).value;
            && (FateOf(heap, p) == Owned ==>
                  (FateOf(heap', p) == Deleted <==> Holders(heap', p) == {} && !op.Release?))
            && (FateOf(heap, p) == Released ==> FateOf(heap', p) != Deleted)
            && (FateOf(heap, p) == Owned && FateOf(heap', p) == Released ==> op.Release? && heap.ptrs[op.h] == Some(p))
            && (FateOf(heap, p) == Deleted ==> FateOf(heap', p) == Deleted)
            && heap.deleted <= heap'.deleted
  {
    NextInv(heap, op);
    var heap' := Next(heap, op).value;
    if !op.New? && op.h in heap.ptrs && heap.ptrs[op.h] == Some(p) {
      assert op.h in Holders(heap, p);
    }
    if FateOf(heap, p) == Owned {
      var h :| h in Holders(heap, p);
      assert Holders(heap, p) == {h};
      if h in heap'.ptrs && heap'.ptrs[h] == Some(p) {
        assert h in Holders(heap', p);
      }
      if (op.MoveConstruct? || op.MoveAssign?) && op.other == h {
        assert op.h in Holders(heap', p);
      }
    }
  }
}
