/**
 Reference-counted ownership. A heap holds handles, the count blocks they refer to, and
 the payloads the blocks own; the operations are those of SharedPtr and RefCount.
 H, B and P are the identities of handles, blocks and payloads.
 */
module SharedOwnership {
  import opened Distinct
  import opened Options
  import opened Runs

  datatype Block<P> = Block(data: P, count: int)

  datatype Heap<H, B, P> = Heap(
    refs: map<H, Option<B>>,   // the live handles and what each refers to
    blocks: map<B, Block<P>>,  // the RefCount objects not yet deleted
    retired: set<B>,           // those already deleted
    wrapped: set<P>,           // every payload ever handed to a SharedPtr
    deleted: seq<P>)           // the payloads deleted so far, in order

  datatype Op<H, B, P> =
    | Construct(h: H, source: Option<(B, P)>) // from nullptr, or from a pointer, with its new block
    | Copy(h: H, other: H)
    | Assign(h: H, other: H)
    | Destroy(h: H)

  function Empty<H, B, P>(): Heap<H, B, P> {
    Heap(map[], map[], {}, {}, [])
  }

  /** `if (ref) ref->increment()`; None if the block is already deleted. */
  function Retain<H, B(==), P>(heap: Heap<H, B, P>, ref: Option<B>): Option<Heap<H, B, P>> {
    if ref.None? then
      Some(heap)
    else if ref.value !in heap.blocks then
      None
    else
      var block := heap.blocks[ref.value];
      Some(heap.(blocks := heap.blocks[ref.value := block.(count := block.count + 1)]))
  }

  /** `if (ref && ref->decrement() == 0) delete ref`, which also deletes the payload;
      None if the block is already deleted. */
  function Release<H, B(==), P>(heap: Heap<H, B, P>, ref: Option<B>): Option<Heap<H, B, P>> {
    if ref.None? then
      Some(heap)
    else if ref.value !in heap.blocks then
      None
    else
      var block := heap.blocks[ref.value];
      if block.count - 1 == 0 then
        Some(heap.(blocks := heap.blocks - {ref.value},
                   retired := heap.retired + {ref.value},
                   deleted := heap.deleted + [block.data]))
      else
        Some(heap.(blocks := heap.blocks[ref.value := block.(count := block.count - 1)]))
  }

  /** Operations apply to live handles; `new` gives fresh identities, and no raw pointer is wrapped twice. */
  predicate Allowed<H(==), B(==), P(==)>(heap: Heap<H, B, P>, op: Op<H, B, P>) {
    match op
    case Construct(h, source) =>
      && h !in heap.refs
      && (source.Some? ==>
            && source.value.0 !in heap.blocks.Keys + heap.retired
            && source.value.1 !in heap.wrapped)
    case Copy(h, other) => h !in heap.refs && other in heap.refs
    case Assign(h, other) => h in heap.refs && other in heap.refs
    case Destroy(h) => h in heap.refs
  }

  /** The effect of an allowed operation; None if it would touch a deleted block. */
  function Apply<H(==), B(==), P(==)>(heap: Heap<H, B, P>, op: Op<H, B, P>): Option<Heap<H, B, P>>
    requires Allowed(heap, op)
  {
    match op
    case Construct(h, None) =>
      Some(heap.(refs := heap.refs[h := None]))
    case Construct(h, Some(source)) =>
      Some(heap.(refs := heap.refs[h := Some(source.0)],
                 blocks := heap.blocks[source.0 := Block(source.1, 1)],
                 wrapped := heap.wrapped + {source.1}))
    case Copy(h, other) =>
      Retain(heap.(refs := heap.refs[h := heap.refs[other]]), heap.refs[other])
    case Assign(h, other) =>
      if h == other then Some(heap) else
      var dropped := Release(heap, heap.refs[h]);
      if dropped.None? then None else
      Retain(dropped.value.(refs := heap.refs[h := heap.refs[other]]), heap.refs[other])
    case Destroy(h) =>
      var dropped := Release(heap, heap.refs[h]);
      if dropped.None? then None else
      Some(dropped.value.(refs := heap.refs - {h}))
  }

  function Next<H(==), B(==), P(==)>(heap: Heap<H, B, P>, op: Op<H, B, P>): Option<Heap<H, B, P>> {
    if Allowed(heap, op) then Apply(heap, op) else None
  }

  // ---- The invariant ----

  function Owners<H(==), B(==), P>(heap: Heap<H, B, P>, b: B): set<H> {
    set h | h in heap.refs && heap.refs[h] == Some(b)
  }

  /** No live handle refers to a deleted block. */
  ghost predicate NoDangling<H, B, P>(heap: Heap<H, B, P>) {
    && heap.blocks.Keys !! heap.retired
    && forall h :: h in heap.refs && heap.refs[h].Some? ==> heap.refs[h].value in heap.blocks
  }

  ghost predicate CountsOwners<H, B, P>(heap: Heap<H, B, P>) {
    forall b :: b in heap.blocks ==> heap.blocks[b].count == |Owners(heap, b)| >= 1
  }

  function LivePayloads<H, B, P(==)>(heap: Heap<H, B, P>): set<P> {
    set b | b in heap.blocks :: heap.blocks[b].data
  }

  function DeletedPayloads<H, B, P(==)>(heap: Heap<H, B, P>): set<P> {
    set p | p in heap.deleted
  }

  /** Every wrapped payload is either deleted or owned by exactly one block. */
  ghost predicate PayloadsAccounted<H, B, P>(heap: Heap<H, B, P>) {
    && heap.wrapped == LivePayloads(heap) + DeletedPayloads(heap)
    && LivePayloads(heap) !! DeletedPayloads(heap)
    && (forall b, c :: b in heap.blocks && c in heap.blocks && b != c ==> heap.blocks[b].data != heap.blocks[c].data)
    && NoDuplicates(heap.deleted)
  }

  ghost predicate Inv<H, B, P>(heap: Heap<H, B, P>) {
    NoDangling(heap) && CountsOwners(heap) && PayloadsAccounted(heap)
  }

  // ---- Each operation keeps the invariant ----

  lemma OnlyOne<H>(owners: set<H>, h: H)
    requires h in owners && |owners| == 1
    ensures owners == {h}
  {
    assert |owners - {h}| == 0;
  }

  lemma DestroyCounts<H, B, P>(heap: Heap<H, B, P>, h: H)
    requires NoDangling(heap) && CountsOwners(heap) && h in heap.refs
    ensures Next(heap, Destroy(h)).Some?
    ensures NoDangling(Next(heap, Destroy(h)).value) && CountsOwners(Next(heap, Destroy(h)).value)
  {
    var heap' := Next(heap, Destroy(h)).value;
    forall b | b in heap.blocks
      ensures Owners(heap', b) == Owners(heap, b) - {h}
    {
    }
    if heap.refs[h].Some? {
      var b := heap.refs[h].value;
      assert h in Owners(heap, b);
      if heap.blocks[b].count == 1 {
        OnlyOne(Owners(heap, b), h);
        forall g | g in heap'.refs && heap'.refs[g].Some?
          ensures heap'.refs[g].value != b
        {
          assert heap'.refs[g] == Some(b) ==> g in Owners(heap', b);
        }
      }
    }
  }

  lemma CopyOwners<H, B, P>(heap: Heap<H, B, P>, h: H, other: H, b: B)
    requires h !in heap.refs && other in heap.refs && Next(heap, Copy(h, other)).Some?
    ensures Owners(Next(heap, Copy(h, other)).value, b) ==
            if heap.refs[other] == Some(b) then Owners(heap, b) + {h} else Owners(heap, b)
  {
  }

  lemma CopyCounts<H, B, P>(heap: Heap<H, B, P>, h: H, other: H)
    requires NoDangling(heap) && CountsOwners(heap) && h !in heap.refs && other in heap.refs
    ensures Next(heap, Copy(h, other)).Some?
    ensures NoDangling(Next(heap, Copy(h, other)).value) && CountsOwners(Next(heap, Copy(h, other)).value)
  {
    var heap' := Next(heap, Copy(h, other)).value;
    forall b | b in heap'.blocks
      ensures heap'.blocks[b].count == |Owners(heap', b)| >= 1
    {
      CopyOwners(heap, h, other, b);
      assert h !in Owners(heap, b);
    }
  }

  lemma ConstructCounts<H, B, P>(heap: Heap<H, B, P>, h: H, source: Option<(B, P)>)
    requires NoDangling(heap) && CountsOwners(heap) && Allowed(heap, Construct(h, source))
    ensures NoDangling(Next(heap, Construct(h, source)).value) && CountsOwners(Next(heap, Construct(h, source)).value)
  {
    var heap' := Next(heap, Construct(h, source)).value;
    forall b | b in heap'.blocks
      ensures Owners(heap', b) == if b in heap.blocks then Owners(heap, b) else {h}
    {
    }
  }

  /** Assigning from another handle is destroying the old value and copying the new one;
      in particular, dropping first never frees what is copied next. */
  lemma AssignIsDestroyThenCopy<H, B, P>(heap: Heap<H, B, P>, h: H, other: H)
    requires NoDangling(heap) && CountsOwners(heap) && h in heap.refs && other in heap.refs && h != other
    ensures Next(heap, Destroy(h)).Some?
    ensures Next(heap, Assign(h, other)) == Next(Next(heap, Destroy(h)).value, Copy(h, other))
  {
    DestroyCounts(heap, h);
    assert (heap.refs - {h})[h := heap.refs[other]] == heap.refs[h := heap.refs[other]];
  }

  /** No operation ever touches a deleted block, and the counts stay exact. */
  lemma NextCounts<H, B, P>(heap: Heap<H, B, P>, op: Op<H, B, P>)
    requires NoDangling(heap) && CountsOwners(heap) && Allowed(heap, op)
    ensures Next(heap, op).Some?
    ensures NoDangling(Next(heap, op).value) && CountsOwners(Next(heap, op).value)
  {
    match op
    case Construct(h, source) =>
      ConstructCounts(heap, h, source);
    case Copy(h, other) =>
      CopyCounts(heap, h, other);
    case Destroy(h) =>
      DestroyCounts(heap, h);
    case Assign(h, other) =>
      if h != other {
        AssignIsDestroyThenCopy(heap, h, other);
        DestroyCounts(heap, h);
        CopyCounts(Next(heap, Destroy(h)).value, h, other);
      }
  }

  lemma ReleasePayloads<H, B, P>(heap: Heap<H, B, P>, ref: Option<B>)
    requires PayloadsAccounted(heap) && Release(heap, ref).Some?
    ensures PayloadsAccounted(Release(heap, ref).value)
  {
    var heap' := Release(heap, ref).value;
    if ref.Some? {
      var data := heap.blocks[ref.value].data;
      if ref.value in heap'.blocks {
        assert forall b :: b in heap.blocks ==> b in heap'.blocks && heap'.blocks[b].data == heap.blocks[b].data;
        assert LivePayloads(heap') == LivePayloads(heap);
      } else {
        assert data !in DeletedPayloads(heap);
        forall b | b in heap.blocks && b != ref.value
          ensures heap.blocks[b].data in LivePayloads(heap')
        {
          assert heap'.blocks[b] == heap.blocks[b];
        }
        assert LivePayloads(heap') == LivePayloads(heap) - {data};
        assert DeletedPayloads(heap') == DeletedPayloads(heap) + {data};
      }
    }
  }

  lemma RetainPayloads<H, B, P>(heap: Heap<H, B, P>, ref: Option<B>)
    requires PayloadsAccounted(heap) && Retain(heap, ref).Some?
    ensures PayloadsAccounted(Retain(heap, ref).value)
  {
    var heap' := Retain(heap, ref).value;
    assert forall b :: b in heap.blocks ==> b in heap'.blocks && heap'.blocks[b].data == heap.blocks[b].data;
    assert LivePayloads(heap') == LivePayloads(heap);
  }

  lemma ConstructPayloads<H, B, P>(heap: Heap<H, B, P>, h: H, source: Option<(B, P)>)
    requires PayloadsAccounted(heap) && Allowed(heap, Construct(h, source))
    ensures PayloadsAccounted(Next(heap, Construct(h, source)).value)
  {
    var heap' := Next(heap, Construct(h, source)).value;
    if source.Some? {
      assert heap'.blocks[source.value.0].data == source.value.1;
      assert forall b :: b in heap.blocks ==> b in heap'.blocks && heap'.blocks[b] == heap.blocks[b];
      assert LivePayloads(heap') == LivePayloads(heap) + {source.value.1};
    }
  }

  lemma RefsDoNotMatter<H, B, P>(heap: Heap<H, B, P>, refs: map<H, Option<B>>)
    ensures PayloadsAccounted(heap) <==> PayloadsAccounted(heap.(refs := refs))
  {
    assert LivePayloads(heap) == LivePayloads(heap.(refs := refs));
  }

  lemma NextPayloads<H, B, P>(heap: Heap<H, B, P>, op: Op<H, B, P>)
    requires PayloadsAccounted(heap) && Next(heap, op).Some?
    ensures PayloadsAccounted(Next(heap, op).value)
  {
    match op
    case Construct(h, source) =>
      ConstructPayloads(heap, h, source);
    case Copy(h, other) =>
      var copied := heap.(refs := heap.refs[h := heap.refs[other]]);
      RefsDoNotMatter(heap, copied.refs);
      RetainPayloads(copied, heap.refs[other]);
    case Assign(h, other) =>
      if h != other {
        ReleasePayloads(heap, heap.refs[h]);
        var dropped := Release(heap, heap.refs[h]).value;
        var copied := dropped.(refs := heap.refs[h := heap.refs[other]]);
        RefsDoNotMatter(dropped, copied.refs);
        RetainPayloads(copied, heap.refs[other]);
      }
    case Destroy(h) =>
      ReleasePayloads(heap, heap.refs[h]);
      RefsDoNotMatter(Release(heap, heap.refs[h]).value, heap.refs - {h});
  }

  lemma NextInv<H, B, P>(heap: Heap<H, B, P>, op: Op<H, B, P>)
    requires Inv(heap) && Allowed(heap, op)
    ensures Next(heap, op).Some? && Inv(Next(heap, op).value)
  {
    NextCounts(heap, op);
    NextPayloads(heap, op);
  }

  // ---- What holds after every sequence of operations ----

  /** What a handle is made to refer to: the value it is constructed with, copied from or assigned. */
  function Target<H(==), B, P>(heap: Heap<H, B, P>, op: Op<H, B, P>): Option<B>
    requires op.Copy? || op.Assign? ==> op.other in heap.refs
  {
    match op
    case Construct(_, source) => if source.None? then None else Some(source.value.0)
    case Copy(_, other) => heap.refs[other]
    case Assign(_, other) => heap.refs[other]
    case Destroy(_) => None
  }

  /** One law for all operations, self-assignment included: the handle operated on leaves
      its old block and joins the target's; nobody else joins or leaves. */
  lemma OwnersAfter<H, B, P>(heap: Heap<H, B, P>, op: Op<H, B, P>, b: B)
    requires Next(heap, op).Some?
    ensures Owners(Next(heap, op).value, b) ==
            Owners(heap, b) - {op.h} + (if Target(heap, op) == Some(b) then {op.h} else {})
  {
  }

  /** The payload seen through a handle. */
  function Deref<H(==), B(==), P>(heap: Heap<H, B, P>, h: H): Option<P>
    requires h in heap.refs && NoDangling(heap)
  {
    if heap.refs[h].None? then None else Some(heap.blocks[heap.refs[h].value].data)
  }

  /** What a handle shows does not depend on what happens to other handles; a copy or
      an assignment makes it show what the other handle shows. */
  lemma DerefAfter<H, B, P>(heap: Heap<H, B, P>, op: Op<H, B, P>, g: H)
    requires Inv(heap) && Allowed(heap, op)
    ensures Next(heap, op).Some? && NoDangling(Next(heap, op).value)
    ensures var heap' := Next(heap, op).value;
            && (g in heap'.refs <==> (g in heap.refs || g == op.h) && !(op.Destroy? && g == op.h))
            && (g in heap'.refs && g != op.h ==> Deref(heap', g) == Deref(heap, g))
            && (op.Copy? || op.Assign? ==> Deref(heap', op.h) == Deref(heap, op.other))
            && (op.Construct? ==> Deref(heap', op.h) == if op.source.None? then None else Some(op.source.value.1))
  {
    NextCounts(heap, op);
    var heap' := Next(heap, op).value;
    forall b | b in heap.blocks
      ensures b in heap'.blocks ==> heap'.blocks[b].data == heap.blocks[b].data
    {
      PayloadGoesWithBlock(heap, op, b);
    }
  }

  /** A block goes exactly when the last handle leaves it. */
  lemma BlockGoesWithLastHandle<H, B, P>(heap: Heap<H, B, P>, op: Op<H, B, P>, b: B)
    requires NoDangling(heap) && CountsOwners(heap) && Allowed(heap, op) && b in heap.blocks
    ensures Next(heap, op).Some?
    ensures b !in Next(heap, op).value.blocks <==> Owners(Next(heap, op).value, b) == {}
  {
    NextCounts(heap, op);
    var heap' := Next(heap, op).value;
    if b !in heap'.blocks {
      OwnersEmpty(heap', b);
    } else {
      assert |Owners(heap', b)| >= 1;
    }
  }

  /** A payload goes with its block, and at no other time. */
  lemma PayloadGoesWithBlock<H, B, P>(heap: Heap<H, B, P>, op: Op<H, B, P>, b: B)
    requires Next(heap, op).Some? && b in heap.blocks
    ensures var heap' := Next(heap, op).value;
            && (b !in heap'.blocks ==> heap'.deleted == heap.deleted + [heap.blocks[b].data])
            && (b in heap'.blocks ==> heap'.blocks[b].data == heap.blocks[b].data)
            && (heap.blocks.Keys <= heap'.blocks.Keys ==> heap'.deleted == heap.deleted)
            && heap'.retired == heap.retired + (heap.blocks.Keys - heap'.blocks.Keys)
  {
  }

  /** A payload is deleted at the step that takes the last handle from its block, and
      at no other step; a block goes together with its payload, and no other block goes. */
  lemma DeletedWithLastHandle<H, B, P>(heap: Heap<H, B, P>, op: Op<H, B, P>, b: B)
    requires Inv(heap) && Allowed(heap, op) && b in heap.blocks
    ensures Next(heap, op).Some?
    ensures var heap' := Next(heap, op).value;
            && (b !in heap'.blocks <==> Owners(heap', b) == {})
            && (b !in heap'.blocks ==> heap'.deleted == heap.deleted + [heap.blocks[b].data])
            && (b in heap'.blocks ==> heap'.blocks[b].data == heap.blocks[b].data)
            && (heap.blocks.Keys <= heap'.blocks.Keys ==> heap'.deleted == heap.deleted)
            && heap'.retired == heap.retired + (heap.blocks.Keys - heap'.blocks.Keys)
  {
    BlockGoesWithLastHandle(heap, op, b);
    PayloadGoesWithBlock(heap, op, b);
  }

  lemma OwnersEmpty<H, B, P>(heap: Heap<H, B, P>, b: B)
    requires NoDangling(heap) && b !in heap.blocks
    ensures Owners(heap, b) == {}
  {
  }

  /** What `use_count` returns. */
  function UseCount<H(==), B(==), P>(heap: Heap<H, B, P>, h: H): int
    requires h in heap.refs && NoDangling(heap)
  {
    if heap.refs[h].None? then 0 else heap.blocks[heap.refs[h].value].count
  }

  /** A run is any sequence of operations, each allowed when it comes: the program may
      not destroy a handle twice or wrap a pointer twice, and nothing else is asked of it. */
  ghost predicate AllAllowed<H, B, P>(heap: Heap<H, B, P>, ops: seq<Op<H, B, P>>) {
    ops == [] ||
    (AllAllowed(heap, ops[..|ops| - 1]) &&
     (Exec(Next, heap, ops[..|ops| - 1]).Some? ==>
        Allowed(Exec(Next, heap, ops[..|ops| - 1]).value, ops[|ops| - 1])))
  }

  /** Such a sequence never runs into a deleted block, and the invariant holds after it. */
  lemma {:induction false} RunInv<H, B, P>(heap: Heap<H, B, P>, ops: seq<Op<H, B, P>>)
    requires Inv(heap) && AllAllowed(heap, ops)
    ensures Exec(Next, heap, ops).Some? && Inv(Exec(Next, heap, ops).value)
    decreases |ops|
  {
    if ops != [] {
      RunInv(heap, ops[..|ops| - 1]);
      NextInv(Exec(Next, heap, ops[..|ops| - 1]).value, ops[|ops| - 1]);
    }
  }

  /** After any sequence of operations: `use_count` is the number of live handles that
      share the block, and every payload ever wrapped is either owned or deleted, never both. */
  lemma CountsAreExact<H, B, P>(ops: seq<Op<H, B, P>>, h: H)
    requires AllAllowed(Empty(), ops)
    ensures Exec(Next, Empty(), ops).Some?
    ensures var heap := Exec(Next, Empty(), ops).value;
            && NoDangling(heap)
            && (h in heap.refs ==>
                  UseCount(heap, h) == if heap.refs[h].None? then 0 else |Owners(heap, heap.refs[h].value)|)
            && WrappedBy(ops) == LivePayloads(heap) + DeletedPayloads(heap)
            && LivePayloads(heap) !! DeletedPayloads(heap)
  {
    RunInv(Empty(), ops);
    WrappedIs(Empty(), ops);
  }

  /** The payloads that a sequence of operations hands to a SharedPtr. */
  function WrappedBy<H, B, P(==)>(ops: seq<Op<H, B, P>>): set<P> {
    if ops == [] then {} else
    var op := ops[|ops| - 1];
    WrappedBy(ops[..|ops| - 1]) + if op.Construct? && op.source.Some? then {op.source.value.1} else {}
  }

  lemma {:induction false} WrappedIs<H, B, P>(heap: Heap<H, B, P>, ops: seq<Op<H, B, P>>)
    requires Exec(Next, heap, ops).Some?
    ensures Exec(Next, heap, ops).value.wrapped == heap.wrapped + WrappedBy(ops)
    decreases |ops|
  {
    if ops != [] {
      WrappedIs(heap, ops[..|ops| - 1]);
    }
  }

  /** Once no handles remain, no block remains, and every payload ever wrapped has
      been deleted exactly once. */
  lemma NothingLeaks<H, B, P>(ops: seq<Op<H, B, P>>)
    requires AllAllowed(Empty(), ops)
    requires Exec(Next, Empty(), ops).Some? && Exec(Next, Empty(), ops).value.refs == map[]
    ensures var heap := Exec(Next, Empty(), ops).value;
            && heap.blocks == map[]
            && multiset(heap.deleted) == multiset(WrappedBy(ops))
  {
    RunInv(Empty(), ops);
    var heap := Exec(Next, Empty(), ops).value;
    assert forall b :: b in heap.blocks ==> Owners(heap, b) == {};
    assert heap.blocks == map[];
    WrappedIs(Empty(), ops);
    EachElementOnce(heap.deleted);
  }
}
