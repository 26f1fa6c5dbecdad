/**
 SharedPtr and RefCount as objects that change in place and may alias. Each method is
 proved to have exactly the effect that SharedOwnership gives to its operation, and
 to touch no block that is already deleted.
 */
module SharedPtrObjects {
  import opened Options
  import opened Runs
  import opened SharedOwnership

  class RefCount<P(==)> {
    const data: P
    var count: int

    constructor (ptr: P)
      ensures data == ptr && count == 1
    {
      data, count := ptr, 1;
    }

    method Increment()
      modifies this
      ensures count == old(count) + 1
    {
      count := count + 1;
    }

    method Decrement() returns (c: int)
      modifies this
      ensures c == count == old(count) - 1
    {
      count := count - 1;
      c := count;
    }
  }

  /** Which objects exist, and which payloads have been deleted. Only `deleted` is
      observable by the program; the rest is bookkeeping for the proof. */
  class Memory<P(==)> {
    ghost var handles: set<SharedPtr<P>>
    ghost var live: set<RefCount<P>>
    ghost var retired: set<RefCount<P>>
    ghost var wrapped: set<P>
    var deleted: seq<P>

    constructor ()
      ensures Value() == Empty() && Inv(Value())
      ensures handles == {} && live == {}
    {
      handles, live, retired, wrapped, deleted := {}, {}, {}, {}, [];
    }

    ghost function Value(): Heap<SharedPtr<P>, RefCount<P>, P>
      reads this, handles, live
    {
      Heap(map h | h in handles :: h.Referent(), map b | b in live :: Block(b.data, b.count), retired, wrapped, deleted)
    }

    /** `ref->increment()` */
    method Retain(b: RefCount<P>)
      requires b in live
      modifies b
      ensures SharedOwnership.Retain(old(Value()), Some(b)) == Some(Value())
    {
      ghost var heap := Value();
      b.Increment();
      assert Value().refs == heap.refs;
      assert Value().blocks == heap.blocks[b := Block(b.data, b.count)];
    }

    /** `if (ref->decrement() == 0) delete ref` */
    method Release(b: RefCount<P>)
      requires b in live
      modifies this`live, this`retired, this`deleted, b
      ensures SharedOwnership.Release(old(Value()), Some(b)) == Some(Value())
      ensures live == old(live) || live == old(live) - {b}
    {
      ghost var heap := Value();
      var c := b.Decrement();
      assert Value().blocks == heap.blocks[b := Block(b.data, b.count)];
      if c == 0 {
        deleted := deleted + [b.data];
        live, retired := live - {b}, retired + {b};
        assert Value().blocks == heap.blocks - {b};
      }
      assert Value().refs == heap.refs;
    }
  }

  class SharedPtr<P(==)> {
    var ref: RefCount?<P>

    ghost function Referent(): Option<RefCount<P>>
      reads this
    {
      if ref == null then None else Some(ref)
    }

    // The bodies, defined wherever they touch no deleted block.

    method ConstructBody(ptr: Option<P>, memory: Memory<P>)
      requires this !in memory.handles && ref == null
      modifies this, memory`handles, memory`live, memory`wrapped
      ensures ptr.None? ==> ref == null && Some(memory.Value()) == Apply(old(memory.Value()), Construct(this, None))
      ensures ptr.Some? ==>
                && ref != null && fresh(ref)
                && ref !in old(memory.live)
                && memory.Value() == old(memory.Value()).(refs := old(memory.Value()).refs[this := Some(ref)],
                                                          blocks := old(memory.Value()).blocks[ref := Block(ptr.value, 1)],
                                                          wrapped := old(memory.Value()).wrapped + {ptr.value})
    {
      ghost var heap := memory.Value();
      if ptr.Some? {
        ref := new RefCount(ptr.value);
        memory.live := memory.live + {ref};
        memory.wrapped := memory.wrapped + {ptr.value};
      }
      memory.handles := memory.handles + {this};
      assert memory.Value().refs == heap.refs[this := Referent()];
      assert memory.Value().blocks == if ptr.None? then heap.blocks else heap.blocks[ref := Block(ptr.value, 1)];
    }

    method CopyBody(other: SharedPtr<P>, memory: Memory<P>)
      requires this !in memory.handles && other in memory.handles && ref == other.ref
      requires Next(memory.Value(), Op.Copy(this, other)).Some?
      modifies memory`handles, memory.live
      ensures Next(old(memory.Value()), Op.Copy(this, other)) == Some(memory.Value())
    {
      ghost var heap := memory.Value();
      memory.handles := memory.handles + {this};
      assert other.Referent() == heap.refs[other] == Referent();
      assert memory.Value() == heap.(refs := heap.refs[this := heap.refs[other]]);
      if ref != null {
        memory.Retain(ref);
      }
    }

    method AssignBody(other: SharedPtr<P>, memory: Memory<P>)
      requires this in memory.handles && other in memory.handles
      requires Next(memory.Value(), Op.Assign(this, other)).Some?
      modifies memory`live, memory`retired, memory`deleted, memory.live, this
      ensures Next(old(memory.Value()), Op.Assign(this, other)) == Some(memory.Value())
    {
      if this != other {
        ghost var heap := memory.Value();
        assert heap.refs[this] == Referent() && heap.refs[other] == other.Referent();
        if ref != null {
          memory.Release(ref);
        }
        ghost var dropped := memory.Value();
        ref := other.ref;
        assert memory.Value().refs == heap.refs[this := heap.refs[other]];
        assert memory.Value().blocks == dropped.blocks;
        if ref != null {
          memory.Retain(ref);
        }
      }
    }

    method DestroyBody(memory: Memory<P>)
      requires this in memory.handles
      requires Next(memory.Value(), Op.Destroy(this)).Some?
      modifies memory, memory.live
      ensures Next(old(memory.Value()), Op.Destroy(this)) == Some(memory.Value())
    {
      ghost var heap := memory.Value();
      assert heap.refs[this] == Referent();
      if ref != null {
        memory.Release(ref);
      }
      ghost var dropped := memory.Value();
      memory.handles := memory.handles - {this};
      assert memory.Value().refs == heap.refs - {this};
      assert memory.Value() == dropped.(refs := heap.refs - {this});
    }

    // The operations of the class, in every state that operations lead to.

    constructor (ptr: Option<P>, memory: Memory<P>)
      requires Inv(memory.Value())
      requires ptr.Some? ==> ptr.value !in memory.wrapped
      modifies memory`handles, memory`live, memory`wrapped
      ensures fresh(this) && Inv(memory.Value())
      ensures ptr.None? ==> Next(old(memory.Value()), Construct(this, None)) == Some(memory.Value())
      ensures ptr.Some? ==>
                && ref != null && fresh(ref)
                && Next(old(memory.Value()), Construct(this, Some((ref, ptr.value)))) == Some(memory.Value())
    {
      ref := null;
      new;
      ghost var heap := memory.Value();
      ConstructBody(ptr, memory);
      NextInv(heap, Construct(this, if ptr.None? then None else Some((ref, ptr.value))));
    }

    constructor Copy(other: SharedPtr<P>, memory: Memory<P>)
      requires Inv(memory.Value()) && other in memory.handles
      modifies memory`handles, memory.live
      ensures fresh(this) && Inv(memory.Value())
      ensures Next(old(memory.Value()), Op.Copy(this, other)) == Some(memory.Value())
    {
      ref := other.ref;
      new;
      NextInv(memory.Value(), Op.Copy(this, other));
      CopyBody(other, memory);
    }

    /** operator= */
    method Assign(other: SharedPtr<P>, memory: Memory<P>)
      requires Inv(memory.Value()) && this in memory.handles && other in memory.handles
      modifies memory`live, memory`retired, memory`deleted, memory.live, this
      ensures Inv(memory.Value())
      ensures Next(old(memory.Value()), Op.Assign(this, other)) == Some(memory.Value())
    {
      NextInv(memory.Value(), Op.Assign(this, other));
      AssignBody(other, memory);
    }

    /** The destructor; the handle is not used again. */
    method Destroy(memory: Memory<P>)
      requires Inv(memory.Value()) && this in memory.handles
      modifies memory, memory.live
      ensures Inv(memory.Value())
      ensures Next(old(memory.Value()), Op.Destroy(this)) == Some(memory.Value())
    {
      NextInv(memory.Value(), Op.Destroy(this));
      DestroyBody(memory);
    }

    /** use_count */
    method UseCount(memory: Memory<P>) returns (n: int)
      requires Inv(memory.Value()) && this in memory.handles
      ensures n == if ref == null then 0 else |set h | h in memory.handles && h.ref == ref|
    {
      n := if ref == null then 0 else ref.count;
      if ref != null {
        assert memory.Value().refs[this] == Some(ref);
        assert ref in memory.Value().blocks;
        assert Owners(memory.Value(), ref) == set h | h in memory.handles && h.ref == ref;
      }
    }
  }
}
