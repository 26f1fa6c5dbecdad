/**
 UniquePtr as an object whose field is moved, nulled and replaced in place. Each method
 is proved to have exactly the effect that UniqueOwnership gives to its operation.
 */
module UniquePtrObjects {
  import opened Options
  import opened UniqueOwnership

  /** Which handles and objects exist. Only `deleted` is observable by the program. */
  class Memory<P(==)> {
    ghost var handles: set<UniquePtr<P>>
    ghost var created: set<P>
    ghost var live: set<P>
    var deleted: seq<P>

    constructor ()
      ensures Value() == Empty() && Inv(Value()) && handles == {}
    {
      handles, created, live, deleted := {}, {}, {}, [];
    }

    ghost function Value(): Heap<UniquePtr<P>, P>
      reads this, handles
    {
      Heap(map h | h in handles :: h.ptr, created, live, deleted)
    }

    /** `new`: the object is alive and belongs to no handle yet. */
    ghost method NewObject(p: P)
      requires Inv(Value()) && p !in created
      modifies this`created, this`live
      ensures Inv(Value()) && Unowned(Value(), p) && deleted == old(deleted)
      ensures Next(old(Value()), New(p)) == Some(Value())
    {
      ghost var heap := Value();
      NextInv(heap, New(p));
      UniqueOwnership.NewObject(heap, p);
      created, live := created + {p}, live + {p};
      assert Value().ptrs == heap.ptrs;
    }

    /** `delete ptr` */
    method Delete(ptr: Option<P>)
      requires ptr.Some? ==> ptr.value in live
      modifies this`live, this`deleted
      ensures UniqueOwnership.Delete(old(Value()), ptr) == Some(Value())
    {
      ghost var ptrs := Value().ptrs;
      if ptr.Some? {
        live := live - {ptr.value};
        deleted := deleted + [ptr.value];
      }
      assert Value().ptrs == ptrs;
    }
  }

  class UniquePtr<P(==)> {
    var ptr: Option<P>

    constructor (p: Option<P>, memory: Memory<P>)
      requires Inv(memory.Value()) && (p.Some? ==> Unowned(memory.Value(), p.value))
      modifies memory`handles
      ensures fresh(this) && Inv(memory.Value())
      ensures Next(old(memory.Value()), Construct(this, p)) == Some(memory.Value())
    {
      ptr := p;
      new;
      ghost var heap := memory.Value();
      NextInv(heap, Construct(this, p));
      memory.handles := memory.handles + {this};
      assert memory.Value().ptrs == heap.ptrs[this := p];
    }

    constructor Move(other: UniquePtr<P>, memory: Memory<P>)
      requires Inv(memory.Value()) && other in memory.handles
      modifies memory`handles, other
      ensures fresh(this) && Inv(memory.Value())
      ensures Next(old(memory.Value()), MoveConstruct(this, other)) == Some(memory.Value())
    {
      ptr := other.ptr;
      new;
      ghost var heap := memory.Value();
      NextInv(heap, MoveConstruct(this, other));
      other.ptr := None;
      memory.handles := memory.handles + {this};
      assert memory.Value().ptrs == heap.ptrs[this := heap.ptrs[other]][other := None];
    }

    /** operator= on an rvalue, also on itself */
    method MoveAssign(other: UniquePtr<P>, memory: Memory<P>)
      requires Inv(memory.Value()) && this in memory.handles && other in memory.handles
      modifies memory`live, memory`deleted, this, other
      ensures Inv(memory.Value())
      ensures Next(old(memory.Value()), Op.MoveAssign(this, other)) == Some(memory.Value())
    {
      ghost var heap := memory.Value();
      NextInv(heap, Op.MoveAssign(this, other));
      if this != other {
        assert heap.ptrs[this] == ptr && heap.ptrs[other] == other.ptr;
        memory.Delete(ptr);
        ptr := other.ptr;
        other.ptr := None;
        assert memory.Value().ptrs == heap.ptrs[this := heap.ptrs[other]][other := None];
      }
    }

    /** Hands the pointer out; nothing is deleted. */
    method Release(memory: Memory<P>) returns (r: Option<P>)
      requires Inv(memory.Value()) && this in memory.handles
      modifies this
      ensures Inv(memory.Value()) && r == old(ptr)
      ensures r.Some? ==> Unowned(memory.Value(), r.value)
      ensures Next(old(memory.Value()), Op.Release(this)) == Some(memory.Value())
    {
      ghost var heap := memory.Value();
      NextInv(heap, Op.Release(this));
      assert heap.ptrs[this] == ptr;
      r := ptr;
      ptr := None;
      assert memory.Value().ptrs == heap.ptrs[this := None];
    }

    method Reset(p: Option<P>, memory: Memory<P>)
      requires Inv(memory.Value()) && this in memory.handles
      requires p.Some? ==> p == ptr || Unowned(memory.Value(), p.value)
      modifies memory`live, memory`deleted, this
      ensures Inv(memory.Value())
      ensures Next(old(memory.Value()), Op.Reset(this, p)) == Some(memory.Value())
    {
      ghost var heap := memory.Value();
      assert heap.ptrs[this] == ptr;
      NextInv(heap, Op.Reset(this, p));
      if ptr != p {
        memory.Delete(ptr);
        ptr := p;
        assert memory.Value().ptrs == heap.ptrs[this := p];
      }
    }

    /** The destructor; the handle is not used again. */
    method Destroy(memory: Memory<P>)
      requires Inv(memory.Value()) && this in memory.handles
      modifies memory
      ensures Inv(memory.Value())
      ensures Next(old(memory.Value()), Op.Destroy(this)) == Some(memory.Value())
    {
      ghost var heap := memory.Value();
      NextInv(heap, Op.Destroy(this));
      assert heap.ptrs[this] == ptr;
      memory.Delete(ptr);
      memory.handles := memory.handles - {this};
      assert memory.Value().ptrs == heap.ptrs - {this};
    }
  }
}
