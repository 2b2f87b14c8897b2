/** `TracedReference`: a handle whose destructor leaves its cell to the tracing collector. */
module TracedHandle {
  import opened NodeImage
  import opened CellStore
  import opened Options
  import opened GlobalHandles

  class TracedReference {
    /** The address of `val_`. */
    const location: nat
    var val: nat

    ghost predicate Holds(g: GlobalHandles)
      reads this, g, g.memory
    {
      g.Valid() && (val == NULL || val in g.live)
    }

    constructor (location: nat)
      ensures this.location == location && val == NULL
    {
      this.location, val := location, NULL;
    }

    method Reset(g: GlobalHandles)
      requires Holds(g)
      modifies this`val, g
      ensures Holds(g) && val == NULL
      ensures g.live == old(g.live) - {old(val)}
      ensures g.Contents() == CellStore.Reset(old(g.Contents()), old(val))
    {
      if val == NULL { return; }
      g.DisposeGlobal(val);
      val := NULL;
    }

    method ResetToLocal(g: GlobalHandles, other: Option<Word>, cell: nat)
      requires Holds(g) && g.FreeBut(cell, val) && (other.Some? ==> |other.value| == g.ptr)
      modifies this`val, g, g.memory
      ensures Holds(g)
      ensures (g.Contents(), val) == New(CellStore.Reset(old(g.Contents()), old(val)), other, cell)
    {
      Reset(g);
      if other.None? { return; }
      g.GlobalizeReference(other.value, cell);
      val := cell;
    }

    /** Copy assignment; assigning a handle to itself does nothing. */
    method CopyAssign(g: GlobalHandles, rhs: TracedReference, cell: nat)
      requires Holds(g) && rhs.Holds(g) && g.FreeBut(cell, val)
      requires rhs != this && rhs.val != NULL ==> rhs.val != val
      modifies this`val, g, g.memory
      ensures Holds(g)
      ensures rhs == this ==> g.Contents() == old(g.Contents()) && val == old(val)
      ensures rhs != this ==> (g.Contents(), val) == CopyOnto(old(g.Contents()), old(val), old(rhs.val), false, cell)
    {
      if this != rhs {
        Reset(g);
        if rhs.val != NULL {
          g.CopyGlobalReference(rhs.val, cell);
          val := cell;
        }
      }
    }

    /** Move assignment: the collector's entry point disposes the target's cell, hands over the source's and nulls it. */
    method MoveAssign(g: GlobalHandles, rhs: TracedReference)
      requires Holds(g) && rhs.Holds(g)
      requires rhs != this && rhs.val != NULL ==> rhs.val != val
      modifies this`val, rhs`val, g
      ensures Holds(g)
      ensures rhs == this ==> g.Contents() == old(g.Contents()) && val == old(val)
      ensures rhs != this ==> rhs.val == NULL
      ensures rhs != this ==> (g.Contents(), val) == MoveOnto(old(g.Contents()), old(val), old(rhs.val), location)
    {
      if this != rhs {
        Reset(g);
        if rhs.val != NULL {
          val := rhs.val;
          g.MoveGlobalReference(val, location);
          rhs.val := NULL;
        }
      }
    }

    method SetWrapperClassId(g: GlobalHandles, id: bv16)
      requires Holds(g)
      modifies g.memory
      ensures Holds(g)
      ensures g.Contents() == if val == NULL then old(g.Contents()) else CellStore.SetClassId(old(g.Contents()), val, id)
    {
      if val == NULL { return; }
      g.SetClassId(val, id);
    }

    method WrapperClassId(g: GlobalHandles) returns (id: bv16)
      requires Holds(g)
      ensures id == if val == NULL then 0 else g.Contents().cells[val].classId
    {
      if val == NULL { return 0; }
      id := Internals.WrapperClassId(g.memory, g.ptr, val);
    }
  }
}
