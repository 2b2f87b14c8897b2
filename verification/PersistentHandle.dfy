/**
 `PersistentBase` and what `Persistent` and `Global` add to it.  Each operation updates
 `val_` and the node bytes in place and is proved to do what `CellStore` says.  The entry points
 demand that a non-empty handle names a live cell; `HandlesInPlace` proves that every run
 provides it.  The address of a new cell is the allocator's choice.
 */
module PersistentHandle {
  import opened NodeImage
  import opened CellStore
  import opened Options
  import opened GlobalHandles

  class PersistentBase {
    const kind: Kind
    /** The address of `val_`. */
    const location: nat
    var val: nat

    ghost predicate Holds(g: GlobalHandles)
      reads this, g, g.memory
    {
      g.Valid() && (val == NULL || val in g.live)
    }

    constructor (kind: Kind, location: nat)
      ensures this.kind == kind && this.location == location && val == NULL
    {
      this.kind, this.location, val := kind, location, NULL;
    }

    constructor FromLocal(g: GlobalHandles, kind: Kind, location: nat, that: Option<Word>, cell: nat)
      requires g.Valid() && g.Free(cell) && (that.Some? ==> |that.value| == g.ptr)
      modifies g, g.memory
      ensures Holds(g) && this.kind == kind && this.location == location
      ensures (g.Contents(), val) == New(old(g.Contents()), that, cell)
    {
      this.kind, this.location, val := kind, location, NULL;
      new;
      NewFromLocal(g, that, cell);
    }

    constructor FromPersistent(g: GlobalHandles, kind: Kind, location: nat, that: PersistentBase, cell: nat)
      requires that.Holds(g) && g.Free(cell)
      modifies g, g.memory
      ensures Holds(g) && this.kind == kind && this.location == location
      ensures (g.Contents(), val) == Clone(old(g.Contents()), that.val, cell)
    {
      this.kind, this.location, val := kind, location, NULL;
      new;
      if that.val != NULL {
        g.CopyGlobalReference(that.val, cell);
        val := cell;
      }
    }

    /** `Global(Global&& other)`. */
    constructor Move(g: GlobalHandles, location: nat, other: PersistentBase)
      requires other.Holds(g)
      modifies other`val, g`weak
      ensures Holds(g) && this.kind == Kind.Global && this.location == location && other.val == NULL
      ensures (g.Contents(), val) == MoveOnto(old(g.Contents()), NULL, old(other.val), location)
    {
      this.kind, this.location, val := Kind.Global, location, other.val;
      new;
      if other.val != NULL {
        g.MoveGlobalReference(other.val, location);
        other.val := NULL;
      }
    }

    method NewFromLocal(g: GlobalHandles, that: Option<Word>, cell: nat)
      requires g.Valid() && g.Free(cell) && val == NULL && (that.Some? ==> |that.value| == g.ptr)
      modifies this`val, g, g.memory
      ensures Holds(g) && (g.Contents(), val) == New(old(g.Contents()), that, cell)
    {
      if that.Some? {
        g.GlobalizeReference(that.value, cell);
        val := cell;
      }
    }

    method Reset(g: GlobalHandles)
      requires Holds(g)
      modifies this`val, g
      ensures Holds(g) && val == NULL
      ensures g.live == old(g.live) - {old(val)}
      ensures g.Contents() == CellStore.Reset(old(g.Contents()), old(val))
    {
      if val == NULL { return; }
      g.DisposeGlobal(val);
      val := NULL;
    }

    method ResetToLocal(g: GlobalHandles, other: Option<Word>, cell: nat)
      requires Holds(g) && g.FreeBut(cell, val) && (other.Some? ==> |other.value| == g.ptr)
      modifies this`val, g, g.memory
      ensures Holds(g)
      ensures (g.Contents(), val) == New(CellStore.Reset(old(g.Contents()), old(val)), other, cell)
    {
      Reset(g);
      NewFromLocal(g, other, cell);
    }

    /** `Persistent::Copy` and `Reset(isolate, other)`; `that` may be this very handle. */
    method Copy(g: GlobalHandles, that: PersistentBase, cell: nat)
      requires Holds(g) && that.Holds(g) && g.FreeBut(cell, val)
      requires that != this && that.val != NULL ==> that.val != val
      modifies this`val, g, g.memory
      ensures Holds(g)
      ensures (g.Contents(), val) == CopyOnto(old(g.Contents()), old(val), old(that.val), that == this, cell)
      ensures that != this ==> that.Holds(g)
    {
      Reset(g);
      if that.val == NULL { return; }
      g.CopyGlobalReference(that.val, cell);
      val := cell;
    }

    /** Move assignment of `Global`; assigning a handle to itself does nothing. */
    method MoveAssign(g: GlobalHandles, rhs: PersistentBase)
      requires Holds(g) && rhs.Holds(g)
      requires rhs != this && rhs.val != NULL ==> rhs.val != val
      modifies this`val, rhs`val, g
      ensures Holds(g)
      ensures rhs == this ==> g.Contents() == old(g.Contents()) && val == old(val)
      ensures rhs != this ==> rhs.val == NULL
      ensures rhs != this ==> (g.Contents(), val) == MoveOnto(old(g.Contents()), old(val), old(rhs.val), location)
    {
      if this != rhs {
        Reset(g);
        if rhs.val != NULL {
          val := rhs.val;
          g.MoveGlobalReference(val, location);
          rhs.val := NULL;
        }
      }
    }

    /** The destructors: `~Global` always resets, `~Persistent` as its traits say. */
    method Destroy(g: GlobalHandles)
      requires Holds(g)
      modifies this`val, g
      ensures Holds(g)
      ensures kind.Global? || kind.Copyable? ==> val == NULL && g.Contents() == CellStore.Reset(old(g.Contents()), old(val))
      ensures kind.NonCopyable? || kind.Traced? ==> val == old(val) && g.Contents() == old(g.Contents())
    {
      if kind.ResetsInDestructor() { Reset(g); }
    }

    method Empty()
      modifies this`val
      ensures val == NULL
    {
      val := NULL;
    }

    method SetWeak(g: GlobalHandles, callback: nat, parameter: nat)
      requires Holds(g) && val != NULL
      modifies g`weak, g.memory
      ensures Holds(g) && g.Contents() == CellStore.MakeWeak(old(g.Contents()), val, Callback(callback, parameter))
    {
      g.MakeWeak(val, Callback(callback, parameter));
    }

    method SetPhantom(g: GlobalHandles)
      requires Holds(g) && val != NULL
      modifies g`weak, g.memory
      ensures Holds(g) && g.Contents() == CellStore.MakeWeak(old(g.Contents()), val, Phantom(location))
    {
      g.MakeWeak(val, Phantom(location));
    }

    method ClearWeak(g: GlobalHandles)
      requires Holds(g) && val != NULL
      modifies g`weak, g.memory
      ensures Holds(g) && g.Contents() == CellStore.ClearWeak(old(g.Contents()), val)
    {
      g.ClearWeak(val);
    }

    method IsWeak(g: GlobalHandles) returns (weak: bool)
      requires Holds(g)
      ensures weak == (val != NULL && g.Contents().cells[val].state == NODE_STATE_IS_WEAK)
    {
      if val == NULL { return false; }
      var state := Internals.GetNodeState(g.memory, g.ptr, val);
      weak := state == NODE_STATE_IS_WEAK;
    }

    method SetWrapperClassId(g: GlobalHandles, id: bv16)
      requires Holds(g)
      modifies g.memory
      ensures Holds(g)
      ensures g.Contents() == if val == NULL then old(g.Contents()) else CellStore.SetClassId(old(g.Contents()), val, id)
    {
      if val == NULL { return; }
      g.SetClassId(val, id);
    }

    method WrapperClassId(g: GlobalHandles) returns (id: bv16)
      requires Holds(g)
      ensures id == if val == NULL then 0 else g.Contents().cells[val].classId
    {
      if val == NULL { return 0; }
      id := Internals.WrapperClassId(g.memory, g.ptr, val);
    }

    /** `operator==` of two persistent handles compares what their cells hold. */
    method Equals(g: GlobalHandles, that: PersistentBase) returns (same: bool)
      requires Holds(g) && that.Holds(g)
      ensures same <==>
        if val == NULL || that.val == NULL then val == that.val
        else g.Contents().cells[val].referent == g.Contents().cells[that.val].referent
    {
      if val == NULL { return that.val == NULL; }
      if that.val == NULL { return false; }
      same := g.memory[val..val + g.ptr] == g.memory[that.val..that.val + g.ptr];
    }
  }
}
