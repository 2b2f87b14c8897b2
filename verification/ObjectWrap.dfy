/**
 `node::ObjectWrap`: a C++ object tied to a JavaScript object through internal field 0 one way
 and a persistent handle the other way, kept alive by a count of references.
 */
module ObjectWrap {
  import opened NodeImage
  import opened CellStore
  import opened Options
  import opened GlobalHandles
  import opened PersistentHandle

  /** The identity of the private static `WeakCallback`; no other callback has it. */
  const WEAK_CALLBACK: nat := 0

  const MAX_INT: int := 0x7fff_ffff

  // --- What the operations make of the store; `wrap` is the address of the wrap's handle ---

  function WrapStore(s: Store, referent: Word, cell: nat, wrap: nat): Store {
    MakeWeak(Globalize(s, cell, referent), cell, Callback(WEAK_CALLBACK, wrap))
  }

  function DestructorStore(s: Store, val: nat): Store {
    if val == NULL then s else Dispose(ClearWeak(s, val), val)
  }

  /** The cell is gone and counted, whatever it was, and no other is touched. */
  predicate Released(s: Store, r: Store, cell: nat) {
    && cell in s.cells && r.cells == s.cells - {cell} && r.weak == s.weak - {cell}
    && r.created == s.created && r.disposed == s.disposed + 1
  }

  lemma DestructorReleases(s: Store, val: nat)
    requires val != NULL && val in s.cells
    ensures Released(s, DestructorStore(s, val), val)
  {
    assert s.cells[val := s.cells[val].(state := NODE_STATE_NORMAL)] - {val} == s.cells - {val};
  }

  /** Internal field 0 of every object that has one. */
  class InternalFields {
    var field: map<Word, ObjectWrap>

    constructor () ensures field == map[] { field := map[]; }
  }

  class ObjectWrap {
    var refs: int
    const handle: PersistentBase

    ghost predicate Valid(g: GlobalHandles)
      reads this, handle, g, g.memory
    {
      handle.kind.NonCopyable? && handle.Holds(g) && 0 <= refs <= MAX_INT
    }

    constructor (location: nat)
      ensures fresh(handle) && handle.kind.NonCopyable? && handle.location == location
      ensures handle.val == NULL && refs == 0
    {
      handle := new PersistentBase(NonCopyable, location);
      refs := 0;
    }

    /** `Wrap(handle)`; the two asserts of the source are its first requirements. */
    method Wrap(g: GlobalHandles, fields: InternalFields, referent: Word, cell: nat)
      requires Valid(g) && handle.val == NULL
      requires g.Free(cell) && |referent| == g.ptr
      modifies handle`val, fields, g, g.memory
      ensures Valid(g) && handle.val == cell && refs == old(refs)
      ensures fields.field == old(fields.field)[referent := this]
      ensures g.Contents() == WrapStore(old(g.Contents()), referent, cell, handle.location)
    {
      fields.field := fields.field[referent := this];
      handle.ResetToLocal(g, Some(referent), cell);
      handle.SetWeak(g, WEAK_CALLBACK, handle.location);
    }

    method Ref(g: GlobalHandles)
      requires Valid(g) && handle.val != NULL && refs < MAX_INT
      modifies this`refs, g`weak, g.memory
      ensures Valid(g) && refs == old(refs) + 1
      ensures g.Contents() == CellStore.ClearWeak(old(g.Contents()), handle.val)
    {
      handle.ClearWeak(g);
      refs := refs + 1;
    }

    /** `Unref()`; its assert that the handle is not weak needs no requirement in reachable states. */
    method Unref(g: GlobalHandles)
      requires Valid(g) && handle.val != NULL && refs > 0
      modifies this`refs, g`weak, g.memory
      ensures Valid(g) && refs == old(refs) - 1
      ensures old(refs) == 1 ==>
        g.Contents() == CellStore.MakeWeak(old(g.Contents()), handle.val, Callback(WEAK_CALLBACK, handle.location))
      ensures old(refs) > 1 ==> g.Contents() == old(g.Contents())
    {
      refs := refs - 1;
      if refs == 0 {
        handle.SetWeak(g, WEAK_CALLBACK, handle.location);
      }
    }

    /** `~ObjectWrap`, followed by the destructor of its handle. */
    method Destroy(g: GlobalHandles)
      requires Valid(g)
      modifies handle`val, g, g.memory
      ensures Valid(g) && handle.val == NULL && refs == old(refs)
      ensures g.Contents() == DestructorStore(old(g.Contents()), old(handle.val))
      ensures old(handle.val) == NULL ==> g.Contents() == old(g.Contents())
      ensures old(handle.val) != NULL ==> Released(old(g.Contents()), g.Contents(), old(handle.val))
    {
      ghost var was := g.Contents();
      if handle.val != NULL {
        DestructorReleases(was, handle.val);
        handle.ClearWeak(g);
        handle.Reset(g);
      }
      handle.Destroy(g);
    }

    /** The body of `WeakCallback`: reset, then delete; the destructor finds the handle empty. */
    method WeakCallback(g: GlobalHandles)
      requires Valid(g) && refs == 0
      modifies handle`val, g, g.memory
      ensures Valid(g) && handle.val == NULL
      ensures g.Contents() == CellStore.Reset(old(g.Contents()), old(handle.val))
    {
      handle.Reset(g);
      Destroy(g);
    }

    static method Unwrap(fields: InternalFields, referent: Word) returns (wrap: ObjectWrap)
      requires referent in fields.field
      ensures wrap == fields.field[referent]
    {
      wrap := fields.field[referent];
    }
  }
}
