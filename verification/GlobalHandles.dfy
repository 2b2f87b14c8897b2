/** The in-place accessors of `v8::internal::Internals` for node bytes. */
module Internals {
  import opened NodeImage

  method SetWrapperClassId(memory: array<bv8>, ptr: nat, obj: nat, id: bv16)
    requires Fits(ptr, memory[..], obj)
    modifies memory
    ensures memory[..] == WriteBytes(ptr, old(memory[..]), ClassIdWrite(obj, id))
    ensures Decode(ptr, memory[..], obj) == WriteRecord(old(Decode(ptr, memory[..], obj)), ClassIdWrite(obj, id))
  {
    OwnRecord(ptr, memory[..], ClassIdWrite(obj, id));
    memory[obj + ClassIdOffset(ptr)] := Low(id);
    memory[obj + ClassIdOffset(ptr) + 1] := High(id);
  }

  method WrapperClassId(memory: array<bv8>, ptr: nat, obj: nat) returns (id: bv16)
    requires Fits(ptr, memory[..], obj)
    ensures id == Decode(ptr, memory[..], obj).classId
  {
    id := U16(memory[obj + ClassIdOffset(ptr)], memory[obj + ClassIdOffset(ptr) + 1]);
  }

  method GetNodeFlag(memory: array<bv8>, ptr: nat, obj: nat, shift: nat) returns (bits: bv8)
    requires Fits(ptr, memory[..], obj)
    ensures 3 <= shift <= 7 ==> (bits != 0 <==> shift in Decode(ptr, memory[..], obj).flags)
  {
    bits := memory[obj + FlagsOffset(ptr)] & Bit(shift);
  }

  method UpdateNodeFlag(memory: array<bv8>, ptr: nat, obj: nat, value: bool, shift: nat)
    requires Fits(ptr, memory[..], obj)
    modifies memory
    ensures memory[..] == WriteBytes(ptr, old(memory[..]), FlagWrite(obj, shift, value))
    ensures InRange(FlagWrite(obj, shift, value)) ==>
      Decode(ptr, memory[..], obj) == WriteRecord(old(Decode(ptr, memory[..], obj)), FlagWrite(obj, shift, value))
  {
    if 3 <= shift <= 7 { OwnRecord(ptr, memory[..], FlagWrite(obj, shift, value)); }
    var addr := obj + FlagsOffset(ptr);
    memory[addr] := FlagByte(memory[addr], value, shift);
  }

  method GetNodeState(memory: array<bv8>, ptr: nat, obj: nat) returns (state: bv8)
    requires Fits(ptr, memory[..], obj)
    ensures state == Decode(ptr, memory[..], obj).state
  {
    state := memory[obj + FlagsOffset(ptr)] & NODE_STATE_MASK;
  }

  method UpdateNodeState(memory: array<bv8>, ptr: nat, obj: nat, value: bv8)
    requires Fits(ptr, memory[..], obj)
    modifies memory
    ensures memory[..] == WriteBytes(ptr, old(memory[..]), StateWrite(obj, value))
    ensures InRange(StateWrite(obj, value)) ==>
      Decode(ptr, memory[..], obj) == WriteRecord(old(Decode(ptr, memory[..], obj)), StateWrite(obj, value))
  {
    if value <= NODE_STATE_MASK { OwnRecord(ptr, memory[..], StateWrite(obj, value)); }
    var addr := obj + FlagsOffset(ptr);
    memory[addr] := StateByte(memory[addr], value);
  }
}

/** The store of global-handle nodes: bytes in memory, refining `CellStore.Store`. */
module GlobalHandles {
  import opened NodeImage
  import CellStore
  import Internals

  /** Writing a fresh node over free bytes adds its record and disturbs no other. */
  lemma FreshCell(ptr: nat, was: seq<bv8>, now: seq<bv8>, live: set<nat>, cell: nat, referent: Word)
    requires Layout(ptr, was, live) && Fits(ptr, was, cell) && |now| == |was| && cell !in live
    requires forall a | a in live :: Apart(ptr, a, cell)
    requires forall i | 0 <= i < |was| && !(cell <= i < cell + NodeSize(ptr)) :: now[i] == was[i]
    requires now[cell..cell + ptr] == referent
    requires now[cell + ClassIdOffset(ptr)..cell + NodeSize(ptr)] == [0, 0, 0, NODE_STATE_NORMAL]
    ensures Layout(ptr, now, live + {cell})
    ensures View(ptr, now, live + {cell}) == View(ptr, was, live)[cell := CellStore.FreshNode(referent)]
  {
    forall a | a in live ensures Decode(ptr, now, a) == Decode(ptr, was, a) {
      assert Apart(ptr, a, cell);
      SameBytes(ptr, was, now, a);
    }
    FreshBytes(ptr, now, cell, referent);
  }

  lemma SameBytes(ptr: nat, was: seq<bv8>, now: seq<bv8>, a: nat)
    requires Fits(ptr, was, a) && |now| == |was|
    requires forall i | a <= i < a + NodeSize(ptr) :: now[i] == was[i]
    ensures Decode(ptr, now, a) == Decode(ptr, was, a)
  {
    assert now[a..a + ptr] == was[a..a + ptr];
  }

  lemma FreshBytes(ptr: nat, now: seq<bv8>, cell: nat, referent: Word)
    requires Fits(ptr, now, cell) && now[cell..cell + ptr] == referent
    requires now[cell + ClassIdOffset(ptr)..cell + NodeSize(ptr)] == [0, 0, 0, NODE_STATE_NORMAL]
    ensures Decode(ptr, now, cell) == CellStore.FreshNode(referent)
  {
    var tail := now[cell + ClassIdOffset(ptr)..cell + NodeSize(ptr)];
    assert tail[0] == 0 && tail[1] == 0 && tail[2] == 0 && tail[3] == NODE_STATE_NORMAL;
    NoFlags();
  }

  lemma NoFlags()
    ensures FlagsOf(NODE_STATE_NORMAL) == {} && U16(0, 0) == 0 && NODE_STATE_NORMAL & NODE_STATE_MASK == NODE_STATE_NORMAL
  {
    forall t: nat | 3 <= t <= 7
      ensures NODE_STATE_NORMAL & Bit(t) == 0
    {
    }
  }

  /** Writing the object word of one node changes nothing else. */
  lemma ReferentWritten(ptr: nat, was: seq<bv8>, now: seq<bv8>, live: set<nat>, cell: nat, referent: Word)
    requires Layout(ptr, was, live) && cell in live && |now| == |was|
    requires now[cell..cell + ptr] == referent
    requires forall i | 0 <= i < |was| && !(cell <= i < cell + ptr) :: now[i] == was[i]
    ensures Layout(ptr, now, live)
    ensures View(ptr, now, live) == View(ptr, was, live)[cell := Decode(ptr, was, cell).(referent := referent)]
  {
    forall a | a in live && a != cell ensures Decode(ptr, now, a) == Decode(ptr, was, a) {
      assert Apart(ptr, a, cell);
      SameBytes(ptr, was, now, a);
    }
    assert Decode(ptr, now, cell) == Decode(ptr, was, cell).(referent := referent);
  }

  /** The collector visited the roots but those in `todo`. */
  ghost predicate Visited(was: map<nat, Node>, now: map<nat, Node>, f: map<Word, Word>, todo: set<nat>) {
    && now.Keys == was.Keys
    && forall c | c in was ::
         now[c] == if c in todo then was[c] else was[c].(referent := CellStore.Moved(f, was[c].referent))
  }

  lemma VisitOne(was: map<nat, Node>, now: map<nat, Node>, f: map<Word, Word>, todo: set<nat>, c: nat)
    requires Visited(was, now, f, todo) && c in todo && c in was
    ensures now[c] == was[c]
    ensures Visited(was, now[c := now[c].(referent := CellStore.Moved(f, now[c].referent))], f, todo - {c})
  {
  }

  lemma VisitedAll(s: CellStore.Store, now: map<nat, Node>, f: map<Word, Word>)
    requires Visited(s.cells, now, f, {})
    ensures s.(cells := now) == CellStore.Relocate(s, f)
  {
    assert now == CellStore.Relocate(s, f).cells;
  }

  class GlobalHandles {
    const ptr: nat
    const memory: array<bv8>
    var live: set<nat>
    var weak: map<nat, CellStore.Weakness>
    ghost var created: nat
    ghost var disposed: nat

    ghost predicate Valid()
      reads this, memory
    {
      && Layout(ptr, memory[..], live)
      && CellStore.NULL !in live
    }

    ghost function Contents(): CellStore.Store
      requires Valid()
      reads this, memory
    {
      CellStore.Store(View(ptr, memory[..], live), weak, created, disposed, true)
    }

    /** An address the allocator may hand out. */
    ghost predicate Free(cell: nat)
      reads this, memory
    {
      FreeBut(cell, CellStore.NULL)
    }

    /** An address the allocator may hand out once `released` is disposed. */
    ghost predicate FreeBut(cell: nat, released: nat)
      reads this, memory
    {
      && cell != CellStore.NULL && cell !in live - {released}
      && Fits(ptr, memory[..], cell)
      && forall a | a in live - {released} :: Apart(ptr, a, cell)
    }

    constructor (ptr: nat, size: nat)
      ensures Valid() && fresh(memory) && this.ptr == ptr && memory.Length == size
      ensures Contents() == CellStore.Store(map[], map[], 0, 0, true)
    {
      this.ptr := ptr;
      memory := new bv8[size];
      live, weak, created, disposed := {}, map[], 0, 0;
    }

    method GlobalizeReference(referent: Word, cell: nat)
      requires Valid() && Free(cell) && |referent| == ptr
      modifies this, memory
      ensures Valid() && live == old(live) + {cell}
      ensures Contents() == CellStore.Globalize(old(Contents()), cell, referent)
    {
      ghost var was := memory[..];
      forall i | 0 <= i < ptr { memory[cell + i] := referent[i]; }
      memory[cell + ClassIdOffset(ptr)] := 0;
      memory[cell + ClassIdOffset(ptr) + 1] := 0;
      memory[cell + ClassIdOffset(ptr) + 2] := 0;
      memory[cell + FlagsOffset(ptr)] := NODE_STATE_NORMAL;
      live, weak, created := live + {cell}, weak - {cell}, created + 1;
      assert memory[..][cell..cell + ptr] == referent;
      assert memory[..][cell + ClassIdOffset(ptr)..cell + NodeSize(ptr)] == [0, 0, 0, NODE_STATE_NORMAL];
      FreshCell(ptr, was, memory[..], old(live), cell, referent);
    }

    method CopyGlobalReference(from: nat, cell: nat)
      requires Valid() && Free(cell) && from in live
      modifies this, memory
      ensures Valid() && live == old(live) + {cell}
      ensures Contents() == CellStore.CopyGlobal(old(Contents()), from, cell)
    {
      GlobalizeReference(memory[from..from + ptr], cell);
    }

    method DisposeGlobal(cell: nat)
      requires Valid() && cell in live
      modifies this
      ensures Valid() && live == old(live) - {cell}
      ensures Contents() == CellStore.Dispose(old(Contents()), cell)
    {
      live, weak, disposed := live - {cell}, weak - {cell}, disposed + 1;
    }

    method MakeWeak(cell: nat, weakness: CellStore.Weakness)
      requires Valid() && cell in live
      modifies this`weak, memory
      ensures Valid() && Contents() == CellStore.MakeWeak(old(Contents()), cell, weakness)
    {
      WriteRefines(ptr, memory[..], live, StateWrite(cell, NODE_STATE_IS_WEAK));
      Internals.UpdateNodeState(memory, ptr, cell, NODE_STATE_IS_WEAK);
      weak := weak[cell := weakness];
    }

    method ClearWeak(cell: nat)
      requires Valid() && cell in live
      modifies this`weak, memory
      ensures Valid() && Contents() == CellStore.ClearWeak(old(Contents()), cell)
    {
      WriteRefines(ptr, memory[..], live, StateWrite(cell, NODE_STATE_NORMAL));
      Internals.UpdateNodeState(memory, ptr, cell, NODE_STATE_NORMAL);
      weak := weak - {cell};
    }

    method MoveGlobalReference(cell: nat, to: nat)
      requires Valid() && cell in live
      modifies this`weak
      ensures Valid() && Contents() == CellStore.MoveGlobal(old(Contents()), cell, to)
    {
      if cell in weak && weak[cell].Phantom? {
        weak := weak[cell := CellStore.Phantom(to)];
      }
    }

    method SetClassId(cell: nat, id: bv16)
      requires Valid() && cell in live
      modifies memory
      ensures Valid() && Contents() == CellStore.SetClassId(old(Contents()), cell, id)
    {
      WriteRefines(ptr, memory[..], live, ClassIdWrite(cell, id));
      Internals.SetWrapperClassId(memory, ptr, cell, id);
    }

    method UpdateFlag(cell: nat, value: bool, shift: nat)
      requires Valid() && cell in live && 3 <= shift <= 7
      modifies memory
      ensures Valid() && Contents() == CellStore.UpdateFlag(old(Contents()), cell, value, shift)
    {
      WriteRefines(ptr, memory[..], live, FlagWrite(cell, shift, value));
      Internals.UpdateNodeFlag(memory, ptr, cell, value, shift);
    }

    /** The collector picked a weak cell for its callback. */
    method MarkPending(cell: nat)
      requires Valid() && cell in live
      modifies memory
      ensures Valid() && Contents() == CellStore.MarkPending(old(Contents()), cell)
    {
      WriteRefines(ptr, memory[..], live, StateWrite(cell, NODE_STATE_IS_PENDING));
      Internals.UpdateNodeState(memory, ptr, cell, NODE_STATE_IS_PENDING);
    }

    /** The collector visits a root whose object it moved. */
    method SetReferent(cell: nat, referent: Word)
      requires Valid() && cell in live && |referent| == ptr
      modifies memory
      ensures Valid()
      ensures Contents().cells == old(Contents().cells)[cell := old(Contents().cells[cell]).(referent := referent)]
    {
      ghost var was := memory[..];
      forall i | 0 <= i < ptr { memory[cell + i] := referent[i]; }
      assert memory[..][cell..cell + ptr] == referent;
      ReferentWritten(ptr, was, memory[..], live, cell, referent);
    }

    method Visit(cell: nat, f: map<Word, Word>, ghost was: map<nat, Node>, ghost todo: set<nat>)
      requires Valid() && cell in live && cell in todo && Visited(was, Contents().cells, f, todo)
      requires |CellStore.Moved(f, was[cell].referent)| == ptr
      modifies memory
      ensures Valid() && Visited(was, Contents().cells, f, todo - {cell})
    {
      VisitOne(was, Contents().cells, f, todo, cell);
      SetReferent(cell, CellStore.Moved(f, memory[cell..cell + ptr]));
    }

    /** The collector moved objects and visits every root. */
    method Relocate(f: map<Word, Word>)
      requires Valid() && forall c | c in live :: |CellStore.Moved(f, Contents().cells[c].referent)| == ptr
      modifies memory
      ensures Valid() && Contents() == CellStore.Relocate(old(Contents()), f)
    {
      ghost var was := Contents();
      var todo := live;
      while todo != {}
        invariant Valid() && todo <= live && Visited(was.cells, Contents().cells, f, todo)
      {
        var c :| c in todo;
        Visit(c, f, was.cells, todo);
        todo := todo - {c};
      }
      VisitedAll(was, Contents().cells, f);
    }
  }
}
