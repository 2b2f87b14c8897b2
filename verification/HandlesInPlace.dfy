/**
 Runs of handle operations on bytes.  A program keeps its handle objects by the address of their
 `val_` and performs each operation with the methods of their classes.  What those methods require
 is not an assumption here: it follows from the invariant of `HandleRuns`, so a run on bytes and
 handle objects does what the run of worlds does.
 */
module HandlesInPlace {
  import opened NodeImage
  import opened CellStore
  import opened Options
  import opened HandleRuns
  import opened GlobalHandles
  import opened PersistentHandle
  import opened TracedHandle

  /** The handle is empty or names a live cell. */
  predicate Named(w: World, h: nat) { h in w.vars && (w.vars[h].val == NULL || w.vars[h].val in w.store.cells) }

  /** So are both, and they name different cells. */
  predicate NamedApart(w: World, h: nat, k: nat) {
    Named(w, h) && Named(w, k) && (h != k && w.vars[k].val != NULL ==> w.vars[k].val != w.vars[h].val)
  }

  /** The bytes of a new node fit and are free, once the cell `released` is disposed. */
  predicate RoomAt(ptr: nat, size: nat, w: World, cell: nat, released: nat) {
    && cell + NodeSize(ptr) <= size
    && forall a | a in w.store.cells.Keys - {released} :: Apart(ptr, a, cell)
  }

  predicate IsWord(ptr: nat, that: Option<Word>) { that.Some? ==> |that.value| == ptr }

  /** The allocator finds room, and object words are as long as pointers. */
  predicate Placed(ptr: nat, size: nat, w: World, op: Op)
    requires Enabled(w, op)
  {
    match op
    case FromLocal(_, _, that, cell) => RoomAt(ptr, size, w, cell, NULL) && IsWord(ptr, that)
    case FromPersistent(_, _, _, cell) => RoomAt(ptr, size, w, cell, NULL)
    case CopyConstruct(_, _, _, cell) => RoomAt(ptr, size, w, cell, NULL)
    case ResetToLocal(h, that, cell) => RoomAt(ptr, size, w, cell, w.vars[h].val) && IsWord(ptr, that)
    case ResetToPersistent(h, _, cell) => RoomAt(ptr, size, w, cell, w.vars[h].val)
    case CopyAssign(h, _, cell) => RoomAt(ptr, size, w, cell, w.vars[h].val)
    case GcRelocate(f) => forall c | c in w.store.cells :: |Moved(f, w.store.cells[c].referent)| == ptr
    case _ => true
  }

  /** A destructor, up to the ledger of abandoned cells. */
  function Destroyed(w: World, h: nat): World
    requires h in w.vars
  {
    Forget(if w.vars[h].kind.ResetsInDestructor() then Released(w, h) else w, h)
  }

  lemma DestroyedIsStep(w: World, h: nat)
    requires h in w.vars
    ensures Destroyed(w, h).vars == Step(w, Op.Destroy(h)).vars && Destroyed(w, h).store == Step(w, Op.Destroy(h)).store
  {
    assert Released(w, h).vars - {h} == w.vars - {h} == LetGo(w, h).vars - {h};
  }

  /** Call `i` of the run compiles, and the allocator finds room for it. */
  predicate Possible(ptr: nat, size: nat, ops: seq<Op>, i: nat)
    requires i < |ops|
  {
    Enabled(Run(EMPTY_WORLD, ops[..i]), ops[i]) && Placed(ptr, size, Run(EMPTY_WORLD, ops[..i]), ops[i])
  }

  /** Above all live nodes there is room, whatever is disposed first. */
  lemma RoomAbove(ptr: nat, w: World, cell: nat, released: nat, h: nat, kind: Kind, that: Word)
    requires cell != NULL && |that| == ptr && forall a | a in w.store.cells :: a + ptr + 4 <= cell
    ensures Available(w, cell, released) && RoomAt(ptr, cell + ptr + 4, w, cell, released)
    ensures h !in w.vars ==>
      Enabled(w, Op.FromLocal(h, kind, Some(that), cell)) && Placed(ptr, cell + ptr + 4, w, Op.FromLocal(h, kind, Some(that), cell))
  {
  }

  lemma PrefixReady(ptr: nat, size: nat, ops: seq<Op>, i: nat)
    requires i < |ops| && Possible(ptr, size, ops, i)
    ensures Safe(Run(EMPTY_WORLD, ops[..i])) && Run(EMPTY_WORLD, ops[..i + 1]) == Step(Run(EMPTY_WORLD, ops[..i]), ops[i])
  {
    RunIsSafe(ops[..i]);
    OneMore(EMPTY_WORLD, ops[..i], ops[i]);
    assert ops[..i] + [ops[i]] == ops[..i + 1];
  }

  /** In a state a run can reach every handle is empty or names a live cell, and no two name one. */
  lemma AllNamedApart(w: World, h: nat, k: nat)
    requires Safe(w) && h in w.vars && k in w.vars
    ensures NamedApart(w, h, k)
  {
    if NonEmpty(w, h) { HeldIsLive(w, h, k); }
    if NonEmpty(w, k) { HeldIsLive(w, k, h); }
  }

  class Program {
    const g: GlobalHandles
    var persistents: map<nat, PersistentBase>
    var traced: map<nat, TracedReference>
    ghost var Repr: set<object>

    /** The object kept under this address is this variable. */
    ghost predicate Is(h: nat, v: Var)
      reads this, Repr
    {
      if h in persistents then
        var p := persistents[h]; p in Repr && p.location == h && h !in traced && !v.kind.Traced? && v == Var(p.kind, p.val)
      else
        h in traced && var t := traced[h]; t in Repr && t.location == h && v == Var(Traced, t.val)
    }

    /** The handle objects are these variables. */
    ghost predicate Stand(vars: map<nat, Var>)
      reads this, Repr
    {
      && this !in Repr && g !in Repr && g.memory !in Repr
      && (forall h :: h in persistents || h in traced ==> h in vars)
      && (forall h | h in vars :: Is(h, vars[h]))
    }

    /** The bytes and the handle objects stand for this world. */
    ghost predicate Represents(w: World)
      reads this, g, g.memory, Repr
    {
      g.Valid() && g.Contents() == w.store && Stand(w.vars)
    }

    constructor (ptr: nat, size: nat)
      ensures Represents(EMPTY_WORLD) && fresh(g) && fresh(g.memory) && g.ptr == ptr && g.memory.Length == size
      ensures Repr == {}
    {
      g := new GlobalHandles(ptr, size);
      persistents, traced, Repr := map[], map[], {};
    }

    // --- Each operation, where its handles name live cells ---

    method KeepPersistent(p: PersistentBase, ghost vars: map<nat, Var>)
      requires Stand(vars) && p.location !in vars && !p.kind.Traced?
      modifies this
      ensures Stand(vars[p.location := Var(p.kind, p.val)])
      ensures Repr == old(Repr) + {p}
    {
      persistents, Repr := persistents[p.location := p], Repr + {p};
      assert forall h | h in vars :: old(Is(h, vars[h])) && Is(h, vars[h]);
    }

    method KeepTraced(t: TracedReference, ghost vars: map<nat, Var>)
      requires Stand(vars) && t.location !in vars
      modifies this
      ensures Stand(vars[t.location := Var(Traced, t.val)])
      ensures Repr == old(Repr) + {t}
    {
      traced, Repr := traced[t.location := t], Repr + {t};
      assert forall h | h in vars :: old(Is(h, vars[h])) && Is(h, vars[h]);
    }

    method Declare(h: nat, kind: Kind, ghost w: World)
      requires Represents(w) && h !in w.vars
      modifies this
      ensures Represents(Put(w, h, kind, (w.store, NULL))) && fresh(Repr - old(Repr))
    {
      if kind.Traced? {
        var t := new TracedReference(h);
        KeepTraced(t, w.vars);
      } else {
        var p := new PersistentBase(kind, h);
        KeepPersistent(p, w.vars);
      }
    }

    method FromLocal(h: nat, kind: Kind, that: Option<Word>, cell: nat, ghost w: World)
      requires Represents(w) && h !in w.vars && g.Free(cell) && (that.Some? ==> |that.value| == g.ptr)
      modifies this, g, g.memory
      ensures Represents(Put(w, h, kind, New(w.store, that, cell))) && fresh(Repr - old(Repr))
    {
      if kind.Traced? {
        var t := new TracedReference(h);
        t.ResetToLocal(g, that, cell);
        KeepTraced(t, w.vars);
      } else {
        var p := new PersistentBase.FromLocal(g, kind, h, that, cell);
        KeepPersistent(p, w.vars);
      }
    }

    method FromPersistent(h: nat, kind: Kind, source: nat, cell: nat, ghost w: World)
      requires Represents(w) && h !in w.vars && Named(w, source) && g.Free(cell) && !kind.Traced? && source in persistents
      modifies this, g, g.memory
      ensures Represents(Put(w, h, kind, Clone(w.store, w.vars[source].val, cell))) && fresh(Repr - old(Repr))
    {
      assert Is(source, w.vars[source]);
      var p := new PersistentBase.FromPersistent(g, kind, h, persistents[source], cell);
      KeepPersistent(p, w.vars);
    }

    /** The copy constructors: an empty handle, and then the assignment. */
    method CopyConstructPersistent(h: nat, kind: Kind, source: nat, cell: nat, ghost w: World)
      requires Represents(w) && h !in w.vars && Named(w, source) && g.Free(cell) && !kind.Traced? && source in persistents
      modifies this, g, g.memory
      ensures Represents(Put(w, h, kind, Clone(w.store, w.vars[source].val, cell))) && fresh(Repr - old(Repr))
    {
      assert Is(source, w.vars[source]);
      var p := new PersistentBase(kind, h);
      p.Copy(g, persistents[source], cell);
      KeepPersistent(p, w.vars);
    }

    method CopyConstructTraced(h: nat, source: nat, cell: nat, ghost w: World)
      requires Represents(w) && h !in w.vars && Named(w, source) && g.Free(cell) && source in traced
      modifies this, g, g.memory
      ensures Represents(Put(w, h, Traced, Clone(w.store, w.vars[source].val, cell))) && fresh(Repr - old(Repr))
    {
      assert Is(source, w.vars[source]);
      var t := new TracedReference(h);
      t.CopyAssign(g, traced[source], cell);
      KeepTraced(t, w.vars);
    }

    method MoveConstructGlobal(h: nat, source: nat, ghost w: World)
      requires Represents(w) && h !in w.vars && Named(w, source) && source in persistents && w.vars[source].kind.Global?
      modifies this, g, Repr
      ensures Represents(Take(w, h, w.vars[source].kind, NULL, source)) && fresh(Repr - old(Repr))
    {
      assert Is(source, w.vars[source]);
      var p := new PersistentBase.Move(g, h, persistents[source]);
      forall i | i in w.vars && i != source ensures Is(i, w.vars[i]) { assert old(Is(i, w.vars[i])); }
      StandAgain(w.vars, source, Var(w.vars[source].kind, NULL));
      KeepPersistent(p, w.vars[source := Var(w.vars[source].kind, NULL)]);
    }

    method MoveConstructTraced(h: nat, source: nat, ghost w: World)
      requires Represents(w) && h !in w.vars && Named(w, source) && source in traced
      modifies this, g, Repr
      ensures Represents(Take(w, h, w.vars[source].kind, NULL, source)) && fresh(Repr - old(Repr))
    {
      assert Is(source, w.vars[source]);
      var t := new TracedReference(h);
      t.MoveAssign(g, traced[source]);
      forall i | i in w.vars && i != source ensures Is(i, w.vars[i]) { assert old(Is(i, w.vars[i])); }
      StandAgain(w.vars, source, Var(w.vars[source].kind, NULL));
      KeepTraced(t, w.vars[source := Var(w.vars[source].kind, NULL)]);
    }

    // --- Handles that exist ---

    /** Except perhaps under these two addresses, the handle objects are these variables. */
    ghost predicate StandBut(vars: map<nat, Var>, h: nat, k: nat)
      reads this, Repr
    {
      && this !in Repr && g !in Repr && g.memory !in Repr
      && (forall i :: i in persistents || i in traced ==> i in vars)
      && (forall i | i in vars && i != h && i != k :: Is(i, vars[i]))
    }

    lemma StandAgain(vars: map<nat, Var>, h: nat, v: Var)
      requires StandBut(vars, h, h) && Is(h, v)
      ensures Stand(vars[h := v])
    {
    }

    lemma BothStandAgain(vars: map<nat, Var>, h: nat, v: Var, k: nat, u: Var)
      requires StandBut(vars, h, k) && Is(h, v) && Is(k, u) && h != k
      ensures Stand(vars[k := u][h := v])
    {
    }

    method ResetHandle(h: nat, ghost w: World)
      requires Represents(w) && Named(w, h)
      modifies g, Repr
      ensures Represents(Put(w, h, w.vars[h].kind, (Reset(w.store, w.vars[h].val), NULL)))
    {
      assert Is(h, w.vars[h]);
      if h in traced { traced[h].Reset(g); } else { persistents[h].Reset(g); }
      forall i | i in w.vars && i != h ensures Is(i, w.vars[i]) { assert old(Is(i, w.vars[i])); }
      StandAgain(w.vars, h, Var(w.vars[h].kind, NULL));
    }

    method AssignCopy(h: nat, source: nat, cell: nat, ghost w: World)
      requires Represents(w) && NamedApart(w, h, source) && g.FreeBut(cell, w.vars[h].val)
      requires w.vars[h].kind.Traced? <==> w.vars[source].kind.Traced?
      modifies g, g.memory, Repr
      ensures Represents(if w.vars[h].kind.Traced? && h == source then w
                         else Put(w, h, w.vars[h].kind, CopyOnto(w.store, w.vars[h].val, w.vars[source].val, h == source, cell)))
    {
      assert Is(h, w.vars[h]) && Is(source, w.vars[source]);
      if h in persistents { CopyPersistent(h, source, cell, w); } else if h != source { CopyTraced(h, source, cell, w); }
    }

    method MovePersistent(h: nat, source: nat, ghost w: World)
      requires Represents(w) && h != source && NamedApart(w, h, source) && h in persistents && source in persistents
      modifies g, Repr
      ensures persistents == old(persistents) && traced == old(traced)
      ensures StandBut(w.vars, h, source) && Is(source, Var(w.vars[source].kind, NULL))
      ensures var r := MoveOnto(w.store, w.vars[h].val, w.vars[source].val, h);
        g.Valid() && g.Contents() == r.0 && Is(h, Var(w.vars[h].kind, r.1))
    {
      assert Is(h, w.vars[h]) && Is(source, w.vars[source]);
      persistents[h].MoveAssign(g, persistents[source]);
      forall i | i in w.vars && i != h && i != source ensures Is(i, w.vars[i]) { assert old(Is(i, w.vars[i])); }
    }

    method MoveTraced(h: nat, source: nat, ghost w: World)
      requires Represents(w) && h != source && NamedApart(w, h, source) && h in traced && source in traced
      modifies g, Repr
      ensures StandBut(w.vars, h, source) && Is(source, Var(w.vars[source].kind, NULL))
      ensures var r := MoveOnto(w.store, w.vars[h].val, w.vars[source].val, h);
        g.Valid() && g.Contents() == r.0 && Is(h, Var(w.vars[h].kind, r.1))
    {
      assert Is(h, w.vars[h]) && Is(source, w.vars[source]);
      traced[h].MoveAssign(g, traced[source]);
      forall i | i in w.vars && i != h && i != source ensures Is(i, w.vars[i]) { assert old(Is(i, w.vars[i])); }
    }

    method MoveAssign(h: nat, source: nat, ghost w: World)
      requires Represents(w) && h != source && NamedApart(w, h, source)
      requires w.vars[h].kind.Traced? <==> w.vars[source].kind.Traced?
      modifies g, Repr
      ensures Represents(Take(w, h, w.vars[h].kind, w.vars[h].val, source))
    {
      assert Is(h, w.vars[h]) && Is(source, w.vars[source]);
      if h in traced { MoveTraced(h, source, w); } else { MovePersistent(h, source, w); }
      ghost var r := MoveOnto(w.store, w.vars[h].val, w.vars[source].val, h);
      BothStandAgain(w.vars, h, Var(w.vars[h].kind, r.1), source, Var(w.vars[source].kind, NULL));
    }

    method ResetToLocal(h: nat, that: Option<Word>, cell: nat, ghost w: World)
      requires Represents(w) && Named(w, h) && g.FreeBut(cell, w.vars[h].val) && (that.Some? ==> |that.value| == g.ptr)
      modifies g, g.memory, Repr
      ensures Represents(Put(w, h, w.vars[h].kind, New(Reset(w.store, w.vars[h].val), that, cell)))
    {
      assert Is(h, w.vars[h]);
      if h in traced { traced[h].ResetToLocal(g, that, cell); } else { persistents[h].ResetToLocal(g, that, cell); }
      forall i | i in w.vars && i != h ensures Is(i, w.vars[i]) { assert old(Is(i, w.vars[i])); }
      StandAgain(w.vars, h, Var(w.vars[h].kind, New(Reset(w.store, w.vars[h].val), that, cell).1));
    }

    /** `Persistent::Copy` and `Reset(isolate, other)`. */
    method CopyPersistent(h: nat, source: nat, cell: nat, ghost w: World)
      requires Represents(w) && NamedApart(w, h, source) && h in persistents && source in persistents
      requires g.FreeBut(cell, w.vars[h].val)
      modifies g, g.memory, Repr
      ensures Represents(Put(w, h, w.vars[h].kind, CopyOnto(w.store, w.vars[h].val, w.vars[source].val, h == source, cell)))
    {
      assert Is(h, w.vars[h]) && Is(source, w.vars[source]);
      persistents[h].Copy(g, persistents[source], cell);
      forall i | i in w.vars && i != h ensures Is(i, w.vars[i]) { assert old(Is(i, w.vars[i])); }
      StandAgain(w.vars, h, Var(w.vars[h].kind, CopyOnto(w.store, w.vars[h].val, w.vars[source].val, h == source, cell).1));
    }

    method CopyTraced(h: nat, source: nat, cell: nat, ghost w: World)
      requires Represents(w) && h != source && NamedApart(w, h, source) && h in traced && source in traced
      requires g.FreeBut(cell, w.vars[h].val)
      modifies g, g.memory, Repr
      ensures Represents(Put(w, h, w.vars[h].kind, CopyOnto(w.store, w.vars[h].val, w.vars[source].val, false, cell)))
    {
      assert Is(h, w.vars[h]) && Is(source, w.vars[source]);
      traced[h].CopyAssign(g, traced[source], cell);
      forall i | i in w.vars && i != h ensures Is(i, w.vars[i]) { assert old(Is(i, w.vars[i])); }
      StandAgain(w.vars, h, Var(w.vars[h].kind, CopyOnto(w.store, w.vars[h].val, w.vars[source].val, false, cell).1));
    }

    /** Also what the collector does to a phantom handle of any kind. */
    method Empty(h: nat, ghost w: World)
      requires Represents(w) && h in w.vars
      modifies Repr
      ensures Represents(LetGo(w, h))
    {
      assert Is(h, w.vars[h]);
      if h in traced { traced[h].val := NULL; } else { persistents[h].Empty(); }
      forall i | i in w.vars && i != h ensures Is(i, w.vars[i]) { assert old(Is(i, w.vars[i])); }
      StandAgain(w.vars, h, Var(w.vars[h].kind, NULL));
    }

    method Drop(h: nat, ghost w: World)
      requires Represents(w)
      modifies this
      ensures Represents(Forget(w, h)) && Repr == old(Repr)
    {
      persistents, traced := persistents - {h}, traced - {h};
      forall i | i in w.vars && i != h ensures Is(i, w.vars[i]) { assert old(Is(i, w.vars[i])); }
    }

    method RunDestructor(h: nat, ghost w: World)
      requires Represents(w) && Named(w, h) && h in persistents
      modifies g, Repr
      ensures Represents(if w.vars[h].kind.ResetsInDestructor() then Released(w, h) else w)
    {
      assert Is(h, w.vars[h]);
      persistents[h].Destroy(g);
      forall i | i in w.vars && i != h ensures Is(i, w.vars[i]) { assert old(Is(i, w.vars[i])); }
      if w.vars[h].kind.ResetsInDestructor() { StandAgain(w.vars, h, Var(w.vars[h].kind, NULL)); }
    }

    method Destroy(h: nat, ghost w: World)
      requires Represents(w) && Named(w, h)
      modifies this, g, Repr
      ensures Represents(Destroyed(w, h)) && Repr == old(Repr)
    {
      assert Is(h, w.vars[h]);
      if h in persistents { RunDestructor(h, w); }
      Drop(h, if w.vars[h].kind.ResetsInDestructor() then Released(w, h) else w);
    }

    // --- Nodes ---

    method SetWeak(h: nat, callback: nat, parameter: nat, ghost w: World)
      requires Represents(w) && Named(w, h) && w.vars[h].val != NULL && h in persistents
      modifies g, g.memory
      ensures Represents(w.(store := MakeWeak(w.store, w.vars[h].val, Callback(callback, parameter))))
    {
      assert Is(h, w.vars[h]);
      persistents[h].SetWeak(g, callback, parameter);
    }

    method SetPhantom(h: nat, ghost w: World)
      requires Represents(w) && Named(w, h) && w.vars[h].val != NULL && h in persistents
      modifies g, g.memory
      ensures Represents(w.(store := MakeWeak(w.store, w.vars[h].val, Phantom(h))))
    {
      assert Is(h, w.vars[h]);
      persistents[h].SetPhantom(g);
    }

    method ClearWeakHandle(h: nat, ghost w: World)
      requires Represents(w) && Named(w, h) && w.vars[h].val != NULL && h in persistents
      modifies g, g.memory
      ensures Represents(w.(store := ClearWeak(w.store, w.vars[h].val)))
    {
      assert Is(h, w.vars[h]);
      persistents[h].ClearWeak(g);
    }

    method SetWrapperClassId(h: nat, id: bv16, ghost w: World)
      requires Represents(w) && Named(w, h)
      modifies g.memory
      ensures Represents(if w.vars[h].val == NULL then w else w.(store := SetClassId(w.store, w.vars[h].val, id)))
    {
      assert Is(h, w.vars[h]);
      if h in traced { traced[h].SetWrapperClassId(g, id); } else { persistents[h].SetWrapperClassId(g, id); }
    }

    method UpdateNodeFlag(h: nat, value: bool, shift: nat, ghost w: World)
      requires Represents(w) && Named(w, h) && w.vars[h].val != NULL && 3 <= shift <= 7
      modifies g.memory
      ensures Represents(w.(store := UpdateFlag(w.store, w.vars[h].val, value, shift)))
    {
      assert Is(h, w.vars[h]);
      g.UpdateFlag(if h in traced then traced[h].val else persistents[h].val, value, shift);
    }

    method GcRelocate(f: map<Word, Word>, ghost w: World)
      requires Represents(w) && forall c | c in w.store.cells :: |Moved(f, w.store.cells[c].referent)| == g.ptr
      modifies g.memory
      ensures Represents(w.(store := Relocate(w.store, f)))
    {
      g.Relocate(f);
    }

    method GcMarkPending(cell: nat, ghost w: World)
      requires Represents(w) && cell in w.store.cells
      modifies g.memory
      ensures Represents(w.(store := MarkPending(w.store, cell)))
    {
      g.MarkPending(cell);
    }

    method GcNullPhantom(cell: nat, ghost w: World)
      requires Represents(w) && cell in w.store.cells && cell in w.store.weak && w.store.weak[cell].Phantom?
      modifies g, Repr
      ensures Represents(NullPhantom(w, cell))
    {
      var location := g.weak[cell].location;
      ghost var r := w;
      if location in persistents || location in traced {
        Empty(location, w);
        r := LetGo(w, location);
      }
      g.DisposeGlobal(cell);
    }

    // --- Any operation, in any state a run can reach ---

    lemma RoomIsFree(w: World, cell: nat, released: nat)
      requires Represents(w) && Available(w, cell, released) && RoomAt(g.ptr, g.memory.Length, w, cell, released)
      ensures g.FreeBut(cell, released)
    {
      assert g.live == w.store.cells.Keys;
    }

    lemma KeptByKind(w: World, h: nat)
      requires Represents(w) && h in w.vars
      ensures if w.vars[h].kind.Traced? then h in traced else h in persistents
    {
      assert Is(h, w.vars[h]);
    }

    ghost predicate Ready(w: World, op: Op)
      reads this, g, g.memory, Repr
    {
      Represents(w) && Safe(w) && Enabled(w, op) && Placed(g.ptr, g.memory.Length, w, op)
    }

    method Construct(op: Op, ghost w: World)
      requires Ready(w, op) && (op.Declare? || op.FromLocal? || op.FromPersistent? || op.CopyConstruct? || op.MoveConstruct?)
      modifies this, g, g.memory, Repr
      ensures Represents(Step(w, op)) && fresh(Repr - old(Repr))
    {
      match op
      case Declare(h, kind) => Declare(h, kind, w);
      case FromLocal(h, kind, that, cell) =>
        RoomIsFree(w, cell, NULL);
        FromLocal(h, kind, that, cell, w);
      case FromPersistent(h, kind, source, cell) =>
        AllNamedApart(w, source, source);
        KeptByKind(w, source);
        RoomIsFree(w, cell, NULL);
        FromPersistent(h, kind, source, cell, w);
      case CopyConstruct(h, kind, source, cell) =>
        AllNamedApart(w, source, source);
        KeptByKind(w, source);
        RoomIsFree(w, cell, NULL);
        if kind.Traced? { CopyConstructTraced(h, source, cell, w); } else { CopyConstructPersistent(h, kind, source, cell, w); }
      case MoveConstruct(h, source) =>
        AllNamedApart(w, source, source);
        KeptByKind(w, source);
        if source in traced { MoveConstructTraced(h, source, w); } else { MoveConstructGlobal(h, source, w); }
    }

    method Assign(op: Op, ghost w: World)
      requires Ready(w, op)
      requires op.ResetHandle? || op.ResetToLocal? || op.ResetToPersistent? || op.CopyAssign? || op.MoveAssign?
      modifies g, g.memory, Repr
      ensures Represents(Step(w, op))
    {
      AllNamedApart(w, op.h, op.h);
      KeptByKind(w, op.h);
      match op
      case ResetHandle(h) => ResetHandle(h, w);
      case ResetToLocal(h, that, cell) =>
        RoomIsFree(w, cell, w.vars[h].val);
        ResetToLocal(h, that, cell, w);
      case ResetToPersistent(h, source, cell) =>
        AllNamedApart(w, h, source);
        KeptByKind(w, source);
        RoomIsFree(w, cell, w.vars[h].val);
        CopyPersistent(h, source, cell, w);
      case CopyAssign(h, source, cell) =>
        AllNamedApart(w, h, source);
        KeptByKind(w, source);
        RoomIsFree(w, cell, w.vars[h].val);
        AssignCopy(h, source, cell, w);
      case MoveAssign(h, source) =>
        AllNamedApart(w, h, source);
        if h != source { MoveAssign(h, source, w); }
    }

    method Mark(op: Op, ghost w: World)
      requires Represents(w) && Enabled(w, op)
      requires op.SetWeak? || op.SetPhantom? || op.ClearWeakHandle? || op.SetWrapperClassId? || op.UpdateNodeFlag?
      requires Named(w, op.h)
      modifies g, g.memory
      ensures Represents(Step(w, op))
    {
      KeptByKind(w, op.h);
      match op
      case SetWeak(h, callback, parameter) => SetWeak(h, callback, parameter, w);
      case SetPhantom(h) => SetPhantom(h, w);
      case ClearWeakHandle(h) => ClearWeakHandle(h, w);
      case SetWrapperClassId(h, id) => SetWrapperClassId(h, id, w);
      case UpdateNodeFlag(h, value, shift) => UpdateNodeFlag(h, value, shift, w);
    }

    method Collect(op: Op, ghost w: World)
      requires Represents(w) && Enabled(w, op) && Placed(g.ptr, g.memory.Length, w, op)
      requires NodeOp(op) && w.store.weak.Keys <= w.store.cells.Keys
      modifies g, g.memory, Repr
      ensures Represents(Step(w, op))
    {
      match op
      case GcRelocate(f) => GcRelocate(f, w);
      case GcMarkPending(cell) => GcMarkPending(cell, w);
      case GcNullPhantom(cell) => GcNullPhantom(cell, w);
    }

    /** On bytes and handle objects every operation does what it does to the world they stand for. */
    method Perform(op: Op, ghost w: World)
      requires Ready(w, op)
      modifies this, g, g.memory, Repr
      ensures Represents(Step(w, op)) && fresh(Repr - old(Repr))
    {
      if op.Declare? || op.FromLocal? || op.FromPersistent? || op.CopyConstruct? || op.MoveConstruct? {
        Construct(op, w);
      } else if op.ResetHandle? || op.ResetToLocal? || op.ResetToPersistent? || op.CopyAssign? || op.MoveAssign? {
        Assign(op, w);
      } else if op.Empty? {
        Empty(op.h, w);
      } else if op.Destroy? {
        AllNamedApart(w, op.h, op.h);
        Destroy(op.h, w);
        DestroyedIsStep(w, op.h);
      } else if NodeOp(op) {
        Collect(op, w);
      } else {
        AllNamedApart(w, op.h, op.h);
        Mark(op, w);
      }
    }

    /**
     A whole run.  All that is asked is that every call compiles and that the allocator finds room:
     no operation needs to be told that its handles name live cells.
     */
    method PerformAll(ops: seq<Op>)
      requires Represents(EMPTY_WORLD)
      requires forall i | 0 <= i < |ops| :: Possible(g.ptr, g.memory.Length, ops, i)
      modifies this, g, g.memory, Repr
      ensures Represents(Run(EMPTY_WORLD, ops))
    {
      for i := 0 to |ops|
        invariant Represents(Run(EMPTY_WORLD, ops[..i])) && fresh(Repr - old(Repr))
      {
        PrefixReady(g.ptr, g.memory.Length, ops, i);
        Perform(ops[i], Run(EMPTY_WORLD, ops[..i]));
      }
      assert ops[..|ops|] == ops;
    }
  }
}
