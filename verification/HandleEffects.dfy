/**
 What each step does to the whole world, spelled out: the record of the cell it is about, the
 handle, the ledger and the counts, and that every other cell and its weakness stay as they were.
 */
module HandleEffects {
  import opened NodeImage
  import opened CellStore
  import opened Options
  import opened HandleRuns

  /** Outside `changed` the same cells are live, with the same records, and weak in the same way. */
  predicate SameElsewhere(s: Store, r: Store, changed: set<nat>) {
    && (forall c | c in s.cells && c !in changed :: c in r.cells && r.cells[c] == s.cells[c])
    && (forall c | c in r.cells && c !in changed :: c in s.cells)
    && (forall c | c in s.weak && c !in changed :: c in r.weak && r.weak[c] == s.weak[c])
    && (forall c | c in r.weak && c !in changed :: c in s.weak)
  }

  /** Nothing is created, disposed, forgotten or assigned. */
  predicate OnlyMarks(w: World, r: World) {
    && r.vars == w.vars && r.abandoned == w.abandoned && r.store.cells.Keys == w.store.cells.Keys
    && r.store.created == w.store.created && r.store.disposed == w.store.disposed && r.store.ok
  }

  /** The cell of `h`, if any, is disposed: it is gone, counted once, and nothing else happened to the store. */
  predicate Disposed(s: Store, r: Store, cell: nat) {
    && r.cells == s.cells - {cell} && r.weak == s.weak - {cell} && r.ok == s.ok
    && r.created == s.created && r.disposed == s.disposed + if cell == NULL then 0 else 1
  }

  // --- Which calls are possible ---

  /** What the constructors of each class take, given a free address. */
  lemma WhatConstructs(w: World, h: nat, kind: Kind, source: nat, that: Option<Word>, cell: nat)
    requires h !in w.vars && source in w.vars && cell != NULL && cell !in w.store.cells
    ensures Enabled(w, Declare(h, kind)) && Enabled(w, FromLocal(h, kind, that, cell))
    ensures Enabled(w, FromPersistent(h, kind, source, cell)) <==> !kind.Traced? && !w.vars[source].kind.Traced?
    ensures Enabled(w, CopyConstruct(h, kind, source, cell)) <==>
      || (kind.Copyable? && (w.vars[source].kind.Copyable? || w.vars[source].kind.NonCopyable?))
      || (kind.Traced? && w.vars[source].kind.Traced?)
    ensures Enabled(w, MoveConstruct(h, source)) <==> w.vars[source].kind.Global? || w.vars[source].kind.Traced?
  {
  }

  /** What may be assigned to each, the address of its own cell being free too. */
  lemma WhatAssigns(w: World, h: nat, source: nat, that: Option<Word>, cell: nat)
    requires h in w.vars && source in w.vars && cell != NULL && (cell in w.store.cells ==> cell == w.vars[h].val)
    ensures Enabled(w, ResetHandle(h)) && Enabled(w, Destroy(h)) && Enabled(w, ResetToLocal(h, that, cell))
    ensures Enabled(w, ResetToPersistent(h, source, cell)) <==> !w.vars[h].kind.Traced? && !w.vars[source].kind.Traced?
    ensures Enabled(w, CopyAssign(h, source, cell)) <==>
      || (w.vars[h].kind.Copyable? && (w.vars[source].kind.Copyable? || w.vars[source].kind.NonCopyable?))
      || (w.vars[h].kind.Traced? && w.vars[source].kind.Traced?)
    ensures Enabled(w, MoveAssign(h, source)) <==>
      || (w.vars[h].kind.Global? && w.vars[source].kind.Global?)
      || (w.vars[h].kind.Traced? && w.vars[source].kind.Traced?)
  {
  }

  /** What marks a handle. */
  lemma WhatMarks(w: World, h: nat, callback: nat, parameter: nat, id: bv16, value: bool, shift: nat)
    requires h in w.vars
    ensures Enabled(w, Empty(h)) <==> !w.vars[h].kind.Traced?
    ensures Enabled(w, SetWeak(h, callback, parameter)) <==> !w.vars[h].kind.Traced? && w.vars[h].val != NULL
    ensures Enabled(w, SetPhantom(h)) <==> !w.vars[h].kind.Traced? && w.vars[h].val != NULL
    ensures Enabled(w, ClearWeakHandle(h)) <==> !w.vars[h].kind.Traced? && w.vars[h].val != NULL
    ensures Enabled(w, SetWrapperClassId(h, id))
    ensures Enabled(w, UpdateNodeFlag(h, value, shift)) <==> w.vars[h].val != NULL && 3 <= shift <= 7
  {
  }

  /** What the collector may do at any time. */
  lemma WhatCollects(w: World, cell: nat)
    ensures Enabled(w, GcRelocate(map[]))
    ensures Enabled(w, GcMarkPending(cell)) <==> cell in w.store.weak
    ensures Enabled(w, GcNullPhantom(cell)) <==> cell in w.store.weak && w.store.weak[cell].Phantom?
  {
  }

  // --- Handles that end, are emptied or made ---

  /** `~Global` and the destructor of a copyable `Persistent` dispose the cell. */
  lemma ResettingDestructors(w: World, h: nat)
    requires Safe(w) && h in w.vars && (w.vars[h].kind.Global? || w.vars[h].kind.Copyable?)
    ensures var r := Step(w, Destroy(h));
      r.vars == w.vars - {h} && r.abandoned == w.abandoned && Disposed(w.store, r.store, w.vars[h].val)
  {
    if NonEmpty(w, h) { HeldIsLive(w, h, h); } else { NothingThere(w); }
  }

  /** Those of a non-copyable `Persistent` and of a traced reference leave it live, and held by none. */
  lemma LeavingDestructors(w: World, h: nat)
    requires Safe(w) && h in w.vars && (w.vars[h].kind.NonCopyable? || w.vars[h].kind.Traced?)
    ensures var r := Step(w, Destroy(h));
      && r.vars == w.vars - {h} && r.store == w.store
      && (w.vars[h].val == NULL ==> r.abandoned == w.abandoned)
      && (w.vars[h].val != NULL ==>
            && w.vars[h].val in r.store.cells && r.abandoned == w.abandoned[w.vars[h].val := w.vars[h].kind]
            && forall k | k in r.vars :: r.vars[k].val != w.vars[h].val)
  {
    if NonEmpty(w, h) {
      forall k | k in w.vars && k != h ensures w.vars[k].val != w.vars[h].val { HeldIsLive(w, h, k); }
      HeldIsLive(w, h, h);
    }
  }

  lemma NothingThere(w: World)
    requires Safe(w)
    ensures w.store.cells - {NULL} == w.store.cells && w.store.weak - {NULL} == w.store.weak
  {
  }

  lemma ResetEmpties(w: World, h: nat)
    requires Safe(w) && h in w.vars
    ensures var r := Step(w, ResetHandle(h));
      && r.vars == w.vars[h := Var(w.vars[h].kind, NULL)] && r.abandoned == w.abandoned
      && Disposed(w.store, r.store, w.vars[h].val)
  {
    if NonEmpty(w, h) { HeldIsLive(w, h, h); } else { NothingThere(w); }
  }

  /** A handle made empty has no cell; one emptied by hand leaves its cell live and to none. */
  lemma EmptyHandles(w: World, h: nat, kind: Kind)
    requires Safe(w)
    ensures h !in w.vars ==>
      var r := Step(w, Declare(h, kind)); r.vars == w.vars[h := Var(kind, NULL)] && r.store == w.store && r.abandoned == w.abandoned
    ensures IsPersistent(w, h) ==>
      var r := Step(w, Empty(h));
      && r.vars == w.vars[h := Var(w.vars[h].kind, NULL)] && r.store == w.store
      && (w.vars[h].val == NULL ==> r.abandoned == w.abandoned)
      && (w.vars[h].val != NULL ==> r.abandoned == w.abandoned[w.vars[h].val := w.vars[h].kind])
  {
  }

  // --- Handles filled, copied and moved ---

  /** A new cell for this object: class id and flags clear, neither weak nor pending. */
  predicate FreshFor(s: Store, cell: nat, referent: Word) {
    && cell in s.cells && cell !in s.weak
    && s.cells[cell].referent == referent && s.cells[cell].classId == 0 && s.cells[cell].flags == {}
    && s.cells[cell].state != 2 && s.cells[cell].state != 3
  }

  function ValOf(w: World, h: nat): nat { if h in w.vars then w.vars[h].val else NULL }

  /** `h` has a new cell for the object, or none; the one it had is gone, or its address was handed out again. */
  predicate Refilled(w: World, r: World, h: nat, kind: Kind, referent: Option<Word>, cell: nat) {
    var was := ValOf(w, h);
    && r.abandoned == w.abandoned
    && r.store.disposed == w.store.disposed + (if was == NULL then 0 else 1)
    && (referent.None? ==>
          && r.vars == w.vars[h := Var(kind, NULL)] && r.store.created == w.store.created
          && SameElsewhere(w.store, r.store, {was}) && was !in r.store.cells)
    && (referent.Some? ==>
          && r.vars == w.vars[h := Var(kind, cell)] && r.store.created == w.store.created + 1
          && FreshFor(r.store, cell, referent.value)
          && SameElsewhere(w.store, r.store, {was, cell}) && (was != cell ==> was !in r.store.cells))
  }

  lemma NewRefills(w: World, h: nat, kind: Kind, that: Option<Word>, cell: nat)
    requires Available(w, cell, ValOf(w, h)) && NULL !in w.store.cells && w.store.weak.Keys <= w.store.cells.Keys
    requires ValOf(w, h) != NULL ==> ValOf(w, h) in w.store.cells
    ensures Refilled(w, Put(w, h, kind, New(Reset(w.store, ValOf(w, h)), that, cell)), h, kind, that, cell)
  {
  }

  lemma CopyRefills(w: World, h: nat, kind: Kind, source: nat, cell: nat)
    requires Available(w, cell, ValOf(w, h)) && NULL !in w.store.cells && w.store.weak.Keys <= w.store.cells.Keys
    requires ValOf(w, h) != NULL ==> ValOf(w, h) in w.store.cells
    requires source != NULL ==> source in w.store.cells && source != ValOf(w, h)
    ensures Refilled(w, Put(w, h, kind, CopyOnto(w.store, ValOf(w, h), source, false, cell)), h, kind,
                     if source == NULL then None else Some(w.store.cells[source].referent), cell)
  {
  }

  /** A handle made from or reset to a local has a new cell for its object, or none if it is empty. */
  lemma LocalFillsHandle(w: World, op: Op)
    requires Safe(w) && Enabled(w, op) && (op.FromLocal? || op.ResetToLocal?)
    ensures Refilled(w, Step(w, op), op.h, if op.FromLocal? then op.kind else w.vars[op.h].kind, op.that, op.cell)
  {
    if NonEmpty(w, op.h) { HeldIsLive(w, op.h, op.h); }
    NewRefills(w, op.h, if op.FromLocal? then op.kind else w.vars[op.h].kind, op.that, op.cell);
  }

  predicate IsCopy(op: Op) { op.FromPersistent? || op.CopyConstruct? || op.ResetToPersistent? || op.CopyAssign? }

  /** What the cell of a handle holds. */
  function ObjectOf(w: World, h: nat): Option<Word> {
    if ValOf(w, h) in w.store.cells then Some(w.store.cells[ValOf(w, h)].referent) else None
  }

  /** A copy from another handle leaves that one alone and has a new cell for the same object, or none. */
  lemma CopyMakesTwin(w: World, op: Op)
    requires Safe(w) && Enabled(w, op) && IsCopy(op) && op.h != op.source
    ensures NonEmpty(w, op.source) <==> ObjectOf(w, op.source).Some?
    ensures var kind := if op.FromPersistent? || op.CopyConstruct? then op.kind else w.vars[op.h].kind;
      Refilled(w, Step(w, op), op.h, kind, ObjectOf(w, op.source), op.cell)
    ensures ValOf(Step(w, op), op.source) == ValOf(w, op.source) && ObjectOf(Step(w, op), op.source) == ObjectOf(w, op.source)
  {
    if NonEmpty(w, op.source) { HeldIsLive(w, op.source, op.h); }
    if NonEmpty(w, op.h) { HeldIsLive(w, op.h, op.source); }
    var kind := if op.FromPersistent? || op.CopyConstruct? then op.kind else w.vars[op.h].kind;
    CopyRefills(w, op.h, kind, ValOf(w, op.source), op.cell);
  }

  /** A move hands the cell over as it is, with its class id, flags and weakness, and empties the source. */
  lemma MoveHandsOver(w: World, op: Op)
    requires Safe(w) && Enabled(w, op) && (op.MoveConstruct? || op.MoveAssign?) && op.h != op.source
    ensures var r := Step(w, op); var v := w.vars[op.source]; var was := ValOf(w, op.h);
      && r.vars == w.vars[op.source := Var(v.kind, NULL)][op.h := v] && r.abandoned == w.abandoned
      && r.store.created == w.store.created && r.store.disposed == w.store.disposed + (if was == NULL then 0 else 1)
      && r.store.cells == w.store.cells - {was} && SameElsewhere(w.store, r.store, {was, v.val})
      && (v.val != NULL ==>
            && v.val in r.store.cells && (v.val in r.store.weak <==> v.val in w.store.weak)
            && (v.val in w.store.weak ==>
                  r.store.weak[v.val] == if w.store.weak[v.val].Phantom? then Phantom(op.h) else w.store.weak[v.val]))
  {
    NothingThere(w);
    if NonEmpty(w, op.source) { HeldIsLive(w, op.source, op.h); }
    if NonEmpty(w, op.h) { HeldIsLive(w, op.h, op.source); }
  }

  // --- A handle assigned to itself ---

  predicate SelfAssigns(op: Op) {
    (op.CopyAssign? || op.MoveAssign? || op.ResetToPersistent?) && op.h == op.source
  }

  /** The assignments of `Global` and `TracedReference` compare the addresses of the two handles first. */
  predicate Guarded(w: World, op: Op)
    requires Enabled(w, op)
  {
    op.MoveAssign? || (op.CopyAssign? && w.vars[op.h].kind.Traced?)
  }

  /** Without that test a handle assigned to itself is reset, so it keeps its object exactly if it is guarded or has none. */
  lemma SelfAssignment(w: World, op: Op)
    requires Safe(w) && Enabled(w, op) && SelfAssigns(op)
    ensures Step(w, op) == w <==> Guarded(w, op) || !NonEmpty(w, op.h)
    ensures !Guarded(w, op) ==> Step(w, op) == Step(w, ResetHandle(op.h))
  {
    var h := op.h;
    if NonEmpty(w, h) {
      HeldIsLive(w, h, h);
    } else {
      assert w.vars[h := Var(w.vars[h].kind, NULL)] == w.vars;
    }
  }

  // --- Marks on the cell of a handle ---

  /** Of a record of `h` and its weakness, this is all that a step changes. */
  predicate Remarked(w: World, r: World, h: nat, node: Node) {
    && h in w.vars && OnlyMarks(w, r) && w.vars[h].val in r.store.cells
    && r.store.cells[w.vars[h].val] == node && SameElsewhere(w.store, r.store, {w.vars[h].val})
  }

  /** Marking weak: the state is the weak one, the callback is registered, the rest of the record is kept. */
  lemma SetWeakMarks(w: World, h: nat, callback: nat, parameter: nat)
    requires Safe(w) && IsPersistent(w, h) && NonEmpty(w, h)
    ensures w.vars[h].val in w.store.cells
    ensures var c := w.vars[h].val; var n := w.store.cells[c]; var r := Step(w, SetWeak(h, callback, parameter));
      && Remarked(w, r, h, Node(n.referent, n.classId, n.index, 2, n.flags))
      && c in r.store.weak && r.store.weak[c] == Callback(callback, parameter)
  {
    HeldIsLive(w, h, h);
    KeysKept(w, w.vars[h].val);
  }

  /** Making phantom: the same, with the address of this very handle registered. */
  lemma SetPhantomMarks(w: World, h: nat)
    requires Safe(w) && IsPersistent(w, h) && NonEmpty(w, h)
    ensures w.vars[h].val in w.store.cells
    ensures var c := w.vars[h].val; var n := w.store.cells[c]; var r := Step(w, SetPhantom(h));
      && Remarked(w, r, h, Node(n.referent, n.classId, n.index, 2, n.flags))
      && c in r.store.weak && r.store.weak[c] == Phantom(h)
  {
    HeldIsLive(w, h, h);
    KeysKept(w, w.vars[h].val);
  }

  /** Clearing weakness: the state is neither weak nor pending, nothing is registered, the rest of the record is kept. */
  lemma ClearWeakMarks(w: World, h: nat)
    requires Safe(w) && IsPersistent(w, h) && NonEmpty(w, h)
    ensures w.vars[h].val in w.store.cells
    ensures var c := w.vars[h].val; var n := w.store.cells[c]; var r := Step(w, ClearWeakHandle(h));
      && (exists state: bv8 :: state != 2 && state != 3 && Remarked(w, r, h, Node(n.referent, n.classId, n.index, state, n.flags)))
      && c !in r.store.weak
  {
    HeldIsLive(w, h, h);
    KeysKept(w, w.vars[h].val);
    var n := w.store.cells[w.vars[h].val];
    assert Remarked(w, Step(w, ClearWeakHandle(h)), h, Node(n.referent, n.classId, n.index, NODE_STATE_NORMAL, n.flags));
  }

  lemma KeysKept(w: World, c: nat)
    requires c in w.store.cells
    ensures w.store.cells.Keys + {c} == w.store.cells.Keys
  {
  }

  /** The class id is the one given, and the rest of the record and its weakness are kept; an empty handle has none to set. */
  lemma ClassIdMarks(w: World, h: nat, id: bv16)
    requires Safe(w) && h in w.vars
    ensures var c := w.vars[h].val; var r := Step(w, SetWrapperClassId(h, id));
      && (c == NULL ==> r == w)
      && (c != NULL ==>
            && c in w.store.cells && r.store.weak == w.store.weak
            && var n := w.store.cells[c]; Remarked(w, r, h, Node(n.referent, id, n.index, n.state, n.flags)))
  {
    if NonEmpty(w, h) {
      HeldIsLive(w, h, h);
      KeysKept(w, w.vars[h].val);
    }
  }

  /** This flag is set exactly if told so, every other flag as before, and the rest of the record and its weakness are kept. */
  lemma FlagMarks(w: World, h: nat, value: bool, shift: nat)
    requires Safe(w) && NonEmpty(w, h) && 3 <= shift <= 7
    ensures w.vars[h].val in w.store.cells
    ensures var c := w.vars[h].val; var n := w.store.cells[c]; var r := Step(w, UpdateNodeFlag(h, value, shift));
      && c in r.store.cells && r.store.weak == w.store.weak
      && Remarked(w, r, h, Node(n.referent, n.classId, n.index, n.state, r.store.cells[c].flags))
      && (shift in r.store.cells[c].flags <==> value)
      && forall t | t != shift :: t in r.store.cells[c].flags <==> t in n.flags
  {
    HeldIsLive(w, h, h);
    KeysKept(w, w.vars[h].val);
  }

  // --- The collector ---

  /** Every record names the new address of its object, and nothing else changes. */
  lemma RelocationMarks(w: World, f: map<Word, Word>)
    requires Safe(w) && Enabled(w, GcRelocate(f))
    ensures var r := Step(w, GcRelocate(f));
      && OnlyMarks(w, r) && r.store.weak == w.store.weak
      && forall c | c in w.store.cells ::
           var n := w.store.cells[c];
           r.store.cells[c] == Node(if n.referent in f then f[n.referent] else n.referent, n.classId, n.index, n.state, n.flags)
  {
    assert Step(w, GcRelocate(f)).store.cells.Keys == w.store.cells.Keys;
  }

  /** A weak cell is picked: its state is the pending one. */
  lemma PendingMarks(w: World, cell: nat)
    requires Safe(w) && cell in w.store.weak
    ensures cell in w.store.cells
    ensures var n := w.store.cells[cell]; var r := Step(w, GcMarkPending(cell));
      && OnlyMarks(w, r) && r.store.weak == w.store.weak && SameElsewhere(w.store, r.store, {cell})
      && r.store.cells[cell] == Node(n.referent, n.classId, n.index, 3, n.flags)
  {
    KeysKept(w, cell);
  }

  /** A phantom cell dies: it is freed, and the handle at the registered address, if there is one, is nulled. */
  lemma PhantomDies(w: World, cell: nat)
    requires Safe(w) && cell in w.store.weak && w.store.weak[cell].Phantom?
    ensures var r := Step(w, GcNullPhantom(cell)); var at := w.store.weak[cell].location;
      && cell != NULL && Disposed(w.store, r.store, cell)
      && r.vars == if at in w.vars then w.vars[at := Var(w.vars[at].kind, NULL)] else w.vars
  {
  }
}
