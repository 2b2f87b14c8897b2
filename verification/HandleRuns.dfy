/**
 Runs of handle operations, with the collector as an adversary.  A world holds the store and
 every handle variable by the address of its `val_`; a run is any sequence of operations and
 collector steps, in which the allocator chooses addresses and may reuse disposed ones.
 */
module HandleRuns {
  import opened NodeImage
  import opened CellStore
  import opened Options

  datatype Var = Var(kind: Kind, val: nat)

  /** `abandoned` remembers the cells no handle names any more, with the kind of the handle that let go. */
  datatype World = World(store: Store, vars: map<nat, Var>, abandoned: map<nat, Kind>)

  const EMPTY_WORLD := World(Store(map[], map[], 0, 0, true), map[], map[])

  datatype Op =
    | Declare(h: nat, kind: Kind)
    | FromLocal(h: nat, kind: Kind, that: Option<Word>, cell: nat)
    | FromPersistent(h: nat, kind: Kind, source: nat, cell: nat)
    | CopyConstruct(h: nat, kind: Kind, source: nat, cell: nat)
    | MoveConstruct(h: nat, source: nat)
    | ResetHandle(h: nat)
    | ResetToLocal(h: nat, that: Option<Word>, cell: nat)
    | ResetToPersistent(h: nat, source: nat, cell: nat)
    | CopyAssign(h: nat, source: nat, cell: nat)
    | MoveAssign(h: nat, source: nat)
    | Empty(h: nat)
    | Destroy(h: nat)
    | SetWeak(h: nat, callback: nat, parameter: nat)
    | SetPhantom(h: nat)
    | ClearWeakHandle(h: nat)
    | SetWrapperClassId(h: nat, id: bv16)
    | UpdateNodeFlag(h: nat, value: bool, shift: nat)
    | GcRelocate(f: map<Word, Word>)
    | GcMarkPending(cell: nat)
    | GcNullPhantom(cell: nat)

  predicate IsPersistent(w: World, h: nat) { h in w.vars && !w.vars[h].kind.Traced? }

  predicate NonEmpty(w: World, h: nat) { h in w.vars && w.vars[h].val != NULL }

  /** The allocator may choose this address once the cell of `h`, if any, is disposed. */
  predicate Available(w: World, cell: nat, released: nat) {
    cell != NULL && cell !in w.store.cells.Keys - {released}
  }

  /** Which calls compile, and which the entry points or the collector allow; nothing is asked of cells. */
  predicate Enabled(w: World, op: Op) {
    match op
    case Declare(h, _) => h !in w.vars
    case FromLocal(h, _, _, cell) => h !in w.vars && Available(w, cell, NULL)
    case FromPersistent(h, kind, source, cell) =>
      h !in w.vars && !kind.Traced? && IsPersistent(w, source) && Available(w, cell, NULL)
    case CopyConstruct(h, kind, source, cell) =>
      && h !in w.vars && source in w.vars && Available(w, cell, NULL)
      && (kind.Traced? || kind.Copyable?) && CanCopy(kind, w.vars[source].kind)
    case MoveConstruct(h, source) =>
      h !in w.vars && source in w.vars && (w.vars[source].kind.Global? || w.vars[source].kind.Traced?)
    case ResetHandle(h) => h in w.vars
    case ResetToLocal(h, _, cell) => h in w.vars && Available(w, cell, w.vars[h].val)
    case ResetToPersistent(h, source, cell) =>
      IsPersistent(w, h) && IsPersistent(w, source) && Available(w, cell, w.vars[h].val)
    case CopyAssign(h, source, cell) =>
      && h in w.vars && source in w.vars && Available(w, cell, w.vars[h].val)
      && CanCopy(w.vars[h].kind, w.vars[source].kind)
    case MoveAssign(h, source) =>
      && h in w.vars && source in w.vars && w.vars[h].kind == w.vars[source].kind
      && (w.vars[h].kind.Global? || w.vars[h].kind.Traced?)
    case Empty(h) => IsPersistent(w, h)
    case Destroy(h) => h in w.vars
    case SetWeak(h, _, _) => IsPersistent(w, h) && NonEmpty(w, h)
    case SetPhantom(h) => IsPersistent(w, h) && NonEmpty(w, h)
    case ClearWeakHandle(h) => IsPersistent(w, h) && NonEmpty(w, h)
    case SetWrapperClassId(h, _) => h in w.vars
    case UpdateNodeFlag(h, _, shift) => NonEmpty(w, h) && 3 <= shift <= 7
    case GcRelocate(f) => InjectiveOn(f, w.store.cells)
    case GcMarkPending(cell) => cell in w.store.weak
    case GcNullPhantom(cell) => cell in w.store.weak && w.store.weak[cell].Phantom?
  }

  predicate CanCopy(target: Kind, source: Kind) {
    match target
    case Copyable => source.Copyable? || source.NonCopyable?
    case Traced => source.Traced?
    case _ => false
  }

  predicate InjectiveOn(f: map<Word, Word>, cells: map<nat, Node>) {
    forall c, d | c in cells && d in cells && Moved(f, cells[c].referent) == Moved(f, cells[d].referent) ::
      cells[c].referent == cells[d].referent
  }

  // --- One step ---

  function Put(w: World, h: nat, kind: Kind, result: (Store, nat)): World {
    w.(store := result.0, vars := w.vars[h := Var(kind, result.1)])
  }

  /** The handle forgets its cell without disposing it. */
  function LetGo(w: World, h: nat): World
    requires h in w.vars
  {
    var v := w.vars[h];
    w.(vars := w.vars[h := v.(val := NULL)],
       abandoned := if v.val == NULL then w.abandoned else w.abandoned[v.val := v.kind])
  }

  function Forget(w: World, h: nat): World {
    w.(vars := w.vars - {h})
  }

  function Take(w: World, h: nat, kind: Kind, val: nat, source: nat): World
    requires source in w.vars
  {
    var v := w.vars[source];
    Put(Put(w, source, v.kind, (w.store, NULL)), h, kind, MoveOnto(w.store, val, v.val, h))
  }

  /** The collector found the object dead: it nulls the registered location and frees the cell. */
  function NullPhantom(w: World, cell: nat): World
    requires cell in w.store.weak && w.store.weak[cell].Phantom?
  {
    var location := w.store.weak[cell].location;
    var w1 := if location in w.vars then LetGo(w, location) else w;
    w1.(store := Dispose(w1.store, cell), abandoned := w1.abandoned - {cell})
  }

  function Step(w: World, op: Op): World
    requires Enabled(w, op)
  {
    match op
    case Declare(h, kind) => Put(w, h, kind, (w.store, NULL))
    case FromLocal(h, kind, that, cell) => Put(w, h, kind, New(w.store, that, cell))
    case FromPersistent(h, kind, source, cell) => Put(w, h, kind, Clone(w.store, w.vars[source].val, cell))
    case CopyConstruct(h, kind, source, cell) => Put(w, h, kind, Clone(w.store, w.vars[source].val, cell))
    case MoveConstruct(h, source) => Take(w, h, w.vars[source].kind, NULL, source)
    case ResetHandle(h) => Put(w, h, w.vars[h].kind, (Reset(w.store, w.vars[h].val), NULL))
    case ResetToLocal(h, that, cell) => Put(w, h, w.vars[h].kind, New(Reset(w.store, w.vars[h].val), that, cell))
    case ResetToPersistent(h, source, cell) =>
      Put(w, h, w.vars[h].kind, CopyOnto(w.store, w.vars[h].val, w.vars[source].val, h == source, cell))
    case CopyAssign(h, source, cell) =>
      if w.vars[h].kind.Traced? && h == source then w
      else Put(w, h, w.vars[h].kind, CopyOnto(w.store, w.vars[h].val, w.vars[source].val, h == source, cell))
    case MoveAssign(h, source) =>
      if h == source then w else Take(w, h, w.vars[h].kind, w.vars[h].val, source)
    case Empty(h) => LetGo(w, h)
    case Destroy(h) =>
      if w.vars[h].kind.ResetsInDestructor() then Forget(w, h).(store := Reset(w.store, w.vars[h].val))
      else Forget(LetGo(w, h), h)
    case SetWeak(h, callback, parameter) =>
      w.(store := MakeWeak(w.store, w.vars[h].val, Callback(callback, parameter)))
    case SetPhantom(h) => w.(store := MakeWeak(w.store, w.vars[h].val, Phantom(h)))
    case ClearWeakHandle(h) => w.(store := ClearWeak(w.store, w.vars[h].val))
    case SetWrapperClassId(h, id) =>
      if w.vars[h].val == NULL then w else w.(store := SetClassId(w.store, w.vars[h].val, id))
    case UpdateNodeFlag(h, value, shift) => w.(store := UpdateFlag(w.store, w.vars[h].val, value, shift))
    case GcRelocate(f) => w.(store := Relocate(w.store, f))
    case GcMarkPending(cell) => w.(store := MarkPending(w.store, cell))
    case GcNullPhantom(cell) => NullPhantom(w, cell)
  }

  /** A run; a call that cannot be made is skipped. */
  function Run(w: World, ops: seq<Op>): World {
    if ops == [] then w
    else
      var before := Run(w, ops[..|ops| - 1]);
      var op := ops[|ops| - 1];
      if Enabled(before, op) then Step(before, op) else before
  }

  // --- The invariant ---

  ghost predicate StoreInv(s: Store) {
    && s.ok
    && NULL !in s.cells
    && s.weak.Keys <= s.cells.Keys
    && (forall c | c in s.cells :: WeakState(s.cells[c]) <==> c in s.weak)
  }

  predicate WeakState(n: Node) { n.state == NODE_STATE_IS_WEAK || n.state == NODE_STATE_IS_PENDING }

  function Held(vars: map<nat, Var>): set<nat> {
    set h | h in vars && vars[h].val != NULL :: vars[h].val
  }

  ghost predicate Unique(vars: map<nat, Var>) {
    forall h, k | h in vars && k in vars && h != k && vars[h].val != NULL :: vars[h].val != vars[k].val
  }

  /** The live cells are those held by handles and those abandoned, and no cell is counted twice. */
  ghost predicate Owned(live: set<nat>, vars: map<nat, Var>, abandoned: set<nat>) {
    && Unique(vars)
    && Held(vars) !! abandoned
    && live == Held(vars) + abandoned
  }

  ghost predicate Inv(w: World) {
    StoreInv(w.store) && Owned(w.store.cells.Keys, w.vars, w.abandoned.Keys)
  }

  /** Every phantom cell that is not abandoned is held by the very handle the collector will null. */
  ghost predicate Homed(w: World) {
    forall c | c in w.store.weak && w.store.weak[c].Phantom? ::
      c in w.abandoned || HeldAt(w, w.store.weak[c].location, c)
  }

  predicate HeldAt(w: World, h: nat, cell: nat) { h in w.vars && w.vars[h].val == cell }

  ghost predicate Safe(w: World) { Inv(w) && Homed(w) }

  lemma GlobalizeInv(s: Store, cell: nat, referent: Word)
    requires StoreInv(s) && cell != NULL && cell !in s.cells
    ensures StoreInv(Globalize(s, cell, referent))
    ensures Globalize(s, cell, referent).cells.Keys == s.cells.Keys + {cell}
  {
  }

  lemma DisposeInv(s: Store, cell: nat)
    requires StoreInv(s) && cell in s.cells
    ensures StoreInv(Dispose(s, cell))
    ensures Dispose(s, cell).cells.Keys == s.cells.Keys - {cell}
  {
  }

  lemma WeaknessInv(s: Store, cell: nat, weakness: Weakness)
    requires StoreInv(s) && cell in s.cells
    ensures StoreInv(MakeWeak(s, cell, weakness)) && MakeWeak(s, cell, weakness).cells.Keys == s.cells.Keys
    ensures StoreInv(ClearWeak(s, cell)) && ClearWeak(s, cell).cells.Keys == s.cells.Keys
  {
    assert s.cells.Keys + {cell} == s.cells.Keys;
  }

  lemma NodeInv(s: Store, cell: nat, id: bv16, value: bool, shift: nat)
    requires StoreInv(s) && cell in s.cells
    ensures StoreInv(SetClassId(s, cell, id)) && SetClassId(s, cell, id).cells.Keys == s.cells.Keys
    ensures StoreInv(UpdateFlag(s, cell, value, shift))
    ensures UpdateFlag(s, cell, value, shift).cells.Keys == s.cells.Keys
    ensures cell in s.weak ==> StoreInv(MarkPending(s, cell)) && MarkPending(s, cell).cells.Keys == s.cells.Keys
  {
    assert s.cells.Keys + {cell} == s.cells.Keys;
  }

  lemma MoveInv(s: Store, cell: nat, to: nat)
    requires StoreInv(s) && cell in s.cells
    ensures StoreInv(MoveGlobal(s, cell, to)) && MoveGlobal(s, cell, to).cells == s.cells
  {
  }

  lemma RelocateInv(s: Store, f: map<Word, Word>)
    requires StoreInv(s)
    ensures StoreInv(Relocate(s, f))
  {
    assert Relocate(s, f).cells.Keys == s.cells.Keys;
  }

  // --- Ownership, primitive by primitive ---

  function Cell(v: Var): set<nat> { if v.val == NULL then {} else {v.val} }

  function CellAt(vars: map<nat, Var>, h: nat): set<nat> { if h in vars then Cell(vars[h]) else {} }

  lemma HeldRest(vars: map<nat, Var>, h: nat)
    requires Unique(vars)
    ensures Held(vars - {h}) == Held(vars) - CellAt(vars, h)
    ensures CellAt(vars, h) <= Held(vars)
    ensures Unique(vars - {h})
  {
    var less := vars - {h};
    forall c | c in Held(less) ensures c in Held(vars) - CellAt(vars, h) {
      var k :| k in less && less[k].val == c && c != NULL;
      assert k in vars && vars[k].val == c;
    }
    forall c | c in Held(vars) - CellAt(vars, h) ensures c in Held(less) {
      var k :| k in vars && vars[k].val == c && c != NULL;
      assert k in less && less[k].val == c;
    }
    if h in vars && vars[h].val != NULL { assert vars[h].val in Held(vars); }
  }

  lemma HeldPut(vars: map<nat, Var>, h: nat, v: Var)
    requires Unique(vars) && h !in vars && Cell(v) !! Held(vars)
    ensures Held(vars[h := v]) == Held(vars) + Cell(v)
    ensures Unique(vars[h := v])
  {
    var r := vars[h := v];
    forall k | k in vars && vars[k].val != NULL
      ensures vars[k].val in Held(r) && vars[k].val != v.val
    {
      assert k in r && r[k].val == vars[k].val;
      assert vars[k].val in Held(vars);
    }
    if v.val != NULL { assert h in r && r[h].val == v.val; }
    forall c | c in Held(r) ensures c in Held(vars) + Cell(v) {
      var k :| k in r && r[k].val == c && c != NULL;
    }
  }

  lemma OwnedPut(live: set<nat>, vars: map<nat, Var>, abandoned: set<nat>,
                 h: nat, v: Var, live': set<nat>, abandoned': set<nat>)
    requires Owned(live, vars, abandoned)
    requires Cell(v) !! Held(vars) - CellAt(vars, h)
    requires abandoned' !! Held(vars) - CellAt(vars, h) + Cell(v)
    requires live' == Held(vars) - CellAt(vars, h) + Cell(v) + abandoned'
    ensures Owned(live', vars[h := v], abandoned')
    ensures Cell(v) == {} ==> Owned(live', vars - {h}, abandoned')
  {
    HeldRest(vars, h);
    HeldPut(vars - {h}, h, v);
    assert (vars - {h})[h := v] == vars[h := v];
  }

  function Released(w: World, h: nat): World
    requires h in w.vars
  {
    Put(w, h, w.vars[h].kind, (Reset(w.store, w.vars[h].val), NULL))
  }

  lemma ReleaseInv(w: World, h: nat)
    requires Safe(w) && h in w.vars
    ensures Safe(Released(w, h)) && Safe(Forget(w, h).(store := Reset(w.store, w.vars[h].val)))
  {
    HeldRest(w.vars, h);
    var s := Reset(w.store, w.vars[h].val);
    if w.vars[h].val != NULL { DisposeInv(w.store, w.vars[h].val); }
    assert s.cells.Keys == w.store.cells.Keys - CellAt(w.vars, h);
    OwnedPut(w.store.cells.Keys, w.vars, w.abandoned.Keys, h, Var(w.vars[h].kind, NULL), s.cells.Keys, w.abandoned.Keys);
  }

  lemma FillInv(w: World, h: nat, kind: Kind, cell: nat, referent: Word)
    requires Safe(w) && Available(w, cell, NULL) && !NonEmpty(w, h)
    ensures Safe(Put(w, h, kind, (Globalize(w.store, cell, referent), cell)))
  {
    var s := Globalize(w.store, cell, referent);
    GlobalizeInv(w.store, cell, referent);
    assert s.cells.Keys == w.store.cells.Keys + {cell};
    OwnedPut(w.store.cells.Keys, w.vars, w.abandoned.Keys, h, Var(kind, cell), s.cells.Keys, w.abandoned.Keys);
  }

  lemma BlankInv(w: World, h: nat, kind: Kind)
    requires Safe(w) && !NonEmpty(w, h)
    ensures Safe(Put(w, h, kind, (w.store, NULL))) && Safe(Forget(w, h))
  {
    OwnedPut(w.store.cells.Keys, w.vars, w.abandoned.Keys, h, Var(kind, NULL), w.store.cells.Keys, w.abandoned.Keys);
  }

  lemma LetGoInv(w: World, h: nat)
    requires Safe(w) && h in w.vars
    ensures Safe(LetGo(w, h)) && !NonEmpty(LetGo(w, h), h)
  {
    HeldRest(w.vars, h);
    var r := LetGo(w, h);
    assert r.abandoned.Keys == w.abandoned.Keys + CellAt(w.vars, h);
    OwnedPut(w.store.cells.Keys, w.vars, w.abandoned.Keys, h, r.vars[h], w.store.cells.Keys, r.abandoned.Keys);
  }

  /** The cell of `source` changes hands, to a handle that holds none. */
  lemma TakeInv(w: World, h: nat, kind: Kind, source: nat)
    requires Safe(w) && source in w.vars && h != source && !NonEmpty(w, h)
    ensures Safe(Take(w, h, kind, NULL, source))
  {
    TakeOwned(w, h, kind, source);
    TakeHomed(w, h, kind, source);
  }

  lemma TakeOwned(w: World, h: nat, kind: Kind, source: nat)
    requires Inv(w) && source in w.vars && h != source && !NonEmpty(w, h)
    ensures Inv(Take(w, h, kind, NULL, source))
  {
    var v := w.vars[source];
    var live, abandoned := w.store.cells.Keys, w.abandoned.Keys;
    var emptied := w.vars[source := Var(v.kind, NULL)];
    HeldRest(w.vars, source);
    OwnedPut(live, w.vars, abandoned, source, Var(v.kind, NULL), live - Cell(v), abandoned);
    OwnedPut(live - Cell(v), emptied, abandoned, h, Var(kind, v.val), live, abandoned);
    if v.val != NULL { MoveInv(w.store, v.val, h); }
  }

  lemma TakeHomed(w: World, h: nat, kind: Kind, source: nat)
    requires Safe(w) && source in w.vars && h != source && !NonEmpty(w, h)
    ensures Homed(Take(w, h, kind, NULL, source))
  {
    var r := Take(w, h, kind, NULL, source);
    if NonEmpty(w, source) { HeldIsLive(w, source, source); }
    forall c | c in r.store.weak && r.store.weak[c].Phantom?
      ensures c in r.abandoned || HeldAt(r, r.store.weak[c].location, c)
    {
      assert c in w.store.weak && w.store.weak[c].Phantom?;
    }
  }

  lemma HeldIsLive(w: World, h: nat, k: nat)
    requires Inv(w) && NonEmpty(w, h)
    ensures w.vars[h].val in w.store.cells && w.vars[h].val !in w.abandoned
    ensures k in w.vars && k != h ==> w.vars[k].val != w.vars[h].val
  {
    HeldRest(w.vars, h);
  }

  lemma CloneInv(w: World, h: nat, kind: Kind, val: nat, cell: nat)
    requires Safe(w) && Available(w, cell, NULL) && !NonEmpty(w, h) && (val == NULL || val in w.store.cells)
    ensures Safe(Put(w, h, kind, Clone(w.store, val, cell)))
  {
    if val == NULL { BlankInv(w, h, kind); } else { FillInv(w, h, kind, cell, w.store.cells[val].referent); }
  }

  lemma CloneHeldInv(w: World, h: nat, kind: Kind, source: nat, cell: nat)
    requires Safe(w) && Available(w, cell, NULL) && !NonEmpty(w, h) && source in w.vars
    ensures Safe(Put(w, h, kind, Clone(w.store, w.vars[source].val, cell)))
  {
    if NonEmpty(w, source) { HeldIsLive(w, source, source); }
    CloneInv(w, h, kind, w.vars[source].val, cell);
  }

  lemma NewInv(w: World, h: nat, kind: Kind, that: Option<Word>, cell: nat)
    requires Safe(w) && Available(w, cell, NULL) && !NonEmpty(w, h)
    ensures Safe(Put(w, h, kind, New(w.store, that, cell)))
  {
    if that.None? { BlankInv(w, h, kind); } else { FillInv(w, h, kind, cell, that.value); }
  }

  lemma PutTwice(w: World, h: nat, r: (Store, nat))
    requires h in w.vars
    ensures Put(Released(w, h), h, w.vars[h].kind, r) == Put(w, h, w.vars[h].kind, r)
  {
  }

  lemma CopyOntoInv(w: World, h: nat, source: nat, cell: nat)
    requires Safe(w) && h in w.vars && source in w.vars && Available(w, cell, w.vars[h].val)
    ensures Safe(Put(w, h, w.vars[h].kind, CopyOnto(w.store, w.vars[h].val, w.vars[source].val, h == source, cell)))
  {
    ReleaseInv(w, h);
    if NonEmpty(w, h) { HeldIsLive(w, h, source); }
    if NonEmpty(w, source) { HeldIsLive(w, source, h); }
    var val := if h == source then NULL else w.vars[source].val;
    CloneInv(Released(w, h), h, w.vars[h].kind, val, cell);
    PutTwice(w, h, Clone(Released(w, h).store, val, cell));
  }

  lemma TakeOverInv(w: World, h: nat, source: nat)
    requires Safe(w) && h in w.vars && source in w.vars && h != source
    ensures Safe(Take(w, h, w.vars[h].kind, w.vars[h].val, source))
  {
    ReleaseInv(w, h);
    TakeInv(Released(w, h), h, w.vars[h].kind, source);
    TakeReleased(w, h, source);
  }

  lemma TakeReleased(w: World, h: nat, source: nat)
    requires h in w.vars && source in w.vars && h != source
    ensures Take(Released(w, h), h, w.vars[h].kind, NULL, source) == Take(w, h, w.vars[h].kind, w.vars[h].val, source)
  {
    var v, e := w.vars[source], Var(w.vars[source].kind, NULL);
    var r := Var(w.vars[h].kind, if v.val == NULL then NULL else v.val);
    assert w.vars[h := Var(w.vars[h].kind, NULL)][source := e][h := r] == w.vars[source := e][h := r];
  }

  lemma NullPhantomInv(w: World, cell: nat)
    requires Safe(w) && cell in w.store.weak && w.store.weak[cell].Phantom?
    ensures Safe(NullPhantom(w, cell))
  {
    var location := w.store.weak[cell].location;
    var w1 := if location in w.vars then LetGo(w, location) else w;
    if location in w.vars { LetGoInv(w, location); }
    assert cell in w1.abandoned;
    DisposeInv(w.store, cell);
    var r := NullPhantom(w, cell);
    assert r.abandoned.Keys == w1.abandoned.Keys - {cell};
    assert r.store.cells.Keys == w1.store.cells.Keys - {cell};
  }

  /** Weakness is kept in the cell and owned with it. */
  lemma WeakenInv(w: World, h: nat, weakness: Weakness)
    requires Safe(w) && NonEmpty(w, h) && (weakness.Phantom? ==> weakness.location == h)
    ensures Safe(w.(store := MakeWeak(w.store, w.vars[h].val, weakness)))
  {
    HeldIsLive(w, h, h);
    WeaknessInv(w.store, w.vars[h].val, weakness);
  }

  lemma ClearInv(w: World, h: nat)
    requires Safe(w) && NonEmpty(w, h)
    ensures Safe(w.(store := ClearWeak(w.store, w.vars[h].val)))
  {
    HeldIsLive(w, h, h);
    WeaknessInv(w.store, w.vars[h].val, Phantom(h));
  }

  lemma FieldInv(w: World, h: nat, id: bv16, value: bool, shift: nat)
    requires Safe(w) && NonEmpty(w, h)
    ensures Safe(w.(store := SetClassId(w.store, w.vars[h].val, id)))
    ensures Safe(w.(store := UpdateFlag(w.store, w.vars[h].val, value, shift)))
  {
    HeldIsLive(w, h, h);
    NodeInv(w.store, w.vars[h].val, id, value, shift);
  }

  /** Every operation and every collector step, whatever the handles hold. */
  lemma StepSafe(w: World, op: Op)
    requires Safe(w) && Enabled(w, op)
    ensures Safe(Step(w, op))
  {
    match op
    case Declare(h, kind) => BlankInv(w, h, kind);
    case FromLocal(h, kind, that, cell) => NewInv(w, h, kind, that, cell);
    case FromPersistent(h, kind, source, cell) => CloneHeldInv(w, h, kind, source, cell);
    case CopyConstruct(h, kind, source, cell) => CloneHeldInv(w, h, kind, source, cell);
    case MoveConstruct(h, source) => TakeInv(w, h, w.vars[source].kind, source);
    case ResetHandle(h) => ReleaseInv(w, h);
    case ResetToLocal(h, that, cell) =>
      ReleaseInv(w, h);
      NewInv(Released(w, h), h, w.vars[h].kind, that, cell);
      PutTwice(w, h, New(Released(w, h).store, that, cell));
    case ResetToPersistent(h, source, cell) => CopyOntoInv(w, h, source, cell);
    case CopyAssign(h, source, cell) => CopyOntoInv(w, h, source, cell);
    case MoveAssign(h, source) => if h != source { TakeOverInv(w, h, source); }
    case Empty(h) => LetGoInv(w, h);
    case Destroy(h) =>
      ReleaseInv(w, h);
      LetGoInv(w, h);
      BlankInv(LetGo(w, h), h, w.vars[h].kind);
    case SetWeak(h, callback, parameter) => WeakenInv(w, h, Callback(callback, parameter));
    case SetPhantom(h) => WeakenInv(w, h, Phantom(h));
    case ClearWeakHandle(h) => ClearInv(w, h);
    case SetWrapperClassId(h, id) => if NonEmpty(w, h) { FieldInv(w, h, id, false, 3); }
    case UpdateNodeFlag(h, value, shift) => FieldInv(w, h, 0, value, shift);
    case GcRelocate(f) => RelocateInv(w.store, f); assert Step(w, op).store.cells.Keys == w.store.cells.Keys;
    case GcMarkPending(cell) => NodeInv(w.store, cell, 0, false, 3);
    case GcNullPhantom(cell) => NullPhantomInv(w, cell);
  }

  // --- Conservation of cells ---

  function Balance(s: Store): int { s.created - s.disposed - |s.cells| }

  lemma GlobalizeBalance(s: Store, cell: nat, referent: Word)
    requires cell !in s.cells
    ensures Balance(Globalize(s, cell, referent)) == Balance(s)
  {
  }

  lemma DisposeBalance(s: Store, cell: nat)
    requires cell in s.cells
    ensures Balance(Dispose(s, cell)) == Balance(s)
  {
    assert (s.cells - {cell}).Keys == s.cells.Keys - {cell};
  }

  lemma ResetBalance(w: World, h: nat, cell: nat)
    requires Inv(w) && h in w.vars
    ensures Balance(Reset(w.store, w.vars[h].val)) == Balance(w.store)
    ensures Available(w, cell, w.vars[h].val) ==> cell !in Reset(w.store, w.vars[h].val).cells
    ensures Reset(w.store, w.vars[h].val).cells.Keys == w.store.cells.Keys - {w.vars[h].val}
  {
    if NonEmpty(w, h) {
      HeldIsLive(w, h, h);
      DisposeBalance(w.store, w.vars[h].val);
    }
  }

  lemma CloneBalance(s: Store, val: nat, cell: nat)
    requires cell !in s.cells && (val == NULL || val in s.cells)
    ensures Balance(Clone(s, val, cell).0) == Balance(s)
  {
    if val != NULL { GlobalizeBalance(s, cell, s.cells[val].referent); }
  }

  lemma NewBalance(s: Store, that: Option<Word>, cell: nat)
    requires cell !in s.cells
    ensures Balance(New(s, that, cell).0) == Balance(s)
  {
    if that.Some? { GlobalizeBalance(s, cell, that.value); }
  }

  lemma FieldBalance(s: Store, cell: nat, id: bv16, value: bool, shift: nat)
    ensures Balance(SetClassId(s, cell, id)) == Balance(s)
    ensures Balance(UpdateFlag(s, cell, value, shift)) == Balance(s)
  {
  }

  lemma UpdateBalance(s: Store, cell: nat, weakness: Weakness, to: nat)
    ensures Balance(MakeWeak(s, cell, weakness)) == Balance(s)
    ensures Balance(ClearWeak(s, cell)) == Balance(s)
    ensures Balance(MarkPending(s, cell)) == Balance(s)
    ensures Balance(MoveGlobal(s, cell, to)) == Balance(s)
  {
  }

  lemma RelocateBalance(s: Store, f: map<Word, Word>)
    ensures Balance(Relocate(s, f)) == Balance(s)
  {
    assert Relocate(s, f).cells.Keys == s.cells.Keys;
    assert |Relocate(s, f).cells.Keys| == |s.cells.Keys|;
  }

  lemma CopyBalance(w: World, h: nat, source: nat, cell: nat)
    requires Inv(w) && h in w.vars && source in w.vars && Available(w, cell, w.vars[h].val)
    ensures Balance(CopyOnto(w.store, w.vars[h].val, w.vars[source].val, h == source, cell).0) == Balance(w.store)
  {
    ResetBalance(w, h, cell);
    if NonEmpty(w, source) { HeldIsLive(w, source, h); }
    CloneBalance(Reset(w.store, w.vars[h].val), if h == source then NULL else w.vars[source].val, cell);
  }

  predicate Allocates(op: Op) {
    op.FromLocal? || op.FromPersistent? || op.CopyConstruct? || op.ResetToLocal? || op.ResetToPersistent? || op.CopyAssign?
  }

  lemma AllocationBalance(w: World, op: Op)
    requires Inv(w) && Enabled(w, op) && Allocates(op)
    ensures Balance(Step(w, op).store) == Balance(w.store)
  {
    match op
    case FromLocal(h, _, that, cell) => NewBalance(w.store, that, cell);
    case FromPersistent(h, _, source, cell) =>
      if NonEmpty(w, source) { HeldIsLive(w, source, h); }
      CloneBalance(w.store, w.vars[source].val, cell);
    case CopyConstruct(h, _, source, cell) =>
      if NonEmpty(w, source) { HeldIsLive(w, source, h); }
      CloneBalance(w.store, w.vars[source].val, cell);
    case ResetToLocal(h, that, cell) =>
      ResetBalance(w, h, cell);
      NewBalance(Reset(w.store, w.vars[h].val), that, cell);
    case ResetToPersistent(h, source, cell) => CopyBalance(w, h, source, cell);
    case CopyAssign(h, source, cell) => CopyBalance(w, h, source, cell);
  }

  predicate Updates(op: Op) {
    op.SetWeak? || op.SetPhantom? || op.ClearWeakHandle? || op.SetWrapperClassId? || op.UpdateNodeFlag? || op.GcRelocate? || op.GcMarkPending?
  }

  lemma UpdatesBalance(w: World, op: Op)
    requires Enabled(w, op) && Updates(op)
    ensures Balance(Step(w, op).store) == Balance(w.store)
  {
    match op
    case SetWeak(h, callback, parameter) => UpdateBalance(w.store, w.vars[h].val, Callback(callback, parameter), h);
    case SetPhantom(h) => UpdateBalance(w.store, w.vars[h].val, Phantom(h), h);
    case ClearWeakHandle(h) => UpdateBalance(w.store, w.vars[h].val, Phantom(h), h);
    case SetWrapperClassId(h, id) => FieldBalance(w.store, w.vars[h].val, id, false, 3);
    case UpdateNodeFlag(h, value, shift) => FieldBalance(w.store, w.vars[h].val, 0, value, shift);
    case GcRelocate(f) => RelocateBalance(w.store, f);
    case GcMarkPending(cell) => UpdateBalance(w.store, cell, Phantom(0), 0);
  }

  lemma MoveOntoBalance(w: World, h: nat, val: nat, source: nat)
    requires Inv(w) && source in w.vars && (val == NULL || (h in w.vars && w.vars[h].val == val))
    ensures Balance(MoveOnto(w.store, val, w.vars[source].val, h).0) == Balance(w.store)
  {
    if val != NULL { ResetBalance(w, h, NULL); }
    UpdateBalance(Reset(w.store, val), w.vars[source].val, Phantom(h), h);
  }

  lemma MoveBalance(w: World, h: nat, source: nat)
    requires Inv(w)
    ensures Enabled(w, MoveConstruct(h, source)) ==> Balance(Step(w, MoveConstruct(h, source)).store) == Balance(w.store)
    ensures Enabled(w, MoveAssign(h, source)) ==> Balance(Step(w, MoveAssign(h, source)).store) == Balance(w.store)
  {
    if source in w.vars { MoveOntoBalance(w, h, if h in w.vars then w.vars[h].val else NULL, source); }
  }

  lemma ReleaseBalance(w: World, h: nat)
    requires h in w.vars && Balance(Reset(w.store, w.vars[h].val)) == Balance(w.store)
    ensures Balance(Step(w, ResetHandle(h)).store) == Balance(w.store)
    ensures Balance(Step(w, Destroy(h)).store) == Balance(w.store)
  {
  }

  lemma NullPhantomBalance(w: World, cell: nat)
    requires Enabled(w, GcNullPhantom(cell)) && cell in w.store.cells
    ensures Balance(Step(w, GcNullPhantom(cell)).store) == Balance(w.store)
  {
    DisposeBalance(w.store, cell);
  }

  lemma StepBalance(w: World, op: Op)
    requires Inv(w) && Enabled(w, op)
    ensures Balance(Step(w, op).store) == Balance(w.store)
  {
    if Allocates(op) {
      AllocationBalance(w, op);
    } else if Updates(op) {
      UpdatesBalance(w, op);
    } else {
      match op
      case MoveConstruct(h, source) => MoveBalance(w, h, source);
      case MoveAssign(h, source) => MoveBalance(w, h, source);
      case ResetHandle(h) => ResetBalance(w, h, NULL); ReleaseBalance(w, h);
      case Destroy(h) => ResetBalance(w, h, NULL); ReleaseBalance(w, h);
      case GcNullPhantom(cell) => NullPhantomBalance(w, cell);
      case _ =>
    }
  }

  /**
   Whole runs.  No entry point is ever handed a disposed cell, so none is disposed twice; no two
   handles name the same cell; every live cell is held by exactly one handle or was abandoned by
   one; and the live cells are those created and not yet disposed.
   */
  lemma {:induction false} RunIsSafe(ops: seq<Op>)
    ensures var w := Run(EMPTY_WORLD, ops);
      && Safe(w) && w.store.ok
      && w.store.cells.Keys == Held(w.vars) + w.abandoned.Keys
      && Held(w.vars) !! w.abandoned.Keys
      && Unique(w.vars)
      && w.store.created == w.store.disposed + |w.store.cells|
  {
    RunSafeFrom(EMPTY_WORLD, ops);
  }

  lemma {:induction false} RunSafeFrom(w: World, ops: seq<Op>)
    requires Safe(w)
    ensures Safe(Run(w, ops)) && Balance(Run(w, ops).store) == Balance(w.store)
  {
    if ops != [] {
      var before := Run(w, ops[..|ops| - 1]);
      var op := ops[|ops| - 1];
      RunSafeFrom(w, ops[..|ops| - 1]);
      if Enabled(before, op) {
        StepSafe(before, op);
        StepBalance(before, op);
      }
    }
  }

  // --- Who lets go of cells ---

  /** The handle forgets, without clearing it first, a cell that the collector still means to null it for. */
  predicate StraysPhantom(w: World, op: Op) {
    match op
    case Empty(h) => HoldsPhantom(w, h)
    case Destroy(h) => h in w.vars && (w.vars[h].kind.NonCopyable? || w.vars[h].kind.Traced?) && HoldsPhantom(w, h)
    case _ => false
  }

  predicate HoldsPhantom(w: World, h: nat) {
    h in w.vars && w.vars[h].val in w.store.weak && w.store.weak[w.vars[h].val].Phantom?
  }

  /** Every location the collector will null belongs to a handle that holds the dying cell. */
  ghost predicate PhantomsAtHome(w: World) {
    forall c | c in w.store.weak && w.store.weak[c].Phantom? :: HeldAt(w, w.store.weak[c].location, c)
  }

  /**
   "The handle will be reset automatically": true of every step but the two that forget a phantom cell,
   after which the collector nulls a handle that moved on, or storage that is gone.
   */
  lemma PhantomsExactly(w: World, op: Op)
    requires Safe(w) && Enabled(w, op) && PhantomsAtHome(w)
    ensures PhantomsAtHome(Step(w, op)) <==> !StraysPhantom(w, op)
  {
    var r := Step(w, op);
    StepSafe(w, op);
    if StraysPhantom(w, op) {
      var c := w.vars[op.h].val;
      assert c in r.store.weak && r.store.weak[c] == w.store.weak[c];
      assert !HeldAt(r, w.store.weak[c].location, c);
    } else {
      forall c | IsPhantom(r, c) ensures HeldAt(r, r.store.weak[c].location, c) {
        PhantomNotAbandoned(w, op, c);
      }
    }
  }

  lemma PhantomNotAbandoned(w: World, op: Op, c: nat)
    requires Safe(w) && Enabled(w, op) && PhantomsAtHome(w) && !StraysPhantom(w, op) && IsPhantom(Step(w, op), c)
    ensures c !in Step(w, op).abandoned
  {
    forall d | IsPhantom(w, d) ensures d !in w.abandoned {
      HeldIsLive(w, w.store.weak[d].location, w.store.weak[d].location);
    }
    if op.SetPhantom? { HeldIsLive(w, op.h, op.h); }
    PhantomAfter(w, op, c);
    AbandonedExactly(w, op, c);
  }

  predicate IsPhantom(w: World, c: nat) { c in w.store.weak && w.store.weak[c].Phantom? }

  lemma PhantomAfter(w: World, op: Op, c: nat)
    requires Enabled(w, op) && IsPhantom(Step(w, op), c)
    ensures IsPhantom(w, c) || (op.SetPhantom? && HeldAt(w, op.h, c))
  {
    if op.MoveConstruct? || op.MoveAssign? { WeakAfterMove(w, op, c); } else { WeakAfter(w, op, c); }
  }

  /** What is weak afterwards was weak before, in the same way, unless this very step made it so. */
  lemma WeakAfter(w: World, op: Op, c: nat)
    requires Enabled(w, op) && !op.MoveConstruct? && !op.MoveAssign? && c in Step(w, op).store.weak
    ensures
      || WeakAlike(w.store, Step(w, op).store, c)
      || (op.SetWeak? && HeldAt(w, op.h, c) && Step(w, op).store.weak[c] == Callback(op.callback, op.parameter))
      || (op.SetPhantom? && HeldAt(w, op.h, c) && Step(w, op).store.weak[c] == Phantom(op.h))
  {
    if Allocates(op) { WeakAfterAllocation(w, op, c); }
  }

  predicate WeakAlike(s: Store, r: Store, c: nat) { c in s.weak && c in r.weak && r.weak[c] == s.weak[c] }

  lemma WeakAfterCopy(s: Store, val: nat, source: nat, that: Option<Word>, same: bool, cell: nat, c: nat)
    ensures c in CopyOnto(s, val, source, same, cell).0.weak ==> WeakAlike(s, CopyOnto(s, val, source, same, cell).0, c)
    ensures c in New(Reset(s, val), that, cell).0.weak ==> WeakAlike(s, New(Reset(s, val), that, cell).0, c)
  {
  }

  lemma WeakAfterAllocation(w: World, op: Op, c: nat)
    requires Enabled(w, op) && Allocates(op) && c in Step(w, op).store.weak
    ensures WeakAlike(w.store, Step(w, op).store, c)
  {
    match op
    case FromLocal(_, _, that, cell) => WeakAfterCopy(w.store, NULL, NULL, that, false, cell, c);
    case FromPersistent(_, _, source, cell) => WeakAfterCopy(w.store, NULL, w.vars[source].val, None, false, cell, c);
    case CopyConstruct(_, _, source, cell) => WeakAfterCopy(w.store, NULL, w.vars[source].val, None, false, cell, c);
    case ResetToLocal(h, that, cell) => WeakAfterCopy(w.store, w.vars[h].val, NULL, that, false, cell, c);
    case ResetToPersistent(h, source, cell) => WeakAfterCopy(w.store, w.vars[h].val, w.vars[source].val, None, h == source, cell, c);
    case CopyAssign(h, source, cell) => WeakAfterCopy(w.store, w.vars[h].val, w.vars[source].val, None, h == source, cell, c);
  }

  /** A move only redirects the phantom cell it hands over. */
  lemma WeakAfterMove(w: World, op: Op, c: nat)
    requires Enabled(w, op) && (op.MoveConstruct? || op.MoveAssign?) && c in Step(w, op).store.weak
    ensures c in w.store.weak
    ensures Step(w, op).store.weak[c] == w.store.weak[c] || (w.store.weak[c].Phantom? && Step(w, op).store.weak[c] == Phantom(op.h))
  {
  }

  /** `op` makes a handle forget `c`: an explicit `Empty`, or a destructor that does not reset. */
  predicate Forgets(w: World, op: Op, c: nat) {
    match op
    case Empty(h) => c != NULL && HeldAt(w, h, c)
    case Destroy(h) => c != NULL && HeldAt(w, h, c) && (w.vars[h].kind.NonCopyable? || w.vars[h].kind.Traced?)
    case _ => false
  }

  /** The collector nulls, for a dying phantom cell, a handle that holds another cell by now, namely `c`. */
  predicate NulledAway(w: World, op: Op, c: nat) {
    match op
    case GcNullPhantom(cell) => cell != c && c != NULL && IsPhantom(w, cell) && HeldAt(w, w.store.weak[cell].location, c)
    case _ => false
  }

  /** The handle that lets go of `c` in such a step. */
  function Loser(w: World, op: Op): nat {
    match op
    case GcNullPhantom(cell) => if IsPhantom(w, cell) then w.store.weak[cell].location else NULL
    case Empty(h) => h
    case Destroy(h) => h
    case _ => NULL
  }

  /**
   The ledger, in every state a run can reach: a cell becomes abandoned exactly when a handle forgets
   it or is nulled away from it, and the kind of that handle is recorded; it leaves the ledger
   exactly when the collector frees it, and until then its entry stands.
   */
  lemma AbandonedExactly(w: World, op: Op, c: nat)
    requires Safe(w) && Enabled(w, op)
    ensures var r := Step(w, op);
      if c !in w.abandoned then
        && (c in r.abandoned <==> Forgets(w, op, c) || NulledAway(w, op, c))
        && (c in r.abandoned ==> Loser(w, op) in w.vars && r.abandoned[c] == w.vars[Loser(w, op)].kind)
      else
        && (c in r.abandoned <==> op != GcNullPhantom(c))
        && (c in r.abandoned ==> r.abandoned[c] == w.abandoned[c])
  {
    if c in w.abandoned { StaysAbandoned(w, op, c); } else { NewlyAbandoned(w, op, c); }
  }

  lemma StaysAbandoned(w: World, op: Op, c: nat)
    requires Safe(w) && Enabled(w, op) && c in w.abandoned
    ensures c in Step(w, op).abandoned <==> op != GcNullPhantom(c)
    ensures c in Step(w, op).abandoned ==> Step(w, op).abandoned[c] == w.abandoned[c]
  {
    if LetsGo(op) {
      var h := Loser(w, op);
      if NonEmpty(w, h) { HeldIsLive(w, h, h); }
    } else {
      LedgerStands(w, op);
    }
  }

  lemma NewlyAbandoned(w: World, op: Op, c: nat)
    requires Safe(w) && Enabled(w, op) && c !in w.abandoned
    ensures var r := Step(w, op);
      && (c in r.abandoned <==> Forgets(w, op, c) || NulledAway(w, op, c))
      && (c in r.abandoned ==> Loser(w, op) in w.vars && r.abandoned[c] == w.vars[Loser(w, op)].kind)
  {
    if !LetsGo(op) { LedgerStands(w, op); }
  }

  predicate LetsGo(op: Op) { op.Empty? || op.Destroy? || op.GcNullPhantom? }

  lemma LedgerStands(w: World, op: Op)
    requires Enabled(w, op) && !LetsGo(op)
    ensures Step(w, op).abandoned == w.abandoned
  {
  }

  // --- What outlives the handles that reset themselves ---

  ghost predicate OnlyLeakyAbandon(w: World) {
    forall c | c in w.abandoned :: (w.abandoned[c].NonCopyable? || w.abandoned[c].Traced?)
  }

  /** `Empty()` of a resetting handle with a cell, or the collector nulling such a handle away from its cell. */
  predicate LeaksResetter(w: World, op: Op) {
    match op
    case Empty(h) => NonEmpty(w, h) && (w.vars[h].kind.Global? || w.vars[h].kind.Copyable?)
    case GcNullPhantom(cell) =>
      && IsPhantom(w, cell) && NonEmpty(w, w.store.weak[cell].location)
      && w.vars[w.store.weak[cell].location].val != cell
      && (w.vars[w.store.weak[cell].location].kind.Global? || w.vars[w.store.weak[cell].location].kind.Copyable?)
    case _ => false
  }

  /** These two are exactly the steps after which a cell of a `Global` or copyable `Persistent` is abandoned. */
  lemma LeaksExactly(w: World, op: Op)
    requires Safe(w) && Enabled(w, op) && OnlyLeakyAbandon(w)
    ensures OnlyLeakyAbandon(Step(w, op)) <==> !LeaksResetter(w, op)
  {
    var r := Step(w, op);
    if LeaksResetter(w, op) {
      var c := w.vars[Loser(w, op)].val;
      HeldIsLive(w, Loser(w, op), Loser(w, op));
      AbandonedExactly(w, op, c);
      assert c in r.abandoned && (r.abandoned[c].Global? || r.abandoned[c].Copyable?);
    } else {
      forall c | c in r.abandoned ensures (r.abandoned[c].NonCopyable? || r.abandoned[c].Traced?) { AbandonedExactly(w, op, c); }
    }
  }

  predicate LeaklessRun(w: World, ops: seq<Op>) {
    ops == [] || (
      var before := Run(w, ops[..|ops| - 1]);
      var op := ops[|ops| - 1];
      LeaklessRun(w, ops[..|ops| - 1]) && (Enabled(before, op) ==> !LeaksResetter(before, op)))
  }

  /**
   Over runs of any mixture of handles without such a step, nothing of a `Global` or copyable
   `Persistent` outlives them: once none is left, every live cell is held or was abandoned by a
   handle whose destructor does not reset.
   */
  lemma {:induction false} ResettersLeaveNothing(ops: seq<Op>)
    requires LeaklessRun(EMPTY_WORLD, ops)
    ensures var w := Run(EMPTY_WORLD, ops);
      && Safe(w) && OnlyLeakyAbandon(w)
      && ((forall h | h in w.vars :: (w.vars[h].kind.NonCopyable? || w.vars[h].kind.Traced?)) ==>
            forall c | c in w.store.cells :: FromLeaky(w, c))
  {
    if ops != [] {
      var before := Run(EMPTY_WORLD, ops[..|ops| - 1]);
      var op := ops[|ops| - 1];
      ResettersLeaveNothing(ops[..|ops| - 1]);
      if Enabled(before, op) {
        StepSafe(before, op);
        LeaksExactly(before, op);
      }
    }
    var w := Run(EMPTY_WORLD, ops);
    if forall h | h in w.vars :: (w.vars[h].kind.NonCopyable? || w.vars[h].kind.Traced?) {
      forall c | c in w.store.cells ensures FromLeaky(w, c) {
        if c !in w.abandoned {
          assert c in Held(w.vars);
          var h :| h in w.vars && w.vars[h].val == c;
          assert HeldAt(w, h, c);
        }
      }
    }
  }

  ghost predicate FromLeaky(w: World, c: nat) {
    || (c in w.abandoned && (w.abandoned[c].NonCopyable? || w.abandoned[c].Traced?))
    || exists h :: HeldAt(w, h, c) && (w.vars[h].kind.NonCopyable? || w.vars[h].kind.Traced?)
  }

  predicate StraylessRun(w: World, ops: seq<Op>) {
    ops == [] || (
      var before := Run(w, ops[..|ops| - 1]);
      var op := ops[|ops| - 1];
      StraylessRun(w, ops[..|ops| - 1]) && (Enabled(before, op) ==> !StraysPhantom(before, op)))
  }

  /** Over runs that forget no phantom cell, the collector nulls only handles that hold the dying cell. */
  lemma {:induction false} PhantomsStayHome(ops: seq<Op>)
    requires StraylessRun(EMPTY_WORLD, ops)
    ensures Safe(Run(EMPTY_WORLD, ops)) && PhantomsAtHome(Run(EMPTY_WORLD, ops))
  {
    if ops != [] {
      var before := Run(EMPTY_WORLD, ops[..|ops| - 1]);
      var op := ops[|ops| - 1];
      PhantomsStayHome(ops[..|ops| - 1]);
      if Enabled(before, op) {
        StepSafe(before, op);
        PhantomsExactly(before, op);
      }
    }
  }

  /** Only `Global` and copyable `Persistent` handles are made. */
  predicate MakesResetters(op: Op) {
    op.Declare? || op.FromLocal? || op.FromPersistent? || op.CopyConstruct? ==> op.kind.Global? || op.kind.Copyable?
  }

  ghost predicate OnlyResetters(w: World) {
    forall h | h in w.vars :: (w.vars[h].kind.Global? || w.vars[h].kind.Copyable?)
  }

  lemma KindsAfter(w: World, op: Op)
    requires Enabled(w, op) && OnlyResetters(w) && MakesResetters(op)
    ensures OnlyResetters(Step(w, op))
  {
  }

  /** Among such handles, a step abandons nothing exactly when it does not leak. */
  lemma NothingAbandonedExactly(w: World, op: Op)
    requires Safe(w) && Enabled(w, op) && OnlyResetters(w) && w.abandoned == map[]
    ensures Step(w, op).abandoned == map[] <==> !LeaksResetter(w, op)
  {
    LeaksExactly(w, op);
    var r := Step(w, op);
    if !LeaksResetter(w, op) {
      forall c | c in r.abandoned ensures c in w.abandoned { AbandonedExactly(w, op, c); }
    }
  }

  lemma {:induction false} ResetterRun(ops: seq<Op>)
    requires LeaklessRun(EMPTY_WORLD, ops)
    requires forall op | op in ops && (op.Declare? || op.FromLocal? || op.FromPersistent? || op.CopyConstruct?) ::
      op.kind.Global? || op.kind.Copyable?
    ensures var w := Run(EMPTY_WORLD, ops);
      Safe(w) && Balance(w.store) == 0 && OnlyResetters(w) && w.abandoned == map[]
  {
    if ops != [] {
      var before := Run(EMPTY_WORLD, ops[..|ops| - 1]);
      var op := ops[|ops| - 1];
      ResetterRun(ops[..|ops| - 1]);
      assert op in ops;
      if Enabled(before, op) {
        StepSafe(before, op);
        StepBalance(before, op);
        KindsAfter(before, op);
        NothingAbandonedExactly(before, op);
      }
    }
  }

  /** After such a run, when the last handle is destroyed no cell is left and each was disposed once. */
  lemma AllReleased(ops: seq<Op>)
    requires LeaklessRun(EMPTY_WORLD, ops)
    requires forall op | op in ops && (op.Declare? || op.FromLocal? || op.FromPersistent? || op.CopyConstruct?) ::
      op.kind.Global? || op.kind.Copyable?
    ensures var w := Run(EMPTY_WORLD, ops);
      w.vars == map[] ==> w.store.cells == map[] && w.store.created == w.store.disposed
  {
    ResetterRun(ops);
    NothingHeld(Run(EMPTY_WORLD, ops));
  }

  lemma NothingHeld(w: World)
    requires Inv(w) && w.abandoned == map[]
    ensures w.vars == map[] ==> w.store.cells == map[]
  {
    if w.vars == map[] { assert w.store.cells.Keys == {}; }
  }

  // --- The failures, at inputs ---

  lemma OneMore(w: World, ops: seq<Op>, op: Op)
    ensures var before := Run(w, ops);
      Run(w, ops + [op]) == if Enabled(before, op) then Step(before, op) else before
  {
    assert (ops + [op])[..|ops|] == ops;
  }

  /**
   A phantom handle forgotten by `Empty()` and given another object is nulled by the collector when
   the first one dies; the cell of the second is then live, held by none, and abandoned.
   */
  lemma StrayPhantomNullsAnotherHandle(x: Word, y: Word)
    ensures var w := Run(EMPTY_WORLD, [FromLocal(5, NonCopyable, Some(x), 10), SetPhantom(5), Empty(5),
                                       ResetToLocal(5, Some(y), 11), GcNullPhantom(10)]);
      && w.vars == map[5 := Var(NonCopyable, NULL)]
      && w.store.cells == map[11 := FreshNode(y)]
      && w.abandoned == map[11 := NonCopyable]
  {
    StraysAbout(x, y);
    var ops := [FromLocal(5, NonCopyable, Some(x), 10), SetPhantom(5), Empty(5)];
    OneMore(EMPTY_WORLD, ops, ResetToLocal(5, Some(y), 11));
    ops := ops + [ResetToLocal(5, Some(y), 11)];
    OneMore(EMPTY_WORLD, ops, GcNullPhantom(10));
    assert ops + [GcNullPhantom(10)] == [FromLocal(5, NonCopyable, Some(x), 10), SetPhantom(5), Empty(5),
                                         ResetToLocal(5, Some(y), 11), GcNullPhantom(10)];
    StrayIsNulled(x, y);
  }

  /** The node of a phantom cell. */
  function PhantomNode(x: Word): Node { FreshNode(x).(state := NODE_STATE_IS_WEAK) }

  function Strayed(x: Word): World {
    World(Store(map[10 := PhantomNode(x)], map[10 := Phantom(5)], 1, 0, true),
          map[5 := Var(NonCopyable, NULL)], map[10 := NonCopyable])
  }

  lemma StraysAbout(x: Word, y: Word)
    ensures Run(EMPTY_WORLD, [FromLocal(5, NonCopyable, Some(x), 10), SetPhantom(5), Empty(5)]) == Strayed(x)
  {
    var op1, op2, op3 := FromLocal(5, NonCopyable, Some(x), 10), SetPhantom(5), Empty(5);
    PhantomMade(x);
    OneMore(EMPTY_WORLD, [op1, op2], op3);
    assert [op1, op2] + [op3] == [op1, op2, op3];
  }

  lemma PhantomMade(x: Word)
    ensures Run(EMPTY_WORLD, [FromLocal(5, NonCopyable, Some(x), 10), SetPhantom(5)])
         == Strayed(x).(vars := map[5 := Var(NonCopyable, 10)], abandoned := map[])
  {
    var op1, op2 := FromLocal(5, NonCopyable, Some(x), 10), SetPhantom(5);
    OneMore(EMPTY_WORLD, [], op1);
    assert [] + [op1] == [op1];
    OneMore(EMPTY_WORLD, [op1], op2);
    assert [op1] + [op2] == [op1, op2];
  }

  lemma StrayIsNulled(x: Word, y: Word)
    ensures Enabled(Strayed(x), ResetToLocal(5, Some(y), 11))
    ensures var w := Step(Strayed(x), ResetToLocal(5, Some(y), 11));
      && Enabled(w, GcNullPhantom(10))
      && Step(w, GcNullPhantom(10)) == World(Store(map[11 := FreshNode(y)], map[], 2, 1, true),
                                             map[5 := Var(NonCopyable, NULL)], map[11 := NonCopyable])
  {
    var w := Step(Strayed(x), ResetToLocal(5, Some(y), 11));
    assert w.vars == map[5 := Var(NonCopyable, 11)];
    assert w.store.cells == map[10 := PhantomNode(x), 11 := FreshNode(y)];
    assert w.store.weak == map[10 := Phantom(5)];
  }

  /** A copyable `Persistent` assigned to itself loses its object: its one cell is disposed. */
  lemma SelfAssignmentLosesTheObject(x: Word)
    ensures var held := Run(EMPTY_WORLD, [FromLocal(1, Copyable, Some(x), 10)]);
      held.vars == map[1 := Var(Copyable, 10)] && held.store.cells == map[10 := FreshNode(x)]
    ensures var w := Run(EMPTY_WORLD, [FromLocal(1, Copyable, Some(x), 10), CopyAssign(1, 1, 11)]);
      w.vars == map[1 := Var(Copyable, NULL)] && w.store.cells == map[] && w.store.disposed == 1
  {
    var first := FromLocal(1, Copyable, Some(x), 10);
    OneMore(EMPTY_WORLD, [], first);
    assert [] + [first] == [first];
    OneMore(EMPTY_WORLD, [first], CopyAssign(1, 1, 11));
    assert [first] + [CopyAssign(1, 1, 11)] == [first, CopyAssign(1, 1, 11)];
  }

  // --- What other handles do not see ---

  /** The step assigns or destroys `h`, changes its weakness, class id or flags, or has the collector null it. */
  predicate Touches(w: World, op: Op, h: nat) {
    match op
    case MoveConstruct(k, source) => h == k || h == source
    case MoveAssign(k, source) => h == k || h == source
    case GcRelocate(_) => false
    case GcMarkPending(_) => false
    case GcNullPhantom(cell) => cell in w.store.weak && w.store.weak[cell].Phantom? && w.store.weak[cell].location == h
    case _ => op.h == h
  }

  /** The node a cell holds after a step that does not touch its handle. */
  function Carried(op: Op, cell: nat, n: Node): Node {
    match op
    case GcRelocate(f) => n.(referent := Moved(f, n.referent))
    case GcMarkPending(c) => if c == cell then n.(state := NODE_STATE_IS_PENDING) else n
    case _ => n
  }

  /** Operations on other handles leave a handle, its object and its weakness alone. */
  lemma Untouched(w: World, op: Op, h: nat)
    requires Safe(w) && Enabled(w, op) && h in w.vars && !Touches(w, op, h)
    ensures h in Step(w, op).vars && Step(w, op).vars[h] == w.vars[h]
    ensures w.vars[h].val != NULL ==>
      var c := w.vars[h].val; var r := Step(w, op).store;
      && c in w.store.cells && c in r.cells && r.cells[c] == Carried(op, c, w.store.cells[c])
      && (c in r.weak <==> c in w.store.weak)
      && (c in r.weak ==> r.weak[c] == w.store.weak[c])
  {
    UntouchedVar(w, op, h);
    if NonEmpty(w, h) {
      HeldIsLive(w, h, h);
      if NodeOp(op) {
        UntouchedByCollector(w, op, h);
      } else {
        HeldIsLive(w, h, op.h);
        if op.MoveAssign? || op.MoveConstruct? { HeldIsLive(w, h, op.source); }
        UntouchedCell(w, op, h);
      }
    }
  }

  lemma UntouchedVar(w: World, op: Op, h: nat)
    requires Enabled(w, op) && h in w.vars && !Touches(w, op, h)
    ensures h in Step(w, op).vars && Step(w, op).vars[h] == w.vars[h]
  {
  }

  lemma UntouchedByCollector(w: World, op: Op, h: nat)
    requires Homed(w) && Unique(w.vars) && Enabled(w, op) && NonEmpty(w, h) && !Touches(w, op, h) && NodeOp(op)
    requires w.vars[h].val in w.store.cells && w.vars[h].val !in w.abandoned
    ensures var c := w.vars[h].val; var r := Step(w, op).store;
      && c in r.cells && r.cells[c] == Carried(op, c, w.store.cells[c])
      && (c in r.weak <==> c in w.store.weak)
      && (c in r.weak ==> r.weak[c] == w.store.weak[c])
  {
    if op.GcNullPhantom? { assert op.cell != w.vars[h].val; }
  }

  predicate NodeOp(op: Op) { op.GcRelocate? || op.GcMarkPending? || op.GcNullPhantom? }

  predicate SameAt(s: Store, r: Store, c: nat) {
    && c in s.cells && c in r.cells && r.cells[c] == s.cells[c]
    && (c in r.weak <==> c in s.weak)
    && (c in r.weak ==> r.weak[c] == s.weak[c])
  }

  lemma CloneElsewhere(s: Store, source: nat, that: Option<Word>, cell: nat, c: nat)
    requires c in s.cells && c != cell
    ensures SameAt(s, Clone(s, source, cell).0, c)
    ensures SameAt(s, New(s, that, cell).0, c)
  {
  }

  lemma CopyElsewhere(s: Store, val: nat, source: nat, that: Option<Word>, cell: nat, same: bool, c: nat)
    requires c in s.cells && c != val && c != cell
    ensures SameAt(s, CopyOnto(s, val, source, same, cell).0, c)
    ensures SameAt(s, New(Reset(s, val), that, cell).0, c)
  {
    CloneElsewhere(Reset(s, val), if same then NULL else source, that, cell, c);
  }

  lemma UntouchedByAllocation(w: World, op: Op, c: nat)
    requires Enabled(w, op) && Allocates(op) && c in w.store.cells
    requires op.h in w.vars ==> w.vars[op.h].val != c
    ensures SameAt(w.store, Step(w, op).store, c)
  {
    match op
    case FromLocal(_, _, that, cell) => CloneElsewhere(w.store, NULL, that, cell, c);
    case FromPersistent(_, _, source, cell) => CloneElsewhere(w.store, w.vars[source].val, None, cell, c);
    case CopyConstruct(_, _, source, cell) => CloneElsewhere(w.store, w.vars[source].val, None, cell, c);
    case ResetToLocal(k, that, cell) => CopyElsewhere(w.store, w.vars[k].val, NULL, that, cell, false, c);
    case ResetToPersistent(k, source, cell) =>
      CopyElsewhere(w.store, w.vars[k].val, w.vars[source].val, None, cell, k == source, c);
    case CopyAssign(k, source, cell) =>
      CopyElsewhere(w.store, w.vars[k].val, w.vars[source].val, None, cell, k == source, c);
  }

  lemma UntouchedCell(w: World, op: Op, h: nat)
    requires Enabled(w, op) && NonEmpty(w, h) && !Touches(w, op, h) && !NodeOp(op)
    requires w.vars[h].val in w.store.cells
    requires op.h in w.vars ==> w.vars[op.h].val != w.vars[h].val
    requires op.MoveAssign? || op.MoveConstruct? ==> w.vars[op.source].val != w.vars[h].val
    ensures SameAt(w.store, Step(w, op).store, w.vars[h].val)
  {
    if Allocates(op) {
      UntouchedByAllocation(w, op, w.vars[h].val);
    } else if op.MoveAssign? || op.MoveConstruct? {
      UntouchedByMove(w, op, w.vars[h].val);
    }
  }

  lemma UntouchedByMove(w: World, op: Op, c: nat)
    requires Enabled(w, op) && (op.MoveAssign? || op.MoveConstruct?) && c in w.store.cells && c != NULL
    requires w.vars[op.source].val != c && (op.h in w.vars ==> w.vars[op.h].val != c)
    ensures SameAt(w.store, Step(w, op).store, c)
  {
    match op
    case MoveConstruct(h, source) => MoveElsewhere(w.store, NULL, w.vars[source].val, h, c);
    case MoveAssign(h, source) => MoveElsewhere(w.store, w.vars[h].val, w.vars[source].val, h, c);
  }

  lemma MoveElsewhere(s: Store, val: nat, source: nat, location: nat, c: nat)
    requires c in s.cells && c != val && c != source
    ensures SameAt(s, MoveOnto(s, val, source, location).0, c)
  {
  }
}
