/**
 Runs of any number of `ObjectWrap`s over a world of other handles and the collector.  The
 handle of a wrap is an ordinary non-copyable persistent handle of that world, so whatever
 holds in every run of handles holds here too.
 */
module ObjectWrapRuns {
  import opened NodeImage
  import opened CellStore
  import opened Options
  import opened HandleRuns
  import opened HandleEffects
  import ObjectWrap

  const WEAK_CALLBACK := ObjectWrap.WEAK_CALLBACK
  const MAX_INT := ObjectWrap.MAX_INT

  /** `refs_`, the calls that led to it, and which construction made the wrap. */
  datatype Wrap = Wrap(refs: int, refCalls: nat, unrefCalls: nat, serial: nat)

  /** Internal field 0 holds the address of a wrap; `serial` remembers which wrap it was. */
  datatype Field = Field(wrap: nat, serial: nat)

  /**
   The wraps that exist, by the address of their handle; internal field 0 of every object that
   has one; the wraps whose object was wrapped again by another; those whose handle was pointed
   at another object from outside; how many wraps were constructed, and which were destroyed.
   */
  datatype State = State(world: World, wraps: map<nat, Wrap>, fields: map<Word, Field>,
                         superseded: set<nat>, repointed: set<nat>, born: nat, ended: set<nat>)

  const INITIAL := State(EMPTY_WORLD, map[], map[], {}, {}, 0, {})

  datatype Action =
    | Construct(wrap: nat)
    | DoWrap(wrap: nat, referent: Word, cell: nat)
    | Ref(wrap: nat)
    | Unref(wrap: nat)
    | Delete(wrap: nat)
    | FireWeakCallback(cell: nat)
    | UseHandle(wrap: nat, op: Op)
    | Other(op: Op, dead: set<Word>)

  function Val(s: State, wrap: nat): nat {
    if wrap in s.world.vars then s.world.vars[wrap].val else NULL
  }

  function Referent(s: State, wrap: nat): Word {
    if Val(s, wrap) in s.world.store.cells then s.world.store.cells[Val(s, wrap)].referent else []
  }

  predicate IsWrapCallback(w: World, cell: nat) {
    cell in w.store.weak && w.store.weak[cell].Callback? && w.store.weak[cell].callback == WEAK_CALLBACK
  }

  predicate IsWrap(s: State, wrap: nat) { wrap in s.wraps && IsPersistent(s.world, wrap) }

  /**
   What the source asks of its callers: its asserts, except the one on weakness and the one in
   the callback, which are proved.  Through `persistent()`, or by `MakeWeak` in a derived class, the
   handle of a wrap may be used as its count permits.  Operations on other handles cannot name the
   private callback, and the collector moves live objects apart.  A phantom cell forgotten elsewhere
   may still register the address of a wrap: the collector may then null its empty handle.
   */
  ghost predicate Allowed(s: State, a: Action) {
    match a
    case Construct(wrap) => wrap !in s.world.vars
    case DoWrap(wrap, _, cell) => IsWrap(s, wrap) && Val(s, wrap) == NULL && Available(s.world, cell, NULL)
    case Ref(wrap) => IsWrap(s, wrap) && Val(s, wrap) != NULL && s.wraps[wrap].refs < MAX_INT
    case Unref(wrap) => IsWrap(s, wrap) && Val(s, wrap) != NULL && s.wraps[wrap].refs > 0
    case Delete(wrap) => IsWrap(s, wrap)
    case FireWeakCallback(cell) => IsWrapCallback(s.world, cell) && IsWrap(s, s.world.store.weak[cell].parameter)
    case UseHandle(wrap, op) => IsUse(s, wrap, op) && PermitsUse(s, wrap, op)
    case Other(op, dead) =>
      && Enabled(s.world, op)
      && (forall wrap | wrap in s.wraps :: Spares(s, op, wrap))
      && (op.SetWeak? ==> op.callback != WEAK_CALLBACK)
      && (op.GcRelocate? ==> Relocatable(s, op.f, dead))
  }

  /** The operation does not touch the handle of the wrap, or has the collector null it while it is empty. */
  predicate Spares(s: State, op: Op, wrap: nat) {
    Touches(s.world, op, wrap) ==> op.GcNullPhantom? && Val(s, wrap) == NULL
  }

  /** Any operation at all on the handle of a wrap. */
  predicate IsUse(s: State, wrap: nat, op: Op) {
    IsWrap(s, wrap) && Enabled(s.world, op) && Touches(s.world, op, wrap) && !op.GcNullPhantom?
  }

  /** The count demands an empty handle or a weak one to be at 0, and a strong one to be above. */
  predicate CountPermits(s: State, wrap: nat, op: Op)
    requires IsUse(s, wrap, op)
  {
    var refs := s.wraps[wrap].refs;
    match op
    case Empty(_) => refs == 0
    case ResetHandle(_) => refs == 0
    case ResetToLocal(_, that, _) => that.Some? <==> refs > 0
    case ResetToPersistent(_, source, _) => (source != wrap && NonEmpty(s.world, source)) <==> refs > 0
    case SetWeak(_, callback, parameter) => refs == 0 && callback == WEAK_CALLBACK && parameter == wrap
    case ClearWeakHandle(_) => refs > 0
    case SetWrapperClassId(_, _) => true
    case UpdateNodeFlag(_, _, _) => true
    case _ => false
  }

  /** Besides, a handle with a weak cell must not be emptied by hand: its callback would outlive it. */
  predicate PermitsUse(s: State, wrap: nat, op: Op)
    requires IsUse(s, wrap, op)
  {
    CountPermits(s, wrap, op) && (op.Empty? ==> Val(s, wrap) == NULL)
  }

  /** Objects still named by a cell are not dead, and objects that have fields stay apart when moved. */
  ghost predicate Relocatable(s: State, f: map<Word, Word>, dead: set<Word>) {
    && (forall c | c in s.world.store.cells :: s.world.store.cells[c].referent !in dead)
    && (forall o, p | o in s.fields.Keys - dead && p in s.fields.Keys - dead && Moved(f, o) == Moved(f, p) :: o == p)
  }

  function MovedFields(fields: map<Word, Field>, f: map<Word, Word>, dead: set<Word>): map<Word, Field>
    requires forall o, p | o in fields.Keys - dead && p in fields.Keys - dead && Moved(f, o) == Moved(f, p) :: o == p
  {
    map o | o in fields.Keys - dead :: Moved(f, o) := fields[o]
  }

  /** `~ObjectWrap`: nothing if the handle is empty, otherwise clear its weakness and reset it. */
  function Detached(w: World, wrap: nat): World
    requires IsPersistent(w, wrap)
  {
    if w.vars[wrap].val == NULL then w else Step(Step(w, ClearWeakHandle(wrap)), ResetHandle(wrap))
  }

  /** `~ObjectWrap` and the destructor of its handle. */
  function Destructor(w: World, wrap: nat): World
    requires IsPersistent(w, wrap)
  {
    Step(Detached(w, wrap), HandleRuns.Destroy(wrap))
  }

  function MakeWeak(w: World, wrap: nat): World
    requires IsPersistent(w, wrap) && NonEmpty(w, wrap)
  {
    Step(w, SetWeak(wrap, WEAK_CALLBACK, wrap))
  }

  /** Wraps of the same object, which its internal field no longer names. */
  function Rivals(s: State, wrap: nat, referent: Word): set<nat> {
    set other | other in s.wraps && other != wrap && Val(s, other) != NULL && Referent(s, other) == referent
  }

  function TakeField(s: State, wrap: nat, referent: Word): State
    requires wrap in s.wraps
  {
    s.(fields := s.fields[referent := Field(wrap, s.wraps[wrap].serial)],
       superseded := s.superseded - {wrap} + Rivals(s, wrap, referent),
       repointed := s.repointed - {wrap})
  }

  function Constructed(s: State, wrap: nat): State {
    s.(wraps := s.wraps[wrap := Wrap(0, 0, 0, s.born)], born := s.born + 1)
  }

  function Ended(s: State, wrap: nat): State
    requires wrap in s.wraps
  {
    s.(wraps := s.wraps - {wrap}, ended := s.ended + {s.wraps[wrap].serial})
  }

  function Used(s: State, wrap: nat, op: Op): State
    requires Enabled(s.world, op)
  {
    s.(world := Step(s.world, op),
       repointed := if op.ResetToLocal? || op.ResetToPersistent? then s.repointed + {wrap} else s.repointed)
  }

  ghost function Act(s: State, a: Action): State
    requires Allowed(s, a)
  {
    match a
    case Construct(wrap) =>
      Constructed(s.(world := Step(s.world, Declare(wrap, NonCopyable))), wrap)
    case DoWrap(wrap, referent, cell) =>
      TakeField(s.(world := MakeWeak(Step(s.world, ResetToLocal(wrap, Some(referent), cell)), wrap)), wrap, referent)
    case Ref(wrap) =>
      var v := s.wraps[wrap];
      s.(world := Step(s.world, ClearWeakHandle(wrap)), wraps := s.wraps[wrap := v.(refs := v.refs + 1, refCalls := v.refCalls + 1)])
    case Unref(wrap) =>
      var v := s.wraps[wrap];
      s.(world := if v.refs - 1 == 0 then MakeWeak(s.world, wrap) else s.world,
         wraps := s.wraps[wrap := v.(refs := v.refs - 1, unrefCalls := v.unrefCalls + 1)])
    case Delete(wrap) => Ended(s, wrap).(world := Destructor(s.world, wrap))
    case FireWeakCallback(cell) =>
      var wrap := s.world.store.weak[cell].parameter;
      Ended(s, wrap).(world := Destructor(Step(s.world, ResetHandle(wrap)), wrap))
    case UseHandle(wrap, op) => Used(s, wrap, op)
    case Other(op, dead) =>
      s.(world := Step(s.world, op), fields := if op.GcRelocate? then MovedFields(s.fields, op.f, dead) else s.fields)
  }

  // --- The invariant ---

  /** The handle is weak exactly while the count is zero, and then it names this wrap to its callback. */
  ghost predicate Coupled(s: State, wrap: nat) {
    && IsWrap(s, wrap) && s.world.vars[wrap].kind.NonCopyable?
    && 0 <= s.wraps[wrap].refs <= MAX_INT
    && s.wraps[wrap].refs == s.wraps[wrap].refCalls - s.wraps[wrap].unrefCalls
    && (Val(s, wrap) == NULL ==> s.wraps[wrap].refs == 0)
    && (Val(s, wrap) != NULL ==>
          && (Val(s, wrap) in s.world.store.weak <==> s.wraps[wrap].refs == 0)
          && (Val(s, wrap) in s.world.store.weak ==>
                s.world.store.weak[Val(s, wrap)] == Callback(WEAK_CALLBACK, wrap)))
  }

  /** Internal field 0 of the wrapped object leads back to the wrap exactly if no other wrap took the object over. */
  predicate Linked(s: State, wrap: nat) {
    Val(s, wrap) != NULL && wrap !in s.repointed ==>
      && Referent(s, wrap) in s.fields
      && (s.fields[Referent(s, wrap)].wrap == wrap <==> wrap !in s.superseded)
  }

  ghost predicate CallbacksAtHome(s: State) {
    forall c | IsWrapCallback(s.world, c) ::
      s.world.store.weak[c].parameter in s.wraps && HeldAt(s.world, s.world.store.weak[c].parameter, c)
  }

  /** The invariant, while the wraps in `busy` are in the middle of an operation. */
  ghost predicate InvBut(s: State, busy: set<nat>) {
    && Safe(s.world) && CallbacksAtHome(s)
    && forall wrap | wrap in s.wraps && wrap !in busy :: Coupled(s, wrap) && Linked(s, wrap)
  }

  ghost predicate Inv(s: State) {
    InvBut(s, {})
  }

  /** The operations a wrap performs on its own handle. */
  predicate OwnOp(w: World, op: Op, wrap: nat) {
    match op
    case Declare(h, kind) => h == wrap && kind.NonCopyable?
    case ResetToLocal(h, _, _) => h == wrap
    case ResetToPersistent(h, _, _) => h == wrap
    case SetWrapperClassId(h, _) => h == wrap
    case UpdateNodeFlag(h, _, _) => h == wrap
    case Empty(h) => h == wrap && !NonEmpty(w, wrap)
    case SetWeak(h, callback, parameter) => h == wrap && callback == WEAK_CALLBACK && parameter == wrap
    case ClearWeakHandle(h) => h == wrap
    case ResetHandle(h) => h == wrap
    case Destroy(h) => h == wrap && !NonEmpty(w, wrap)
    case _ => false
  }

  lemma CallbackAfter(w: World, op: Op, c: nat)
    requires Enabled(w, op) && IsWrapCallback(Step(w, op), c)
    ensures (IsWrapCallback(w, c) && Step(w, op).store.weak[c] == w.store.weak[c])
         || (op.SetWeak? && op.callback == WEAK_CALLBACK && HeldAt(w, op.h, c) && Step(w, op).store.weak[c].parameter == op.parameter)
  {
    if op.MoveConstruct? || op.MoveAssign? { WeakAfterMove(w, op, c); } else { WeakAfter(w, op, c); }
  }

  lemma CallbacksStayHome(s: State, op: Op, busy: set<nat>)
    requires InvBut(s, busy) && Enabled(s.world, op) && Safe(Step(s.world, op))
    requires forall wrap | wrap in s.wraps :: Spares(s, op, wrap) || OwnOp(s.world, op, wrap)
    requires op.SetWeak? && op.callback == WEAK_CALLBACK ==> op.h in s.wraps && OwnOp(s.world, op, op.h)
    ensures CallbacksAtHome(s.(world := Step(s.world, op)))
  {
    var r := Step(s.world, op);
    forall c | IsWrapCallback(r, c)
      ensures r.store.weak[c].parameter in s.wraps && HeldAt(r, r.store.weak[c].parameter, c)
    {
      CallbackAfter(s.world, op, c);
      var wrap := r.store.weak[c].parameter;
      assert wrap in s.wraps && HeldAt(s.world, wrap, c);
      assert c in r.store.cells && c != NULL;
      if Touches(s.world, op, wrap) { OwnOpHolds(s.world, op, wrap); } else { Untouched(s.world, op, wrap); }
    }
  }

  lemma OwnOpHolds(w: World, op: Op, wrap: nat)
    requires Safe(w) && Enabled(w, op) && OwnOp(w, op, wrap) && NonEmpty(w, wrap)
    requires w.vars[wrap].val in Step(w, op).store.cells
    ensures HeldAt(Step(w, op), wrap, w.vars[wrap].val)
  {
    HeldIsLive(w, wrap, wrap);
  }

  /** A step of the world, other than moving objects, keeps everything about the wraps it spares. */
  lemma WorldStep(s: State, op: Op, busy: set<nat>)
    requires InvBut(s, busy) && Enabled(s.world, op) && !op.GcRelocate?
    requires forall wrap | wrap in s.wraps :: Spares(s, op, wrap) || (wrap in busy && OwnOp(s.world, op, wrap))
    requires op.SetWeak? && op.callback == WEAK_CALLBACK ==> op.h in s.wraps && OwnOp(s.world, op, op.h)
    ensures InvBut(s.(world := Step(s.world, op)), busy)
  {
    var s' := s.(world := Step(s.world, op));
    StepSafe(s.world, op);
    CallbacksStayHome(s, op, busy);
    forall wrap | wrap in s'.wraps && wrap !in busy
      ensures Coupled(s', wrap) && Linked(s', wrap)
    {
      assert Coupled(s, wrap) && Linked(s, wrap);
      KeptWrap(s, op, wrap);
    }
  }

  lemma KeptWrap(s: State, op: Op, wrap: nat)
    requires Safe(s.world) && Enabled(s.world, op) && !op.GcRelocate?
    requires Coupled(s, wrap) && Linked(s, wrap) && Spares(s, op, wrap)
    ensures Coupled(s.(world := Step(s.world, op)), wrap) && Linked(s.(world := Step(s.world, op)), wrap)
  {
    if !Touches(s.world, op, wrap) { Untouched(s.world, op, wrap); }
    if NonEmpty(s.world, wrap) { HeldIsLive(s.world, wrap, wrap); }
  }

  // --- Action by action ---

  lemma ConstructInv(s: State, wrap: nat)
    requires Inv(s) && Allowed(s, Construct(wrap))
    ensures Inv(Act(s, Construct(wrap)))
  {
    assert forall other | other in s.wraps :: Coupled(s, other) && other != wrap;
    WorldStep(s, Declare(wrap, NonCopyable), {});
    WrapAdded(s.(world := Step(s.world, Declare(wrap, NonCopyable))), wrap);
  }

  lemma WrapAdded(s: State, wrap: nat)
    requires Inv(s) && wrap !in s.wraps && wrap in s.world.vars && s.world.vars[wrap] == Var(NonCopyable, NULL)
    ensures Inv(Constructed(s, wrap))
  {
    var r := Constructed(s, wrap);
    forall other | other in r.wraps && other != wrap ensures Coupled(r, other) && Linked(r, other) {
      assert Coupled(s, other) && Linked(s, other);
    }
  }

  lemma DoWrapInv(s: State, wrap: nat, referent: Word, cell: nat)
    requires Inv(s) && Allowed(s, DoWrap(wrap, referent, cell))
    ensures Inv(Act(s, DoWrap(wrap, referent, cell)))
  {
    assert Coupled(s, wrap);
    NewHandle(s, wrap, referent, cell);
    TakeFieldInv(s.(world := MakeWeak(Step(s.world, ResetToLocal(wrap, Some(referent), cell)), wrap)), wrap, referent);
  }

  lemma NewHandle(s: State, wrap: nat, referent: Word, cell: nat)
    requires InvBut(s, {wrap}) && Allowed(s, DoWrap(wrap, referent, cell)) && Coupled(s, wrap)
    ensures var r := s.(world := MakeWeak(Step(s.world, ResetToLocal(wrap, Some(referent), cell)), wrap));
      && InvBut(r, {wrap}) && Coupled(r, wrap)
      && Val(r, wrap) == cell && Referent(r, wrap) == referent
      && r.world.store == ObjectWrap.WrapStore(s.world.store, referent, cell, wrap)
  {
    var op1, op2 := ResetToLocal(wrap, Some(referent), cell), SetWeak(wrap, WEAK_CALLBACK, wrap);
    WorldStep(s, op1, {wrap});
    WorldStep(s.(world := Step(s.world, op1)), op2, {wrap});
  }

  lemma TakeFieldInv(s: State, wrap: nat, referent: Word)
    requires InvBut(s, {wrap}) && Coupled(s, wrap) && Referent(s, wrap) == referent
    ensures Inv(TakeField(s, wrap, referent))
  {
    var r := TakeField(s, wrap, referent);
    assert Coupled(r, wrap) && Linked(r, wrap);
    forall other | other in r.wraps && other != wrap ensures Coupled(r, other) && Linked(r, other) {
      assert Coupled(s, other) && Linked(s, other);
      OtherTaken(s, wrap, referent, other);
    }
  }

  lemma OtherTaken(s: State, wrap: nat, referent: Word, other: nat)
    requires Coupled(s, other) && Linked(s, other) && other in s.wraps && other != wrap && wrap in s.wraps
    ensures Coupled(TakeField(s, wrap, referent), other) && Linked(TakeField(s, wrap, referent), other)
  {
  }

  /** Clearing or making weak the handle of a wrap changes its weakness and nothing else of it. */
  lemma Marked(s: State, wrap: nat)
    requires Safe(s.world) && IsWrap(s, wrap) && Val(s, wrap) != NULL
    ensures var r := Step(s.world, ClearWeakHandle(wrap));
      && r.vars == s.world.vars && r.store.weak == s.world.store.weak - {Val(s, wrap)}
      && Referent(s.(world := r), wrap) == Referent(s, wrap)
    ensures var r := MakeWeak(s.world, wrap);
      && r.vars == s.world.vars && r.store.weak == s.world.store.weak[Val(s, wrap) := Callback(WEAK_CALLBACK, wrap)]
      && Referent(s.(world := r), wrap) == Referent(s, wrap)
  {
    HeldIsLive(s.world, wrap, wrap);
  }

  lemma RefInv(s: State, wrap: nat)
    requires Inv(s) && Allowed(s, Ref(wrap))
    ensures Inv(Act(s, Ref(wrap)))
  {
    var v := s.wraps[wrap];
    RefIs(s, wrap);
    RefKeepsInv(s, wrap, s.wraps[wrap := v.(refs := v.refs + 1, refCalls := v.refCalls + 1)]);
  }

  lemma RefIs(s: State, wrap: nat)
    requires Allowed(s, Ref(wrap))
    ensures var v := s.wraps[wrap];
      Act(s, Ref(wrap)) == s.(world := Step(s.world, ClearWeakHandle(wrap)),
                              wraps := s.wraps[wrap := v.(refs := v.refs + 1, refCalls := v.refCalls + 1)])
  {
  }

  lemma RefKeepsInv(s: State, wrap: nat, wraps: map<nat, Wrap>)
    requires Inv(s) && IsWrap(s, wrap) && Val(s, wrap) != NULL && s.wraps[wrap].refs < MAX_INT
    requires var v := s.wraps[wrap]; wraps == s.wraps[wrap := v.(refs := v.refs + 1, refCalls := v.refCalls + 1)]
    ensures Inv(s.(world := Step(s.world, ClearWeakHandle(wrap)), wraps := wraps))
  {
    assert Coupled(s, wrap) && Linked(s, wrap);
    var s1 := s.(world := Step(s.world, ClearWeakHandle(wrap)));
    WorldStep(s, ClearWeakHandle(wrap), {wrap});
    Marked(s, wrap);
    RefCouples(s, s1.world, s1.(wraps := wraps), wrap);
    OthersKept(s1, s1.(wraps := wraps), wrap);
  }

  lemma RefCouples(s: State, w: World, r: State, wrap: nat)
    requires Coupled(s, wrap) && Linked(s, wrap) && s.wraps[wrap].refs < MAX_INT && Val(s, wrap) != NULL
    requires w.vars == s.world.vars && w.store.weak == s.world.store.weak - {Val(s, wrap)}
    requires Referent(s.(world := w), wrap) == Referent(s, wrap)
    requires var v := s.wraps[wrap];
      r == s.(world := w, wraps := s.wraps[wrap := v.(refs := v.refs + 1, refCalls := v.refCalls + 1)])
    ensures Coupled(r, wrap) && Linked(r, wrap)
  {
  }

  lemma UnrefInv(s: State, wrap: nat)
    requires Inv(s) && Allowed(s, Unref(wrap))
    ensures Inv(Act(s, Unref(wrap)))
  {
    assert Coupled(s, wrap) && Linked(s, wrap);
    if s.wraps[wrap].refs == 1 {
      WorldStep(s, SetWeak(wrap, WEAK_CALLBACK, wrap), {wrap});
      Marked(s, wrap);
      OthersKept(s.(world := MakeWeak(s.world, wrap)), Act(s, Unref(wrap)), wrap);
    } else {
      OthersKept(s, Act(s, Unref(wrap)), wrap);
    }
  }

  /** The count of one wrap changed, and nothing else. */
  lemma OthersKept(s: State, r: State, wrap: nat)
    requires InvBut(s, {wrap}) && wrap in s.wraps && wrap in r.wraps
    requires r == s.(wraps := s.wraps[wrap := r.wraps[wrap]]) && Coupled(r, wrap) && Linked(r, wrap)
    ensures Inv(r)
  {
    forall other | other in r.wraps && other != wrap ensures Coupled(r, other) && Linked(r, other) {
      assert Coupled(s, other) && Linked(s, other);
    }
  }

  lemma DetachedInv(s: State, wrap: nat)
    requires InvBut(s, {wrap}) && IsWrap(s, wrap) && s.world.vars[wrap].kind.NonCopyable?
    ensures var r := s.(world := Detached(s.world, wrap));
      && InvBut(r, {wrap}) && wrap in r.world.vars && r.world.vars[wrap] == Var(NonCopyable, NULL)
      && r.world.store == ObjectWrap.DestructorStore(s.world.store, s.world.vars[wrap].val)
  {
    if NonEmpty(s.world, wrap) {
      WorldStep(s, ClearWeakHandle(wrap), {wrap});
      WorldStep(s.(world := Step(s.world, ClearWeakHandle(wrap))), ResetHandle(wrap), {wrap});
    }
  }

  lemma DestructorInv(s: State, wrap: nat)
    requires InvBut(s, {wrap}) && IsWrap(s, wrap) && s.world.vars[wrap].kind.NonCopyable?
    ensures Inv(Ended(s, wrap).(world := Destructor(s.world, wrap)))
    ensures wrap !in Destructor(s.world, wrap).vars
    ensures Destructor(s.world, wrap).store == ObjectWrap.DestructorStore(s.world.store, s.world.vars[wrap].val)
  {
    DetachedInv(s, wrap);
    var s1 := s.(world := Detached(s.world, wrap));
    WorldStep(s1, HandleRuns.Destroy(wrap), {wrap});
    WrapGone(s1.(world := Step(s1.world, HandleRuns.Destroy(wrap))), wrap);
  }

  lemma WrapGone(s: State, wrap: nat)
    requires InvBut(s, {wrap}) && wrap !in s.world.vars && wrap in s.wraps
    ensures Inv(Ended(s, wrap))
  {
    var r := Ended(s, wrap);
    forall other | other in r.wraps ensures Coupled(r, other) && Linked(r, other) {
      assert Coupled(s, other) && Linked(s, other);
    }
  }

  lemma DeleteInv(s: State, wrap: nat)
    requires Inv(s) && Allowed(s, Delete(wrap))
    ensures Inv(Act(s, Delete(wrap)))
  {
    assert Coupled(s, wrap);
    DestructorInv(s, wrap);
  }

  lemma FireInv(s: State, cell: nat)
    requires Inv(s) && Allowed(s, FireWeakCallback(cell))
    ensures Inv(Act(s, FireWeakCallback(cell)))
  {
    var wrap := s.world.store.weak[cell].parameter;
    assert Coupled(s, wrap);
    WorldStep(s, ResetHandle(wrap), {wrap});
    DestructorInv(s.(world := Step(s.world, ResetHandle(wrap))), wrap);
  }

  lemma RelocateInv(s: State, f: map<Word, Word>, dead: set<Word>)
    requires Inv(s) && Allowed(s, Other(GcRelocate(f), dead))
    ensures Inv(Act(s, Other(GcRelocate(f), dead)))
  {
    var op := GcRelocate(f);
    var r := Act(s, Other(op, dead));
    StepSafe(s.world, op);
    CallbacksStayHome(s, op, {});
    forall wrap | wrap in r.wraps ensures Coupled(r, wrap) && Linked(r, wrap) {
      assert Coupled(s, wrap) && Linked(s, wrap);
      RelocatedWrap(s, f, dead, wrap);
    }
  }

  lemma RelocatedWrap(s: State, f: map<Word, Word>, dead: set<Word>, wrap: nat)
    requires Safe(s.world) && Coupled(s, wrap) && Linked(s, wrap) && Allowed(s, Other(GcRelocate(f), dead))
    ensures var r := Act(s, Other(GcRelocate(f), dead)); Coupled(r, wrap) && Linked(r, wrap)
  {
    var r := Act(s, Other(GcRelocate(f), dead));
    Untouched(s.world, GcRelocate(f), wrap);
    if NonEmpty(s.world, wrap) {
      HeldIsLive(s.world, wrap, wrap);
      var o := Referent(s, wrap);
      assert Referent(r, wrap) == Moved(f, o);
      if wrap !in s.repointed { MovedField(s, f, dead, o); }
    }
  }

  lemma MovedField(s: State, f: map<Word, Word>, dead: set<Word>, o: Word)
    requires Relocatable(s, f, dead) && o in s.fields && o !in dead
    ensures Moved(f, o) in MovedFields(s.fields, f, dead) && MovedFields(s.fields, f, dead)[Moved(f, o)] == s.fields[o]
  {
    assert o in s.fields.Keys - dead;
  }

  lemma UseInv(s: State, wrap: nat, op: Op)
    requires Inv(s) && IsUse(s, wrap, op) && PermitsUse(s, wrap, op)
    ensures Inv(Used(s, wrap, op))
  {
    UseStays(s, wrap, op);
    UseCouples(s, wrap, op);
    UseLinks(s, wrap, op);
    OthersLinked(s.(world := Step(s.world, op)), Used(s, wrap, op), wrap);
  }

  lemma UseStays(s: State, wrap: nat, op: Op)
    requires Inv(s) && IsUse(s, wrap, op) && PermitsUse(s, wrap, op)
    ensures InvBut(s.(world := Step(s.world, op)), {wrap})
  {
    UseIsOwn(s, wrap, op);
    WorldStep(s, op, {wrap});
  }

  lemma UseIsOwn(s: State, wrap: nat, op: Op)
    requires Inv(s) && IsUse(s, wrap, op) && PermitsUse(s, wrap, op)
    ensures OwnOp(s.world, op, wrap) && !NodeOp(op) && op.h == wrap
    ensures forall other | other in s.wraps && other != wrap :: !Touches(s.world, op, other)
  {
    assert Coupled(s, wrap);
    if NonEmpty(s.world, wrap) { HeldIsLive(s.world, wrap, wrap); }
  }

  lemma OthersLinked(s: State, r: State, wrap: nat)
    requires InvBut(s, {wrap}) && r == s.(repointed := r.repointed) && s.repointed - {wrap} == r.repointed - {wrap}
    requires Coupled(r, wrap) && Linked(r, wrap)
    ensures Inv(r)
  {
    forall other | other in r.wraps && other != wrap ensures Coupled(r, other) && Linked(r, other) {
      assert Coupled(s, other) && Linked(s, other);
      assert other in s.repointed <==> other in s.repointed - {wrap};
      assert other in r.repointed <==> other in r.repointed - {wrap};
    }
  }

  lemma UseLinks(s: State, wrap: nat, op: Op)
    requires Inv(s) && IsUse(s, wrap, op) && PermitsUse(s, wrap, op)
    ensures Linked(Used(s, wrap, op), wrap)
  {
    assert Coupled(s, wrap) && Linked(s, wrap);
    if NonEmpty(s.world, wrap) { HeldIsLive(s.world, wrap, wrap); }
  }

  /**
   Whatever is done to the handle of a wrap from outside, count and weakness stay coupled exactly when
   the count permits it; `MakeWeak` called by a derived class, for one, exactly while the count is zero.
   */
  lemma UseCouples(s: State, wrap: nat, op: Op)
    requires Inv(s) && IsUse(s, wrap, op)
    ensures Coupled(Used(s, wrap, op), wrap) <==> CountPermits(s, wrap, op)
  {
    assert Coupled(s, wrap);
    if op.Empty? || op.ResetHandle? || op.Destroy? {
      UseEmpties(s, wrap, op);
    } else if op.ResetToLocal? {
      UseResetsToLocal(s, wrap, op);
    } else if op.ResetToPersistent? {
      UseResetsToPersistent(s, wrap, op);
    } else {
      UseMarks(s, wrap, op);
    }
  }

  lemma UseEmpties(s: State, wrap: nat, op: Op)
    requires Coupled(s, wrap) && IsUse(s, wrap, op) && (op.Empty? || op.ResetHandle? || op.Destroy?)
    ensures Coupled(Used(s, wrap, op), wrap) <==> CountPermits(s, wrap, op)
  {
  }

  lemma UseResetsToLocal(s: State, wrap: nat, op: Op)
    requires Safe(s.world) && Coupled(s, wrap) && IsUse(s, wrap, op) && op.ResetToLocal?
    ensures Coupled(Used(s, wrap, op), wrap) <==> CountPermits(s, wrap, op)
  {
    LocalFillsHandle(s.world, op);
  }

  lemma UseResetsToPersistent(s: State, wrap: nat, op: Op)
    requires Safe(s.world) && Coupled(s, wrap) && IsUse(s, wrap, op) && op.ResetToPersistent?
    ensures Coupled(Used(s, wrap, op), wrap) <==> CountPermits(s, wrap, op)
  {
    if op.source == wrap {
      SelfAssignment(s.world, op);
    } else {
      CopyMakesTwin(s.world, op);
    }
  }

  lemma UseMarks(s: State, wrap: nat, op: Op)
    requires Safe(s.world) && Coupled(s, wrap) && IsUse(s, wrap, op)
    requires !op.Empty? && !op.ResetHandle? && !op.Destroy? && !op.ResetToLocal? && !op.ResetToPersistent?
    ensures Coupled(Used(s, wrap, op), wrap) <==> CountPermits(s, wrap, op)
  {
    if NonEmpty(s.world, wrap) { HeldIsLive(s.world, wrap, wrap); }
  }

  /** `MakeWeak` is open to derived classes; called there, it keeps a wrap coupled exactly while its count is zero. */
  lemma ProtectedMakeWeakExactly(s: State, wrap: nat)
    requires Inv(s) && IsWrap(s, wrap) && NonEmpty(s.world, wrap)
    ensures Coupled(s.(world := MakeWeak(s.world, wrap)), wrap) <==> s.wraps[wrap].refs == 0
  {
    UseCouples(s, wrap, SetWeak(wrap, WEAK_CALLBACK, wrap));
  }

  /** The whole invariant survives such a use exactly when, besides, no weak cell is emptied away. */
  lemma UseExactly(s: State, wrap: nat, op: Op)
    requires Inv(s) && IsUse(s, wrap, op)
    ensures Inv(Used(s, wrap, op)) <==> PermitsUse(s, wrap, op)
  {
    var r := Used(s, wrap, op);
    assert Coupled(s, wrap);
    UseCouples(s, wrap, op);
    if PermitsUse(s, wrap, op) {
      UseInv(s, wrap, op);
    } else if CountPermits(s, wrap, op) {
      assert IsWrapCallback(r.world, Val(s, wrap)) && !HeldAt(r.world, wrap, Val(s, wrap));
    } else {
      assert !Coupled(r, wrap) && wrap in r.wraps;
    }
  }

  lemma ActInv(s: State, a: Action)
    requires Inv(s) && Allowed(s, a)
    ensures Inv(Act(s, a))
  {
    match a
    case Construct(wrap) => ConstructInv(s, wrap);
    case DoWrap(wrap, referent, cell) => DoWrapInv(s, wrap, referent, cell);
    case Ref(wrap) => RefInv(s, wrap);
    case Unref(wrap) => UnrefInv(s, wrap);
    case Delete(wrap) => DeleteInv(s, wrap);
    case FireWeakCallback(cell) => FireInv(s, cell);
    case UseHandle(wrap, op) => UseInv(s, wrap, op);
    case Other(op, dead) => if op.GcRelocate? { RelocateInv(s, op.f, dead); } else { WorldStep(s, op, {}); }
  }

  // --- Whole runs ---

  ghost predicate Next(s: State, a: Action, s': State) { Allowed(s, a) && s' == Act(s, a) }

  ghost predicate StepAt(states: seq<State>, actions: seq<Action>, i: nat)
    requires i < |actions| < |states|
  {
    Next(states[i], actions[i], states[i + 1])
  }

  ghost predicate IsRun(states: seq<State>, actions: seq<Action>) {
    && |states| == |actions| + 1 && states[0] == INITIAL
    && forall i | 0 <= i < |actions| :: StepAt(states, actions, i)
  }

  /** These actions, each allowed where it is taken, lead from the state without handles and wraps to this one. */
  ghost predicate LeadTo(actions: seq<Action>, s: State) {
    exists states :: IsRun(states, actions) && states[|actions|] == s
  }

  ghost predicate Reachable(s: State) {
    exists actions :: LeadTo(actions, s)
  }

  lemma NothingLeadsToInitial()
    ensures LeadTo([], INITIAL)
  {
    assert IsRun([INITIAL], []);
  }

  lemma LeadFurther(actions: seq<Action>, s: State, a: Action)
    requires LeadTo(actions, s) && Allowed(s, a)
    ensures LeadTo(actions + [a], Act(s, a))
  {
    var states :| IsRun(states, actions) && states[|actions|] == s;
    var further, longer := states + [Act(s, a)], actions + [a];
    forall i | 0 <= i < |longer| ensures StepAt(further, longer, i) {
      assert i < |actions| ==> StepAt(states, actions, i);
    }
    assert IsRun(further, longer);
  }

  /** A reachable state stays reachable under an allowed action. */
  lemma ReachableNext(s: State, a: Action)
    requires Reachable(s) && Allowed(s, a)
    ensures Reachable(Act(s, a))
  {
    var actions :| LeadTo(actions, s);
    LeadFurther(actions, s, a);
  }

  lemma {:induction false} RunInv(states: seq<State>, actions: seq<Action>, i: nat)
    requires IsRun(states, actions) && i < |states|
    ensures Inv(states[i])
  {
    if i > 0 {
      RunInv(states, actions, i - 1);
      assert StepAt(states, actions, i - 1);
      ActInv(states[i - 1], actions[i - 1]);
    }
  }

  lemma ReachableInv(s: State)
    requires Reachable(s)
    ensures Inv(s)
  {
    var actions :| LeadTo(actions, s);
    var states :| IsRun(states, actions) && states[|actions|] == s;
    RunInv(states, actions, |actions|);
  }

  /**
   In every reachable state a wrap with an object is weak, or already picked by the collector,
   exactly when its count is zero; the count is Refs minus Unrefs; and an empty one counts zero.
   */
  lemma WeakExactlyWhenUnreferenced(s: State, wrap: nat)
    requires Reachable(s) && wrap in s.wraps
    ensures var v := s.wraps[wrap];
      && v.refs == v.refCalls - v.unrefCalls && v.refs >= 0
      && (Val(s, wrap) == NULL ==> v.refs == 0)
      && (Val(s, wrap) != NULL ==>
            Val(s, wrap) in s.world.store.cells
            && (WeakState(s.world.store.cells[Val(s, wrap)]) <==> v.refs == 0))
  {
    ReachableInv(s);
    assert Coupled(s, wrap);
    if Val(s, wrap) != NULL { HeldIsLive(s.world, wrap, wrap); }
  }

  /** The assert of `Unref` that its handle is not weak holds whenever its other asserts do. */
  lemma UnrefFindsStrongHandle(s: State, wrap: nat)
    requires Reachable(s) && Allowed(s, Unref(wrap))
    ensures Val(s, wrap) in s.world.store.cells && s.world.store.cells[Val(s, wrap)].state != 2
  {
    WeakExactlyWhenUnreferenced(s, wrap);
  }

  /**
   Whenever the collector fires the callback: the wrap it names exists, holds this very cell and
   counts zero, so the assert of the callback holds; the delete that follows finds the handle
   empty, so the cell is freed, and exactly one cell is.
   */
  lemma CallbackIsSound(s: State, cell: nat)
    requires Reachable(s) && IsWrapCallback(s.world, cell)
    ensures var wrap := s.world.store.weak[cell].parameter;
      && Allowed(s, FireWeakCallback(cell)) && s.wraps[wrap].refs == 0 && Val(s, wrap) == cell
      && var r := Act(s, FireWeakCallback(cell));
      && r.world.store.ok
      && r.world.store.cells == s.world.store.cells - {cell}
      && r.world.store.disposed == s.world.store.disposed + 1
      && wrap !in r.wraps && wrap !in r.world.vars
  {
    ReachableInv(s);
    FireFreesOnce(s, cell);
  }

  lemma FireFreesOnce(s: State, cell: nat)
    requires Inv(s) && IsWrapCallback(s.world, cell)
    ensures var wrap := s.world.store.weak[cell].parameter;
      && Allowed(s, FireWeakCallback(cell)) && s.wraps[wrap].refs == 0 && Val(s, wrap) == cell
      && Act(s, FireWeakCallback(cell)).world.store == Dispose(s.world.store, cell)
      && wrap !in Act(s, FireWeakCallback(cell)).world.vars
      && cell in s.world.store.cells
  {
    var wrap := s.world.store.weak[cell].parameter;
    assert Coupled(s, wrap);
    FireResets(s, wrap);
    DestructorInv(s.(world := Step(s.world, ResetHandle(wrap))), wrap);
  }

  lemma FireResets(s: State, wrap: nat)
    requires Inv(s) && Coupled(s, wrap) && Val(s, wrap) != NULL
    ensures Val(s, wrap) in s.world.store.cells
    ensures var r := s.(world := Step(s.world, ResetHandle(wrap)));
      && InvBut(r, {wrap}) && wrap in r.world.vars && r.world.vars[wrap] == Var(NonCopyable, NULL)
      && r.world.store == Dispose(s.world.store, Val(s, wrap))
  {
    HeldIsLive(s.world, wrap, wrap);
    WorldStep(s, ResetHandle(wrap), {wrap});
  }

  /**
   After any run, `Unwrap` of the object a wrap stands for returns the wrap exactly if no other wrap
   took the object over since; the exception is a handle pointed at another object from outside.
   */
  lemma UnwrapFindsWrap(s: State, wrap: nat)
    requires Reachable(s) && wrap in s.wraps && Val(s, wrap) != NULL && wrap !in s.repointed
    ensures Referent(s, wrap) in s.fields
    ensures s.fields[Referent(s, wrap)].wrap == wrap <==> wrap !in s.superseded
  {
    ReachableInv(s);
    assert Linked(s, wrap);
  }

  /** A wrap is superseded exactly by another `Wrap` of its present object, until it wraps again. */
  lemma SupersededOnlyByRewrap(s: State, a: Action, wrap: nat)
    requires Inv(s) && Allowed(s, a)
    ensures wrap in Act(s, a).superseded <==>
      !(a.DoWrap? && a.wrap == wrap)
      && (wrap in s.superseded
          || (a.DoWrap? && wrap in s.wraps && Val(s, wrap) != NULL && Referent(s, wrap) == a.referent))
  {
    if a.DoWrap? && wrap in s.wraps && a.wrap != wrap {
      RivalsKept(s, a.wrap, a.referent, a.cell, wrap);
    }
  }

  /** An object wrapped a second time: `Unwrap` of the object of the first wrap returns the second. */
  lemma RewrapMissesTheFirst(s: State, first: nat, second: nat, cell: nat)
    requires Inv(s) && first in s.wraps && first != second && Val(s, first) != NULL
    requires Allowed(s, DoWrap(second, Referent(s, first), cell))
    ensures var r := Act(s, DoWrap(second, Referent(s, first), cell));
      && first in r.superseded && Referent(r, first) == Referent(s, first)
      && Referent(r, first) in r.fields && r.fields[Referent(r, first)].wrap == second
  {
    RivalsKept(s, second, Referent(s, first), cell, first);
  }

  lemma RivalsKept(s: State, wrap: nat, referent: Word, cell: nat, other: nat)
    requires Inv(s) && Allowed(s, DoWrap(wrap, referent, cell)) && other in s.wraps && other != wrap
    ensures var r := s.(world := MakeWeak(Step(s.world, ResetToLocal(wrap, Some(referent), cell)), wrap));
      Val(r, other) == Val(s, other) && Referent(r, other) == Referent(s, other)
  {
    assert Coupled(s, other) && Coupled(s, wrap);
    var op := ResetToLocal(wrap, Some(referent), cell);
    StepSafe(s.world, op);
    Untouched(s.world, op, other);
    Untouched(Step(s.world, op), SetWeak(wrap, WEAK_CALLBACK, wrap), other);
  }

  /** The store effect of wrapping is the one the method of class `ObjectWrap` is proved to have. */
  lemma WrapIsTheMethod(s: State, wrap: nat, referent: Word, cell: nat)
    requires Inv(s) && Allowed(s, DoWrap(wrap, referent, cell))
    ensures Act(s, DoWrap(wrap, referent, cell)).world.store == ObjectWrap.WrapStore(s.world.store, referent, cell, wrap)
  {
    assert Coupled(s, wrap);
    NewHandle(s, wrap, referent, cell);
  }

  /** So is that of the destructor. */
  lemma DeleteIsTheMethod(s: State, wrap: nat)
    requires Inv(s) && IsWrap(s, wrap)
    ensures Act(s, Delete(wrap)).world.store == ObjectWrap.DestructorStore(s.world.store, Val(s, wrap))
  {
    assert Coupled(s, wrap);
    DestructorInv(s, wrap);
  }

  // --- Pointers that outlive their wraps ---

  /** The wrap that last took the object still exists, at the address its field holds. */
  predicate Lives(s: State, o: Word) {
    o in s.fields && s.fields[o].wrap in s.wraps && s.wraps[s.fields[o].wrap].serial == s.fields[o].serial
  }

  /** Serials tell wraps apart; a field names a wrap that lives, or one that ended. */
  ghost predicate Recorded(s: State) {
    && (forall n | n in s.ended :: n < s.born)
    && (forall wrap | wrap in s.wraps :: s.wraps[wrap].serial < s.born && s.wraps[wrap].serial !in s.ended)
    && (forall wrap, other | wrap in s.wraps && other in s.wraps && wrap != other ::
          s.wraps[wrap].serial != s.wraps[other].serial)
    && (forall o | o in s.fields :: s.fields[o].serial < s.born && (Lives(s, o) || s.fields[o].serial in s.ended))
    && (forall o | o in s.fields && s.fields[o].wrap in s.wraps :: s.wraps[s.fields[o].wrap].serial >= s.fields[o].serial)
  }

  lemma ConstructedRecorded(s: State, wrap: nat)
    requires Recorded(s) && wrap !in s.wraps
    ensures Recorded(Constructed(s, wrap))
  {
    var r := Constructed(s, wrap);
    forall o | o in r.fields ensures Lives(r, o) || r.fields[o].serial in r.ended {
      assert Lives(s, o) || s.fields[o].serial in s.ended;
    }
  }

  lemma EndedRecorded(s: State, wrap: nat)
    requires Recorded(s) && wrap in s.wraps
    ensures Recorded(Ended(s, wrap))
  {
    var r := Ended(s, wrap);
    forall o | o in r.fields ensures Lives(r, o) || r.fields[o].serial in r.ended {
      assert Lives(s, o) || s.fields[o].serial in s.ended;
    }
  }

  lemma TakenRecorded(s: State, wrap: nat, referent: Word)
    requires Recorded(s) && wrap in s.wraps
    ensures Recorded(TakeField(s, wrap, referent))
  {
    var r := TakeField(s, wrap, referent);
    forall o | o in r.fields ensures Lives(r, o) || r.fields[o].serial in r.ended {
      if o != referent { assert Lives(s, o) || s.fields[o].serial in s.ended; }
    }
  }

  lemma MovedRecorded(s: State, f: map<Word, Word>, dead: set<Word>)
    requires Recorded(s) && Relocatable(s, f, dead)
    ensures Recorded(s.(fields := MovedFields(s.fields, f, dead)))
  {
    var r := s.(fields := MovedFields(s.fields, f, dead));
    forall o | o in r.fields
      ensures r.fields[o].serial < r.born && (Lives(r, o) || r.fields[o].serial in r.ended)
      ensures r.fields[o].wrap in r.wraps ==> r.wraps[r.fields[o].wrap].serial >= r.fields[o].serial
    {
      var p :| p in s.fields && r.fields[o] == s.fields[p];
      assert Lives(s, p) || s.fields[p].serial in s.ended;
    }
  }

  predicate SameSerials(s: State, r: State) {
    && r.wraps.Keys == s.wraps.Keys && r.fields == s.fields && r.born == s.born && r.ended == s.ended
    && forall wrap | wrap in s.wraps :: r.wraps[wrap].serial == s.wraps[wrap].serial
  }

  lemma SameSerialsRecorded(s: State, r: State)
    requires Recorded(s) && SameSerials(s, r)
    ensures Recorded(r)
  {
    forall o | o in r.fields ensures Lives(r, o) || r.fields[o].serial in r.ended {
      assert Lives(s, o) || s.fields[o].serial in s.ended;
    }
  }

  lemma RecordedAfterConstruct(s: State, wrap: nat)
    requires Recorded(s) && Inv(s) && Allowed(s, Construct(wrap))
    ensures Recorded(Act(s, Construct(wrap)))
  {
    assert forall other | other in s.wraps :: Coupled(s, other) && other != wrap;
    ConstructedRecorded(s, wrap);
    SameSerialsRecorded(Constructed(s, wrap), Act(s, Construct(wrap)));
  }

  lemma RecordedAfterWrap(s: State, wrap: nat, referent: Word, cell: nat)
    requires Recorded(s) && Allowed(s, DoWrap(wrap, referent, cell))
    ensures Recorded(Act(s, DoWrap(wrap, referent, cell)))
  {
    TakenRecorded(s, wrap, referent);
    SameSerialsRecorded(TakeField(s, wrap, referent), Act(s, DoWrap(wrap, referent, cell)));
  }

  lemma RecordedAfterEnd(s: State, a: Action)
    requires Recorded(s) && Allowed(s, a) && (a.Delete? || a.FireWeakCallback?)
    ensures Recorded(Act(s, a))
  {
    var wrap := if a.Delete? then a.wrap else s.world.store.weak[a.cell].parameter;
    EndedRecorded(s, wrap);
    SameSerialsRecorded(Ended(s, wrap), Act(s, a));
  }

  lemma RecordedAfterOther(s: State, op: Op, dead: set<Word>)
    requires Recorded(s) && Allowed(s, Other(op, dead))
    ensures Recorded(Act(s, Other(op, dead)))
  {
    var r := Act(s, Other(op, dead));
    if op.GcRelocate? {
      MovedRecorded(s, op.f, dead);
      SameSerialsRecorded(s.(fields := MovedFields(s.fields, op.f, dead)), r);
    } else {
      SameSerialsRecorded(s, r);
    }
  }

  lemma RecordedAfterUse(s: State, a: Action)
    requires Recorded(s) && Allowed(s, a) && (a.Ref? || a.Unref? || a.UseHandle?)
    ensures Recorded(Act(s, a))
  {
    SameSerialsRecorded(s, Act(s, a));
  }

  lemma RecordedAfter(s: State, a: Action)
    requires Recorded(s) && Inv(s) && Allowed(s, a)
    ensures Recorded(Act(s, a))
  {
    match a
    case Construct(wrap) => RecordedAfterConstruct(s, wrap);
    case DoWrap(wrap, referent, cell) => RecordedAfterWrap(s, wrap, referent, cell);
    case Delete(_) => RecordedAfterEnd(s, a);
    case FireWeakCallback(_) => RecordedAfterEnd(s, a);
    case Other(op, dead) => RecordedAfterOther(s, op, dead);
    case _ => RecordedAfterUse(s, a);
  }

  lemma {:induction false} RunRecorded(states: seq<State>, actions: seq<Action>, i: nat)
    requires IsRun(states, actions) && i < |states|
    ensures Recorded(states[i])
  {
    if i > 0 {
      RunRecorded(states, actions, i - 1);
      assert StepAt(states, actions, i - 1);
      RunInv(states, actions, i - 1);
      RecordedAfter(states[i - 1], actions[i - 1]);
    }
  }

  /**
   The destructor leaves internal field 0 alone.  After any run, `Unwrap` of an object returns the wrap
   that last took it exactly while that wrap has not been destroyed; from then on the pointer dangles,
   or leads to a younger wrap at the same address.
   */
  lemma UnwrapDanglesExactly(s: State, o: Word)
    requires Reachable(s) && o in s.fields
    ensures Lives(s, o) <==> s.fields[o].serial !in s.ended
    ensures s.fields[o].serial in s.ended ==>
      && (forall wrap | wrap in s.wraps :: s.wraps[wrap].serial != s.fields[o].serial)
      && (s.fields[o].wrap in s.wraps ==> s.wraps[s.fields[o].wrap].serial > s.fields[o].serial)
  {
    var actions :| LeadTo(actions, s);
    var states :| IsRun(states, actions) && states[|actions|] == s;
    RunRecorded(states, actions, |actions|);
  }

  /** The action destroys the wrap at this address. */
  predicate Ends(s: State, a: Action, wrap: nat) {
    match a
    case Delete(other) => other == wrap
    case FireWeakCallback(cell) => cell in s.world.store.weak && s.world.store.weak[cell].Callback? && s.world.store.weak[cell].parameter == wrap
    case _ => false
  }

  /** A live pointer survives an action that does not rewrite or move it exactly if the action does not destroy the wrap. */
  lemma PointerDiesExactly(s: State, a: Action, o: Word)
    requires Inv(s) && Allowed(s, a) && Lives(s, o)
    requires !(a.DoWrap? && a.referent == o) && !(a.Other? && a.op.GcRelocate?)
    ensures Lives(Act(s, a), o) <==> !Ends(s, a, s.fields[o].wrap)
  {
    assert Coupled(s, s.fields[o].wrap);
  }

  // --- Phantom cells that register the address of a wrap ---

  function Nulled(s: State, cell: nat): State
    requires IsPhantom(s.world, cell)
  {
    s.(world := Step(s.world, GcNullPhantom(cell)))
  }

  /**
   When the collector nulls the handle of a wrap, it is for a cell forgotten by a handle that was there
   before.  The wrap stays coupled exactly if its count is zero, and the invariant holds exactly if
   there was nothing to null: a weak cell would be left with a callback to a wrap that lost it.
   */
  lemma NullingExactly(s: State, wrap: nat, cell: nat)
    requires Inv(s) && wrap in s.wraps && IsPhantom(s.world, cell) && Touches(s.world, GcNullPhantom(cell), wrap)
    ensures cell in s.world.abandoned
    ensures Coupled(Nulled(s, cell), wrap) <==> s.wraps[wrap].refs == 0
    ensures Inv(Nulled(s, cell)) <==> Val(s, wrap) == NULL
  {
    var op, r := GcNullPhantom(cell), Nulled(s, cell);
    assert Coupled(s, wrap);
    NulledWrap(s, wrap, cell);
    if Val(s, wrap) == NULL {
      WorldStep(s, op, {});
    } else if s.wraps[wrap].refs == 0 {
      assert IsWrapCallback(r.world, Val(s, wrap)) && !HeldAt(r.world, wrap, Val(s, wrap));
    } else {
      assert !Coupled(r, wrap) && wrap in r.wraps;
    }
  }

  lemma NulledWrap(s: State, wrap: nat, cell: nat)
    requires Inv(s) && Coupled(s, wrap) && IsPhantom(s.world, cell) && Touches(s.world, GcNullPhantom(cell), wrap)
    ensures cell in s.world.abandoned && Val(Nulled(s, cell), wrap) == NULL
    ensures IsWrap(Nulled(s, cell), wrap) && Nulled(s, cell).world.vars[wrap].kind.NonCopyable?
    ensures NonEmpty(s.world, wrap) && Val(s, wrap) in s.world.store.weak ==>
      Val(s, wrap) in Nulled(s, cell).world.store.weak
      && Nulled(s, cell).world.store.weak[Val(s, wrap)] == s.world.store.weak[Val(s, wrap)]
  {
    if NonEmpty(s.world, wrap) { HeldIsLive(s.world, wrap, wrap); }
  }

  /** While every phantom cell is held where it is registered, the collector nulls the handle of no wrap. */
  lemma PhantomsAtHomeSpareWraps(s: State, wrap: nat, cell: nat)
    requires Inv(s) && PhantomsAtHome(s.world) && wrap in s.wraps && IsPhantom(s.world, cell)
    ensures !Touches(s.world, GcNullPhantom(cell), wrap)
  {
    assert Coupled(s, wrap);
    assert HeldAt(s.world, s.world.store.weak[cell].location, cell);
  }

  /** The one way to forget a phantom cell: an operation on another handle. */
  predicate Strays(s: State, a: Action) { a.Other? && StraysPhantom(s.world, a.op) }

  lemma WrapKeepsPhantomsHome(s: State, wrap: nat, referent: Word, cell: nat)
    requires Inv(s) && Allowed(s, DoWrap(wrap, referent, cell)) && PhantomsAtHome(s.world)
    ensures PhantomsAtHome(Act(s, DoWrap(wrap, referent, cell)).world)
  {
    var op := ResetToLocal(wrap, Some(referent), cell);
    StepSafe(s.world, op);
    PhantomsExactly(s.world, op);
    PhantomsExactly(Step(s.world, op), SetWeak(wrap, WEAK_CALLBACK, wrap));
  }

  lemma ActKeepsPhantomsHome(s: State, a: Action)
    requires Inv(s) && Allowed(s, a) && PhantomsAtHome(s.world) && !Strays(s, a)
    ensures PhantomsAtHome(Act(s, a).world)
  {
    match a
    case Construct(wrap) => PhantomsExactly(s.world, Declare(wrap, NonCopyable));
    case DoWrap(wrap, referent, cell) => WrapKeepsPhantomsHome(s, wrap, referent, cell);
    case Ref(wrap) => PhantomsExactly(s.world, ClearWeakHandle(wrap));
    case Unref(wrap) => PhantomsExactly(s.world, SetWeak(wrap, WEAK_CALLBACK, wrap));
    case Delete(wrap) => DestructorKeepsPhantomsHome(s.world, wrap);
    case FireWeakCallback(cell) =>
      var wrap := s.world.store.weak[cell].parameter;
      StepSafe(s.world, ResetHandle(wrap));
      PhantomsExactly(s.world, ResetHandle(wrap));
      DestructorKeepsPhantomsHome(Step(s.world, ResetHandle(wrap)), wrap);
    case UseHandle(wrap, op) =>
      UseIsOwn(s, wrap, op);
      PhantomsExactly(s.world, op);
    case Other(op, dead) => PhantomsExactly(s.world, op);
  }

  lemma DestructorKeepsPhantomsHome(w: World, wrap: nat)
    requires Safe(w) && PhantomsAtHome(w) && IsPersistent(w, wrap)
    ensures PhantomsAtHome(Destructor(w, wrap))
  {
    if NonEmpty(w, wrap) {
      var cleared := Step(w, ClearWeakHandle(wrap));
      StepSafe(w, ClearWeakHandle(wrap));
      PhantomsExactly(w, ClearWeakHandle(wrap));
      StepSafe(cleared, ResetHandle(wrap));
      PhantomsExactly(cleared, ResetHandle(wrap));
    }
    PhantomsExactly(Detached(w, wrap), HandleRuns.Destroy(wrap));
  }

  ghost predicate NeverStrays(states: seq<State>, actions: seq<Action>)
    requires |states| > |actions|
  {
    forall i | 0 <= i < |actions| :: !Strays(states[i], actions[i])
  }

  lemma {:induction false} StraylessRunKeepsPhantomsHome(states: seq<State>, actions: seq<Action>, i: nat)
    requires IsRun(states, actions) && i < |states| && NeverStrays(states, actions)
    ensures PhantomsAtHome(states[i].world)
  {
    if i > 0 {
      StraylessRunKeepsPhantomsHome(states, actions, i - 1);
      assert StepAt(states, actions, i - 1);
      RunInv(states, actions, i - 1);
      ActKeepsPhantomsHome(states[i - 1], actions[i - 1]);
    }
  }

  /** Over runs that forget no phantom cell, the collector never nulls the handle of a wrap. */
  lemma StraylessRunsSpareWraps(states: seq<State>, actions: seq<Action>, i: nat, wrap: nat, cell: nat)
    requires IsRun(states, actions) && i < |states| && NeverStrays(states, actions)
    requires wrap in states[i].wraps && IsPhantom(states[i].world, cell)
    ensures !Touches(states[i].world, GcNullPhantom(cell), wrap)
  {
    RunInv(states, actions, i);
    StraylessRunKeepsPhantomsHome(states, actions, i);
    PhantomsAtHomeSpareWraps(states[i], wrap, cell);
  }

  // --- The failures, at inputs ---

  /** Two more actions make a wrap at a free address and wrap an object with it. */
  lemma WrapAt(actions: seq<Action>, s: State, wrap: nat, x: Word, cell: nat) returns (r: State)
    requires LeadTo(actions, s) && wrap !in s.world.vars && Available(s.world, cell, NULL)
    ensures LeadTo(actions + [Construct(wrap), DoWrap(wrap, x, cell)], r)
    ensures r.wraps == s.wraps[wrap := Wrap(0, 0, 0, s.born)] && r.fields == s.fields[x := Field(wrap, s.born)]
    ensures r.born == s.born + 1 && r.repointed == s.repointed - {wrap}
    ensures r.world.vars == s.world.vars[wrap := Var(NonCopyable, cell)]
    ensures r.world.store == ObjectWrap.WrapStore(s.world.store, x, cell, wrap)
  {
    var a, b := Construct(wrap), DoWrap(wrap, x, cell);
    LeadFurther(actions, s, a);
    WrapFills(Act(s, a), wrap, x, cell);
    LeadFurther(actions + [a], Act(s, a), b);
    assert actions + [a] + [b] == actions + [a, b];
    r := Act(Act(s, a), b);
  }

  lemma WrapFills(s: State, wrap: nat, x: Word, cell: nat)
    requires wrap in s.wraps && wrap in s.world.vars && s.world.vars[wrap] == Var(NonCopyable, NULL) && Available(s.world, cell, NULL)
    ensures Allowed(s, DoWrap(wrap, x, cell))
    ensures var r := Act(s, DoWrap(wrap, x, cell)).world;
      && r.vars == s.world.vars[wrap := Var(NonCopyable, cell)]
      && r.store == ObjectWrap.WrapStore(s.world.store, x, cell, wrap)
  {
  }

  lemma Wrapped(x: Word) returns (s: State)
    ensures LeadTo([Construct(5), DoWrap(5, x, 10)], s)
    ensures s.wraps == map[5 := Wrap(0, 0, 0, 0)] && s.fields == map[x := Field(5, 0)] && s.repointed == {}
    ensures s.world.vars == map[5 := Var(NonCopyable, 10)]
    ensures s.world.store.cells == map[10 := PhantomNode(x)]
  {
    NothingLeadsToInitial();
    s := WrapAt([], INITIAL, 5, x, 10);
    assert [] + [Construct(5), DoWrap(5, x, 10)] == [Construct(5), DoWrap(5, x, 10)];
  }

  /** A wrap that is destroyed leaves its address behind in internal field 0. */
  lemma DestroyedWrapDangles(x: Word) returns (s: State)
    ensures LeadTo([Construct(5), DoWrap(5, x, 10), Delete(5)], s) && Reachable(s)
    ensures s.wraps == map[] && x in s.fields && s.fields[x].wrap == 5 && !Lives(s, x)
  {
    s := Wrapped(x);
    LeadFurther([Construct(5), DoWrap(5, x, 10)], s, Delete(5));
    assert [Construct(5), DoWrap(5, x, 10)] + [Delete(5)] == [Construct(5), DoWrap(5, x, 10), Delete(5)];
    s := Act(s, Delete(5));
  }

  /** An object wrapped twice: the second wrap is found from the object of the first. */
  lemma ObjectWrappedTwice(x: Word) returns (s: State)
    ensures LeadTo([Construct(5), DoWrap(5, x, 10), Construct(6), DoWrap(6, x, 11)], s) && Reachable(s)
    ensures 5 in s.wraps && Referent(s, 5) == x && 5 in s.superseded
    ensures x in s.fields && s.fields[x].wrap == 6
  {
    var first, second := [Construct(5), DoWrap(5, x, 10)], [Construct(6), DoWrap(6, x, 11)];
    var once := Wrapped(x);
    s := WrapAt(first, once, 6, x, 11);
    assert first + second == [Construct(5), DoWrap(5, x, 10), Construct(6), DoWrap(6, x, 11)];
    assert Val(s, 5) == 10 && Referent(s, 5) == x;
    ReachableInv(s);
    assert Linked(s, 5);
  }

  /**
   A phantom handle destroyed at the address where a wrap is made later: when its object dies, the
   collector nulls the handle of the wrap, which counts one reference then and holds nothing.
   */
  lemma StrayPhantomNullsAWrap(x: Word, y: Word) returns (s: State)
    ensures LeadTo([Other(FromLocal(5, NonCopyable, Some(x), 10), {}), Other(SetPhantom(5), {}),
                    Other(HandleRuns.Destroy(5), {}), Construct(5), DoWrap(5, y, 11), Ref(5)], s)
    ensures IsPhantom(s.world, 10)
    ensures var r := Nulled(s, 10); 5 in r.wraps && r.wraps[5].refs == 1 && Val(r, 5) == NULL && !Coupled(r, 5)
  {
    var actions: seq<Action>;
    actions, s := WrappedOverPhantom(x, y);
    LeadFurther(actions, s, Ref(5));
    assert actions + [Ref(5)] == [Other(FromLocal(5, NonCopyable, Some(x), 10), {}), Other(SetPhantom(5), {}),
                                  Other(HandleRuns.Destroy(5), {}), Construct(5), DoWrap(5, y, 11), Ref(5)];
    s := Act(s, Ref(5));
  }

  lemma WrappedOverPhantom(x: Word, y: Word) returns (actions: seq<Action>, s: State)
    ensures actions == [Other(FromLocal(5, NonCopyable, Some(x), 10), {}), Other(SetPhantom(5), {}),
                        Other(HandleRuns.Destroy(5), {}), Construct(5), DoWrap(5, y, 11)]
    ensures LeadTo(actions, s) && s.wraps == map[5 := Wrap(0, 0, 0, 0)] && s.world.vars == map[5 := Var(NonCopyable, 11)]
    ensures s.world.store.cells.Keys == {10, 11} && s.world.store.weak == map[10 := Phantom(5), 11 := Callback(WEAK_CALLBACK, 5)]
  {
    actions, s := ForgottenPhantom(x);
    s := WrapAt(actions, s, 5, y, 11);
    actions := actions + [Construct(5), DoWrap(5, y, 11)];
  }

  lemma ForgottenPhantom(x: Word) returns (actions: seq<Action>, s: State)
    ensures actions == [Other(FromLocal(5, NonCopyable, Some(x), 10), {}), Other(SetPhantom(5), {}), Other(HandleRuns.Destroy(5), {})]
    ensures LeadTo(actions, s) && s == State(ForgottenWorld(x), map[], map[], {}, {}, 0, {})
  {
    actions, s := PhantomHandle(x);
    var a := Other(HandleRuns.Destroy(5), {});
    LeadFurther(actions, s, a);
    actions, s := actions + [a], Act(s, a);
  }

  function ForgottenWorld(x: Word): World {
    World(PhantomStore(x), map[], map[10 := NonCopyable])
  }

  function PhantomStore(x: Word): Store { Store(map[10 := PhantomNode(x)], map[10 := Phantom(5)], 1, 0, true) }

  lemma PhantomHandle(x: Word) returns (actions: seq<Action>, s: State)
    ensures actions == [Other(FromLocal(5, NonCopyable, Some(x), 10), {}), Other(SetPhantom(5), {})]
    ensures LeadTo(actions, s)
    ensures s == State(World(PhantomStore(x), map[5 := Var(NonCopyable, 10)], map[]), map[], map[], {}, {}, 0, {})
  {
    var a, b := Other(FromLocal(5, NonCopyable, Some(x), 10), {}), Other(SetPhantom(5), {});
    NothingLeadsToInitial();
    LeadFurther([], INITIAL, a);
    actions, s := [] + [a], Act(INITIAL, a);
    LeadFurther(actions, s, b);
    actions, s := actions + [b], Act(s, b);
  }
}
