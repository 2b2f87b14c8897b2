/**
 What each action of `ObjectWrapRuns` does, spelled out: the wrap, its field, the cell of its
 handle, the counts, and that every other wrap, field and cell stays as it was.
 */
module ObjectWrapEffects {
  import opened NodeImage
  import opened CellStore
  import opened Options
  import opened HandleRuns
  import opened HandleEffects
  import opened ObjectWrapRuns
  import ObjectWrap

  /** A new wrap counts nothing and its handle is empty. */
  lemma ConstructMakesWrap(s: State, wrap: nat)
    requires Safe(s.world) && Allowed(s, Construct(wrap))
    ensures var r := Act(s, Construct(wrap));
      && r.wraps == s.wraps[wrap := Wrap(0, 0, 0, s.born)] && r.fields == s.fields && r.world.store == s.world.store
      && r.world.vars == s.world.vars[wrap := Var(NonCopyable, NULL)] && r.world.abandoned == s.world.abandoned
  {
  }

  /** `Wrap` points the field at the wrap and gives its handle a new cell for the object, weak with the wrap as parameter. */
  lemma WrapTakesObject(s: State, wrap: nat, referent: Word, cell: nat)
    requires ObjectWrapRuns.Inv(s) && Allowed(s, DoWrap(wrap, referent, cell))
    ensures var r := Act(s, DoWrap(wrap, referent, cell)); var now := r.world.store;
      && r.wraps == s.wraps && r.fields == s.fields[referent := Field(wrap, s.wraps[wrap].serial)]
      && r.world.vars == s.world.vars[wrap := Var(NonCopyable, cell)] && r.world.abandoned == s.world.abandoned
      && cell in now.cells && now.cells[cell].referent == referent
      && now.cells[cell].state == 2 && now.cells[cell].classId == 0 && now.cells[cell].flags == {}
      && cell in now.weak && now.weak[cell] == Callback(WEAK_CALLBACK, wrap)
      && SameElsewhere(s.world.store, now, {cell})
      && now.created == s.world.store.created + 1 && now.disposed == s.world.store.disposed
  {
    assert Coupled(s, wrap);
    NewHandle(s, wrap, referent, cell);
  }

  /** `Ref` adds one and makes the cell strong. */
  lemma RefStrengthens(s: State, wrap: nat)
    requires Safe(s.world) && Allowed(s, Ref(wrap))
    ensures Val(s, wrap) in s.world.store.cells
    ensures var r := Act(s, Ref(wrap)); var c := Val(s, wrap); var v := s.wraps[wrap]; var n := s.world.store.cells[c];
      && r.wraps == s.wraps[wrap := Wrap(v.refs + 1, v.refCalls + 1, v.unrefCalls, v.serial)] && r.fields == s.fields
      && (exists state: bv8 :: state != 2 && state != 3
            && Remarked(s.world, r.world, wrap, Node(n.referent, n.classId, n.index, state, n.flags)))
      && c !in r.world.store.weak
  {
    ClearWeakMarks(s.world, wrap);
  }

  /** `Unref` takes one away, and makes the cell weak again when none is left. */
  lemma UnrefWeakens(s: State, wrap: nat)
    requires Safe(s.world) && Allowed(s, Unref(wrap))
    ensures Val(s, wrap) in s.world.store.cells
    ensures var r := Act(s, Unref(wrap)); var c := Val(s, wrap); var v := s.wraps[wrap]; var n := s.world.store.cells[c];
      && r.wraps == s.wraps[wrap := Wrap(v.refs - 1, v.refCalls, v.unrefCalls + 1, v.serial)] && r.fields == s.fields
      && (v.refs > 1 ==> r.world == s.world)
      && (v.refs == 1 ==>
            && Remarked(s.world, r.world, wrap, Node(n.referent, n.classId, n.index, 2, n.flags))
            && c in r.world.store.weak && r.world.store.weak[c] == Callback(WEAK_CALLBACK, wrap))
  {
    SetWeakMarks(s.world, wrap, WEAK_CALLBACK, wrap);
  }

  /** Only the count, and what is registered for the cell of this wrap, changed. */
  ghost predicate OnlyWeakness(s: State, r: State, wrap: nat, refs: int, weak: map<nat, Weakness>) {
    && IsWrap(r, wrap) && r.wraps.Keys == s.wraps.Keys && r.wraps[wrap].refs == refs && r.fields == s.fields
    && r.world.vars == s.world.vars && r.world.store.weak == weak && Referent(r, wrap) == Referent(s, wrap)
  }

  lemma RefMarks(s: State, wrap: nat)
    requires Safe(s.world) && Allowed(s, Ref(wrap))
    ensures OnlyWeakness(s, Act(s, Ref(wrap)), wrap, s.wraps[wrap].refs + 1, s.world.store.weak - {Val(s, wrap)})
    ensures Safe(Act(s, Ref(wrap)).world)
  {
    StepSafe(s.world, ClearWeakHandle(wrap));
    Marked(s, wrap);
  }

  lemma UnrefMarks(s: State, wrap: nat)
    requires Safe(s.world) && Allowed(s, Unref(wrap))
    ensures OnlyWeakness(s, Act(s, Unref(wrap)), wrap, s.wraps[wrap].refs - 1,
              if s.wraps[wrap].refs == 1 then s.world.store.weak[Val(s, wrap) := Callback(WEAK_CALLBACK, wrap)] else s.world.store.weak)
  {
    Marked(s, wrap);
  }

  lemma ThenUnref(s: State, s1: State, wrap: nat)
    requires Coupled(s, wrap) && Safe(s1.world) && Val(s, wrap) != NULL && s.wraps[wrap].refs < MAX_INT
    requires OnlyWeakness(s, s1, wrap, s.wraps[wrap].refs + 1, s.world.store.weak - {Val(s, wrap)})
    ensures Allowed(s1, Unref(wrap))
    ensures OnlyWeakness(s, Act(s1, Unref(wrap)), wrap, s.wraps[wrap].refs, s.world.store.weak)
  {
    UnrefMarks(s1, wrap);
  }

  /** `Unref` may follow every `Ref`, and undoes it: count, weakness and object are as before. */
  lemma UnrefUndoesRef(s: State, wrap: nat)
    requires Safe(s.world) && Coupled(s, wrap) && Allowed(s, Ref(wrap))
    ensures Allowed(Act(s, Ref(wrap)), Unref(wrap))
    ensures OnlyWeakness(s, Act(Act(s, Ref(wrap)), Unref(wrap)), wrap, s.wraps[wrap].refs, s.world.store.weak)
  {
    RefMarks(s, wrap);
    ThenUnref(s, Act(s, Ref(wrap)), wrap);
  }

  lemma DestructorForgets(w: World, wrap: nat)
    requires Safe(w) && IsPersistent(w, wrap) && w.vars[wrap].kind.NonCopyable?
    ensures Destructor(w, wrap).vars == w.vars - {wrap} && Destructor(w, wrap).abandoned == w.abandoned
  {
    assert Detached(w, wrap).vars == w.vars[wrap := Var(NonCopyable, NULL)];
    assert w.vars[wrap := Var(NonCopyable, NULL)] - {wrap} == w.vars - {wrap};
  }

  /**
   `~ObjectWrap` clears the weakness and disposes the cell: it is gone, counted once and not left to
   the ledger, and nothing else is touched; an empty handle disposes nothing.
   */
  lemma DeleteReleases(s: State, wrap: nat)
    requires ObjectWrapRuns.Inv(s) && IsWrap(s, wrap)
    ensures var r := Act(s, Delete(wrap));
      && r.wraps == s.wraps - {wrap} && r.fields == s.fields
      && r.world.vars == s.world.vars - {wrap} && r.world.abandoned == s.world.abandoned
      && (Val(s, wrap) == NULL ==> r.world.store == s.world.store)
      && (Val(s, wrap) != NULL ==> ObjectWrap.Released(s.world.store, r.world.store, Val(s, wrap)))
  {
    assert Coupled(s, wrap);
    DestructorForgets(s.world, wrap);
    DeleteIsTheMethod(s, wrap);
    if Val(s, wrap) != NULL {
      HeldIsLive(s.world, wrap, wrap);
      ObjectWrap.DestructorReleases(s.world.store, Val(s, wrap));
    }
  }

  /** Using a handle, and whatever happens elsewhere, is a step of the world. */
  lemma OthersAreSteps(s: State, a: Action)
    requires Allowed(s, a) && (a.UseHandle? || a.Other?)
    ensures Act(s, a).world == Step(s.world, a.op) && Act(s, a).wraps == s.wraps
    ensures !(a.Other? && a.op.GcRelocate?) ==> Act(s, a).fields == s.fields
  {
  }

  /** Moving objects moves their fields along, of those that live on, and adds none. */
  lemma FieldsMove(s: State, f: map<Word, Word>, dead: set<Word>)
    requires Allowed(s, Other(GcRelocate(f), dead))
    ensures var r := Act(s, Other(GcRelocate(f), dead));
      && (forall o | o in s.fields && o !in dead :: To(f, o) in r.fields && r.fields[To(f, o)] == s.fields[o])
      && (forall p | p in r.fields :: exists o :: o in s.fields && o !in dead && p == To(f, o))
  {
    var r := Act(s, Other(GcRelocate(f), dead));
    assert r.fields == MovedFields(s.fields, f, dead);
    forall o | o in s.fields && o !in dead ensures To(f, o) in r.fields && r.fields[To(f, o)] == s.fields[o] {
      MovedField(s, f, dead, o);
    }
    forall p | p in r.fields ensures exists o :: o in s.fields && o !in dead && p == To(f, o) {
      var o :| o in s.fields.Keys - dead && p == Moved(f, o);
      assert o in s.fields && o !in dead && p == To(f, o);
    }
  }

  function To(f: map<Word, Word>, o: Word): Word { if o in f then f[o] else o }

  /** A handle counts as pointed elsewhere exactly from a reset of it from outside until the wrap wraps again. */
  lemma RepointedExactly(s: State, a: Action, wrap: nat)
    requires ObjectWrapRuns.Inv(s) && Allowed(s, a)
    ensures wrap in Act(s, a).repointed <==>
      !(a.DoWrap? && a.wrap == wrap)
      && (wrap in s.repointed || (a.UseHandle? && a.wrap == wrap && (a.op.ResetToLocal? || a.op.ResetToPersistent?)))
  {
  }
}
