/**
 The equality operators of `Local`, `PersistentBase` and `TracedReference`: all compare what two
 locations hold, and the collector must not change their answers.
 */
module HandleEquality {
  import opened NodeImage
  import opened CellStore
  import opened HandleRuns
  import opened Options

  datatype Handle = LocalHandle(val: nat) | PersistentHandle(val: nat) | TracedHandle(val: nat)

  /** What each location, a handle-scope slot or a storage cell, holds. */
  type Locations = map<nat, Word>

  predicate Readable(m: Locations, h: Handle) { h.val == NULL || h.val in m }

  /** The body shared by the operators. */
  predicate SameContent(m: Locations, a: nat, b: nat)
    requires a == NULL || a in m
    requires b == NULL || b in m
  {
    if a == NULL then b == NULL
    else if b == NULL then false
    else m[a] == m[b]
  }

  /** There is no operator between a persistent and a traced handle. */
  predicate Comparable(x: Handle, y: Handle) {
    !(x.PersistentHandle? && y.TracedHandle?) && !(x.TracedHandle? && y.PersistentHandle?)
  }

  /** The operator on the left comes from the left operand, but `Local == TracedReference` asks the right one. */
  predicate Equal(m: Locations, x: Handle, y: Handle)
    requires Readable(m, x) && Readable(m, y) && Comparable(x, y)
  {
    if x.LocalHandle? && y.TracedHandle? then SameContent(m, y.val, x.val) else SameContent(m, x.val, y.val)
  }

  function Denotes(m: Locations, h: Handle): Option<Word>
    requires Readable(m, h)
  {
    if h.val == NULL then None else Some(m[h.val])
  }

  /**
   Equality is agreement on what is denoted, so it is an equivalence across the three types, also
   through a handle of a third type between two that cannot be compared.
   */
  lemma EqualityIsAgreement(m: Locations, x: Handle, y: Handle, z: Handle)
    requires NULL !in m && Readable(m, x) && Readable(m, y) && Readable(m, z)
    ensures Equal(m, x, x)
    ensures Comparable(x, y) ==> (Equal(m, x, y) <==> Denotes(m, x) == Denotes(m, y)) && (Equal(m, x, y) <==> Equal(m, y, x))
    ensures Comparable(x, y) && Comparable(y, z) && Equal(m, x, y) && Equal(m, y, z) ==>
      Denotes(m, x) == Denotes(m, z) && (Comparable(x, z) ==> Equal(m, x, z))
  {
  }

  function Relocated(m: Locations, f: map<Word, Word>): Locations {
    map a | a in m :: Moved(f, m[a])
  }

  ghost predicate Injective(m: Locations, f: map<Word, Word>) {
    forall a, b | a in m && b in m && Moved(f, m[a]) == Moved(f, m[b]) :: m[a] == m[b]
  }

  ghost predicate EqualityKept(m: Locations, f: map<Word, Word>) {
    forall x, y | Readable(m, x) && Readable(m, y) && Comparable(x, y) :: Equal(Relocated(m, f), x, y) <==> Equal(m, x, y)
  }

  /** Moving objects leaves every comparison unchanged exactly when no two objects are moved onto one another. */
  lemma RelocationKeepsEqualityExactly(m: Locations, f: map<Word, Word>)
    requires NULL !in m
    ensures EqualityKept(m, f) <==> Injective(m, f)
  {
    if EqualityKept(m, f) {
      forall a, b | a in m && b in m && Moved(f, m[a]) == Moved(f, m[b]) ensures m[a] == m[b] {
        var x, y := LocalHandle(a), LocalHandle(b);
        assert Readable(m, x) && Readable(m, y);
        assert Equal(Relocated(m, f), x, y) <==> Equal(m, x, y);
      }
    }
  }

  // --- Over runs ---

  predicate SameReferent(s: Store, c: nat, d: nat) {
    c in s.cells && d in s.cells && s.cells[c].referent == s.cells[d].referent
  }

  /** What the operator answers for two handle variables of a world. */
  predicate EqualVars(w: World, h: nat, k: nat) {
    if !NonEmpty(w, h) || !NonEmpty(w, k) then NonEmpty(w, h) == NonEmpty(w, k)
    else SameReferent(w.store, w.vars[h].val, w.vars[k].val)
  }

  function CellsOf(w: World): Locations {
    map c | c in w.store.cells :: w.store.cells[c].referent
  }

  function AsHandle(w: World, h: nat): Handle
    requires h in w.vars
  {
    if w.vars[h].kind.Traced? then TracedHandle(w.vars[h].val) else PersistentHandle(w.vars[h].val)
  }

  /** In a world this is the operator: both are empty, or both have cells and those hold the same object. */
  lemma EqualVarsIsTheOperator(w: World, h: nat, k: nat)
    requires Safe(w) && h in w.vars && k in w.vars
    ensures EqualVars(w, h, k) <==>
      if w.vars[h].val == NULL then w.vars[k].val == NULL
      else w.vars[k].val != NULL && w.vars[h].val in w.store.cells && w.vars[k].val in w.store.cells
           && w.store.cells[w.vars[h].val].referent == w.store.cells[w.vars[k].val].referent
    ensures Readable(CellsOf(w), AsHandle(w, h)) && Readable(CellsOf(w), AsHandle(w, k))
    ensures Comparable(AsHandle(w, h), AsHandle(w, k)) ==>
      (EqualVars(w, h, k) <==> Equal(CellsOf(w), AsHandle(w, h), AsHandle(w, k)))
  {
    if NonEmpty(w, h) { HeldIsLive(w, h, h); }
    if NonEmpty(w, k) { HeldIsLive(w, k, k); }
  }

  /** No operation on other handles and no collector step changes whether two handles are equal. */
  lemma StepKeepsEquality(w: World, op: Op, h: nat, k: nat)
    requires Safe(w) && Enabled(w, op) && h in w.vars && k in w.vars && !Touches(w, op, h) && !Touches(w, op, k)
    ensures EqualVars(Step(w, op), h, k) <==> EqualVars(w, h, k)
  {
    Untouched(w, op, h);
    Untouched(w, op, k);
    if NonEmpty(w, h) { HeldIsLive(w, h, k); }
    if NonEmpty(w, k) { HeldIsLive(w, k, h); }
  }

  predicate NeverTouched(w: World, ops: seq<Op>, h: nat) {
    ops == [] || (
      var before := Run(w, ops[..|ops| - 1]);
      var op := ops[|ops| - 1];
      NeverTouched(w, ops[..|ops| - 1], h) && (Enabled(before, op) ==> !Touches(before, op, h)))
  }

  lemma {:induction false} RunKeepsEquality(w: World, ops: seq<Op>, h: nat, k: nat)
    requires Safe(w) && h in w.vars && k in w.vars && NeverTouched(w, ops, h) && NeverTouched(w, ops, k)
    ensures var r := Run(w, ops);
      && h in r.vars && k in r.vars && r.vars[h] == w.vars[h] && r.vars[k] == w.vars[k]
      && (EqualVars(r, h, k) <==> EqualVars(w, h, k))
  {
    if ops != [] {
      var before := Run(w, ops[..|ops| - 1]);
      var op := ops[|ops| - 1];
      RunKeepsEquality(w, ops[..|ops| - 1], h, k);
      RunSafeFrom(w, ops[..|ops| - 1]);
      if Enabled(before, op) {
        StepKeepsEquality(before, op, h, k);
        Untouched(before, op, h);
        Untouched(before, op, k);
      }
    }
  }
}
