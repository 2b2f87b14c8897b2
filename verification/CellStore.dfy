/**
 What the entry points behind `api_internal` do to storage cells, and what the handle
 operations of v8-persistent-handle.h and v8-traced-handle.h make of a handle's cell
 address.  The classes that update bytes and fields in place are proved against these
 functions, and the whole-run results are about them.
 */
module CellStore {
  import opened NodeImage
  import opened Options

  /** The handle classes: `Persistent` with either traits class, `Global`, `TracedReference`. */
  datatype Kind = NonCopyable | Copyable | Global | Traced {
    predicate ResetsInDestructor() { Copyable? || Global? }
  }

  /** How a cell was made weak: with a finalization callback, or with the address of the handle to null. */
  datatype Weakness = Callback(callback: nat, parameter: nat) | Phantom(location: nat)

  /**
   The live cells by address, the weak ones among them, how many cells were ever created and
   disposed, and whether every entry point so far was handed a live cell.
   */
  datatype Store = Store(cells: map<nat, Node>, weak: map<nat, Weakness>,
                         created: nat, disposed: nat, ok: bool)

  const NULL: nat := 0

  function FreshNode(referent: Word): Node {
    Node(referent, 0, 0, NODE_STATE_NORMAL, {})
  }

  function Globalize(s: Store, newCell: nat, referent: Word): Store {
    s.(cells := s.cells[newCell := FreshNode(referent)], weak := s.weak - {newCell}, created := s.created + 1)
  }

  function CopyGlobal(s: Store, source: nat, newCell: nat): Store {
    if source in s.cells then Globalize(s, newCell, s.cells[source].referent) else s.(ok := false)
  }

  function Dispose(s: Store, cell: nat): Store {
    if cell in s.cells
    then s.(cells := s.cells - {cell}, weak := s.weak - {cell}, disposed := s.disposed + 1)
    else s.(ok := false)
  }

  function MakeWeak(s: Store, cell: nat, weakness: Weakness): Store {
    if cell in s.cells
    then s.(cells := s.cells[cell := s.cells[cell].(state := NODE_STATE_IS_WEAK)], weak := s.weak[cell := weakness])
    else s.(ok := false)
  }

  function ClearWeak(s: Store, cell: nat): Store {
    if cell in s.cells
    then s.(cells := s.cells[cell := s.cells[cell].(state := NODE_STATE_NORMAL)], weak := s.weak - {cell})
    else s.(ok := false)
  }

  /** The cell changes hands: a phantom cell must null its new holder, everything else stays. */
  function MoveGlobal(s: Store, cell: nat, to: nat): Store {
    if cell !in s.cells then s.(ok := false)
    else if cell in s.weak && s.weak[cell].Phantom? then s.(weak := s.weak[cell := Phantom(to)])
    else s
  }

  function SetClassId(s: Store, cell: nat, id: bv16): Store {
    if cell in s.cells then s.(cells := s.cells[cell := s.cells[cell].(classId := id)]) else s.(ok := false)
  }

  function UpdateFlag(s: Store, cell: nat, value: bool, shift: nat): Store {
    if cell in s.cells
    then s.(cells := s.cells[cell := WriteRecord(s.cells[cell], FlagWrite(cell, shift, value))])
    else s.(ok := false)
  }

  function MarkPending(s: Store, cell: nat): Store {
    if cell in s.cells then s.(cells := s.cells[cell := s.cells[cell].(state := NODE_STATE_IS_PENDING)]) else s.(ok := false)
  }

  function Moved(f: map<Word, Word>, referent: Word): Word {
    if referent in f then f[referent] else referent
  }

  /** The collector moved objects and updated every cell. */
  function Relocate(s: Store, f: map<Word, Word>): Store {
    s.(cells := map c | c in s.cells :: s.cells[c].(referent := Moved(f, s.cells[c].referent)))
  }

  // --- Handle operations: the store and the new `val_` ---

  function Reset(s: Store, val: nat): Store {
    if val == NULL then s else Dispose(s, val)
  }

  /** `PersistentBase::New` and `BasicTracedReference::New`: a cell for the object a local refers to, if it is not empty. */
  function New(s: Store, referent: Option<Word>, newCell: nat): (Store, nat) {
    if referent.None? then (s, NULL) else (Globalize(s, newCell, referent.value), newCell)
  }

  /** A new cell with the contents of another cell, if there is one. */
  function Clone(s: Store, source: nat, newCell: nat): (Store, nat) {
    if source == NULL then (s, NULL) else (CopyGlobal(s, source, newCell), newCell)
  }

  /**
   `Persistent::Copy` and `Reset(isolate, other)`: the old cell goes before the source is
   looked at, so a handle copied onto itself finds itself empty.
   */
  function CopyOnto(s: Store, val: nat, source: nat, same: bool, newCell: nat): (Store, nat) {
    Clone(Reset(s, val), if same then NULL else source, newCell)
  }

  /** Move assignment of `Global` from another handle: the store and the value the target ends with. */
  function MoveOnto(s: Store, val: nat, source: nat, location: nat): (Store, nat) {
    if source == NULL then (Reset(s, val), NULL) else (MoveGlobal(Reset(s, val), source, location), source)
  }
}
