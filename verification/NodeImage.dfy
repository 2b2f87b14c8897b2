/**
 The bytes of a global-handle node, as the inline accessors of v8-internal.h see them:
 a pointer-sized object word, a 16-bit class id right after it, one byte the headers
 never touch, and one byte that packs a three-bit state with five flag bits.

 The masks and shifts of the source are kept on bit-vectors.  A `Node` is the record the
 bytes stand for; every write of the source is shown to be a write to one of its fields.
 */
module NodeImage {

  /** The bytes of one `uintptr_t`; only copied and compared here. */
  type Word = seq<bv8>

  /** The record packed in a node; `flags` holds the shifts of the flag bits that are set. */
  datatype Node = Node(referent: Word, classId: bv16, index: bv8, state: bv8, flags: set<nat>)

  const NODE_STATE_MASK: bv8 := 0x7
  const NODE_STATE_IS_WEAK: bv8 := 2
  const NODE_STATE_IS_PENDING: bv8 := 3
  /** The state of a strong node: not published by the header, only different from the two above. */
  const NODE_STATE_NORMAL: bv8 := 1

  function ClassIdOffset(ptr: nat): nat { 1 * ptr }

  function FlagsOffset(ptr: nat): nat { 1 * ptr + 3 }

  function NodeSize(ptr: nat): nat { FlagsOffset(ptr) + 1 }

  /** `static_cast<uint8_t>(1U << shift)`: the truncation leaves nothing from bit eight on. */
  function Bit(shift: nat): bv8 {
    match shift
    case 0 => 0x01 case 1 => 0x02 case 2 => 0x04 case 3 => 0x08
    case 4 => 0x10 case 5 => 0x20 case 6 => 0x40 case 7 => 0x80
    case _ => 0
  }

  function FlagByte(b: bv8, value: bool, shift: nat): bv8 {
    (b & !Bit(shift)) | (if value then Bit(shift) else 0)
  }

  function StateByte(b: bv8, value: bv8): bv8 {
    (b & !NODE_STATE_MASK) | value
  }

  function FlagsOf(b: bv8): set<nat> {
    set s: nat | 3 <= s <= 7 && b & Bit(s) != 0
  }

  function Low(v: bv16): bv8 { (v & 0xff) as bv8 }

  function High(v: bv16): bv8 { (v >> 8) as bv8 }

  function U16(low: bv8, high: bv8): bv16 { (low as bv16) | ((high as bv16) << 8) }

  predicate Fits(ptr: nat, m: seq<bv8>, node: nat) { node + NodeSize(ptr) <= |m| }

  /** The record stored at `node`. */
  function Decode(ptr: nat, m: seq<bv8>, node: nat): Node
    requires Fits(ptr, m, node)
  {
    Node(m[node..node + ptr],
         U16(m[node + ClassIdOffset(ptr)], m[node + ClassIdOffset(ptr) + 1]),
         m[node + ClassIdOffset(ptr) + 2],
         m[node + FlagsOffset(ptr)] & NODE_STATE_MASK,
         FlagsOf(m[node + FlagsOffset(ptr)]))
  }

  /** Node addresses that can be in use together: inside the memory and not overlapping. */
  ghost predicate Layout(ptr: nat, m: seq<bv8>, nodes: set<nat>) {
    && (forall a | a in nodes :: Fits(ptr, m, a))
    && (forall a, b | a in nodes && b in nodes && a != b :: Apart(ptr, a, b))
  }

  predicate Apart(ptr: nat, a: nat, b: nat) { a + NodeSize(ptr) <= b || b + NodeSize(ptr) <= a }

  ghost function View(ptr: nat, m: seq<bv8>, nodes: set<nat>): map<nat, Node>
    requires Layout(ptr, m, nodes)
  {
    map a | a in nodes :: Decode(ptr, m, a)
  }

  // --- The three writes of the source, on bytes and on the record ---

  datatype Write =
    | ClassIdWrite(node: nat, id: bv16)
    | FlagWrite(node: nat, shift: nat, value: bool)
    | StateWrite(node: nat, state: bv8)

  function WriteBytes(ptr: nat, m: seq<bv8>, w: Write): (r: seq<bv8>)
    requires Fits(ptr, m, w.node)
    ensures |r| == |m|
  {
    match w
    case ClassIdWrite(node, id) =>
      m[node + ClassIdOffset(ptr) := Low(id)][node + ClassIdOffset(ptr) + 1 := High(id)]
    case FlagWrite(node, shift, value) =>
      m[node + FlagsOffset(ptr) := FlagByte(m[node + FlagsOffset(ptr)], value, shift)]
    case StateWrite(node, state) =>
      m[node + FlagsOffset(ptr) := StateByte(m[node + FlagsOffset(ptr)], state)]
  }

  function WriteRecord(n: Node, w: Write): Node {
    match w
    case ClassIdWrite(_, id) => n.(classId := id)
    case FlagWrite(_, shift, value) => n.(flags := if value then n.flags + {shift} else n.flags - {shift})
    case StateWrite(_, state) => n.(state := state)
  }

  /** The arguments under which the packed fields are independent of one another. */
  predicate InRange(w: Write) {
    match w
    case ClassIdWrite(_, _) => true
    case FlagWrite(_, shift, _) => 3 <= shift <= 7
    case StateWrite(_, state) => state <= NODE_STATE_MASK
  }

  lemma BitsAreDistinct(b: bv8, s: nat, t: nat, value: bool)
    requires s <= 7 && t <= 7
    ensures (FlagByte(b, value, s) & Bit(t) != 0) == (if s == t then value else b & Bit(t) != 0)
  {
  }

  lemma StateBits(b: bv8, value: bv8, t: nat)
    requires 3 <= t <= 7
    ensures StateByte(b, value) & NODE_STATE_MASK == value & NODE_STATE_MASK
    ensures (StateByte(b, value) & Bit(t) != 0) == (b & Bit(t) != 0 || value & Bit(t) != 0)
  {
  }

  lemma ClassIdRoundTrip(id: bv16)
    ensures U16(Low(id), High(id)) == id
  {
  }

  /** One write changes one field of one node, and no other node. */
  lemma WriteRefines(ptr: nat, m: seq<bv8>, nodes: set<nat>, w: Write)
    requires Layout(ptr, m, nodes) && w.node in nodes && InRange(w)
    ensures Layout(ptr, WriteBytes(ptr, m, w), nodes)
    ensures View(ptr, WriteBytes(ptr, m, w), nodes)
         == View(ptr, m, nodes)[w.node := WriteRecord(Decode(ptr, m, w.node), w)]
  {
    var r := WriteBytes(ptr, m, w);
    forall a | a in nodes && a != w.node
      ensures Decode(ptr, r, a) == Decode(ptr, m, a)
    {
      assert Apart(ptr, a, w.node);
      assert r[a..a + ptr] == m[a..a + ptr];
    }
    OwnRecord(ptr, m, w);
  }

  lemma OwnRecord(ptr: nat, m: seq<bv8>, w: Write)
    requires Fits(ptr, m, w.node) && InRange(w)
    ensures Decode(ptr, WriteBytes(ptr, m, w), w.node) == WriteRecord(Decode(ptr, m, w.node), w)
  {
    var r := WriteBytes(ptr, m, w);
    assert r[w.node..w.node + ptr] == m[w.node..w.node + ptr];
    var b := m[w.node + FlagsOffset(ptr)];
    match w
    case ClassIdWrite(_, id) => ClassIdRoundTrip(id);
    case FlagWrite(_, shift, value) => FlagByteRecord(b, value, shift);
    case StateWrite(_, state) => StateByteRecord(b, state);
  }

  lemma FlagByteRecord(b: bv8, value: bool, shift: nat)
    requires 3 <= shift <= 7
    ensures FlagByte(b, value, shift) & NODE_STATE_MASK == b & NODE_STATE_MASK
    ensures FlagsOf(FlagByte(b, value, shift)) == if value then FlagsOf(b) + {shift} else FlagsOf(b) - {shift}
  {
    FlagKeepsState(b, value, shift);
    forall t: nat | 3 <= t <= 7
      ensures t in FlagsOf(FlagByte(b, value, shift)) <==> if t == shift then value else t in FlagsOf(b)
    {
      BitsAreDistinct(b, shift, t, value);
    }
  }

  lemma StateByteRecord(b: bv8, state: bv8)
    requires state <= NODE_STATE_MASK
    ensures StateByte(b, state) & NODE_STATE_MASK == state
    ensures FlagsOf(StateByte(b, state)) == FlagsOf(b)
  {
    StateBits(b, state, 3);
    SmallState(state);
    forall t: nat | 3 <= t <= 7
      ensures t in FlagsOf(StateByte(b, state)) <==> t in FlagsOf(b)
    {
      StateBits(b, state, t);
      SmallStateHasNoFlag(state, t);
    }
  }

  lemma FlagKeepsState(b: bv8, value: bool, shift: nat)
    requires 3 <= shift <= 7
    ensures FlagByte(b, value, shift) & NODE_STATE_MASK == b & NODE_STATE_MASK
  {
  }

  lemma SmallStateHasNoFlag(state: bv8, t: nat)
    requires state <= NODE_STATE_MASK && 3 <= t <= 7
    ensures state & Bit(t) == 0
  {
  }

  lemma SmallState(state: bv8)
    ensures (state & NODE_STATE_MASK == state) <==> state <= NODE_STATE_MASK
  {
  }

  // --- Which bytes these are ---

  lemma BitIsShift(b: bv8, t: nat)
    requires t <= 7
    ensures Bit(t) == (1 as bv8) << t
    ensures b & Bit(t) != 0 <==> (b >> t) & 1 == 1
  {
  }

  /** The flags of a packed byte are the numbers of its set bits, from three on. */
  lemma FlagBits(b: bv8)
    ensures forall t: nat :: t in FlagsOf(b) <==> 3 <= t <= 7 && (b >> t) & 1 == 1
  {
    forall t: nat ensures t in FlagsOf(b) <==> 3 <= t <= 7 && (b >> t) & 1 == 1 {
      if t <= 7 { BitIsShift(b, t); }
    }
  }

  lemma LowByteFirst(low: bv8, high: bv8)
    ensures U16(low, high) == ((high as bv16) << 8) | (low as bv16)
  {
  }

  /** A node is a pointer and four bytes: class id, lowest byte first, a byte of no concern, and the state under the flags. */
  lemma NodeLayout(ptr: nat, m: seq<bv8>, node: nat)
    ensures Fits(ptr, m, node) <==> node + ptr + 4 <= |m|
    ensures Fits(ptr, m, node) ==>
      var n := Decode(ptr, m, node);
      && n.referent == m[node..node + ptr]
      && n.classId == U16(m[node + ptr], m[node + ptr + 1])
      && n.index == m[node + ptr + 2]
      && n.state == m[node + ptr + 3] & 7
      && n.flags == FlagsOf(m[node + ptr + 3])
  {
  }

  /** The packed byte after a flag update, and after a state update. */
  lemma PackedByte(b: bv8, value: bool, shift: nat, state: bv8)
    ensures shift <= 7 ==> FlagByte(b, value, shift) == (b & !((1 as bv8) << shift)) | if value then (1 as bv8) << shift else 0
    ensures shift > 7 ==> FlagByte(b, value, shift) == b
    ensures StateByte(b, state) == (b & 0xf8) | state
  {
    if shift <= 7 { BitIsShift(b, shift); }
  }

  /** The bytes each write changes: two behind the pointer, or the last one. */
  lemma WrittenBytes(ptr: nat, m: seq<bv8>, w: Write)
    requires Fits(ptr, m, w.node)
    ensures var at := w.node + ptr; var r := WriteBytes(ptr, m, w);
      && (w.ClassIdWrite? ==> r == m[at := (w.id & 0xff) as bv8][at + 1 := (w.id >> 8) as bv8])
      && (w.FlagWrite? ==> r == m[at + 3 := FlagByte(m[at + 3], w.value, w.shift)])
      && (w.StateWrite? ==> r == m[at + 3 := StateByte(m[at + 3], w.state)])
  {
  }

  // --- Whole runs ---

  function RunBytes(ptr: nat, m: seq<bv8>, ws: seq<Write>): (r: seq<bv8>)
    requires forall w | w in ws :: Fits(ptr, m, w.node)
    ensures |r| == |m|
    decreases |ws|
  {
    if ws == [] then m
    else
      assert forall w | w in ws[1..] :: w in ws && Fits(ptr, m, w.node);
      RunBytes(ptr, WriteBytes(ptr, m, ws[0]), ws[1..])
  }

  function RunRecords(v: map<nat, Node>, ws: seq<Write>): map<nat, Node>
    requires forall w | w in ws :: w.node in v
    decreases |ws|
  {
    if ws == [] then v
    else RunRecords(v[ws[0].node := WriteRecord(v[ws[0].node], ws[0])], ws[1..])
  }

  /** Any interleaving of in-range writes to any nodes refines updates of independent records. */
  lemma {:induction false} RunRefines(ptr: nat, m: seq<bv8>, nodes: set<nat>, ws: seq<Write>)
    requires Layout(ptr, m, nodes)
    requires forall w | w in ws :: w.node in nodes && InRange(w)
    ensures Layout(ptr, RunBytes(ptr, m, ws), nodes)
    ensures View(ptr, RunBytes(ptr, m, ws), nodes) == RunRecords(View(ptr, m, nodes), ws)
    decreases |ws|
  {
    if ws != [] {
      WriteRefines(ptr, m, nodes, ws[0]);
      RunRefines(ptr, WriteBytes(ptr, m, ws[0]), nodes, ws[1..]);
    }
  }

  /** `UpdateNodeState` does not mask its argument: it is a state update of every byte exactly for values up to seven. */
  lemma StateWriteExact(value: bv8)
    ensures (forall b: bv8 :: StateByte(b, value) & NODE_STATE_MASK == value && FlagsOf(StateByte(b, value)) == FlagsOf(b))
       <==> value <= NODE_STATE_MASK
  {
    SmallState(value);
    if value <= NODE_STATE_MASK {
      forall b: bv8
        ensures StateByte(b, value) & NODE_STATE_MASK == value && FlagsOf(StateByte(b, value)) == FlagsOf(b)
      {
        StateByteRecord(b, value);
      }
    } else {
      StateBits(0, value, 3);
      assert StateByte(0, value) & NODE_STATE_MASK != value;
    }
  }

  /** What `WriteRecord` asks of a flag update: the flag as told, the other flags and the state as they were. */
  ghost predicate IsFlagUpdate(b: bv8, value: bool, shift: nat) {
    var r := FlagByte(b, value, shift);
    && r & NODE_STATE_MASK == b & NODE_STATE_MASK
    && FlagsOf(r) == if value then FlagsOf(b) + {shift} else FlagsOf(b) - {shift}
  }

  /** `UpdateNodeFlag` updates a flag of every byte exactly for shifts three to seven: below is the state, above nothing. */
  lemma FlagWriteExact(shift: nat)
    ensures (forall b: bv8, value: bool :: IsFlagUpdate(b, value, shift)) <==> 3 <= shift <= 7
  {
    if 3 <= shift <= 7 {
      forall b: bv8, value: bool ensures IsFlagUpdate(b, value, shift) { FlagByteRecord(b, value, shift); }
    } else if shift < 3 {
      assert FlagByte(0, true, shift) & NODE_STATE_MASK != 0 & NODE_STATE_MASK;
      assert !IsFlagUpdate(0, true, shift);
    } else {
      assert shift !in FlagsOf(FlagByte(0, true, shift));
      assert !IsFlagUpdate(0, true, shift);
    }
  }
}
