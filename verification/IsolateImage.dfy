/**
 The isolate as v8-internal.h lays it out: pointer-sized words at fixed places, of which the
 embedder may write four, a counter, and the root table behind them.
 */
module IsolateImage {
  import opened Words

  const TWO_32: int := 0x1_0000_0000

  /** Word numbers of the layout: each offset of the header is a multiple of the pointer size. */
  const STACK_GUARD := 1
  const BUILTIN_TIER0_ENTRY_TABLE := STACK_GUARD + 7
  const BUILTIN_TIER0_TABLE := BUILTIN_TIER0_ENTRY_TABLE + 10
  const EMBEDDER_DATA := BUILTIN_TIER0_TABLE + 10
  const NUM_ISOLATE_DATA_SLOTS := 4
  const FAST_C_CALL_CALLER_FP := EMBEDDER_DATA + NUM_ISOLATE_DATA_SLOTS
  const FAST_C_CALL_CALLER_PC := FAST_C_CALL_CALLER_FP + 1
  const FAST_API_CALL_TARGET := FAST_C_CALL_CALLER_PC + 1
  const LONG_TASK_STATS_COUNTER := FAST_API_CALL_TARGET + 1
  const ROOTS := LONG_TASK_STATS_COUNTER + 1

  /** What the words mean; `others` are those no accessor here reaches. */
  datatype Isolate = Isolate(slots: seq<nat>, counter: nat, roots: seq<nat>, others: seq<nat>)

  /** The byte offset of a word. */
  function At(wide: bool, k: nat): nat { if wide then 8 * k else 4 * k }

  function Size(wide: bool): nat { At(wide, 1) }

  predicate IsWord(wide: bool, w: int) { 0 <= w < Pow256(Size(wide)) }

  predicate Image(wide: bool, m: seq<Byte>, words: nat) { |m| == At(wide, words) }

  function WordAt(wide: bool, m: seq<Byte>, k: nat): nat
    requires At(wide, k + 1) <= |m|
  {
    Le(m[At(wide, k)..At(wide, k + 1)])
  }

  function Store(wide: bool, m: seq<Byte>, k: nat, w: nat): (r: seq<Byte>)
    requires At(wide, k + 1) <= |m|
    ensures |r| == |m|
  {
    m[..At(wide, k)] + Bytes(Size(wide), w) + m[At(wide, k + 1)..]
  }

  function WordsOf(wide: bool, m: seq<Byte>, words: nat): (ws: seq<nat>)
    requires Image(wide, m, words)
    ensures |ws| == words
  {
    seq(words, k requires 0 <= k < words => WordAt(wide, m, k))
  }

  /** Storing a word is a point update of the words of the image. */
  lemma StoreIsUpdate(wide: bool, m: seq<Byte>, words: nat, k: nat, w: nat)
    requires Image(wide, m, words) && k < words && IsWord(wide, w)
    ensures WordsOf(wide, Store(wide, m, k, w), words) == WordsOf(wide, m, words)[k := w]
  {
    var r := Store(wide, m, k, w);
    forall j | 0 <= j < words ensures WordAt(wide, r, j) == if j == k then w else WordAt(wide, m, j) {
      if j == k {
        assert r[At(wide, k)..At(wide, k + 1)] == Bytes(Size(wide), w);
        LeOfBytes(Size(wide), w);
      } else {
        OtherWord(wide, m, k, w, j);
      }
    }
  }

  lemma OtherWord(wide: bool, m: seq<Byte>, k: nat, w: nat, j: nat)
    requires At(wide, k + 1) <= |m| && At(wide, j + 1) <= |m| && j != k
    ensures WordAt(wide, Store(wide, m, k, w), j) == WordAt(wide, m, j)
  {
    var r := Store(wide, m, k, w);
    if j < k {
      assert At(wide, j + 1) <= At(wide, k);
      assert r[At(wide, j)..At(wide, j + 1)] == m[At(wide, j)..At(wide, j + 1)];
    } else {
      assert At(wide, k + 1) <= At(wide, j);
      assert r[At(wide, k + 1)..] == m[At(wide, k + 1)..];
      assert r[At(wide, j)..At(wide, j + 1)] == m[At(wide, j)..At(wide, j + 1)];
    }
  }

  ghost function Meaning(ws: seq<nat>): Isolate
    requires |ws| >= ROOTS
  {
    Isolate(ws[EMBEDDER_DATA..FAST_C_CALL_CALLER_FP], ws[LONG_TASK_STATS_COUNTER], ws[ROOTS..],
            ws[..EMBEDDER_DATA] + ws[FAST_C_CALL_CALLER_FP..LONG_TASK_STATS_COUNTER])
  }

  // --- The accessors ---

  /**
   The word a slot number leads to.  The slot is an unsigned 32-bit number and so is its product
   with the pointer size, which wraps.
   */
  function SlotWord(wide: bool, slot: nat): nat {
    EMBEDDER_DATA + (if wide then slot * 8 % TWO_32 / 8 else slot * 4 % TWO_32 / 4)
  }

  function Incremented(wide: bool, w: nat): nat { (w + 1) % Pow256(Size(wide)) }

  datatype Write = SetData(slot: nat, data: nat) | IncrementCounter

  predicate InImage(wide: bool, words: nat, op: Write) {
    op.SetData? ==> op.slot < TWO_32 && SlotWord(wide, op.slot) < words && IsWord(wide, op.data)
  }

  function ApplyBytes(wide: bool, m: seq<Byte>, words: nat, op: Write): (r: seq<Byte>)
    requires Image(wide, m, words) && words >= ROOTS && InImage(wide, words, op)
    ensures |r| == |m|
  {
    match op
    case SetData(slot, data) => Store(wide, m, SlotWord(wide, slot), data)
    case IncrementCounter =>
      Store(wide, m, LONG_TASK_STATS_COUNTER, Incremented(wide, WordAt(wide, m, LONG_TASK_STATS_COUNTER)))
  }

  function Apply(wide: bool, i: Isolate, op: Write): Isolate
    requires op.SetData? ==> op.slot < |i.slots|
  {
    match op
    case SetData(slot, data) => i.(slots := i.slots[slot := data])
    case IncrementCounter => i.(counter := Incremented(wide, i.counter))
  }

  lemma SlotWordExact(wide: bool, slot: nat)
    requires slot < TWO_32
    ensures SlotWord(wide, slot) == EMBEDDER_DATA + slot % (if wide then 0x2000_0000 else 0x4000_0000)
    ensures slot < NUM_ISOLATE_DATA_SLOTS ==> SlotWord(wide, slot) == EMBEDDER_DATA + slot
  {
    if wide {
      assert slot * 8 % TWO_32 == slot % 0x2000_0000 * 8;
    } else {
      assert slot * 4 % TWO_32 == slot % 0x4000_0000 * 4;
    }
  }

  /** A write through a slot in range, or of the counter, updates that one field of the record. */
  lemma WriteRefines(wide: bool, m: seq<Byte>, words: nat, op: Write)
    requires Image(wide, m, words) && words >= ROOTS && InImage(wide, words, op)
    requires op.SetData? ==> op.slot < NUM_ISOLATE_DATA_SLOTS
    ensures Meaning(WordsOf(wide, ApplyBytes(wide, m, words, op), words)) == Apply(wide, Meaning(WordsOf(wide, m, words)), op)
  {
    match op
    case SetData(slot, data) =>
      SlotWordExact(wide, slot);
      StoreIsUpdate(wide, m, words, EMBEDDER_DATA + slot, data);
    case IncrementCounter =>
      StoreIsUpdate(wide, m, words, LONG_TASK_STATS_COUNTER, Incremented(wide, WordAt(wide, m, LONG_TASK_STATS_COUNTER)));
  }

  function RunBytes(wide: bool, m: seq<Byte>, words: nat, ops: seq<Write>): (r: seq<Byte>)
    requires Image(wide, m, words) && words >= ROOTS && forall i | 0 <= i < |ops| :: InImage(wide, words, ops[i])
    ensures |r| == |m|
    decreases |ops|
  {
    if ops == [] then m else RunBytes(wide, ApplyBytes(wide, m, words, ops[0]), words, ops[1..])
  }

  function Run(wide: bool, i: Isolate, ops: seq<Write>): Isolate
    requires |i.slots| == NUM_ISOLATE_DATA_SLOTS
    requires forall k | 0 <= k < |ops| :: ops[k].SetData? ==> ops[k].slot < NUM_ISOLATE_DATA_SLOTS
    decreases |ops|
  {
    if ops == [] then i else Run(wide, Apply(wide, i, ops[0]), ops[1..])
  }

  /** Any run of such writes on the bytes refines the run on the record, and changes no root. */
  lemma {:induction false} RunRefines(wide: bool, m: seq<Byte>, words: nat, ops: seq<Write>)
    requires Image(wide, m, words) && words >= ROOTS
    requires forall i | 0 <= i < |ops| :: InImage(wide, words, ops[i])
    requires forall i | 0 <= i < |ops| :: ops[i].SetData? ==> ops[i].slot < NUM_ISOLATE_DATA_SLOTS
    ensures var before := Meaning(WordsOf(wide, m, words)); var after := Meaning(WordsOf(wide, RunBytes(wide, m, words, ops), words));
      after == Run(wide, before, ops) && after.roots == before.roots && after.others == before.others
    decreases |ops|
  {
    if ops != [] {
      WriteRefines(wide, m, words, ops[0]);
      RunRefines(wide, ApplyBytes(wide, m, words, ops[0]), words, ops[1..]);
    }
  }

  /**
   `SetData` does not check its slot.  It leaves the counter, the roots and everything else alone,
   whatever is written, exactly when the slot is in range up to a multiple of 2^32 over the
   pointer size; only those below four are a slot of their own.
   */
  lemma SetDataExact(wide: bool, m: seq<Byte>, words: nat, slot: nat)
    requires Image(wide, m, words) && words >= ROOTS && slot < TWO_32 && SlotWord(wide, slot) < words
    ensures (forall data | IsWord(wide, data) :: KeepsRest(wide, m, words, slot, data))
       <==> slot % (if wide then 0x2000_0000 else 0x4000_0000) < NUM_ISOLATE_DATA_SLOTS
  {
    SlotWordExact(wide, slot);
    var k := SlotWord(wide, slot);
    var ws := WordsOf(wide, m, words);
    if k < FAST_C_CALL_CALLER_FP {
      forall data | IsWord(wide, data) ensures KeepsRest(wide, m, words, slot, data) {
        StoreIsUpdate(wide, m, words, k, data);
      }
    } else {
      var data := if ws[k] == 0 then 1 else 0;
      assert IsWord(wide, data);
      StoreIsUpdate(wide, m, words, k, data);
      RestSeesWord(ws, k, data);
      assert !KeepsRest(wide, m, words, slot, data);
    }
  }

  ghost predicate KeepsRest(wide: bool, m: seq<Byte>, words: nat, slot: nat, data: nat)
    requires Image(wide, m, words) && words >= ROOTS && slot < TWO_32 && SlotWord(wide, slot) < words
  {
    var before := Meaning(WordsOf(wide, m, words));
    var after := Meaning(WordsOf(wide, Store(wide, m, SlotWord(wide, slot), data), words));
    after == before.(slots := after.slots)
  }

  lemma RestSeesWord(ws: seq<nat>, k: nat, data: nat)
    requires |ws| >= ROOTS && FAST_C_CALL_CALLER_FP <= k < |ws| && data != ws[k]
    ensures Meaning(ws[k := data]) != Meaning(ws).(slots := Meaning(ws[k := data]).slots)
  {
    var a, b := Meaning(ws[k := data]), Meaning(ws);
    if k < LONG_TASK_STATS_COUNTER {
      assert a.others[k - NUM_ISOLATE_DATA_SLOTS] == data && b.others[k - NUM_ISOLATE_DATA_SLOTS] == ws[k];
    } else if k > LONG_TASK_STATS_COUNTER {
      assert a.roots[k - ROOTS] == data && b.roots[k - ROOTS] == ws[k];
    }
  }

  /** Slot 7 is the counter: writing it leaves the four slots alone and sets the counter. */
  lemma SlotSevenIsTheCounter(wide: bool, m: seq<Byte>, words: nat, data: nat)
    requires Image(wide, m, words) && words >= ROOTS && IsWord(wide, data)
    ensures InImage(wide, words, SetData(7, data))
    ensures Meaning(WordsOf(wide, ApplyBytes(wide, m, words, SetData(7, data)), words))
         == Meaning(WordsOf(wide, m, words)).(counter := data)
  {
    SlotWordExact(wide, 7);
    assert SlotWord(wide, 7) == LONG_TASK_STATS_COUNTER;
    StoreIsUpdate(wide, m, words, LONG_TASK_STATS_COUNTER, data);
  }

  // --- Which bytes these are ---

  /** The words the record is made of: four slots from word 28, the counter at word 35, the roots from word 36. */
  lemma MeaningOfWords(ws: seq<nat>)
    requires |ws| >= ROOTS
    ensures ROOTS == 36
    ensures var i := Meaning(ws);
      && |i.slots| == 4 && (forall k | 0 <= k < 4 :: i.slots[k] == ws[28 + k])
      && i.counter == ws[35]
      && |i.roots| == |ws| - 36 && (forall k | 0 <= k < |i.roots| :: i.roots[k] == ws[36 + k])
      && i.others == ws[..28] + ws[32..35]
  {
  }

  /** The bytes of memory from `at` on are those of this word, lowest first, and all others are as before. */
  predicate OnlyWordChanged(was: seq<Byte>, now: seq<Byte>, at: nat, size: nat, w: nat) {
    && |now| == |was| && at + size <= |was|
    && now[at..at + size] == Bytes(size, w)
    && now[..at] == was[..at] && now[at + size..] == was[at + size..]
  }

  /** `SetData` on a slot in range writes the word at 28 pointer sizes and the slot. */
  lemma SetDataBytes(wide: bool, m: seq<Byte>, words: nat, slot: nat, data: nat)
    requires Image(wide, m, words) && words >= ROOTS && InImage(wide, words, SetData(slot, data)) && slot < 4
    ensures var p := if wide then 8 else 4;
      OnlyWordChanged(m, ApplyBytes(wide, m, words, SetData(slot, data)), (28 + slot) * p, p, data)
  {
    SlotWordExact(wide, slot);
    StoreBytes(wide, m, EMBEDDER_DATA + slot, data);
  }

  lemma StoreBytes(wide: bool, m: seq<Byte>, k: nat, w: nat)
    requires At(wide, k + 1) <= |m|
    ensures var p := if wide then 8 else 4; OnlyWordChanged(m, Store(wide, m, k, w), k * p, p, w)
  {
  }

  lemma IncrementedIs(wide: bool, w: nat)
    requires w < Pow256(Size(wide))
    ensures Incremented(wide, w) == if w + 1 == (if wide then 0x1_0000_0000_0000_0000 else 0x1_0000_0000) then 0 else w + 1
    ensures IsWord(wide, Incremented(wide, w))
  {
    Pow256Values();
  }

  /** The counter, at 35 pointer sizes, gains one and wraps at the size of a word. */
  lemma CounterGainsOne(wide: bool, m: seq<Byte>, words: nat)
    requires Image(wide, m, words) && words >= ROOTS
    ensures var count := Meaning(WordsOf(wide, m, words)).counter;
      var r := ApplyBytes(wide, m, words, IncrementCounter);
      var next := if count + 1 == (if wide then 0x1_0000_0000_0000_0000 else 0x1_0000_0000) then 0 else count + 1;
      && Meaning(WordsOf(wide, r, words)).counter == next
      && OnlyWordChanged(m, r, if wide then 280 else 140, if wide then 8 else 4, next)
  {
    var k := LONG_TASK_STATS_COUNTER;
    var count := WordAt(wide, m, k);
    LeBound(m[At(wide, k)..At(wide, k + 1)]);
    IncrementedIs(wide, count);
    StoreBytes(wide, m, k, Incremented(wide, count));
    StoreIsUpdate(wide, m, words, k, Incremented(wide, count));
  }

  // --- In place ---

  class IsolateData {
    const wide: bool
    const words: nat
    const memory: array<Byte>

    ghost predicate Valid()
      reads this, memory
    {
      Image(wide, memory[..], words) && words >= ROOTS
    }

    constructor (wide: bool, roots: nat)
      ensures Valid() && fresh(memory) && this.wide == wide && words == ROOTS + roots
    {
      this.wide, words := wide, ROOTS + roots;
      memory := new Byte[At(wide, ROOTS + roots)];
    }

    method StoreWord(k: nat, w: nat)
      requires Valid() && k < words
      modifies memory
      ensures Valid() && memory[..] == Store(wide, old(memory[..]), k, w)
    {
      var bytes := Bytes(Size(wide), w);
      forall i | 0 <= i < Size(wide) { memory[At(wide, k) + i] := bytes[i]; }
    }

    method LoadWord(k: nat) returns (w: nat)
      requires Valid() && k < words
      ensures w == WordAt(wide, memory[..], k) == WordsOf(wide, memory[..], words)[k]
    {
      w := Le(memory[At(wide, k)..At(wide, k + 1)]);
      assert memory[At(wide, k)..At(wide, k + 1)] == memory[..][At(wide, k)..At(wide, k + 1)];
    }

    /** `Isolate::SetData`, for any slot whose word lies in the image. */
    method SetData(slot: nat, data: nat)
      requires Valid() && InImage(wide, words, Write.SetData(slot, data))
      modifies memory
      ensures Valid() && memory[..] == ApplyBytes(wide, old(memory[..]), words, Write.SetData(slot, data))
    {
      StoreWord(SlotWord(wide, slot), data);
    }

    /** `Isolate::GetData`; a slot in range reads the slot of the record. */
    method GetData(slot: nat) returns (data: nat)
      requires Valid() && slot < TWO_32 && SlotWord(wide, slot) < words
      ensures slot < NUM_ISOLATE_DATA_SLOTS ==> data == Meaning(WordsOf(wide, memory[..], words)).slots[slot]
      ensures data == WordAt(wide, memory[..], SlotWord(wide, slot))
    {
      SlotWordExact(wide, slot);
      data := LoadWord(SlotWord(wide, slot));
    }

    method IncrementLongTasksStatsCounter()
      requires Valid()
      modifies memory
      ensures Valid() && memory[..] == ApplyBytes(wide, old(memory[..]), words, IncrementCounter)
    {
      var count := LoadWord(LONG_TASK_STATS_COUNTER);
      StoreWord(LONG_TASK_STATS_COUNTER, Incremented(wide, count));
    }

    method GetRoot(index: nat) returns (root: nat)
      requires Valid() && ROOTS + index < words
      ensures root == Meaning(WordsOf(wide, memory[..], words)).roots[index]
    {
      root := LoadWord(ROOTS + index);
    }
  }
}
