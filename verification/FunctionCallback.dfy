/**
 Return values of callbacks: `ReturnValue` is a pointer into the argument array of a call, which
 finds the default value and the isolate at fixed places below the slot it writes.
 */
module FunctionCallback {
  import opened Options
  import opened Tagging

  datatype Value = Number(n: real) | Boolean(b: bool) | Null | Undefined | TheHole | EmptyString | Other(id: int)

  /** The root table of each isolate, and the value of each heap object. */
  datatype Heap = Heap(roots: map<int, seq<int>>, objects: map<int, Value>)

  const UNDEFINED_VALUE_ROOT := 4
  const THE_HOLE_VALUE_ROOT := 5
  const NULL_VALUE_ROOT := 6
  const TRUE_VALUE_ROOT := 7
  const FALSE_VALUE_ROOT := 8
  const EMPTY_STRING_ROOT := 9

  /** The value a tagged word stands for. */
  function Decode(c: Config, heap: Heap, word: int): Option<Value> {
    if !HasHeapObjectTag(word) then Some(Number(SmiValue(c, word) as real))
    else if word in heap.objects then Some(heap.objects[word])
    else None
  }

  /** The roots this file uses mean what they are named after. */
  ghost predicate RootsMeanThemselves(c: Config, heap: Heap, isolate: int) {
    && isolate in heap.roots && |heap.roots[isolate]| > EMPTY_STRING_ROOT
    && var r := heap.roots[isolate];
       && Decode(c, heap, r[UNDEFINED_VALUE_ROOT]) == Some(Undefined)
       && Decode(c, heap, r[NULL_VALUE_ROOT]) == Some(Null)
       && Decode(c, heap, r[TRUE_VALUE_ROOT]) == Some(Boolean(true))
       && Decode(c, heap, r[FALSE_VALUE_ROOT]) == Some(Boolean(false))
       && Decode(c, heap, r[EMPTY_STRING_ROOT]) == Some(EmptyString)
       && forall w :: Decode(c, heap, w) == Some(TheHole) <==> w == r[THE_HOLE_VALUE_ROOT]
  }

  /** The numbers of these roots. */
  lemma RootNumbers(c: Config, heap: Heap, isolate: int)
    requires RootsMeanThemselves(c, heap, isolate)
    ensures |heap.roots[isolate]| >= 10
    ensures var r := heap.roots[isolate];
      && Decode(c, heap, r[4]) == Some(Undefined) && Decode(c, heap, r[5]) == Some(TheHole)
      && Decode(c, heap, r[6]) == Some(Null)
      && Decode(c, heap, r[7]) == Some(Boolean(true)) && Decode(c, heap, r[8]) == Some(Boolean(false))
      && Decode(c, heap, r[9]) == Some(EmptyString)
  {
  }

  /**
   One call of a setter.  `boxed` is what `Number::New` or `Integer::New` returned, where the
   setter calls it.
   */
  datatype Setting =
    | SetHandle(handle: Option<int>)
    | SetDouble(d: real, boxed: int)
    | SetInt32(i: int, boxed: int)
    | SetUint32(u: int, boxed: int)
    | SetBool(b: bool)
    | SetNull
    | SetUndefined
    | SetEmptyString

  /** Arguments fit their types, and a box holds the number it was made for. */
  predicate Sound(c: Config, heap: Heap, s: Setting) {
    match s
    case SetDouble(d, boxed) => Decode(c, heap, boxed) == Some(Number(d))
    case SetInt32(i, boxed) => IsInt32(i) && (!IsValidSmi(c, i) ==> Decode(c, heap, boxed) == Some(Number(i as real)))
    case SetUint32(u, boxed) =>
      0 <= u < TWO_32 && (u >= TWO_31 || !IsValidSmi(c, u) ==> Decode(c, heap, boxed) == Some(Number(u as real)))
    case _ => true
  }

  /** The value the caller asked for; an empty handle asks for the default. */
  function Meaning(c: Config, heap: Heap, s: Setting, default: int): Option<Value> {
    match s
    case SetHandle(None) => Decode(c, heap, default)
    case SetHandle(Some(word)) => Decode(c, heap, word)
    case SetDouble(d, _) => Some(Number(d))
    case SetInt32(i, _) => Some(Number(i as real))
    case SetUint32(u, _) => Some(Number(u as real))
    case SetBool(b) => Some(Boolean(b))
    case SetNull => Some(Null)
    case SetUndefined => Some(Undefined)
    case SetEmptyString => Some(EmptyString)
  }

  // --- Negative offsets from the return slot ---

  function DefaultOf(args: seq<int>, slot: nat): int
    requires 2 <= slot < |args|
  {
    args[slot - 1]
  }

  function IsolateOf(args: seq<int>, slot: nat): int
    requires 2 <= slot < |args|
  {
    args[slot - 2]
  }

  function WordOfInt32(c: Config, i: int, boxed: int): int {
    if IsValidSmi(c, i) then IntToSmi(c, i) else boxed
  }

  /** The word a setter stores. */
  function Stored(c: Config, heap: Heap, args: seq<int>, slot: nat, s: Setting): int
    requires 2 <= slot < |args| && RootsMeanThemselves(c, heap, IsolateOf(args, slot))
  {
    var roots := heap.roots[IsolateOf(args, slot)];
    match s
    case SetHandle(None) => DefaultOf(args, slot)
    case SetHandle(Some(word)) => word
    case SetDouble(_, boxed) => boxed
    case SetInt32(i, boxed) => WordOfInt32(c, i, boxed)
    case SetUint32(u, boxed) => if u < TWO_31 then WordOfInt32(c, u, boxed) else boxed
    case SetBool(b) => roots[if b then TRUE_VALUE_ROOT else FALSE_VALUE_ROOT]
    case SetNull => roots[NULL_VALUE_ROOT]
    case SetUndefined => roots[UNDEFINED_VALUE_ROOT]
    case SetEmptyString => roots[EMPTY_STRING_ROOT]
  }

  /** Whatever path a setter takes, the stored word decodes to the value asked for. */
  lemma StoredDecodes(c: Config, heap: Heap, args: seq<int>, slot: nat, s: Setting)
    requires c.Valid() && 2 <= slot < |args| && RootsMeanThemselves(c, heap, IsolateOf(args, slot)) && Sound(c, heap, s)
    ensures Decode(c, heap, Stored(c, heap, args, slot, s)) == Meaning(c, heap, s, DefaultOf(args, slot))
  {
    match s
    case SetInt32(i, _) =>
      SmiRoundTrip(c, i);
      SmiIsNoHeapObject(c, i);
    case SetUint32(u, _) =>
      if u < TWO_31 {
        SmiRoundTrip(c, u);
        SmiIsNoHeapObject(c, u);
      }
    case _ =>
  }

  function RunSettings(c: Config, heap: Heap, args: seq<int>, slot: nat, settings: seq<Setting>): (r: seq<int>)
    requires 2 <= slot < |args| && RootsMeanThemselves(c, heap, IsolateOf(args, slot))
    ensures |r| == |args|
    ensures forall k | 0 <= k < |args| && k != slot :: r[k] == args[k]
    decreases |settings|
  {
    if settings == [] then args
    else RunSettings(c, heap, args[slot := Stored(c, heap, args, slot, settings[0])], slot, settings[1..])
  }

  /** After any run of setters only the return slot differs, and it holds the value of the last one. */
  lemma {:induction false} LastSettingWins(c: Config, heap: Heap, args: seq<int>, slot: nat, settings: seq<Setting>)
    requires c.Valid() && 2 <= slot < |args| && RootsMeanThemselves(c, heap, IsolateOf(args, slot))
    requires settings != [] && forall k | 0 <= k < |settings| :: Sound(c, heap, settings[k])
    ensures var r := RunSettings(c, heap, args, slot, settings);
      && (forall k | 0 <= k < |args| && k != slot :: r[k] == args[k])
      && Decode(c, heap, r[slot]) == Meaning(c, heap, settings[|settings| - 1], DefaultOf(args, slot))
    decreases |settings|
  {
    var args' := args[slot := Stored(c, heap, args, slot, settings[0])];
    if |settings| == 1 {
      StoredDecodes(c, heap, args, slot, settings[0]);
      assert RunSettings(c, heap, args', slot, settings[1..]) == args';
    } else {
      LastSettingWins(c, heap, args', slot, settings[1..]);
    }
  }

  // --- In place ---

  class ReturnValue {
    /** `value_` points at `args[slot]`. */
    const args: array<int>
    const slot: nat

    ghost predicate Valid(c: Config, heap: Heap)
      reads args
    {
      c.Valid() && 2 <= slot < args.Length && RootsMeanThemselves(c, heap, IsolateOf(args[..], slot))
    }

    constructor (args: array<int>, slot: nat)
      ensures this.args == args && this.slot == slot
    {
      this.args, this.slot := args, slot;
    }

    function GetIsolate(): int
      requires 2 <= slot < args.Length
      reads args
    {
      args[slot - 2]
    }

    function GetDefaultValue(): int
      requires 2 <= slot < args.Length
      reads args
    {
      args[slot - 1]
    }

    method SetHandle(c: Config, heap: Heap, handle: Option<int>)
      requires Valid(c, heap)
      modifies args
      ensures Valid(c, heap)
      ensures args[..] == old(args[..])[slot := Stored(c, heap, old(args[..]), slot, Setting.SetHandle(handle))]
    {
      if handle.None? {
        args[slot] := GetDefaultValue();
      } else {
        args[slot] := handle.value;
      }
    }

    method SetInt32(c: Config, heap: Heap, i: int, boxed: int)
      requires Valid(c, heap) && Sound(c, heap, Setting.SetInt32(i, boxed))
      modifies args
      ensures Valid(c, heap)
      ensures args[..] == old(args[..])[slot := Stored(c, heap, old(args[..]), slot, Setting.SetInt32(i, boxed))]
    {
      if IsValidSmi(c, i) {
        args[slot] := IntToSmi(c, i);
        return;
      }
      SetHandle(c, heap, Some(boxed));
    }

    method SetUint32(c: Config, heap: Heap, u: int, boxed: int)
      requires Valid(c, heap) && Sound(c, heap, Setting.SetUint32(u, boxed))
      modifies args
      ensures Valid(c, heap)
      ensures args[..] == old(args[..])[slot := Stored(c, heap, old(args[..]), slot, Setting.SetUint32(u, boxed))]
    {
      var fitsIntoInt32 := u / TWO_31 % 2 == 0;
      if fitsIntoInt32 {
        SetInt32(c, heap, u, boxed);
        return;
      }
      SetHandle(c, heap, Some(boxed));
    }

    method SetDouble(c: Config, heap: Heap, d: real, boxed: int)
      requires Valid(c, heap) && Sound(c, heap, Setting.SetDouble(d, boxed))
      modifies args
      ensures Valid(c, heap)
      ensures args[..] == old(args[..])[slot := Stored(c, heap, old(args[..]), slot, Setting.SetDouble(d, boxed))]
    {
      SetHandle(c, heap, Some(boxed));
    }

    method SetRoot(c: Config, heap: Heap, index: nat)
      requires Valid(c, heap) && index <= EMPTY_STRING_ROOT
      modifies args
      ensures Valid(c, heap)
      ensures args[..] == old(args[..])[slot := heap.roots[IsolateOf(old(args[..]), slot)][index]]
    {
      args[slot] := heap.roots[GetIsolate()][index];
    }

    method SetBool(c: Config, heap: Heap, value: bool)
      requires Valid(c, heap)
      modifies args
      ensures Valid(c, heap)
      ensures args[..] == old(args[..])[slot := Stored(c, heap, old(args[..]), slot, Setting.SetBool(value))]
    {
      var rootIndex;
      if value {
        rootIndex := TRUE_VALUE_ROOT;
      } else {
        rootIndex := FALSE_VALUE_ROOT;
      }
      SetRoot(c, heap, rootIndex);
    }

    method SetNull(c: Config, heap: Heap)
      requires Valid(c, heap)
      modifies args
      ensures Valid(c, heap)
      ensures args[..] == old(args[..])[slot := Stored(c, heap, old(args[..]), slot, Setting.SetNull)]
    {
      SetRoot(c, heap, NULL_VALUE_ROOT);
    }

    method SetUndefined(c: Config, heap: Heap)
      requires Valid(c, heap)
      modifies args
      ensures Valid(c, heap)
      ensures args[..] == old(args[..])[slot := Stored(c, heap, old(args[..]), slot, Setting.SetUndefined)]
    {
      SetRoot(c, heap, UNDEFINED_VALUE_ROOT);
    }

    method SetEmptyString(c: Config, heap: Heap)
      requires Valid(c, heap)
      modifies args
      ensures Valid(c, heap)
      ensures args[..] == old(args[..])[slot := Stored(c, heap, old(args[..]), slot, Setting.SetEmptyString)]
    {
      SetRoot(c, heap, EMPTY_STRING_ROOT);
    }

    /** `Get`: a slot never set holds the hole, which reads as undefined. */
    method Get(c: Config, heap: Heap) returns (value: Option<Value>)
      requires Valid(c, heap)
      ensures value == if Decode(c, heap, args[slot]) == Some(TheHole) then Some(Undefined) else Decode(c, heap, args[slot])
    {
      var roots := heap.roots[GetIsolate()];
      if args[slot] == roots[THE_HOLE_VALUE_ROOT] {
        return Decode(c, heap, roots[UNDEFINED_VALUE_ROOT]);
      }
      value := Decode(c, heap, args[slot]);
    }
  }

  class FunctionCallbackInfo {
    const implicitArgs: array<int>

    static const ARGS_LENGTH := 6
    static const ISOLATE_INDEX := 1
    static const RETURN_VALUE_DEFAULT_VALUE_INDEX := 2
    static const RETURN_VALUE_INDEX := 3

    constructor (implicitArgs: array<int>)
      ensures this.implicitArgs == implicitArgs
    {
      this.implicitArgs := implicitArgs;
    }

    function GetIsolate(): int
      requires implicitArgs.Length == ARGS_LENGTH
      reads implicitArgs
    {
      implicitArgs[ISOLATE_INDEX]
    }

    /** The return value finds the isolate and the default value where this class keeps them. */
    method GetReturnValue() returns (r: ReturnValue)
      requires implicitArgs.Length == ARGS_LENGTH
      ensures r.args == implicitArgs && r.slot == 3 && implicitArgs.Length == 6
      ensures r.GetIsolate() == GetIsolate() == implicitArgs[1]
      ensures r.GetDefaultValue() == implicitArgs[RETURN_VALUE_DEFAULT_VALUE_INDEX] == implicitArgs[2]
    {
      r := new ReturnValue(implicitArgs, RETURN_VALUE_INDEX);
    }
  }

  class PropertyCallbackInfo {
    const args: array<int>

    static const ARGS_LENGTH := 7
    static const ISOLATE_INDEX := 2
    static const RETURN_VALUE_DEFAULT_VALUE_INDEX := 3
    static const RETURN_VALUE_INDEX := 4

    constructor (args: array<int>)
      ensures this.args == args
    {
      this.args := args;
    }

    function GetIsolate(): int
      requires args.Length == ARGS_LENGTH
      reads args
    {
      args[ISOLATE_INDEX]
    }

    /** The return value finds the isolate and the default value where this class keeps them. */
    method GetReturnValue() returns (r: ReturnValue)
      requires args.Length == ARGS_LENGTH
      ensures r.args == args && r.slot == 4 && args.Length == 7
      ensures r.GetIsolate() == GetIsolate() == args[2]
      ensures r.GetDefaultValue() == args[RETURN_VALUE_DEFAULT_VALUE_INDEX] == args[3]
    {
      r := new ReturnValue(args, RETURN_VALUE_INDEX);
    }
  }

  ghost predicate FunctionArgs(c: Config, heap: Heap, args: seq<int>) {
    && |args| == FunctionCallbackInfo.ARGS_LENGTH
    && RootsMeanThemselves(c, heap, args[FunctionCallbackInfo.ISOLATE_INDEX])
  }

  ghost predicate PropertyArgs(c: Config, heap: Heap, args: seq<int>) {
    && |args| == PropertyCallbackInfo.ARGS_LENGTH
    && RootsMeanThemselves(c, heap, args[PropertyCallbackInfo.ISOLATE_INDEX])
  }

  /** Both layouts agree with the negative offsets, before and after any run of setters. */
  lemma LayoutsAgree(c: Config, heap: Heap, args: seq<int>, settings: seq<Setting>)
    ensures FunctionArgs(c, heap, args) ==>
      var r := RunSettings(c, heap, args, FunctionCallbackInfo.RETURN_VALUE_INDEX, settings);
      && IsolateOf(r, FunctionCallbackInfo.RETURN_VALUE_INDEX) == args[FunctionCallbackInfo.ISOLATE_INDEX]
      && DefaultOf(r, FunctionCallbackInfo.RETURN_VALUE_INDEX) == args[FunctionCallbackInfo.RETURN_VALUE_DEFAULT_VALUE_INDEX]
    ensures PropertyArgs(c, heap, args) ==>
      var r := RunSettings(c, heap, args, PropertyCallbackInfo.RETURN_VALUE_INDEX, settings);
      && IsolateOf(r, PropertyCallbackInfo.RETURN_VALUE_INDEX) == args[PropertyCallbackInfo.ISOLATE_INDEX]
      && DefaultOf(r, PropertyCallbackInfo.RETURN_VALUE_INDEX) == args[PropertyCallbackInfo.RETURN_VALUE_DEFAULT_VALUE_INDEX]
  {
  }
}
