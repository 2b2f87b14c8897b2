/** The type tags that v8-internal.h ORs into external pointers and strips when they are loaded. */
module ExternalPointerTags {

  const ADDRESS_BITS: bv64 := 0x0000_ffff_ffff_ffff
  const TYPE_BITS: bv64 := 0x7fff_0000_0000_0000
  const MARK_BIT: bv64 := 0x8000_0000_0000_0000

  datatype Tag =
    | NullTag
    | FreeEntryTag
    | ExternalStringResourceTag
    | ExternalStringResourceDataTag
    | ForeignForeignAddressTag
    | NativeContextMicrotaskQueueTag
    | EmbedderDataSlotPayloadTag
    | CodeEntryPointTag
    | ExternalObjectValueTag

  /** `MAKE_TAG` */
  function MakeTag(v: bv64): bv64 { v << 48 }

  function Value(tag: Tag): bv64 {
    match tag
    case NullTag => MakeTag(0)
    case FreeEntryTag => MakeTag(0x7f80)
    case ExternalStringResourceTag => MakeTag(0x80ff)
    case ExternalStringResourceDataTag => MakeTag(0x817f)
    case ForeignForeignAddressTag => MakeTag(0x81bf)
    case NativeContextMicrotaskQueueTag => MakeTag(0x81df)
    case EmbedderDataSlotPayloadTag => MakeTag(0x81ef)
    case CodeEntryPointTag => MakeTag(0x81f7)
    case ExternalObjectValueTag => MakeTag(0x81fb)
  }

  function Store(address: bv64, tag: bv64): bv64 { address | tag }

  /** The collector clears the mark of an entry until it finds it alive again. */
  function Unmark(entry: bv64): bv64 { entry & !MARK_BIT }

  function Load(entry: bv64, tag: bv64): bv64 { entry & !tag }

  predicate IsAddress48(address: bv64) { address & !ADDRESS_BITS == 0 }

  /** The bits the program can see of a pointer loaded with the wrong type. */
  predicate Inaccessible(pointer: bv64) { pointer & TYPE_BITS != 0 }

  /**
   For any two words used as tags: a pointer stored under one and loaded under the other is
   inaccessible whatever its address, exactly when some type bit of the first is not in the second.
   */
  lemma MismatchExact(t: bv64, u: bv64)
    requires t & ADDRESS_BITS == 0 && u & ADDRESS_BITS == 0
    ensures (forall a: bv64 | IsAddress48(a) :: Inaccessible(Load(Store(a, t), u))) <==> t & !u & TYPE_BITS != 0
  {
    forall a: bv64 | IsAddress48(a)
      ensures Inaccessible(Load(Store(a, t), u)) <==> t & !u & TYPE_BITS != 0
    {
      AddressHasNoTypeBits(a, t, u);
    }
    assert IsAddress48(0);
  }

  lemma AddressHasNoTypeBits(a: bv64, t: bv64, u: bv64)
    requires a & !ADDRESS_BITS == 0
    ensures (a | t) & !u & TYPE_BITS == t & !u & TYPE_BITS
  {
  }

  /** No tag but the null tag has its type bits inside another's. */
  lemma TagsAreAnAntichain(t: Tag, u: Tag)
    requires t != u && !t.NullTag?
    ensures Value(t) & !Value(u) & TYPE_BITS != 0
  {
  }

  lemma TagWords()
    ensures Value(NullTag) == 0 && Value(FreeEntryTag) == 0x7f80_0000_0000_0000
    ensures Value(ExternalStringResourceTag) == 0x80ff_0000_0000_0000
    ensures Value(ExternalStringResourceDataTag) == 0x817f_0000_0000_0000
    ensures Value(ForeignForeignAddressTag) == 0x81bf_0000_0000_0000
    ensures Value(NativeContextMicrotaskQueueTag) == 0x81df_0000_0000_0000
    ensures Value(EmbedderDataSlotPayloadTag) == 0x81ef_0000_0000_0000
    ensures Value(CodeEntryPointTag) == 0x81f7_0000_0000_0000
    ensures Value(ExternalObjectValueTag) == 0x81fb_0000_0000_0000
  {
  }

  lemma TagsLeaveAddressesAlone(t: Tag)
    ensures Value(t) & ADDRESS_BITS == 0
    ensures Value(t) & MARK_BIT != 0 <==> !t.NullTag? && !t.FreeEntryTag?
  {
  }

  /**
   The type check: a 48-bit address stored under a tag comes back under the same tag, marked or
   not, and is inaccessible under any other; only what was stored under the null tag comes back
   under every tag.
   */
  lemma TypeCheck(a: bv64, t: Tag, u: Tag)
    requires IsAddress48(a)
    ensures t == u || t.NullTag? ==> Load(Store(a, Value(t)), Value(u)) == a && Load(Unmark(Store(a, Value(t))), Value(u)) == a
    ensures t != u && !t.NullTag? ==> Inaccessible(Load(Store(a, Value(t)), Value(u)))
    ensures t != u && !t.NullTag? ==> Inaccessible(Load(Unmark(Store(a, Value(t))), Value(u)))
  {
    TagsLeaveAddressesAlone(t);
    TagsLeaveAddressesAlone(u);
    if t == u {
      SameTag(a, Value(t));
    } else if t.NullTag? {
      Untagged(a, Value(u));
    } else {
      TagsAreAnAntichain(t, u);
      WrongTag(a, Value(t), Value(u));
    }
  }

  lemma SameTag(a: bv64, t: bv64)
    requires IsAddress48(a) && t & ADDRESS_BITS == 0
    ensures Load(Store(a, t), t) == a && Load(Unmark(Store(a, t)), t) == a
  {
    Disjoint(a, t);
    Strip(a, t);
    LoadUnmarked(Store(a, t), t);
    Unmarked(a);
  }

  lemma Disjoint(a: bv64, t: bv64)
    requires IsAddress48(a) && t & ADDRESS_BITS == 0
    ensures a & t == 0
  {
  }

  lemma Strip(a: bv64, t: bv64)
    requires a & t == 0
    ensures Load(Store(a, t), t) == a
  {
  }

  lemma Kept(a: bv64, t: bv64)
    requires a & t == 0
    ensures Load(a, t) == a
  {
  }

  lemma LoadUnmarked(e: bv64, t: bv64)
    ensures Load(Unmark(e), t) == Unmark(Load(e, t))
  {
  }

  lemma Unmarked(a: bv64)
    requires IsAddress48(a)
    ensures Unmark(a) == a
  {
  }

  lemma WrongTag(a: bv64, t: bv64, u: bv64)
    requires IsAddress48(a) && t & !u & TYPE_BITS != 0
    ensures Inaccessible(Load(Store(a, t), u)) && Inaccessible(Load(Unmark(Store(a, t)), u))
  {
    AddressHasNoTypeBits(a, t, u);
    MarkIsNoTypeBit(a | t, u);
  }

  lemma MarkIsNoTypeBit(e: bv64, u: bv64)
    ensures Unmark(e) & !u & TYPE_BITS == e & !u & TYPE_BITS
  {
  }

  lemma Untagged(a: bv64, u: bv64)
    requires IsAddress48(a) && u & ADDRESS_BITS == 0
    ensures Load(Store(a, 0), u) == a && Load(Unmark(Store(a, 0)), u) == a
  {
    assert Store(a, 0) == a by { assert a | 0 == a; }
    Disjoint(a, u);
    Kept(a, u);
    Unmarked(a);
  }
}
