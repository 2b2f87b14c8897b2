/**
 The fast paths that read heap objects straight from memory: instance types through the map
 word, oddball kinds, internal fields, embedder data and external string resources.  Memory is
 any assignment of bytes to addresses.
 */
module HeapImage {
  import opened DivMod
  import opened Words
  import opened Tagging

  type Memory = int -> Byte

  function ReadBytes(mem: Memory, n: nat, addr: int): (bs: seq<Byte>)
    ensures |bs| == n && forall i | 0 <= i < n :: bs[i] == mem(addr + i)
  {
    seq(n, i requires 0 <= i < n => mem(addr + i))
  }

  /** `ReadRawField<T>` with `sizeof(T) == n`; `obj` carries the heap object tag. */
  function ReadRawField(mem: Memory, n: nat, obj: int, offset: nat): nat {
    Le(ReadBytes(mem, n, obj + offset - 1))
  }

  /** Memory holds the `n` bytes of a word from this address on, lowest first. */
  ghost predicate Holds(mem: Memory, addr: int, n: nat, w: nat) {
    w < Pow256(n) && forall i | 0 <= i < n :: mem(addr + i) == Bytes(n, w)[i]
  }

  /** A read finds exactly what memory holds at the address without the tag. */
  lemma ReadExactly(mem: Memory, n: nat, obj: int, offset: nat, w: nat)
    ensures Holds(mem, obj - 1 + offset, n, w) <==> ReadRawField(mem, n, obj, offset) == w
  {
    var bs := ReadBytes(mem, n, obj + offset - 1);
    if Holds(mem, obj - 1 + offset, n, w) {
      assert bs == Bytes(n, w);
      LeOfBytes(n, w);
    }
    if ReadRawField(mem, n, obj, offset) == w {
      LeBound(bs);
      BytesOfLe(bs);
    }
  }

  lemma ReadBound(mem: Memory, n: nat, obj: int, offset: nat)
    ensures ReadRawField(mem, n, obj, offset) < Pow256(n)
    ensures Pow256(4) == TWO_32 && Pow256(8) == TWO_64 && Pow256(2) == 0x1_0000
  {
    LeBound(ReadBytes(mem, n, obj + offset - 1));
    Pow256Values();
  }

  /** The low half of a wide field is what a 32-bit read of the same place finds. */
  lemma LowHalf(mem: Memory, obj: int, offset: nat)
    ensures ReadRawField(mem, 8, obj, offset) % TWO_32 == ReadRawField(mem, 4, obj, offset)
  {
    var bs := ReadBytes(mem, 8, obj + offset - 1);
    LePrefix(bs, 4);
    Pow256Values();
    assert bs[..4] == ReadBytes(mem, 4, obj + offset - 1);
  }

  function ReadTaggedPointerField(c: Config, mem: Memory, obj: int, offset: nat): int
    requires IsAddress(c, obj) && c.Valid()
  {
    if c.compressed
    then ReadBound(mem, 4, obj, offset); Decompress(obj, ReadRawField(mem, 4, obj, offset))
    else ReadRawField(mem, c.PointerSize(), obj, offset)
  }

  function ReadTaggedSignedField(c: Config, mem: Memory, obj: int, offset: nat): int {
    ReadRawField(mem, c.TaggedSize(), obj, offset)
  }

  // --- Layout constants ---

  const HEAP_OBJECT_MAP_OFFSET := 0
  function MapInstanceTypeOffset(c: Config): nat { 1 * c.TaggedSize() + 4 }
  function StringResourceOffset(c: Config): nat { 1 * c.TaggedSize() + 2 * 4 }
  function OddballKindOffset(c: Config): nat { 4 * c.TaggedSize() + 8 }
  function JSObjectHeaderSize(c: Config): nat { 3 * c.TaggedSize() }
  function EmbedderDataArrayHeaderSize(c: Config): nat { 2 * c.TaggedSize() }
  function NativeContextEmbedderDataOffset(c: Config): nat { 6 * c.TaggedSize() }

  const FIRST_NONSTRING_TYPE := 0x80
  const ODDBALL_TYPE := 0x83
  const UNDEFINED_ODDBALL_KIND := 5
  const NULL_ODDBALL_KIND := 3
  const STRING_REPRESENTATION_AND_ENCODING := 0x10
  const STRING_ENCODING_MASK := 0x8
  const EXTERNAL_TWO_BYTE := 0x02
  const EXTERNAL_ONE_BYTE := 0x0a

  // --- Instance types ---

  /** `mapword ^ 0b11` */
  function UnpackMapWord(mapword: int): int { mapword - mapword % 4 + (3 - mapword % 4) }

  function GetInstanceType(c: Config, mem: Memory, obj: int): int
    requires IsAddress(c, obj) && c.Valid()
  {
    var word := ReadTaggedPointerField(c, mem, obj, HEAP_OBJECT_MAP_OFFSET);
    var m := if c.mapPacking then UnpackMapWord(word) else word;
    ReadRawField(mem, 2, m, MapInstanceTypeOffset(c))
  }

  function GetOddballKind(c: Config, mem: Memory, obj: int): int {
    SmiValue(c, ReadTaggedSignedField(c, mem, obj, OddballKindOffset(c)))
  }

  predicate QuickIsUndefined(c: Config, mem: Memory, obj: int)
    requires IsAddress(c, obj) && c.Valid()
  {
    if !HasHeapObjectTag(obj) then false
    else if GetInstanceType(c, mem, obj) != ODDBALL_TYPE then false
    else GetOddballKind(c, mem, obj) == UNDEFINED_ODDBALL_KIND
  }

  predicate QuickIsNull(c: Config, mem: Memory, obj: int)
    requires IsAddress(c, obj) && c.Valid()
  {
    if !HasHeapObjectTag(obj) then false
    else if GetInstanceType(c, mem, obj) != ODDBALL_TYPE then false
    else GetOddballKind(c, mem, obj) == NULL_ODDBALL_KIND
  }

  predicate QuickIsNullOrUndefined(c: Config, mem: Memory, obj: int)
    requires IsAddress(c, obj) && c.Valid()
  {
    if !HasHeapObjectTag(obj) then false
    else if GetInstanceType(c, mem, obj) != ODDBALL_TYPE then false
    else
      var kind := GetOddballKind(c, mem, obj);
      kind == NULL_ODDBALL_KIND || kind == UNDEFINED_ODDBALL_KIND
  }

  predicate QuickIsString(c: Config, mem: Memory, obj: int)
    requires IsAddress(c, obj) && c.Valid()
  {
    HasHeapObjectTag(obj) && GetInstanceType(c, mem, obj) < FIRST_NONSTRING_TYPE
  }

  /** In any memory whatever, even one no heap would produce. */
  lemma QuickTestsAgree(c: Config, mem: Memory, obj: int)
    requires IsAddress(c, obj) && c.Valid()
    ensures QuickIsNullOrUndefined(c, mem, obj) <==> QuickIsNull(c, mem, obj) || QuickIsUndefined(c, mem, obj)
    ensures !(QuickIsNull(c, mem, obj) && QuickIsUndefined(c, mem, obj))
    ensures QuickIsString(c, mem, obj) ==> !QuickIsNullOrUndefined(c, mem, obj)
  {
  }

  lemma QuickTestsRejectSmis(c: Config, mem: Memory, v: int)
    requires c.Valid() && IsInt32(v)
    ensures !QuickIsNullOrUndefined(c, mem, IntToSmi(c, v)) && !QuickIsString(c, mem, IntToSmi(c, v))
  {
    SmiIsNoHeapObject(c, v);
  }

  // --- Against the heap that the memory stands for ---

  /** What the fast paths can tell about a heap object. */
  datatype Object = Object(instanceType: int, kind: int)

  /** `stored` is held in the tagged field at this address: four bytes, of its low half if pointers are compressed, or eight. */
  ghost predicate TaggedField(c: Config, mem: Memory, addr: int, stored: int) {
    && 0 <= stored
    && if c.compressed then Holds(mem, addr, 4, stored % 0x1_0000_0000)
       else Holds(mem, addr, if c.wide then 8 else 4, stored)
  }

  lemma TaggedRead(c: Config, mem: Memory, obj: int, offset: nat, stored: int)
    requires c.Valid() && TaggedField(c, mem, obj - 1 + offset, stored)
    ensures ReadRawField(mem, c.TaggedSize(), obj, offset) == if c.compressed then Compress(stored) else stored
  {
    ReadExactly(mem, c.TaggedSize(), obj, offset, if c.compressed then Compress(stored) else stored);
  }

  /** The map word is stored with its two low bits inverted when maps are packed. */
  function PackMapWord(c: Config, m: int): int { if c.mapPacking then UnpackMapWord(m) else m }

  /** The size of a tagged field in bytes. */
  function Tagged(c: Config): nat { if c.wide && !c.compressed then 8 else 4 }

  /**
   `o` occupies the bytes from `obj - 1` on, and its map those from `m - 1` on, tagged addresses of
   heap objects, in one cage if pointers are compressed.  First comes the map word, packed or not;
   the type is four bytes behind the first tagged field of the map, the kind of an oddball eight
   behind four of its own.
   */
  ghost predicate LaidOut(c: Config, mem: Memory, obj: int, m: int, o: Object) {
    && IsAddress(c, obj) && IsAddress(c, m) && obj % 4 == 1 && m % 4 == 1
    && (c.compressed ==> obj / 0x1_0000_0000 == m / 0x1_0000_0000)
    && TaggedField(c, mem, obj - 1, if c.mapPacking then m + 1 else m)
    && 0 <= o.instanceType && Holds(mem, m - 1 + Tagged(c) + 4, 2, o.instanceType)
    && (o.instanceType == 0x83 ==>
          && IsInt32(o.kind) && IsValidSmi(c, o.kind)
          && TaggedField(c, mem, obj - 1 + 4 * Tagged(c) + 8, IntToSmi(c, o.kind)))
  }

  lemma Unpacking(m: int)
    requires m % 4 == 1
    ensures UnpackMapWord(m) == m + 1 && (m + 1) % 4 == 2 && UnpackMapWord(m + 1) == m
    ensures CageBase(m + 1) == CageBase(m)
  {
    ModIs(m + 1, 4, m / 4, 2);
    var r := m % TWO_32;
    ModIs(r, 4, m / 4 - m / TWO_32 * 0x4000_0000, 1);
    ModIs(m + 1, TWO_32, m / TWO_32, r + 1);
  }

  lemma PackingRoundTrip(c: Config, obj: int, m: int)
    requires IsAddress(c, m) && HasHeapObjectTag(m)
    ensures IsAddress(c, PackMapWord(c, m))
    ensures SameCage(obj, m) <==> SameCage(obj, PackMapWord(c, m))
    ensures (if c.mapPacking then UnpackMapWord(PackMapWord(c, m)) else PackMapWord(c, m)) == m
    ensures c.mapPacking ==> PackMapWord(c, m) % 4 == 2
  {
    Unpacking(m);
  }

  lemma MapFound(c: Config, mem: Memory, obj: int, m: int, o: Object)
    requires c.Valid() && LaidOut(c, mem, obj, m, o)
    ensures ReadTaggedPointerField(c, mem, obj, HEAP_OBJECT_MAP_OFFSET) == PackMapWord(c, m)
  {
    Unpacking(m);
    PackingRoundTrip(c, obj, m);
    TaggedRead(c, mem, obj, HEAP_OBJECT_MAP_OFFSET, PackMapWord(c, m));
    if c.compressed { CompressionRoundTrip(obj, PackMapWord(c, m)); }
  }

  lemma KindFound(c: Config, mem: Memory, obj: int, kind: int)
    requires c.Valid() && IsInt32(kind) && IsValidSmi(c, kind)
    requires TaggedField(c, mem, obj - 1 + 4 * Tagged(c) + 8, IntToSmi(c, kind))
    ensures GetOddballKind(c, mem, obj) == kind
  {
    TaggedRead(c, mem, obj, OddballKindOffset(c), IntToSmi(c, kind));
    SmiRoundTrip(c, kind);
    if c.compressed { ShortSmi(c, kind); }
  }

  /** The map word is found through compression and packing, and the kind through its Smi. */
  lemma ReadsFindObject(c: Config, mem: Memory, obj: int, m: int, o: Object)
    requires c.Valid() && LaidOut(c, mem, obj, m, o)
    ensures GetInstanceType(c, mem, obj) == o.instanceType
    ensures o.instanceType == 0x83 ==> GetOddballKind(c, mem, obj) == o.kind
  {
    MapFound(c, mem, obj, m, o);
    PackingRoundTrip(c, obj, m);
    ReadExactly(mem, 2, m, MapInstanceTypeOffset(c), o.instanceType);
    if o.instanceType == 0x83 { KindFound(c, mem, obj, o.kind); }
  }

  /** In every configuration the fast tests decide exactly the type and kind of the object laid out. */
  lemma QuickTestsDecide(c: Config, mem: Memory, obj: int, m: int, o: Object)
    requires c.Valid() && LaidOut(c, mem, obj, m, o)
    ensures QuickIsUndefined(c, mem, obj) <==> o.instanceType == 0x83 && o.kind == 5
    ensures QuickIsNull(c, mem, obj) <==> o.instanceType == 0x83 && o.kind == 3
    ensures QuickIsNullOrUndefined(c, mem, obj) <==> o.instanceType == 0x83 && (o.kind == 3 || o.kind == 5)
    ensures QuickIsString(c, mem, obj) <==> o.instanceType < 0x80
  {
    ReadsFindObject(c, mem, obj, m, o);
  }

  // --- Embedder slots ---

  /** The read of a full slot followed by unconditional decompression against its holder. */
  function ReadSlot(c: Config, mem: Memory, holder: int, offset: nat): int
    requires IsAddress(c, holder) && c.Valid()
  {
    var value := ReadRawField(mem, c.PointerSize(), holder, offset);
    if c.compressed then Decompress(holder, Compress(value)) else value
  }

  /** `Context::GetEmbedderData`, up to the handle it creates. */
  function GetEmbedderData(c: Config, mem: Memory, ctx: int, index: nat): int
    requires IsAddress(c, ctx) && c.Valid()
  {
    var embedderData := ReadTaggedPointerField(c, mem, ctx, NativeContextEmbedderDataOffset(c));
    ReadBound(mem, c.PointerSize(), ctx, NativeContextEmbedderDataOffset(c));
    ReadSlot(c, mem, embedderData, EmbedderDataArrayHeaderSize(c) + c.PointerSize() * index)
  }

  /** The fast path of `Object::GetInternalField`, up to the handle it creates. */
  function GetInternalField(c: Config, mem: Memory, obj: int, index: nat): int
    requires IsAddress(c, obj) && c.Valid()
  {
    ReadSlot(c, mem, obj, JSObjectHeaderSize(c) + c.PointerSize() * index)
  }

  /** A tagged value that may be stored in a holder: an object of its cage or a small integer. */
  ghost predicate Storable(c: Config, holder: int, value: int) {
    IsAddress(c, value) && (c.compressed ==> SameCage(value, holder))
  }

  /** A slot whose tagged part holds `value` reads back as it, whatever the rest of the slot holds. */
  lemma SlotRoundTrip(c: Config, mem: Memory, holder: int, offset: nat, value: int)
    requires c.Valid() && IsAddress(c, holder) && IsAddress(c, value)
    requires TaggedField(c, mem, holder - 1 + offset, value)
    ensures ReadSlot(c, mem, holder, offset) == value <==> Storable(c, holder, value)
  {
    TaggedRead(c, mem, holder, offset, value);
    if c.compressed {
      LowHalf(mem, holder, offset);
      CompressionRoundTrip(holder, value);
    }
  }

  /** Internal fields are pointer-sized and lie behind three tagged fields of the object. */
  lemma InternalFieldRoundTrip(c: Config, mem: Memory, obj: int, index: nat, value: int)
    requires c.Valid() && IsAddress(c, obj) && IsAddress(c, value)
    requires TaggedField(c, mem, obj - 1 + 3 * Tagged(c) + (if c.wide then 8 else 4) * index, value)
    ensures GetInternalField(c, mem, obj, index) == value <==> Storable(c, obj, value)
  {
    SlotRoundTrip(c, mem, obj, JSObjectHeaderSize(c) + c.PointerSize() * index, value);
  }

  /**
   The sixth tagged field of a context is an array whose pointer-sized slots lie behind two tagged
   fields: the value reads back through both exactly if the array may hold it.
   */
  lemma EmbedderDataRoundTrip(c: Config, mem: Memory, ctx: int, embedderData: int, index: nat, value: int)
    requires c.Valid() && IsAddress(c, ctx) && IsAddress(c, value) && Storable(c, ctx, embedderData)
    requires TaggedField(c, mem, ctx - 1 + 6 * Tagged(c), embedderData)
    requires TaggedField(c, mem, embedderData - 1 + 2 * Tagged(c) + (if c.wide then 8 else 4) * index, value)
    ensures GetEmbedderData(c, mem, ctx, index) == value <==> Storable(c, embedderData, value)
  {
    TaggedRead(c, mem, ctx, NativeContextEmbedderDataOffset(c), embedderData);
    if c.compressed { CompressionRoundTrip(ctx, embedderData); }
    SlotRoundTrip(c, mem, embedderData, EmbedderDataArrayHeaderSize(c) + c.PointerSize() * index, value);
  }

  /** An integer read through either path decodes to itself exactly if it is a valid Smi. */
  lemma SmiInSlot(c: Config, mem: Memory, holder: int, offset: nat, v: int)
    requires c.Valid() && IsAddress(c, holder) && IsInt32(v)
    requires TaggedField(c, mem, holder - 1 + offset, IntToSmi(c, v))
    ensures SmiValue(c, ReadSlot(c, mem, holder, offset)) == v <==> IsValidSmi(c, v)
  {
    TaggedRead(c, mem, holder, offset, IntToSmi(c, v));
    if c.compressed {
      LowHalf(mem, holder, offset);
      SmiSurvivesDecompression(c, holder, v);
    } else {
      SmiRoundTrip(c, v);
    }
  }

  // --- External strings ---

  datatype Resource = Field(value: int) | Slow

  predicate IsExternalTwoByteString(instanceType: int) {
    instanceType % STRING_REPRESENTATION_AND_ENCODING == EXTERNAL_TWO_BYTE
  }

  function ResourceField(c: Config, mem: Memory, obj: int): Resource {
    Field(ReadRawField(mem, c.PointerSize(), obj, StringResourceOffset(c)))
  }

  function GetExternalStringResource(c: Config, mem: Memory, obj: int): Resource
    requires IsAddress(c, obj) && c.Valid()
  {
    if IsExternalTwoByteString(GetInstanceType(c, mem, obj)) then ResourceField(c, mem, obj) else Slow
  }

  /** The resource, and the encoding reported before any slow path. */
  function GetExternalStringResourceBase(c: Config, mem: Memory, obj: int): (Resource, int)
    requires IsAddress(c, obj) && c.Valid()
  {
    var kind := GetInstanceType(c, mem, obj) % STRING_REPRESENTATION_AND_ENCODING;
    (if kind == EXTERNAL_ONE_BYTE || kind == EXTERNAL_TWO_BYTE then ResourceField(c, mem, obj) else Slow,
     if kind >= STRING_ENCODING_MASK then STRING_ENCODING_MASK else 0)
  }

  /**
   `GetExternalStringResource` takes its fast path exactly when the base version does and reports
   two bytes; both then read the same word, and an external one-byte string never gets there.
   */
  lemma ExternalStringPathsAgree(c: Config, mem: Memory, obj: int)
    requires IsAddress(c, obj) && c.Valid()
    ensures var r := GetExternalStringResource(c, mem, obj); var base := GetExternalStringResourceBase(c, mem, obj);
      && (r.Field? <==> base.0.Field? && base.1 == 0)
      && (r.Field? ==> base.0 == r)
      && (base.0.Field? && base.1 != 0 <==>
            GetInstanceType(c, mem, obj) % STRING_REPRESENTATION_AND_ENCODING == EXTERNAL_ONE_BYTE)
  {
  }

  /**
   Of a string laid out in memory, the fast path returns the pointer-sized word eight bytes behind the
   first tagged field, exactly if the low four bits of its type are those of an external two-byte string.
   */
  lemma ExternalStringRead(c: Config, mem: Memory, obj: int, m: int, o: Object, resource: nat)
    requires c.Valid() && LaidOut(c, mem, obj, m, o) && Holds(mem, obj - 1 + Tagged(c) + 8, if c.wide then 8 else 4, resource)
    ensures GetExternalStringResource(c, mem, obj) == if o.instanceType % 16 == 2 then Field(resource) else Slow
    ensures GetExternalStringResourceBase(c, mem, obj).0 == if o.instanceType % 16 in {2, 10} then Field(resource) else Slow
    ensures GetExternalStringResourceBase(c, mem, obj).1 == if o.instanceType / 8 % 2 == 1 then 8 else 0
  {
    ReadsFindObject(c, mem, obj, m, o);
    ReadExactly(mem, c.PointerSize(), obj, StringResourceOffset(c), resource);
  }
}
