/**
 Tagged words of v8-internal.h: small integers, heap-object tags and cage compression, for
 every configuration the header can be compiled in.  Addresses are integers below two to the
 word width, and each cast of the source is written out.
 */
module Tagging {
  import opened DivMod

  const TWO_31: int := 0x8000_0000
  const TWO_32: int := 0x1_0000_0000
  const TWO_63: int := 0x8000_0000_0000_0000
  const TWO_64: int := 0x1_0000_0000_0000_0000

  /** Pointer size, `V8_COMPRESS_POINTERS`, `V8_31BIT_SMIS_ON_64BIT_ARCH` and `V8_MAP_PACKING`. */
  datatype Config = Config(wide: bool, compressed: bool, smi31: bool, mapPacking: bool) {
    /** The static assertion of the header, and the architecture the second switch is named after. */
    predicate Valid() { compressed || smi31 ==> wide }

    function PointerSize(): nat { if wide then 8 else 4 }

    function TaggedSize(): nat { if compressed then 4 else PointerSize() }

    /** `PlatformSmiTagging` is `SmiTagging<4>`. */
    predicate ShortSmis() { smi31 || TaggedSize() == 4 }
  }

  predicate IsAddress(c: Config, a: int) { 0 <= a < (if c.wide then TWO_64 else TWO_32) }

  predicate IsIntptr(c: Config, v: int) {
    if c.wide then -TWO_63 <= v < TWO_63 else -TWO_31 <= v < TWO_31
  }

  predicate IsInt32(v: int) { -TWO_31 <= v < TWO_31 }

  /** `static_cast<int32_t>(static_cast<uint32_t>(value))` */
  function ToInt32(value: int): int {
    var u := value % TWO_32;
    if u < TWO_31 then u else u - TWO_32
  }

  /** `static_cast<intptr_t>(value)` on a 64-bit word */
  function ToInt64(value: int): int {
    var u := value % TWO_64;
    if u < TWO_63 then u else u - TWO_64
  }

  /** `static_cast<uintptr_t>(value)` */
  function ToAddress(c: Config, value: int): (a: int)
    ensures IsAddress(c, a)
  {
    if c.wide then value % TWO_64 else value % TWO_32
  }

  // --- Small integers ---

  /** `SmiTagging<4>::SmiToInt`: truncate, then shift down with the sign. */
  function SmiToInt4(value: int): int { ToInt32(value) / 2 }

  /** `SmiTagging<8>::SmiToInt`: shift down by 32 with the sign. */
  function SmiToInt8(value: int): int { ToInt32(ToInt64(value) / TWO_32) }

  function SmiValue(c: Config, value: int): int {
    if c.ShortSmis() then SmiToInt4(value) else SmiToInt8(value)
  }

  function IntToSmi(c: Config, value: int): int {
    ToAddress(c, ToAddress(c, value) * (if c.ShortSmis() then 2 else TWO_32))
  }

  const SMI4_MIN: int := -0x4000_0000
  const SMI4_MAX: int := 0x3fff_ffff

  /** `SmiTagging<4>::IsValidSmi`: one unsigned comparison of wrapped differences. */
  predicate IsValidSmi4(c: Config, value: int) {
    ToAddress(c, ToAddress(c, value) - ToAddress(c, SMI4_MIN))
      <= ToAddress(c, ToAddress(c, SMI4_MAX) - ToAddress(c, SMI4_MIN))
  }

  predicate IsValidSmi8(value: int) { value == ToInt32(value) }

  predicate IsValidSmi(c: Config, value: int) {
    if c.ShortSmis() then IsValidSmi4(c, value) else IsValidSmi8(value)
  }

  /** `(value & kHeapObjectTagMask) == kHeapObjectTag` */
  predicate HasHeapObjectTag(value: int) { value % 4 == 1 }

  /** The wrapping comparison is the signed range test, for every `intptr_t`. */
  lemma ValidSmiIsRange(c: Config, v: int)
    requires IsIntptr(c, v)
    ensures IsValidSmi4(c, v) <==> SMI4_MIN <= v <= SMI4_MAX
    ensures IsValidSmi8(v) <==> IsInt32(v)
    ensures c.wide && !c.compressed && !c.smi31 ==> (IsValidSmi(c, v) <==> -0x8000_0000 <= v < 0x8000_0000)
    ensures !c.wide || c.compressed || c.smi31 ==> (IsValidSmi(c, v) <==> -0x4000_0000 <= v < 0x4000_0000)
  {
  }

  /** Encoding and decoding an `int` gives it back exactly when it is a valid Smi. */
  lemma SmiRoundTrip(c: Config, v: int)
    requires c.Valid() && IsInt32(v)
    ensures SmiValue(c, IntToSmi(c, v)) == v <==> IsValidSmi(c, v)
  {
    ValidSmiIsRange(c, v);
    if c.ShortSmis() {
      ShortSmi(c, v);
    } else {
      LongSmi(v);
    }
  }

  /** The encoded word: the integer shifted by 32 bits if Smis are that wide, otherwise by one, as an address. */
  lemma SmiWords(c: Config, v: int)
    requires c.Valid()
    ensures c.wide && !c.compressed && !c.smi31 ==> IntToSmi(c, v) == v * 0x1_0000_0000 % 0x1_0000_0000_0000_0000
    ensures c.wide && (c.compressed || c.smi31) ==> IntToSmi(c, v) == v * 2 % 0x1_0000_0000_0000_0000
    ensures !c.wide ==> IntToSmi(c, v) == v * 2 % 0x1_0000_0000
  {
    ScaledWord(v, if c.ShortSmis() then 2 else TWO_32, if c.wide then TWO_64 else TWO_32);
  }

  lemma ScaledWord(v: int, k: int, size: int)
    requires size > 0
    ensures v % size * k % size == v * k % size
  {
    DivIs(v, size);
    var q := v / size;
    assert v % size * k == (v - size * q) * k == v * k + size * (-q * k);
    ModShift(v * k, size, -q * k);
  }

  lemma SmallInt32(v: int)
    requires IsInt32(v)
    ensures ToInt32(v) == v
  {
    if v < 0 { ModIs(v, TWO_32, -1, v + TWO_32); } else { ModIs(v, TWO_32, 0, v); }
  }

  /** Casts and wrapping add multiples of two to the thirty-two. */
  lemma ShortSmiWord(c: Config, v: int)
    requires c.ShortSmis()
    ensures IntToSmi(c, v) % TWO_32 == (2 * v) % TWO_32
    ensures IntToSmi(c, v) % 2 == 0
  {
    if c.wide {
      DoubledWord(v, TWO_64, TWO_32);
    } else {
      DoubledWord(v, TWO_32, 1);
    }
  }

  lemma DoubledWord(v: int, size: int, n: int)
    requires n > 0 && size == TWO_32 * n
    ensures (v % size) * 2 % size % TWO_32 == (2 * v) % TWO_32
    ensures (v % size) * 2 % size % 2 == 0
  {
    var p, q := v / size, v % size * 2 / size;
    DivIs(v, size);
    DivIs(v % size * 2, size);
    var word := v % size * 2 % size;
    calc {
      word;
      (v - size * p) * 2 - size * q;
      2 * v - size * (2 * p + q);
      2 * v + TWO_32 * (-n * (2 * p + q));
    }
    ModShift(2 * v, TWO_32, -n * (2 * p + q));
    ModIs(word, 2, v + 0x8000_0000 * (-n * (2 * p + q)), 0);
  }

  lemma ShortSmi(c: Config, v: int)
    requires c.ShortSmis() && IsInt32(v)
    ensures IntToSmi(c, v) % TWO_32 == (2 * v) % TWO_32
    ensures IntToSmi(c, v) % 2 == 0
    ensures SmiToInt4(IntToSmi(c, v)) == v <==> SMI4_MIN <= v <= SMI4_MAX
  {
    ShortSmiWord(c, v);
    if 2 * v < -TWO_31 {
      ModIs(2 * v, TWO_32, -1, 2 * v + TWO_32);
    } else if 2 * v >= TWO_31 {
      ModIs(2 * v, TWO_32, 0, 2 * v);
    } else {
      SmallInt32(2 * v);
    }
  }

  lemma LongSmi(v: int)
    requires IsInt32(v)
    ensures SmiToInt8((v % TWO_64) * TWO_32 % TWO_64) == v
    ensures (v % TWO_64) * TWO_32 % TWO_64 % 4 == 0
  {
    if v < 0 {
      ModIs(v, TWO_64, -1, v + TWO_64);
      ModIs((v + TWO_64) * TWO_32, TWO_64, TWO_32 - 1, v * TWO_32 + TWO_64);
      HighHalf(v, v * TWO_32 + TWO_64);
    } else {
      ModIs(v, TWO_64, 0, v);
      ModIs(v * TWO_32, TWO_64, 0, v * TWO_32);
      HighHalf(v, v * TWO_32);
    }
  }

  lemma HighHalf(v: int, word: int)
    requires IsInt32(v) && word == (if v < 0 then v * TWO_32 + TWO_64 else v * TWO_32)
    ensures SmiToInt8(word) == v && word % 4 == 0
  {
    ModIs(word, TWO_64, 0, word);
    ModIs(v * TWO_32, TWO_32, v, 0);
    SmallInt32(v);
    ModIs(word, 4, if v < 0 then v * 0x4000_0000 + 0x4000_0000_0000_0000 else v * 0x4000_0000, 0);
  }

  /** No encoded integer, valid or not, looks like a heap object. */
  lemma SmiIsNoHeapObject(c: Config, v: int)
    requires c.Valid() && IsInt32(v)
    ensures !HasHeapObjectTag(IntToSmi(c, v))
  {
    if c.ShortSmis() { ShortSmi(c, v); } else { LongSmi(v); }
  }

  // --- The pointer compression cage ---

  /** `addr & -kPtrComprCageBaseAlignment` */
  function CageBase(addr: int): int { addr - addr % TWO_32 }

  predicate SameCage(a: int, b: int) { CageBase(a) == CageBase(b) }

  /** `DecompressTaggedAnyField`: the sum never carries out of the word. */
  function Decompress(holder: int, value: int): (a: int)
    requires 0 <= holder < TWO_64 && 0 <= value < TWO_32
    ensures 0 <= a < TWO_64 && SameCage(a, holder)
    ensures a / 0x1_0000_0000 == holder / 0x1_0000_0000 && a % 0x1_0000_0000 == value
  {
    CageBase(holder) + value
  }

  function Compress(a: int): (v: int)
    ensures 0 <= v < TWO_32
  {
    a % TWO_32
  }

  /** Keeping the low half of an address loses nothing exactly when it lies in the holder's cage. */
  lemma CompressionRoundTrip(holder: int, a: int)
    requires 0 <= holder < TWO_64 && 0 <= a < TWO_64
    ensures Decompress(holder, Compress(a)) == a <==> SameCage(a, holder)
    ensures SameCage(a, holder) <==> a / 0x1_0000_0000 == holder / 0x1_0000_0000
  {
  }

  /** The base is added to small integers too; the decoder drops it again, and loses nothing exactly for valid Smis. */
  lemma SmiSurvivesDecompression(c: Config, holder: int, v: int)
    requires c.Valid() && c.compressed && 0 <= holder < TWO_64 && IsInt32(v)
    ensures SmiValue(c, Decompress(holder, Compress(IntToSmi(c, v)))) == v <==> IsValidSmi(c, v)
    ensures !HasHeapObjectTag(Decompress(holder, Compress(IntToSmi(c, v))))
  {
    ShortSmi(c, v);
    ValidSmiIsRange(c, v);
    var w := Decompress(holder, Compress(IntToSmi(c, v)));
    assert w % TWO_32 == (2 * v) % TWO_32;
  }
}
