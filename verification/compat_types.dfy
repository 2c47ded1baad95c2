/**
 * Value types and constants of mq_compat.h: `test_and_set`, the packed
 * ARGB colour `MQColor`, the spawn-type enumeration, the con-colour codes
 * and the default spawn search.
 */
module CompatTypes {
  import opened CInt

  const MAX_STRING: int := 2048
  const MAX_NPC_LEVEL: int := 200
  const MQ_Class_Object: int := 62

  // Con colour codes.
  const CONCOLOR_GREY: int := 0x06
  const CONCOLOR_GREEN: int := 0x02
  const CONCOLOR_LIGHTBLUE: int := 0x12
  const CONCOLOR_BLUE: int := 0x04
  const CONCOLOR_BLACK: int := 0x14
  const CONCOLOR_WHITE: int := 0x0a
  const CONCOLOR_YELLOW: int := 0x0f
  const CONCOLOR_RED: int := 0x0d
  const COLOR_PURPLE: int := 0x05

  /**
   * `test_and_set(target, value)`: assigns `value` and reports whether the
   * target changed. The returned pair is (changed, new target).
   */
  function TestAndSet<T(==)>(target: T, value: T): (r: (bool, T))
    ensures r.1 == value
    ensures r.0 <==> target != value
    ensures !r.0 ==> r.1 == target
  {
    if target == value then (false, target) else (true, value)
  }

  /**
   * `MQColor`: one 32-bit word whose bytes, from least significant up,
   * are Blue, Green, Red and Alpha. Equality of colours (`operator==`) is
   * equality of this word, which is what datatype equality gives.
   */
  datatype Color = Color(argb: bv32)
  {
    function Blue(): bv8 { (argb & 0xFF) as bv8 }
    function Green(): bv8 { ((argb >> 8) & 0xFF) as bv8 }
    function Red(): bv8 { ((argb >> 16) & 0xFF) as bv8 }
    function Alpha(): bv8 { (argb >> 24) as bv8 }

    /** `ToRGB`: the colour without its alpha byte. */
    function ToRGB(): (r: bv32)
      ensures r >> 24 == 0
      ensures r & 0xFF == argb & 0xFF
      ensures (r >> 8) & 0xFF == (argb >> 8) & 0xFF
      ensures (r >> 16) & 0xFF == (argb >> 16) & 0xFF
    {
      argb & 0xFF_FFFF
    }

    /**
     * `Invert` / `GetInverted`: every colour channel becomes 255 minus
     * itself; alpha is kept.
     */
    function Inverted(): (r: Color)
      ensures r.Alpha() == Alpha()
      ensures r.Red() == 0xFF - Red()
      ensures r.Green() == 0xFF - Green()
      ensures r.Blue() == 0xFF - Blue()
    {
      SubIsXor(argb);
      Color((0xFF_FFFF - (argb & 0xFF_FFFF)) | (argb & 0xFF00_0000))
    }
  }

  /** Subtracting the low 24 bits from 0xFFFFFF flips exactly those bits. */
  lemma {:induction false} SubIsXor(x: bv32)
    ensures 0xFF_FFFF - (x & 0xFF_FFFF) == (x & 0xFF_FFFF) ^ 0xFF_FFFF
  {
  }

  /** `MQColor()`: opaque black. */
  const DefaultColor := Color(0xFF00_0000)

  /** `MQColor(red, green, blue, alpha)`. */
  function RGBA(red: bv8, green: bv8, blue: bv8, alpha: bv8): (c: Color)
    ensures c.Red() == red && c.Green() == green && c.Blue() == blue && c.Alpha() == alpha
  {
    Color((alpha as bv32 << 24) | (red as bv32 << 16) | (green as bv32 << 8) | blue as bv32)
  }

  /** `MQColor(red, green, blue)`: alpha defaults to 255. */
  function RGB(red: bv8, green: bv8, blue: bv8): (c: Color)
    ensures c.Red() == red && c.Green() == green && c.Blue() == blue && c.Alpha() == 0xFF
  {
    RGBA(red, green, blue, 0xFF)
  }

  /** Two colours with the same four channels are the same colour. */
  lemma {:induction false} ChannelsDetermineColor(c: Color, d: Color)
    requires c.Red() == d.Red() && c.Green() == d.Green() && c.Blue() == d.Blue() && c.Alpha() == d.Alpha()
    ensures c == d
  {
  }

  /** Inverting twice gives back the original colour. */
  lemma {:induction false} InvertInvolution(c: Color)
    ensures c.Inverted().Inverted() == c
  {
    InvertedIsXor(c.argb);
    InvertedIsXor(c.Inverted().argb);
    assert (c.argb ^ 0xFF_FFFF) ^ 0xFF_FFFF == c.argb;
  }

  /** Inverting flips exactly the 24 colour bits. */
  lemma {:induction false} InvertedIsXor(x: bv32)
    ensures Color(x).Inverted().argb == x ^ 0xFF_FFFF
  {
    SubIsXor(x);
    assert ((x & 0xFF_FFFF) ^ 0xFF_FFFF) | (x & 0xFF00_0000) == x ^ 0xFF_FFFF;
  }

  lemma {:induction false} DefaultIsOpaqueBlack()
    ensures DefaultColor == RGB(0, 0, 0)
    ensures DefaultColor.Alpha() == 0xFF
  {
  }

  /** `eSpawnType`. */
  datatype SpawnType =
    | NONE | PC | MOUNT | PET | PCPET | NPCPET | XTARHATER | NPC | CORPSE | TRIGGER
    | TRAP | TIMER | UNTARGETABLE | CHEST | ITEM | AURA | OBJECT | BANNER | CAMPFIRE
    | MERCENARY | FLYER | NPCCORPSE | PCCORPSE

  /**
   * What the model needs of a game spawn, as the offset accessors would
   * read it. `spawnType` is the classification `GetSpawnType` computes from
   * raw memory, which is not part of this model.
   */
  datatype SpawnView = SpawnView(
    spawnType: SpawnType,
    classId: int,
    level: uint8,
    id: uint32,
    name: string,
    displayedName: string)
}
