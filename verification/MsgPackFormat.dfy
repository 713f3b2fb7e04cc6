/** The MessagePack formats: every way the specification lets a value be written. */
module MsgPackFormat {
  import opened Bytes

  datatype IntFormat = PosFix | NegFix | U8 | U16 | U32 | U64 | I8 | I16 | I32 | I64

  datatype LenFormat = Fix | L8 | L16 | L32

  /** A value together with the formats chosen for it. A map's items are its keys
      and values in turn. Floats are kept as their octets. */
  datatype Enc =
    | Nil
    | Bool(b: bool)
    | Int(i: int, f: IntFormat)
    | Float32(bits: seq<byte>)
    | Float64(bits: seq<byte>)
    | Str(s: seq<byte>, w: LenFormat)
    | Bin(s: seq<byte>, w: LenFormat)
    | Arr(items: seq<Enc>, w: LenFormat)
    | Map(items: seq<Enc>, w: LenFormat)

  function Limit(fix: nat, w: LenFormat): nat {
    match w
    case Fix => fix
    case L8 => 256
    case L16 => 65536
    case L32 => TWO_32
  }

  predicate IntFits(i: int, f: IntFormat) {
    match f
    case PosFix => 0 <= i < 128
    case NegFix => -32 <= i < 0
    case U8 => 0 <= i < 256
    case U16 => 0 <= i < 65536
    case U32 => 0 <= i < TWO_32
    case U64 => 0 <= i < TWO_64
    case I8 => -128 <= i < 128
    case I16 => -32768 <= i < 32768
    case I32 => -0x8000_0000 <= i < 0x8000_0000
    case I64 => -0x8000_0000_0000_0000 <= i < 0x8000_0000_0000_0000
  }

  /** The formats chosen can hold the value. */
  predicate WellFormed(e: Enc) {
    match e
    case Nil => true
    case Bool(_) => true
    case Int(i, f) => IntFits(i, f)
    case Float32(bits) => |bits| == 4
    case Float64(bits) => |bits| == 8
    case Str(s, w) => |s| < Limit(32, w)
    case Bin(s, w) => w != Fix && |s| < Limit(0, w)
    case Arr(items, w) => w != L8 && |items| < Limit(16, w) && forall x :: x in items ==> WellFormed(x)
    case Map(items, w) =>
      w != L8 && |items| % 2 == 0 && |items| / 2 < Limit(16, w)
      && forall x :: x in items ==> WellFormed(x)
  }

  /** A length behind its marker; fix markers carry the length themselves. */
  function LenHead(n: nat, fix: nat, m8: byte, m16: byte, m32: byte, w: LenFormat): seq<byte>
    requires w == Fix ==> fix + n < 256
  {
    match w
    case Fix => [fix + n]
    case L8 => [m8] + BigEndian(n, 1)
    case L16 => [m16] + BigEndian(n, 2)
    case L32 => [m32] + BigEndian(n, 4)
  }

  /** Two's complement in width octets. */
  function TwosComplement(i: int, width: nat): seq<byte>
    requires 0 <= i + Capacity(width)
  {
    BigEndian(if i < 0 then i + Capacity(width) else i, width)
  }

  function IntHead(i: int, f: IntFormat): seq<byte>
    requires IntFits(i, f)
  {
    Capacities();
    match f
    case PosFix => [i]
    case NegFix => [256 + i]
    case U8 => [0xCC] + BigEndian(i, 1)
    case U16 => [0xCD] + BigEndian(i, 2)
    case U32 => [0xCE] + BigEndian(i, 4)
    case U64 => [0xCF] + BigEndian(i, 8)
    case I8 => [0xD0] + TwosComplement(i, 1)
    case I16 => [0xD1] + TwosComplement(i, 2)
    case I32 => [0xD2] + TwosComplement(i, 4)
    case I64 => [0xD3] + TwosComplement(i, 8)
  }

  /** Everything before the items of an array or map; the whole of a scalar. */
  function Head(e: Enc): seq<byte>
    requires WellFormed(e)
  {
    match e
    case Nil => [0xC0]
    case Bool(b) => if b then [0xC3] else [0xC2]
    case Int(i, f) => IntHead(i, f)
    case Float32(bits) => [0xCA] + bits
    case Float64(bits) => [0xCB] + bits
    case Str(s, w) => LenHead(|s|, 0xA0, 0xD9, 0xDA, 0xDB, w) + s
    case Bin(s, w) => LenHead(|s|, 0, 0xC4, 0xC5, 0xC6, w) + s
    case Arr(items, w) => LenHead(|items|, 0x90, 0, 0xDC, 0xDD, w)
    case Map(items, w) => LenHead(|items| / 2, 0x80, 0, 0xDE, 0xDF, w)
  }

  function Encode(e: Enc): seq<byte>
    requires WellFormed(e)
    decreases e, 0
  {
    match e
    case Arr(items, _) => Head(e) + EncodeAll(items)
    case Map(items, _) => Head(e) + EncodeAll(items)
    case _ => Head(e)
  }

  function EncodeAll(items: seq<Enc>): seq<byte>
    requires forall x :: x in items ==> WellFormed(x)
    decreases items, 0
  {
    if items == [] then [] else Encode(items[0]) + EncodeAll(items[1..])
  }

  function Max(a: nat, b: nat): nat { if a > b then a else b }

  /** How many arrays and maps, none of them empty, lie one inside another. */
  function Nesting(e: Enc): nat
    decreases e, 0
  {
    match e
    case Arr(items, _) => if items == [] then 0 else 1 + MaxNesting(items)
    case Map(items, _) => if items == [] then 0 else 1 + MaxNesting(items)
    case _ => 0
  }

  function MaxNesting(items: seq<Enc>): nat
    decreases items, 0
  {
    if items == [] then 0 else Max(Nesting(items[0]), MaxNesting(items[1..]))
  }

  /** A map of 2^31 pairs or more: twice its length does not fit 32 bits. */
  predicate Wide(e: Enc) {
    e.Map? && |e.items| / 2 >= 0x8000_0000
  }

  predicate Narrow(e: Enc) {
    match e
    case Arr(items, _) => forall x :: x in items ==> Narrow(x)
    case Map(items, _) => !Wide(e) && forall x :: x in items ==> Narrow(x)
    case _ => true
  }
}
