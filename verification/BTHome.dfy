/** One object of the BTHome v2 service data that a Shelly relay decodes (shelly/blu-to-mqtt.js): the table
    of object ids and the reading of one typed value. */
module BTHome {
  import opened Bits
  import opened Wrappers

  // ---------- the BTH table ----------

  datatype Type = UInt8 | Int8 | UInt16 | Int16 | UInt24 | Int24

  datatype Entry = Entry(n: string, t: Type, f: Option<real>)

  const PID := "pid"
  const BATTERY := "battery"
  const TEMPERATURE := "temperature"
  const HUMIDITY := "humidity"
  const ILLUMINANCE := "illuminance"
  const MOTION := "motion"
  const VIBRATION := "vibration"
  const WINDOW := "window"
  const BUTTON := "button"
  const ROTATION := "rotation"
  const DISTANCE := "distance_mm"
  const ENCRYPTION := "encryption"
  const VERSION := "BTHome_version"

  /** Object 0x3a is two bytes wide here, as in the script. */
  function Table(id: byte): Option<Entry> {
    match id
    case 0x00 => Some(Entry(PID, UInt8, None))
    case 0x01 => Some(Entry(BATTERY, UInt8, None))
    case 0x02 => Some(Entry(TEMPERATURE, Int16, Some(0.01)))
    case 0x03 => Some(Entry(HUMIDITY, UInt16, Some(0.01)))
    case 0x05 => Some(Entry(ILLUMINANCE, UInt24, Some(0.01)))
    case 0x21 => Some(Entry(MOTION, UInt8, None))
    case 0x2c => Some(Entry(VIBRATION, UInt8, None))
    case 0x2d => Some(Entry(WINDOW, UInt8, None))
    case 0x2e => Some(Entry(HUMIDITY, UInt8, None))
    case 0x3a => Some(Entry(BUTTON, UInt16, None))
    case 0x3f => Some(Entry(ROTATION, Int16, Some(0.1)))
    case 0x40 => Some(Entry(DISTANCE, UInt16, None))
    case 0x45 => Some(Entry(TEMPERATURE, Int16, Some(0.1)))
    case _ => None
  }

  function ByteSize(t: Type): (n: nat) {
    match t
    case UInt8 | Int8 => 1
    case UInt16 | Int16 => 2
    case UInt24 | Int24 => 3
  }

  predicate IsSigned(t: Type) {
    t.Int8? || t.Int16? || t.Int24?
  }

  // ---------- values of one object ----------

  /** The number that `ByteSize(t)` little-endian bytes denote. */
  function RawValue(t: Type, bytes: seq<byte>): int
    requires |bytes| == ByteSize(t)
  {
    if IsSigned(t) then Signed(ValueLE(bytes, 256), 8 * ByteSize(t)) else ValueLE(bytes, 256)
  }

  predicate InRange(t: Type, raw: int) {
    if IsSigned(t) then InSignedRange(raw, 8 * ByteSize(t)) else 0 <= raw < Pow2(8 * ByteSize(t))
  }

  function EncodeRaw(t: Type, raw: int): (bytes: seq<byte>)
    ensures |bytes| == ByteSize(t)
  {
    var ds := DigitsLE(raw % Pow2(8 * ByteSize(t)), ByteSize(t), 256);
    seq(|ds|, i requires 0 <= i < |ds| => ds[i] as byte)
  }

  function Utoi(num: int, bitsz: nat): int
    requires bitsz >= 1
  {
    if JsAnd(num, JsShl(1, bitsz - 1)) != 0 then num - JsShl(1, bitsz) else num
  }

  function GetUInt8(buffer: seq<byte>): int
    requires |buffer| >= 1
  {
    buffer[0]
  }

  function GetInt8(buffer: seq<byte>): int
    requires |buffer| >= 1
  {
    Utoi(GetUInt8(buffer), 8)
  }

  function GetUInt16LE(buffer: seq<byte>): int
    requires |buffer| >= 2
  {
    JsAnd(0xffff, JsOr(JsShl(buffer[1], 8), buffer[0]))
  }

  function GetInt16LE(buffer: seq<byte>): int
    requires |buffer| >= 2
  {
    Utoi(GetUInt16LE(buffer), 16)
  }

  function GetUInt24LE(buffer: seq<byte>): int
    requires |buffer| >= 3
  {
    JsAnd(0x00ffffff, JsOr(JsOr(JsShl(buffer[2], 16), JsShl(buffer[1], 8)), buffer[0]))
  }

  function GetInt24LE(buffer: seq<byte>): int
    requires |buffer| >= 3
  {
    Utoi(GetUInt24LE(buffer), 24)
  }

  // ---------- shifts and masks are arithmetic ----------

  lemma JsShlPlain(x: nat, k: nat)
    requires k < 32 && 0 <= x * Pow2(k) < 0x8000_0000
    ensures JsShl(x, k) == x * Pow2(k)
  {
    DivUnique(k, 32, 0, k);
    ShlMultiplies(x, k);
    ToInt32Small(x * Pow2(k));
  }

  lemma JsOrPlain(x: nat, y: nat)
    requires x < 0x8000_0000 && y < 0x8000_0000 && BitOr(x, y) < 0x8000_0000
    ensures JsOr(x, y) == BitOr(x, y)
  {
    ToInt32Small(x);
    ToInt32Small(y);
    ToInt32Small(BitOr(x, y));
  }

  lemma JsAssemble(hi: nat, lo: nat, k: nat)
    requires k <= 16 && lo < Pow2(k) && hi * Pow2(k) + lo < 0x8000_0000
    ensures JsShl(hi, k) == hi * Pow2(k)
    ensures JsOr(JsShl(hi, k), lo) == hi * Pow2(k) + lo
  {
    MulMono(0, hi, Pow2(k));
    JsShlPlain(hi, k);
    OrAdds(hi, lo, k);
    JsOrPlain(hi * Pow2(k), lo);
  }

  lemma {:induction false} AndCommutes(a: nat, b: nat)
    ensures BitAnd(a, b) == BitAnd(b, a)
  {
    if a != 0 && b != 0 {
      AndCommutes(a / 2, b / 2);
    }
  }

  lemma JsMask(x: nat, k: nat)
    requires k <= 24 && x < Pow2(k)
    ensures JsAnd(Pow2(k) - 1, x) == x
  {
    Pow2Mono(k, 24);
    Pow2Values();
    ToInt32Small(x);
    ToInt32Small(Pow2(k) - 1);
    AndCommutes(Pow2(k) - 1, x);
    AndMaskIsMod(x, k);
    DivUnique(x, Pow2(k), 0, x);
  }

  lemma ValueLE2(b0: byte, b1: byte)
    ensures ValueLE([b0, b1], 256) == b1 * 256 + b0
  {
    assert ValueLE([b1], 256) == b1;
    assert [b0, b1][1..] == [b1];
  }

  lemma Assemble16(b1: byte, b0: byte)
    ensures JsAnd(0xffff, JsOr(JsShl(b1, 8), b0)) == ValueLE([b0, b1], 256) < Pow2(16)
  {
    Pow2Values();
    JsAssemble(b1, b0, 8);
    JsMask(b1 * 256 + b0, 16);
    ValueLE2(b0, b1);
  }

  lemma JsOr24(b2: nat, b1: nat, b0: nat)
    requires b2 < 256 && b1 < 256 && b0 < 256
    ensures JsOr(JsOr(JsShl(b2, 16), JsShl(b1, 8)), b0) == b2 * 65536 + b1 * 256 + b0
  {
    var h := b2 * 256 + b1;
    assert JsOr(JsShl(b2, 16), JsShl(b1, 8)) == h * 256 by {
      Pow2Values();
      JsAssemble(b1, 0, 8);
      JsAssemble(b2, b1 * 256, 16);
    }
    assert BitOr(h * 256, b0) == h * 256 + b0 by {
      Pow2Values();
      OrAdds(h, b0, 8);
    }
    JsOrPlain(h * 256, b0);
  }

  lemma ValueLE3(b0: byte, b1: byte, b2: byte)
    ensures ValueLE([b0, b1, b2], 256) == b2 * 65536 + b1 * 256 + b0
  {
    assert [b0, b1, b2][1..] == [b1, b2];
    ValueLE2(b1, b2);
  }

  lemma Assemble24(b2: byte, b1: byte, b0: byte)
    ensures JsAnd(0x00ffffff, JsOr(JsOr(JsShl(b2, 16), JsShl(b1, 8)), b0)) == ValueLE([b0, b1, b2], 256) < Pow2(24)
  {
    var v := b2 * 65536 + b1 * 256 + b0;
    assert JsOr(JsOr(JsShl(b2, 16), JsShl(b1, 8)), b0) == v by {
      JsOr24(b2, b1, b0);
    }
    assert v < Pow2(24) && Pow2(24) - 1 == 0x00ffffff by {
      Pow2Values();
    }
    JsMask(v, 24);
    ValueLE3(b0, b1, b2);
  }

  /** The shift, or and mask expressions compute the little-endian positional value. */
  lemma ShiftMaskIsPositional(buffer: seq<byte>)
    ensures |buffer| >= 1 ==> 0 <= GetUInt8(buffer) == ValueLE(buffer[..1], 256) < Pow2(8)
    ensures |buffer| >= 2 ==> 0 <= GetUInt16LE(buffer) == ValueLE(buffer[..2], 256) < Pow2(16)
    ensures |buffer| >= 3 ==> 0 <= GetUInt24LE(buffer) == ValueLE(buffer[..3], 256) < Pow2(24)
  {
    if |buffer| >= 1 {
      Pow2Values();
      assert buffer[..1] == [buffer[0]];
      assert ValueLE([buffer[0]], 256) == buffer[0];
    }
    if |buffer| >= 2 {
      Assemble16(buffer[1], buffer[0]);
      assert buffer[..2] == [buffer[0], buffer[1]];
    }
    if |buffer| >= 3 {
      Assemble24(buffer[2], buffer[1], buffer[0]);
      assert buffer[..3] == [buffer[0], buffer[1], buffer[2]];
    }
  }

  lemma JsShlOne(k: nat)
    requires k <= 30
    ensures JsShl(1, k) == Pow2(k) <= 0x4000_0000
  {
    Pow2Mono(k, 30);
    Pow2Values();
    assert 1 * Pow2(k) == Pow2(k);
    JsShlPlain(1, k);
  }

  lemma TopBit(num: nat, k: nat)
    requires num < 2 * Pow2(k)
    ensures BitAnd(num, Pow2(k)) == if num < Pow2(k) then 0 else Pow2(k)
  {
    var half := Pow2(k);
    AndBit(num, k);
    BitAtIsQuotient(num, k);
    if num < half {
      DivUnique(num, half, 0, num);
    } else {
      DivUnique(num, half, 1, num - half);
    }
  }

  lemma JsTopBit(num: nat, k: nat)
    requires num < 2 * Pow2(k) <= 0x4000_0000
    ensures JsAnd(num, Pow2(k)) == if num < Pow2(k) then 0 else Pow2(k)
  {
    TopBit(num, k);
    ToInt32Small(Pow2(k));
    ToInt32Small(num);
    ToInt32Small(0);
  }

  lemma UtoiByParts(num: nat, bitsz: nat, half: nat)
    requires bitsz >= 1 && half > 0
    requires JsShl(1, bitsz - 1) == half && JsShl(1, bitsz) == 2 * half
    requires JsAnd(num, half) == if num < half then 0 else half
    ensures Utoi(num, bitsz) == if num < half then num else num - 2 * half
  {
  }

  lemma UtoiSmall(num: int, bitsz: nat)
    requires 1 <= bitsz <= 30 && 0 <= num < Pow2(bitsz)
    ensures Utoi(num, bitsz) == Signed(num, bitsz)
  {
    var half := Pow2(bitsz - 1);
    assert Pow2(bitsz) == 2 * half;
    assert JsShl(1, bitsz - 1) == half && JsShl(1, bitsz) == 2 * half <= 0x4000_0000 by {
      JsShlOne(bitsz - 1);
      JsShlOne(bitsz);
    }
    assert JsAnd(num, half) == if num < half then 0 else half by {
      JsTopBit(num, bitsz - 1);
    }
    UtoiByParts(num, bitsz, half);
  }

  lemma GettersAreRaw(t: Type, buffer: seq<byte>)
    requires |buffer| >= ByteSize(t)
    ensures RawValue(t, buffer[..ByteSize(t)]) ==
              match t
              case UInt8 => GetUInt8(buffer)
              case Int8 => GetInt8(buffer)
              case UInt16 => GetUInt16LE(buffer)
              case Int16 => GetInt16LE(buffer)
              case UInt24 => GetUInt24LE(buffer)
              case Int24 => GetInt24LE(buffer)
  {
    ShiftMaskIsPositional(buffer);
    match t
    case Int8 => UtoiSmall(GetUInt8(buffer), 8);
    case Int16 => UtoiSmall(GetUInt16LE(buffer), 16);
    case Int24 => UtoiSmall(GetUInt24LE(buffer), 24);
    case _ =>
  }

  lemma UtoiWide(bitsz: nat)
    requires 31 <= bitsz <= 32
    ensures Utoi(Pow2(bitsz - 1), bitsz) != Signed(Pow2(bitsz - 1), bitsz)
  {
    Pow2Values();
    ShlMultiplies(1, 30);
    ShlMultiplies(1, 31);
    if bitsz == 31 {
      TopBit(0x4000_0000, 30);
      ToInt32IsSigned(0x8000_0000, -0x8000_0000);
      assert JsShl(1, 31) == -0x8000_0000;
    } else {
      TopBit(0x8000_0000, 31);
      assert JsShl(1, 32) == 1;
    }
  }

  /** `utoi` is two's complement for every value of its width exactly up to 30 bits: at 31 the
      subtrahend 1 << 31 is negative, and at 32 the shift count wraps to 0. */
  lemma UtoiExact(bitsz: nat)
    requires 1 <= bitsz <= 32
    ensures (forall num | 0 <= num < Pow2(bitsz) :: Utoi(num, bitsz) == Signed(num, bitsz)) <==> bitsz <= 30
  {
    Pow2Values();
    if bitsz <= 30 {
      forall num | 0 <= num < Pow2(bitsz)
        ensures Utoi(num, bitsz) == Signed(num, bitsz)
      {
        UtoiSmall(num, bitsz);
      }
    } else {
      UtoiWide(bitsz);
      assert 0 <= Pow2(bitsz - 1) < Pow2(bitsz);
    }
  }

  lemma ValueOfBytes(bytes: seq<byte>)
    ensures |bytes| == 1 ==> ValueLE(bytes, 256) == bytes[0]
    ensures |bytes| == 2 ==> ValueLE(bytes, 256) == bytes[0] as int + 256 * bytes[1] as int
    ensures |bytes| == 3 ==> ValueLE(bytes, 256) == bytes[0] as int + 256 * bytes[1] as int + 65536 * bytes[2] as int
  {
    if |bytes| == 1 {
      assert bytes[1..] == [];
    } else if |bytes| == 2 {
      assert bytes == [bytes[0], bytes[1]];
      ValueLE2(bytes[0], bytes[1]);
    } else if |bytes| == 3 {
      assert bytes == [bytes[0], bytes[1], bytes[2]];
      ValueLE3(bytes[0], bytes[1], bytes[2]);
    }
  }

  /** What the bytes of each type denote: the little-endian sum, or the only value of the signed range
      that is congruent to it. */
  lemma RawValueExact(t: Type, bytes: seq<byte>, v: int)
    requires |bytes| == ByteSize(t)
    ensures v == RawValue(t, bytes) <==>
              match t
              case UInt8 => v == bytes[0]
              case Int8 => -128 <= v < 128 && v % 256 == bytes[0]
              case UInt16 => v == bytes[0] as int + 256 * bytes[1] as int
              case Int16 => -32768 <= v < 32768 && v % 65536 == bytes[0] as int + 256 * bytes[1] as int
              case UInt24 => v == bytes[0] as int + 256 * bytes[1] as int + 65536 * bytes[2] as int
              case Int24 =>
                && -8388608 <= v < 8388608
                && v % 16777216 == bytes[0] as int + 256 * bytes[1] as int + 65536 * bytes[2] as int
  {
    Pow2Values();
    ValueOfBytes(bytes);
    if IsSigned(t) {
      SignedIsUnique(ValueLE(bytes, 256), v, 8 * ByteSize(t));
    }
  }

  /** None is the script's null: the buffer is shorter than the type. */
  method GetBufValue(t: Type, buffer: seq<byte>) returns (res: Option<int>)
    ensures res == if |buffer| < ByteSize(t) then None else Some(RawValue(t, buffer[..ByteSize(t)]))
    ensures match t
            case UInt8 | Int8 => res.Some? <==> |buffer| >= 1
            case UInt16 | Int16 => res.Some? <==> |buffer| >= 2
            case UInt24 | Int24 => res.Some? <==> |buffer| >= 3
    ensures res.Some? ==>
              match t
              case UInt8 => res.value == buffer[0]
              case Int8 => -128 <= res.value < 128 && res.value % 256 == buffer[0]
              case UInt16 => res.value == buffer[0] as int + 256 * buffer[1] as int
              case Int16 =>
                -32768 <= res.value < 32768 && res.value % 65536 == buffer[0] as int + 256 * buffer[1] as int
              case UInt24 => res.value == buffer[0] as int + 256 * buffer[1] as int + 65536 * buffer[2] as int
              case Int24 =>
                && -8388608 <= res.value < 8388608
                && res.value % 16777216 == buffer[0] as int + 256 * buffer[1] as int + 65536 * buffer[2] as int
  {
    if |buffer| < ByteSize(t) {
      return None;
    }
    GettersAreRaw(t, buffer);
    RawValueExact(t, buffer[..ByteSize(t)], RawValue(t, buffer[..ByteSize(t)]));
    res := None;
    if t == UInt8 { res := Some(GetUInt8(buffer)); }
    if t == Int8 { res := Some(GetInt8(buffer)); }
    if t == UInt16 { res := Some(GetUInt16LE(buffer)); }
    if t == Int16 { res := Some(GetInt16LE(buffer)); }
    if t == UInt24 { res := Some(GetUInt24LE(buffer)); }
    if t == Int24 { res := Some(GetInt24LE(buffer)); }
  }

  /** Encoding and decoding one object are inverse, for every type. */
  lemma RawRoundTrip(t: Type, raw: int)
    requires InRange(t, raw)
    ensures RawValue(t, EncodeRaw(t, raw)) == raw
  {
    var n := ByteSize(t);
    Pow2Values();
    PowOfPow2(8, n);
    var v := raw % Pow2(8 * n);
    DigitsRoundTrip(v, n, 256);
    assert EncodeRaw(t, raw) == DigitsLE(v, n, 256);
    if IsSigned(t) {
      SignedIsUnique(v, raw, 8 * n);
    } else {
      DivUnique(raw, Pow2(8 * n), 0, raw);
    }
  }

  lemma BytesRoundTrip(t: Type, bytes: seq<byte>)
    requires |bytes| == ByteSize(t)
    ensures InRange(t, RawValue(t, bytes))
    ensures EncodeRaw(t, RawValue(t, bytes)) == bytes
  {
    var n, v := ByteSize(t), ValueLE(bytes, 256);
    Pow2Values();
    PowOfPow2(8, n);
    ValueLEBound(bytes, 256);
    ValueRoundTrip(bytes, 256);
    if IsSigned(t) {
      SignedIsUnique(v, RawValue(t, bytes), 8 * n);
    } else {
      DivUnique(v, Pow2(8 * n), 0, v);
    }
    assert EncodeRaw(t, RawValue(t, bytes)) == DigitsLE(v, n, 256);
  }
}
