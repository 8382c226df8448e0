/** The two decoders of binary32 numbers (section 3.4 of IEEE 754-2008): Modbus register pairs
    (base/modbus_connection.cpp) and Senec's hexadecimal text (senec/senec_client.cpp). */
module Binary32 {
  import opened Bits
  import opened Registers
  import opened Chars

  type word = w: int | 0 <= w < 0x1_0000_0000

  // ---------- the format ----------

  datatype Float = NaN | Infinite(negative: bool) | Number(x: real)

  function SignBit(w: word): bool {
    w >= 0x8000_0000
  }

  /** All bits but the sign. */
  function Magnitude(w: word): nat {
    if SignBit(w) then w - 0x8000_0000 else w
  }

  function Exponent(w: word): nat {
    Magnitude(w) / 0x80_0000
  }

  function Fraction(w: word): nat {
    Magnitude(w) % 0x80_0000
  }

  predicate IsFinite(w: word) {
    Exponent(w) < 255
  }

  /** 2^k for any integer k. */
  function PowR(k: int): real
    decreases if k < 0 then -k else k
  {
    if k == 0 then 1.0 else if k > 0 then 2.0 * PowR(k - 1) else PowR(k + 1) / 2.0
  }

  /** The magnitude of a finite number, by the standard's two cases. */
  function Absolute(w: word): real
    requires IsFinite(w)
  {
    if Exponent(w) == 0 then Fraction(w) as real * PowR(-149)
    else (0x80_0000 + Fraction(w)) as real * PowR(Exponent(w) - 150)
  }

  function Decode(w: word): Float {
    if IsFinite(w) then Number(if SignBit(w) then -Absolute(w) else Absolute(w))
    else if Fraction(w) == 0 then Infinite(SignBit(w))
    else NaN
  }

  // ---------- the two decoders ----------

  /** toFloat. */
  function ToFloat(u: seq<register>): Float
    requires |u| == 2
  {
    Join2IsPositional(u);
    Pow2Values();
    Decode(Join2(u))
  }

  function HexDigit(c: char): (d: nat)
    requires IsHexDigit(c)
    ensures d < 16
  {
    if c <= '9' then c as int - '0' as int
    else if c <= 'F' then c as int - 'A' as int + 10
    else c as int - 'a' as int + 10
  }

  predicate IsHexText(s: string) {
    forall i :: 0 <= i < |s| ==> IsHexDigit(s[i])
  }

  function HexDigits(s: string): (ds: seq<nat>)
    requires IsHexText(s)
    ensures |ds| == |s| && IsDigits(ds, 16)
  {
    seq(|s|, i requires 0 <= i < |s| => HexDigit(s[i]))
  }

  /** What sscanf's %x reads from a text of hexadecimal digits. */
  function HexValue(s: string): nat
    requires IsHexText(s)
  {
    ValueBE(HexDigits(s), 16)
  }

  lemma HexValueBound(s: string)
    requires IsHexText(s)
    ensures HexValue(s) < Pow(16, |s|)
  {
    ValueBEBound(HexDigits(s), 16);
  }

  lemma HexPowers()
    ensures Pow(16, 4) == 65536 && Pow(16, 8) == 0x1_0000_0000
  {
  }

  /** hex2float, on the checked input that it assumes: eight digits. */
  function Hex2Float(s: string): Float
    requires IsHexText(s) && |s| == 8
  {
    HexValueBound(s);
    HexPowers();
    Decode(HexValue(s))
  }

  /** The decoders agree: eight digits denote the number that two registers denote when the first four
      spell the first register and the last four the second. */
  lemma DecodersAgree(s: string)
    requires IsHexText(s) && |s| == 8
    ensures HexValue(s[..4]) < 65536 && HexValue(s[4..]) < 65536
    ensures Hex2Float(s) == ToFloat([HexValue(s[..4]), HexValue(s[4..])])
  {
    var hi, lo := s[..4], s[4..];
    HexPowers();
    HexValueBound(hi);
    HexValueBound(lo);
    assert HexDigits(s) == HexDigits(hi) + HexDigits(lo);
    ValueBEConcat(HexDigits(hi), HexDigits(lo), 16);
    var u: seq<register> := [HexValue(hi), HexValue(lo)];
    Join2IsPositional(u);
    ValuePair(HexValue(hi), HexValue(lo), 65536);
    assert Join2(u) == HexValue(s);
  }

  /** Every pattern has such a text, so the agreement covers all of them. */
  lemma EveryWordHasText(w: word) returns (s: string)
    ensures IsHexText(s) && |s| == 8 && HexValue(s) == w
  {
    var ds := DigitsBE(w, 8, 16);
    HexPowers();
    DigitsBERoundTrip(w, 8, 16);
    s := seq(8, i requires 0 <= i < 8 => HexChar(ds[i]));
    assert HexDigits(s) == ds;
  }

  function HexChar(d: nat): (c: char)
    requires d < 16
    ensures IsHexDigit(c) && HexDigit(c) == d
  {
    "0123456789ABCDEF"[d]
  }

  // ---------- order ----------

  /** A finite magnitude in units of 2^-149. */
  function Scaled(w: word): nat
    requires IsFinite(w)
  {
    if Exponent(w) == 0 then Fraction(w) else (0x80_0000 + Fraction(w)) * Pow2(Exponent(w) - 1)
  }

  lemma PowRStep(k: int)
    ensures PowR(k + 1) == 2.0 * PowR(k) && PowR(k) > 0.0
    decreases if k < 0 then -k else k
  {
    if k > 0 {
      PowRStep(k - 1);
    } else if k < 0 {
      PowRStep(k + 1);
    }
  }

  lemma RealAssoc(a: real, b: real, c: real)
    ensures a * (b * c) == (a * b) * c
  {
  }

  lemma {:induction false} PowRShift(j: nat, k: int)
    ensures PowR(j + k) == Pow2(j) as real * PowR(k)
  {
    if j > 0 {
      PowRShift(j - 1, k);
      PowRStep(j - 1 + k);
      RealAssoc(2.0, Pow2(j - 1) as real, PowR(k));
    }
  }

  lemma CastProduct(a: nat, b: nat)
    ensures (a * b) as real == a as real * b as real
  {
  }

  lemma ScaleProduct(f: nat, p: nat, unit: real, scaled: real)
    requires scaled == p as real * unit
    ensures f as real * scaled == (f * p) as real * unit
  {
    CastProduct(f, p);
    RealAssoc(f as real, p as real, unit);
  }

  lemma NormalIsScaled(f: nat, j: nat, unit: int)
    ensures f as real * PowR(j + unit) == (f * Pow2(j)) as real * PowR(unit)
  {
    PowRShift(j, unit);
    ScaleProduct(f, Pow2(j), PowR(unit), PowR(j + unit));
  }

  lemma AbsoluteIsScaled(w: word)
    requires IsFinite(w)
    ensures Absolute(w) == Scaled(w) as real * PowR(-149)
  {
    if Exponent(w) > 0 {
      NormalIsScaled(0x80_0000 + Fraction(w), Exponent(w) - 1, -149);
    }
  }

  lemma ScaledMonotone(v: word, w: word)
    requires IsFinite(v) && IsFinite(w) && Magnitude(v) < Magnitude(w)
    ensures Scaled(v) < Scaled(w)
  {
    if Exponent(v) == Exponent(w) {
      assert Fraction(v) < Fraction(w);
      if Exponent(v) > 0 {
        MulMono(0x80_0000 + Fraction(v) + 1, 0x80_0000 + Fraction(w), Pow2(Exponent(v) - 1));
        Distribute(0x80_0000 + Fraction(v), 1, Pow2(Exponent(v) - 1));
      }
    } else {
      assert Exponent(v) < Exponent(w);
      var p := Pow2(Exponent(w) - 1);
      MulMono(0x80_0000, 0x80_0000 + Fraction(w), p);
      if Exponent(v) > 0 {
        var q := Pow2(Exponent(v) - 1);
        MulMono(0x80_0000 + Fraction(v) + 1, 0x100_0000, q);
        Distribute(0x80_0000 + Fraction(v), 1, q);
        Pow2Mono(Exponent(v), Exponent(w) - 1);
      }
    }
  }

  /** The pattern read as sign and magnitude. */
  function SignMagnitude(w: word): int {
    if SignBit(w) then 0 - Magnitude(w) else Magnitude(w)
  }

  function SignedScaled(w: word): int
    requires IsFinite(w)
  {
    if SignBit(w) then 0 - Scaled(w) else Scaled(w)
  }

  lemma ScaledZero(w: word)
    requires IsFinite(w)
    ensures Scaled(w) == 0 <==> Magnitude(w) == 0
  {
    if Exponent(w) > 0 {
      MulMono(1, 0x80_0000 + Fraction(w), Pow2(Exponent(w) - 1));
    }
  }

  lemma ScaledOrder(v: word, w: word)
    requires IsFinite(v) && IsFinite(w)
    ensures SignMagnitude(v) < SignMagnitude(w) <==> SignedScaled(v) < SignedScaled(w)
  {
    ScaledZero(v);
    ScaledZero(w);
    if Magnitude(v) < Magnitude(w) {
      ScaledMonotone(v, w);
    } else if Magnitude(w) < Magnitude(v) {
      ScaledMonotone(w, v);
    } else {
      assert Exponent(v) == Exponent(w) && Fraction(v) == Fraction(w);
    }
  }

  lemma RealNegate(a: int, c: real)
    ensures (-a) as real * c == -(a as real * c)
  {
  }

  lemma NumberIsScaled(w: word, unit: int) returns (n: int, x: real)
    requires IsFinite(w) && unit == -149
    ensures n == SignedScaled(w) && Decode(w) == Number(x) && x == InUnits(n, unit)
  {
    n, x := SignedScaled(w), Decode(w).x;
    AbsoluteIsScaled(w);
    RealNegate(Scaled(w), PowR(unit));
  }

  lemma RealOrder(a: int, b: int, c: real, x: real, y: real)
    requires c > 0.0 && x == a as real * c && y == b as real * c
    ensures a < b <==> x < y
  {
    if a < b {
      assert (b - a) as real * c > 0.0;
      assert y == x + (b - a) as real * c;
    } else {
      assert (a - b) as real * c >= 0.0;
      assert x == y + (a - b) as real * c;
    }
  }

  /** Both values counted in units of 2^unit. */
  lemma UnitOrder(a: int, b: int, unit: int, x: real, y: real)
    requires x == InUnits(a, unit) && y == InUnits(b, unit)
    ensures a < b <==> x < y
  {
    PowRStep(unit);
    RealOrder(a, b, PowR(unit), x, y);
  }

  lemma OrderInUnits(v: word, w: word, unit: int)
    requires IsFinite(v) && IsFinite(w) && unit == -149
    ensures SignedScaled(v) < SignedScaled(w) <==> Decode(v).x < Decode(w).x
  {
    var a, x := NumberIsScaled(v, unit);
    var b, y := NumberIsScaled(w, unit);
    UnitOrder(a, b, unit, x, y);
  }

  /** Over finite patterns the order of sign and magnitude is the order of the numbers. */
  lemma OrderPreserved(v: word, w: word)
    requires IsFinite(v) && IsFinite(w)
    ensures SignMagnitude(v) < SignMagnitude(w) <==> Decode(v).x < Decode(w).x
  {
    ScaledOrder(v, w);
    OrderInUnits(v, w, -149);
  }

  function InUnits(n: int, unit: int): real {
    n as real * PowR(unit)
  }

  // ---------- the values in whole numbers ----------

  lemma PowRNat(j: nat)
    ensures PowR(j) == Pow2(j) as real
  {
    PowRShift(j, 0);
    assert PowR(0) == 1.0;
  }

  lemma PowRInverse(j: nat)
    ensures PowR(0 - j) * Pow2(j) as real == 1.0
  {
    PowRShift(j, 0 - j);
    assert PowR(j + (0 - j)) == 1.0;
  }

  /** x = f * 2^k, in whole numbers. */
  lemma ScaledWhole(f: nat, k: int, x: real)
    requires x == f as real * PowR(k)
    ensures k >= 0 ==> x == (f * Pow2(k)) as real
    ensures k < 0 ==> x * Pow2(-k) as real == f as real
  {
    if k >= 0 {
      PowRNat(k);
      CastProduct(f, Pow2(k));
    } else {
      PowRInverse(-k);
      RealAssoc(f as real, PowR(k), Pow2(-k) as real);
    }
  }

  lemma SubnormalExact(w: word)
    requires w < 0x80_0000
    ensures Decode(w).Number? && Decode(w).x * Pow2(149) as real == w as real
  {
    ScaledWhole(w, -149, Decode(w).x);
  }

  lemma FieldsOf(e: nat, f: nat)
    requires f < 0x80_0000
    ensures (e * 0x80_0000 + f) / 0x80_0000 == e && (e * 0x80_0000 + f) % 0x80_0000 == f
  {
  }

  lemma NormalExact(w: word, e: nat, f: nat)
    requires 1 <= e < 255 && f < 0x80_0000 && w == e * 0x80_0000 + f
    ensures Decode(w).Number?
    ensures e < 150 ==> Decode(w).x * Pow2(150 - e) as real == (0x80_0000 + f) as real
    ensures e >= 150 ==> Decode(w).x == ((0x80_0000 + f) * Pow2(e - 150)) as real
  {
    FieldsOf(e, f);
    ScaledWhole(0x80_0000 + f, e - 150, Decode(w).x);
  }

  /** The value of every non-negative finite pattern, in whole numbers: with exponent field e and fraction f
      it is (2^23 + f) * 2^(e - 150), and f * 2^-149 if e is zero. */
  lemma ValueExact(w: word)
    requires w < 0x7f80_0000
    ensures Decode(w).Number?
    ensures var e, f, x := w / 0x80_0000, w % 0x80_0000, Decode(w).x;
            && (e == 0 ==> x * Pow2(149) as real == f as real)
            && (1 <= e < 150 ==> x * Pow2(150 - e) as real == (0x80_0000 + f) as real)
            && (e >= 150 ==> x == ((0x80_0000 + f) * Pow2(e - 150)) as real)
  {
    if w < 0x80_0000 {
      SubnormalExact(w);
    } else {
      NormalExact(w, w / 0x80_0000, w % 0x80_0000);
    }
  }

  /** The other patterns: bit 31 negates, and the top exponent is infinity or no number. */
  lemma SignAndSpecial(w: word)
    requires w < 0x8000_0000
    ensures w < 0x7f80_0000 ==> Decode(w + 0x8000_0000) == Number(0.0 - Decode(w).x)
    ensures w == 0x7f80_0000 ==> Decode(w) == Infinite(false) && Decode(w + 0x8000_0000) == Infinite(true)
    ensures w > 0x7f80_0000 ==> Decode(w) == NaN && Decode(w + 0x8000_0000) == NaN
  {
  }

  /** One step of the exponent doubles a normal number. */
  lemma ExponentDoubles(w: word)
    requires 0x80_0000 <= w < 0x7f00_0000
    ensures Decode(w).Number? && Decode(w + 0x80_0000) == Number(2.0 * Decode(w).x)
  {
    var e := w / 0x80_0000;
    assert (w + 0x80_0000) / 0x80_0000 == e + 1 && (w + 0x80_0000) % 0x80_0000 == w % 0x80_0000;
    PowRStep(e - 150);
    RealAssoc(2.0, (0x80_0000 + w % 0x80_0000) as real, PowR(e - 150));
  }

  lemma Cancel(x: real, y: real, p: real)
    requires p >= 1.0 && x * p == y * p
    ensures x == y
  {
    assert (x - y) * p == 0.0;
  }

  lemma SmallExponent(w: word, j: nat, bits: nat)
    requires w == (149 - j) * 0x80_0000 + bits && j < 150 && 0x80_0000 <= bits < 0x100_0000
    ensures Decode(w).Number?
    ensures Decode(w).x * Pow2(j) as real == bits as real
  {
    FieldsOf(150 - j, bits - 0x80_0000);
    PowRInverse(j);
    RealAssoc(bits as real, PowR(0 - j), Pow2(j) as real);
  }

  lemma Doubled(n: nat, j: nat)
    requires j > 0
    ensures n * Pow2(j) == (2 * n) * Pow2(j - 1)
  {
    MulAssoc(n, 2, Pow2(j - 1));
    MulCommutes(n, 2);
  }

  /** Every positive whole number below 2^24 can be doubled until it has 24 bits. */
  lemma {:induction false} Normalised(n: nat) returns (j: nat)
    requires 0 < n < 0x100_0000
    ensures j <= 23 && 0x80_0000 <= n * Pow2(j) < 0x100_0000
    decreases 0x100_0000 - n
  {
    if n >= 0x80_0000 {
      j := 0;
    } else {
      var i := Normalised(2 * n);
      j := i + 1;
      Doubled(n, j);
      if j > 23 {
        MulMono(1, n, Pow2(24));
        Pow2Values();
      }
    }
  }

  lemma {:induction false} WholeNumber(n: nat, j: nat, bits: nat, w: word)
    requires j <= 23 && bits == n * Pow2(j) && 0x80_0000 <= bits < 0x100_0000
    requires w == (149 - j) * 0x80_0000 + bits
    ensures Decode(w) == Number(n as real)
    decreases j
  {
    if j == 0 {
      SmallExponent(w, 0, bits);
    } else {
      Doubled(n, j);
      WholeNumber(2 * n, j - 1, bits, w + 0x80_0000);
      ExponentDoubles(w);
    }
  }

  /** Every positive whole number below 2^24 is the value of an explicit pattern -- its 24 bits without the
      first, under the exponent field 150 - j -- and its negation that of the pattern with bit 31. */
  lemma WholeNumbers(n: nat, j: nat, bits: nat, w: word)
    requires j <= 23 && bits == n * Pow2(j) && 0x80_0000 <= bits < 0x100_0000
    requires w == (149 - j) * 0x80_0000 + bits
    ensures w < 0x7f80_0000
    ensures Decode(w) == Number(n as real)
    ensures Decode(w + 0x8000_0000) == Number(0.0 - n as real)
  {
    WholeNumber(n, j, bits, w);
    SignAndSpecial(w);
  }

  /** The pattern of two registers, place by place. */
  lemma OfRegisters(u: seq<register>)
    requires |u| == 2
    ensures ToFloat(u) == Decode(u[0] as int * 65536 + u[1] as int)
  {
    Join2Exact(u);
  }

  /** The digits of both cases. */
  lemma HexDigitExact(d: nat)
    requires d < 16
    ensures IsHexDigit("0123456789abcdef"[d]) && HexDigit("0123456789abcdef"[d]) == d
    ensures IsHexDigit("0123456789ABCDEF"[d]) && HexDigit("0123456789ABCDEF"[d]) == d
  {
  }

  /** The value of four digits, place by place. */
  lemma HexWordExact(s: string)
    requires IsHexText(s) && |s| == 4
    ensures HexValue(s) == 4096 * HexDigit(s[0]) + 256 * HexDigit(s[1]) + 16 * HexDigit(s[2]) + HexDigit(s[3])
  {
    var ds := HexDigits(s);
    var hi, lo := [ds[0], ds[1]], [ds[2], ds[3]];
    assert ds == hi + lo;
    ValueBEConcat(hi, lo, 16);
    ValuePair(ds[0], ds[1], 16);
    ValuePair(ds[2], ds[3], 16);
    assert Pow(16, 2) == 256;
  }

  lemma OnePattern(w: word)
    requires w == 127 * 0x80_0000
    ensures Decode(w) == Number(1.0)
  {
    SmallExponent(w, 23, 0x80_0000);
    Pow2Values();
    Cancel(Decode(w).x, 1.0, 0x80_0000 as real);
  }

  lemma OneInRegisters()
    ensures ToFloat([0x3f80, 0]) == Number(1.0)
  {
    OfRegisters([0x3f80, 0]);
    OnePattern(0x3f80 * 65536);
  }

  /** Both decoders on one: registers 3f80 0000, and the text of the same digits. */
  lemma DecodeOne(s: string)
    requires s == "3F800000"
    ensures ToFloat([0x3f80, 0]) == Number(1.0)
    ensures IsHexText(s) && Hex2Float(s) == Number(1.0)
  {
    OneInRegisters();
    HexWordExact(s[..4]);
    HexWordExact(s[4..]);
    DecodersAgree(s);
    assert HexDigit('3') == 3 && HexDigit('F') == 15 && HexDigit('8') == 8 && HexDigit('0') == 0;
  }

  // ---------- Senec's flow split ----------

  /** The comparison `f < 0`, false for NaN. */
  predicate BelowZero(f: Float) {
    match f
    case NaN => false
    case Infinite(negative) => negative
    case Number(x) => x < 0.0
  }

  /** A reading counts as discharge (or feed-in) exactly when bit 31 is set, except for minus zero and
      NaN. */
  lemma SplitByBit31(w: word)
    ensures BelowZero(Decode(w)) <==> SignBit(w) && Magnitude(w) != 0 && !Decode(w).NaN?
  {
    if IsFinite(w) {
      assert Scaled(0) == 0 && Decode(0).x == 0.0 * PowR(-149);
      OrderPreserved(w, 0);
    }
  }

  const ZERO := Number(0.0)

  function Negated(f: Float): Float {
    match f
    case NaN => NaN
    case Infinite(negative) => Infinite(!negative)
    case Number(x) => Number(-x)
  }

  lemma ZeroByMagnitude(w: word)
    ensures Decode(w) == ZERO <==> Magnitude(w) == 0
  {
    if IsFinite(w) {
      assert Scaled(0) == 0 && Decode(0).x == 0.0 * PowR(-149);
      OrderPreserved(w, 0);
      OrderPreserved(0, w);
    }
  }

  /** The battery part of the split, for the power that pattern `w` reports; the grid part is its mirror
      image. Bit 31 decides the direction. */
  method SplitBattery(w: word) returns (charge: Float, discharge: Float)
    ensures charge == ZERO || discharge == ZERO
    ensures discharge != ZERO <==> SignBit(w) && Magnitude(w) != 0 && !Decode(w).NaN?
    ensures charge != ZERO <==> Decode(w).NaN? || (!SignBit(w) && Magnitude(w) != 0)
    ensures IsFinite(w) ==> charge.Number? && discharge.Number? && charge.x - discharge.x == Decode(w).x
    ensures IsFinite(w) ==> charge.x >= 0.0 && discharge.x >= 0.0
  {
    var power := Decode(w);
    SplitByBit31(w);
    ZeroByMagnitude(w);
    if BelowZero(power) {
      charge, discharge := ZERO, Negated(power);
    } else {
      charge, discharge := power, ZERO;
    }
  }
}
