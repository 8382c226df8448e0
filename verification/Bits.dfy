/** Fixed-width integers as the sources build them: bytes or 16-bit registers are shifted, or-ed and
    masked into an unsigned value, which is then read as two's complement.

    The bitwise operators are defined on naturals, bit by bit, so the facts below hold at every width;
    the wrap-around of JavaScript's 32-bit operators is written out on top of them. */
module Bits {

  type byte = x: int | 0 <= x < 256

  type register = x: int | 0 <= x < 65536

  // ---------- powers ----------

  function Pow(b: nat, n: nat): nat {
    if n == 0 then 1 else b * Pow(b, n - 1)
  }

  function Pow2(n: nat): (p: nat)
    ensures p >= 1
  {
    if n == 0 then 1 else 2 * Pow2(n - 1)
  }

  lemma {:induction false} Pow2Add(a: nat, b: nat)
    ensures Pow2(a + b) == Pow2(a) * Pow2(b)
  {
    if a > 0 {
      Pow2Add(a - 1, b);
    }
  }

  lemma {:induction false} Pow2Mono(a: nat, b: nat)
    requires a <= b
    ensures Pow2(a) <= Pow2(b)
  {
    if a < b {
      Pow2Mono(a, b - 1);
    }
  }

  lemma {:induction false} PowOfPow2(w: nat, n: nat)
    ensures Pow(Pow2(w), n) == Pow2(w * n)
  {
    if n > 0 {
      PowOfPow2(w, n - 1);
      Pow2Add(w, w * (n - 1));
      assert w + w * (n - 1) == w * n;
    }
  }

  lemma Pow2Values()
    ensures Pow2(7) == 128 && Pow2(8) == 256 && Pow2(15) == 32768 && Pow2(16) == 65536
    ensures Pow2(23) == 0x80_0000 && Pow2(24) == 0x100_0000 && Pow2(30) == 0x4000_0000
    ensures Pow2(31) == 0x8000_0000 && Pow2(32) == 0x1_0000_0000
  {
  }

  lemma MulCommutes(a: int, b: int)
    ensures a * b == b * a
  {
  }

  lemma Distribute(a: int, b: int, c: int)
    ensures (a + b) * c == a * c + b * c
  {
  }

  lemma MulAssoc(a: int, b: int, c: int)
    ensures a * (b * c) == (a * b) * c
  {
  }

  lemma MulMono(a: int, b: int, c: int)
    requires a <= b && 0 <= c
    ensures a * c <= b * c
  {
  }

  // ---------- bitwise operators ----------

  function BitAnd(a: nat, b: nat): nat {
    if a == 0 || b == 0 then 0
    else (if a % 2 == 1 && b % 2 == 1 then 1 else 0) + 2 * BitAnd(a / 2, b / 2)
  }

  function BitOr(a: nat, b: nat): nat
    decreases a + b
  {
    if a == 0 then b
    else if b == 0 then a
    else (if a % 2 == 1 || b % 2 == 1 then 1 else 0) + 2 * BitOr(a / 2, b / 2)
  }

  predicate BitAt(a: nat, i: nat) {
    if i == 0 then a % 2 == 1 else BitAt(a / 2, i - 1)
  }

  lemma {:induction false} ZeroHasNoBits(i: nat)
    ensures !BitAt(0, i)
  {
    if i > 0 {
      ZeroHasNoBits(i - 1);
    }
  }

  lemma HalfOfAnd(a: nat, b: nat)
    ensures BitAnd(a, b) / 2 == BitAnd(a / 2, b / 2)
    ensures BitAnd(a, b) % 2 == 1 <==> a % 2 == 1 && b % 2 == 1
  {
  }

  lemma HalfOfOr(a: nat, b: nat)
    ensures BitOr(a, b) / 2 == BitOr(a / 2, b / 2)
    ensures BitOr(a, b) % 2 == 1 <==> a % 2 == 1 || b % 2 == 1
  {
  }

  /** The two operators are the bitwise ones: bit i of the result is the Boolean combination of the
      two bits i. */
  lemma {:induction false} BitwiseByBit(a: nat, b: nat, i: nat)
    ensures BitAt(BitAnd(a, b), i) <==> BitAt(a, i) && BitAt(b, i)
    ensures BitAt(BitOr(a, b), i) <==> BitAt(a, i) || BitAt(b, i)
  {
    HalfOfAnd(a, b);
    HalfOfOr(a, b);
    if i > 0 {
      BitwiseByBit(a / 2, b / 2, i - 1);
    }
  }

  lemma DivUnique(a: nat, p: nat, q: nat, r: nat)
    requires p >= 1 && a == q * p + r && r < p
    ensures a / p == q && a % p == r
  {
    var q', r' := a / p, a % p;
    assert a == q' * p + r';
    if q < q' {
      MulMono(q + 1, q', p);
    } else if q' < q {
      MulMono(q' + 1, q, p);
    }
  }

  lemma DivDiv(a: nat, p: nat)
    requires p >= 1
    ensures a / 2 / p == a / (2 * p)
  {
    var q, r := a / 2 / p, a / 2 % p;
    assert a / 2 == q * p + r;
    var s := a - 2 * (a / 2);
    assert a == q * (2 * p) + (2 * r + s);
    DivUnique(a, 2 * p, q, 2 * r + s);
  }

  /** Bit i is set exactly when the quotient by 2^i is odd. */
  lemma {:induction false} BitAtIsQuotient(a: nat, i: nat)
    ensures BitAt(a, i) <==> a / Pow2(i) % 2 == 1
  {
    if i > 0 {
      BitAtIsQuotient(a / 2, i - 1);
      DivDiv(a, Pow2(i - 1));
    }
  }

  /** Or-ing onto zeroed low bits adds. */
  lemma {:induction false} OrAdds(hi: nat, lo: nat, k: nat)
    requires lo < Pow2(k)
    ensures BitOr(hi * Pow2(k), lo) == hi * Pow2(k) + lo
  {
    if k > 0 && hi > 0 {
      var h := hi * Pow2(k - 1);
      assert hi * Pow2(k) == 2 * h;
      OrAdds(hi, lo / 2, k - 1);
    } else if k == 0 {
      assert lo == 0;
    }
  }

  lemma AndOddMask(y: nat, b: nat, p: nat)
    requires b <= 1 && p >= 1
    ensures BitAnd(2 * y + b, 2 * p - 1) == b + 2 * BitAnd(y, p - 1)
  {
    assert (2 * y + b) / 2 == y && (2 * p - 1) / 2 == p - 1;
  }

  lemma HalfSum(x: nat, q: nat, p: nat, r: nat)
    requires x == q * (2 * p) + r
    ensures x == 2 * (q * p + r / 2) + r % 2 && q * p >= 0
  {
    MulAssoc(q, 2, p);
    MulAssoc(2, q, p);
    MulMono(0, q, p);
  }

  lemma {:induction false} AndMaskLow(x: nat, q: nat, r: nat, k: nat)
    requires r < Pow2(k) && x == q * Pow2(k) + r
    ensures BitAnd(x, Pow2(k) - 1) == r
  {
    if k > 0 {
      var p := Pow2(k - 1);
      HalfSum(x, q, p, r);
      AndMaskLow(q * p + r / 2, q, r / 2, k - 1);
      AndOddMask(q * p + r / 2, r % 2, p);
    }
  }

  lemma DivMod(x: nat, p: nat) returns (q: nat, r: nat)
    requires p >= 1
    ensures x == q * p + r && r < p && r == x % p
  {
    q, r := x / p, x % p;
  }

  /** Masking with 2^k - 1 keeps the low k bits. */
  lemma AndMaskIsMod(x: nat, k: nat)
    ensures BitAnd(x, Pow2(k) - 1) == x % Pow2(k)
  {
    var q, r := DivMod(x, Pow2(k));
    AndMaskLow(x, q, r, k);
  }

  /** Masking with the single bit 2^k tests that bit. */
  lemma {:induction false} AndBit(x: nat, k: nat)
    ensures BitAnd(x, Pow2(k)) == if BitAt(x, k) then Pow2(k) else 0
  {
    ZeroHasNoBits(k);
    if x > 0 {
      if k > 0 {
        AndBit(x / 2, k - 1);
      } else {
        assert BitAnd(x / 2, 0) == 0;
      }
    }
  }

  function Shl(x: int, n: nat): (r: int)
    ensures x >= 0 ==> r >= 0
  {
    if n == 0 then x else 2 * Shl(x, n - 1)
  }

  lemma {:induction false} ShlMultiplies(x: int, n: nat)
    ensures Shl(x, n) == x * Pow2(n)
  {
    if n > 0 {
      ShlMultiplies(x, n - 1);
      MulAssoc(x, 2, Pow2(n - 1));
    }
  }

  // ---------- positional values ----------

  predicate IsDigits(ds: seq<nat>, base: nat) {
    forall i :: 0 <= i < |ds| ==> ds[i] < base
  }

  /** Least significant digit first. */
  function ValueLE(ds: seq<nat>, base: nat): nat {
    if ds == [] then 0 else ds[0] + base * ValueLE(ds[1..], base)
  }

  function Reverse(ds: seq<nat>): (r: seq<nat>)
    ensures |r| == |ds|
  {
    seq(|ds|, i requires 0 <= i < |ds| => ds[|ds| - 1 - i])
  }

  /** Most significant digit first. */
  function ValueBE(ds: seq<nat>, base: nat): nat {
    ValueLE(Reverse(ds), base)
  }

  function DigitsLE(v: nat, n: nat, base: nat): (ds: seq<nat>)
    requires base >= 2
    ensures |ds| == n && IsDigits(ds, base)
    decreases n
  {
    if n == 0 then [] else [v % base] + DigitsLE(v / base, n - 1, base)
  }

  lemma AppendBound(v: nat, d: nat, p: nat, base: nat)
    requires v < p && d < base
    ensures v * base + d < base * p && base * v == v * base
  {
    MulMono(v + 1, p, base);
  }

  lemma {:induction false} ValueLEBound(ds: seq<nat>, base: nat)
    requires base >= 2 && IsDigits(ds, base)
    ensures ValueLE(ds, base) < Pow(base, |ds|)
  {
    if ds != [] {
      ValueLEBound(ds[1..], base);
      AppendBound(ValueLE(ds[1..], base), ds[0], Pow(base, |ds| - 1), base);
    }
  }

  lemma ValueBEBound(ds: seq<nat>, base: nat)
    requires base >= 2 && IsDigits(ds, base)
    ensures ValueBE(ds, base) < Pow(base, |ds|)
  {
    ValueLEBound(Reverse(ds), base);
  }

  lemma DivideExactly(v: nat, base: nat)
    requires base >= 1
    ensures v == v % base + base * (v / base)
  {
  }

  lemma QuotBound(v: nat, n: nat, base: nat)
    requires base >= 1 && n > 0 && v < Pow(base, n)
    ensures v / base < Pow(base, n - 1)
  {
    var q, p := v / base, Pow(base, n - 1);
    DivideExactly(v, base);
    if q >= p {
      MulMono(p, q, base);
    }
  }

  lemma ValueCons(d: nat, ds: seq<nat>, base: nat)
    ensures ValueLE([d] + ds, base) == d + base * ValueLE(ds, base)
  {
    assert ([d] + ds)[1..] == ds;
  }

  lemma LowestDigit(v: nat, ds: seq<nat>, base: nat)
    requires base >= 1 && ValueLE(ds, base) == v / base
    ensures ValueLE([v % base] + ds, base) == v
  {
    ValueCons(v % base, ds, base);
    DivideExactly(v, base);
  }

  /** Encoding and decoding n digits are inverse on [0, base^n). */
  lemma {:induction false} DigitsRoundTrip(v: nat, n: nat, base: nat)
    requires base >= 2 && v < Pow(base, n)
    ensures ValueLE(DigitsLE(v, n, base), base) == v
    decreases n
  {
    if n > 0 {
      QuotBound(v, n, base);
      DigitsRoundTrip(v / base, n - 1, base);
      LowestDigit(v, DigitsLE(v / base, n - 1, base), base);
    }
  }

  lemma {:induction false} ValueRoundTrip(ds: seq<nat>, base: nat)
    requires base >= 2 && IsDigits(ds, base)
    ensures DigitsLE(ValueLE(ds, base), |ds|, base) == ds
  {
    if ds != [] {
      ValueRoundTrip(ds[1..], base);
      MulCommutes(ValueLE(ds[1..], base), base);
      DivUnique(ValueLE(ds, base), base, ValueLE(ds[1..], base), ds[0]);
    }
  }

  function DigitsBE(v: nat, n: nat, base: nat): (ds: seq<nat>)
    requires base >= 2
    ensures |ds| == n && IsDigits(ds, base)
  {
    Reverse(DigitsLE(v, n, base))
  }

  lemma DigitsBERoundTrip(v: nat, n: nat, base: nat)
    requires base >= 2 && v < Pow(base, n)
    ensures ValueBE(DigitsBE(v, n, base), base) == v
  {
    DigitsRoundTrip(v, n, base);
    assert Reverse(DigitsBE(v, n, base)) == DigitsLE(v, n, base);
  }

  lemma ValueSnoc(ds: seq<nat>, d: nat, base: nat)
    ensures ValueBE(ds + [d], base) == d + base * ValueBE(ds, base)
  {
    assert Reverse(ds + [d]) == [d] + Reverse(ds);
    ValueCons(d, Reverse(ds), base);
  }

  lemma ValuePair(hi: nat, lo: nat, base: nat)
    ensures ValueBE([hi, lo], base) == hi * base + lo
  {
    assert [hi] + [lo] == [hi, lo] && [] + [hi] == [hi];
    ValueSnoc([hi], lo, base);
    ValueSnoc([], hi, base);
  }

  lemma ScaleSum(b: int, x: int, p: int, y: int)
    ensures b * (x + p * y) == b * x + (b * p) * y
  {
  }

  lemma {:induction false} ValueLEConcat(lo: seq<nat>, hi: seq<nat>, base: nat)
    ensures ValueLE(lo + hi, base) == ValueLE(lo, base) + Pow(base, |lo|) * ValueLE(hi, base)
  {
    if lo == [] {
      assert lo + hi == hi;
    } else {
      ValueLEConcat(lo[1..], hi, base);
      assert lo + hi == [lo[0]] + (lo[1..] + hi);
      ValueCons(lo[0], lo[1..] + hi, base);
      ScaleSum(base, ValueLE(lo[1..], base), Pow(base, |lo| - 1), ValueLE(hi, base));
    }
  }

  lemma ValueBEConcat(hi: seq<nat>, lo: seq<nat>, base: nat)
    ensures ValueBE(hi + lo, base) == ValueBE(lo, base) + Pow(base, |lo|) * ValueBE(hi, base)
  {
    assert Reverse(hi + lo) == Reverse(lo) + Reverse(hi);
    ValueLEConcat(Reverse(lo), Reverse(hi), base);
  }

  /** What the sources compute from digits of w bits, most significant first: each digit is shifted to
      its absolute position, the last one by `low`, and or-ed onto the result so far. */
  function ShiftOr(ds: seq<nat>, w: nat, low: nat): nat {
    if ds == [] then 0
    else BitOr(ShiftOr(ds[..|ds| - 1], w, w + low), Shl(ds[|ds| - 1], low))
  }

  lemma OrDigit(v: nat, d: nat, w: nat, low: nat)
    requires d < Pow2(w)
    ensures BitOr(v * Pow2(w + low), d * Pow2(low)) == (v * Pow2(w) + d) * Pow2(low)
  {
    var p, q := Pow2(w), Pow2(low);
    Pow2Add(w, low);
    MulMono(d + 1, p, q);
    Distribute(d, 1, q);
    OrAdds(v, d * q, w + low);
    MulAssoc(v, p, q);
    Distribute(v * p, d, q);
  }

  /** One more digit in shift-and-or assembly. */
  lemma ShiftOrStep(v: nat, d: nat, w: nat, low: nat)
    requires d < Pow2(w)
    ensures BitOr(v * Pow2(w + low), Shl(d, low)) == (d + Pow2(w) * v) * Pow2(low)
  {
    ShlMultiplies(d, low);
    MulCommutes(v, Pow2(w));
    OrDigit(v, d, w, low);
  }

  /** Shift-and-or assembly is the positional value, for digits of any width and any count. */
  lemma {:induction false} ShiftOrIsPositional(ds: seq<nat>, w: nat, low: nat)
    requires IsDigits(ds, Pow2(w))
    ensures ShiftOr(ds, w, low) == ValueBE(ds, Pow2(w)) * Pow2(low)
  {
    if ds != [] {
      var init, d := ds[..|ds| - 1], ds[|ds| - 1];
      ShiftOrIsPositional(init, w, w + low);
      assert init + [d] == ds;
      ValueSnoc(init, d, Pow2(w));
      ShiftOrStep(ValueBE(init, Pow2(w)), d, w, low);
    }
  }

  lemma ValueBEBits(ds: seq<nat>, w: nat)
    requires w >= 1 && IsDigits(ds, Pow2(w))
    ensures ValueBE(ds, Pow2(w)) < Pow2(w * |ds|)
  {
    assert Pow2(w) == 2 * Pow2(w - 1);
    ValueBEBound(ds, Pow2(w));
    PowOfPow2(w, |ds|);
  }

  lemma ShiftOrComplete(ds: seq<nat>, w: nat)
    requires w >= 1 && IsDigits(ds, Pow2(w))
    ensures ShiftOr(ds, w, 0) == ValueBE(ds, Pow2(w)) < Pow2(w * |ds|)
  {
    assert ShiftOr(ds, w, 0) == ValueBE(ds, Pow2(w)) by {
      ShiftOrIsPositional(ds, w, 0);
      assert Pow2(0) == 1;
    }
    ValueBEBits(ds, w);
  }

  // ---------- two's complement ----------

  /** The signed reading of an n-bit pattern. */
  function Signed(v: int, n: nat): int
    requires n >= 1
  {
    if v < Pow2(n - 1) then v else v - Pow2(n)
  }

  predicate InSignedRange(x: int, n: nat)
    requires n >= 1
  {
    0 - Pow2(n - 1) <= x < Pow2(n - 1)
  }

  lemma ModOfNegative(x: int, p: nat)
    requires 0 - p <= x < 0
    ensures x % p == x + p
  {
    var q, r := x / p, x % p;
    assert x == q * p + r;
    if q < -1 {
      MulMono(q, -2, p);
    } else if q >= 0 {
      MulMono(0, q, p);
    }
  }

  /** The signed reading of a pattern is the only value of the signed range that re-encodes to it. */
  lemma SignedIsUnique(v: nat, x: int, n: nat)
    requires n >= 1 && v < Pow2(n)
    ensures InSignedRange(x, n) && x % Pow2(n) == v <==> x == Signed(v, n)
  {
    var p := Pow2(n);
    if InSignedRange(x, n) {
      if x >= 0 {
        DivUnique(x, p, 0, x);
      } else {
        ModOfNegative(x, p);
      }
    }
    if x == Signed(v, n) {
      if x >= 0 {
        DivUnique(x, p, 0, x);
      } else {
        ModOfNegative(x, p);
      }
    }
  }

  // ---------- JavaScript's 32-bit operators ----------

  function ToUint32(x: int): (r: nat)
    ensures r < 0x1_0000_0000
  {
    x % 0x1_0000_0000
  }

  function ToInt32(x: int): int {
    var u := ToUint32(x);
    if u < 0x8000_0000 then u else u - 0x1_0000_0000
  }

  /** The wrap to 32 bits is the only value of the signed 32-bit range that is congruent to its argument. */
  lemma ToInt32IsSigned(x: int, y: int)
    ensures y == ToInt32(x) <==> InSignedRange(y, 32) && y % 0x1_0000_0000 == x % 0x1_0000_0000
  {
    Pow2Values();
    SignedIsUnique(ToUint32(x), y, 32);
  }

  function JsShl(x: int, n: nat): int {
    ToInt32(Shl(x, n % 32))
  }

  function JsAnd(x: int, y: int): int {
    ToInt32(BitAnd(ToUint32(x), ToUint32(y)))
  }

  function JsOr(x: int, y: int): int {
    ToInt32(BitOr(ToUint32(x), ToUint32(y)))
  }

  lemma ToInt32Small(x: int)
    requires 0 <= x < 0x8000_0000
    ensures ToUint32(x) == x && ToInt32(x) == x
  {
  }
}
