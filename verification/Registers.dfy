/** Decoding Modbus registers (base/modbus_connection.cpp, solvis/solvis_module.cpp): 16-bit registers,
    most significant first, read as signed integers and bit sets. */
module Registers {
  import opened Bits

  // ---------- the conversions ----------

  /** The first register shifted above the second and or-ed with it. */
  function Join2(u: seq<register>): (v: nat)
    requires |u| == 2
  {
    BitOr(Shl(u[0], 16), u[1])
  }

  /** Four registers shifted to their places and or-ed, in 64 unsigned bits. */
  function Join4(u: seq<register>): (v: nat)
    requires |u| == 4
  {
    BitOr(BitOr(BitOr(Shl(u[0], 48), Shl(u[1], 32)), Shl(u[2], 16)), u[3])
  }

  function ToInt16(u: register): int {
    Signed(u, 16)
  }

  function ToInt32(u: seq<register>): int
    requires |u| == 2
  {
    Signed(Join2(u), 32)
  }

  function ToInt64(u: seq<register>): int
    requires |u| == 4
  {
    Signed(Join4(u), 64)
  }

  /** The first register, shifted as a 32-bit int and so possibly negative, plus the second; converted to
      64 unsigned bits, of which the bit set keeps the low half. */
  function ToBitset32(u: seq<register>): (v: nat)
    requires |u| == 2
  {
    var sum := Bits.ToInt32(Shl(u[0], 16)) + u[1];
    sum % 0x1_0000_0000_0000_0000 % 0x1_0000_0000
  }

  /** A register above the signed maximum is complemented as an int, cut to 16 bits, negated and lowered
      by one. */
  function Uint2Int(u: register): int {
    if u <= 32767 then u else -Signed((-(u as int) - 1) % 65536, 16) - 1
  }

  // ---------- their meaning ----------

  function Positional(u: seq<register>): (v: nat) {
    ValueBE(u, 65536)
  }

  lemma ShiftOrRegisters(u: seq<register>)
    ensures ShiftOr(u, 16, 0) == Positional(u) < Pow2(16 * |u|)
  {
    Pow2Values();
    ShiftOrComplete(u, 16);
  }

  lemma ShiftOr2(u: seq<register>)
    requires |u| == 2
    ensures ShiftOr(u, 16, 0) == BitOr(Shl(u[0], 16), u[1])
  {
    assert u[..1][..0] == [];
    assert ShiftOr(u[..1], 16, 16) == Shl(u[0], 16);
  }

  lemma Join2IsPositional(u: seq<register>)
    requires |u| == 2
    ensures Join2(u) == Positional(u) < Pow2(32)
  {
    ShiftOrRegisters(u);
    ShiftOr2(u);
  }

  lemma ShiftOr4(u: seq<register>)
    requires |u| == 4
    ensures ShiftOr(u, 16, 0) == BitOr(BitOr(BitOr(Shl(u[0], 48), Shl(u[1], 32)), Shl(u[2], 16)), u[3])
  {
    assert u[..3][..2] == u[..2] && u[..2][..1] == u[..1] && u[..1][..0] == [];
    assert ShiftOr(u[..1], 16, 48) == Shl(u[0], 48);
    assert ShiftOr(u[..2], 16, 32) == BitOr(Shl(u[0], 48), Shl(u[1], 32));
  }

  lemma Join4IsPositional(u: seq<register>)
    requires |u| == 4
    ensures Join4(u) == Positional(u) < Pow2(64)
  {
    ShiftOrRegisters(u);
    ShiftOr4(u);
  }

  lemma Join2Exact(u: seq<register>)
    requires |u| == 2
    ensures Join2(u) == u[0] as int * 65536 + u[1] as int
  {
    Join2IsPositional(u);
    assert u == [u[0], u[1]];
    ValuePair(u[0], u[1], 65536);
  }

  lemma ValueOfFour(u: seq<register>)
    requires |u| == 4
    ensures Positional(u) == Positional(u[..2]) * 0x1_0000_0000 + Positional(u[2..])
  {
    assert u == u[..2] + u[2..];
    ValueBEConcat(u[..2], u[2..], 65536);
    assert Pow(65536, 2) == 0x1_0000_0000;
  }

  lemma Join4Exact(u: seq<register>)
    requires |u| == 4
    ensures Join4(u) == (u[0] as int * 65536 + u[1] as int) * 0x1_0000_0000 + u[2] as int * 65536 + u[3] as int
  {
    Join4IsPositional(u);
    ValueOfFour(u);
    assert u[..2] == [u[0], u[1]] && u[2..] == [u[2], u[3]];
    ValuePair(u[0], u[1], 65536);
    ValuePair(u[2], u[3], 65536);
  }

  lemma WidePowers()
    ensures Pow2(63) == 0x8000_0000_0000_0000 && Pow2(64) == 0x1_0000_0000_0000_0000
  {
    Pow2Values();
    Pow2Add(32, 31);
    Pow2Add(32, 32);
  }

  /** The conversions in plain numbers, most significant register first: the only number of the signed 16-,
      32- or 64-bit range with the registers' remainder. */
  lemma IntegersExact(u: seq<register>, x: int)
    ensures |u| == 1 ==> (x == ToInt16(u[0]) <==> -0x8000 <= x < 0x8000 && x % 0x1_0000 == u[0])
    ensures |u| == 2 ==>
              (x == ToInt32(u) <==>
                 -0x8000_0000 <= x < 0x8000_0000 && x % 0x1_0000_0000 == u[0] as int * 65536 + u[1] as int)
    ensures |u| == 4 ==>
              (x == ToInt64(u) <==>
                 && -0x8000_0000_0000_0000 <= x < 0x8000_0000_0000_0000
                 && x % 0x1_0000_0000_0000_0000 ==
                    (u[0] as int * 65536 + u[1] as int) * 0x1_0000_0000 + u[2] as int * 65536 + u[3] as int)
  {
    if |u| == 1 {
      Pow2Values();
      SignedIsUnique(u[0], x, 16);
    } else if |u| == 2 {
      Pow2Values();
      Join2IsPositional(u);
      Join2Exact(u);
      SignedIsUnique(Join2(u), x, 32);
    } else if |u| == 4 {
      WidePowers();
      Join4IsPositional(u);
      Join4Exact(u);
      SignedIsUnique(Join4(u), x, 64);
    }
  }

  /** The signed conversions return the only value of their range that is congruent to the registers'
      positional value, at each width. */
  lemma ToInt16Exact(u: register, x: int)
    ensures x == ToInt16(u) <==> InSignedRange(x, 16) && x % Pow2(16) == u
  {
    Pow2Values();
    SignedIsUnique(u, x, 16);
  }

  lemma ToInt32Exact(u: seq<register>, x: int)
    requires |u| == 2
    ensures x == ToInt32(u) <==> InSignedRange(x, 32) && x % Pow2(32) == Positional(u)
  {
    Join2IsPositional(u);
    SignedIsUnique(Join2(u), x, 32);
  }

  lemma ToInt64Exact(u: seq<register>, x: int)
    requires |u| == 4
    ensures x == ToInt64(u) <==> InSignedRange(x, 64) && x % Pow2(64) == Positional(u)
  {
    Join4IsPositional(u);
    SignedIsUnique(Join4(u), x, 64);
  }

  /** The registers of a signed n * 16-bit number. */
  function Encode(x: int, n: nat): (u: seq<register>)
    ensures |u| == n
  {
    var ds := DigitsBE(x % Pow2(16 * n), n, 65536);
    seq(n, i requires 0 <= i < n => ds[i] as register)
  }

  lemma EncodedValue(x: int, n: nat)
    ensures Positional(Encode(x, n)) == x % Pow2(16 * n)
  {
    Pow2Values();
    PowOfPow2(16, n);
    var v := x % Pow2(16 * n);
    DigitsBERoundTrip(v, n, 65536);
    assert Encode(x, n) == DigitsBE(v, n, 65536);
  }

  /** Every 32-bit and every 64-bit number is read back from its registers. */
  lemma RegisterRoundTrip(x: int)
    ensures InSignedRange(x, 32) ==> ToInt32(Encode(x, 2)) == x
    ensures InSignedRange(x, 64) ==> ToInt64(Encode(x, 4)) == x
  {
    EncodedValue(x, 2);
    EncodedValue(x, 4);
    ToInt32Exact(Encode(x, 2), x);
    ToInt64Exact(Encode(x, 4), x);
  }

  /** Solvis' arithmetic conversion and the Modbus reinterpretation agree on every register. */
  lemma Uint2IntIsToInt16(u: register)
    ensures Uint2Int(u) == ToInt16(u)
  {
    Pow2Values();
  }

  /** The bit set holds the 32 bits of the two registers, also when the shift overflows to a negative
      number and the conversion sign-extends it. */
  lemma BitsetIsPositional(u: seq<register>)
    requires |u| == 2
    ensures ToBitset32(u) == Positional(u)
  {
    var hi: nat, lo: nat := u[0], u[1];
    Pow2Values();
    ShlMultiplies(hi, 16);
    ValuePair(hi, lo, 65536);
    assert u == [hi, lo];
  }

  lemma BitsetExact(u: seq<register>)
    requires |u| == 2
    ensures ToBitset32(u) == u[0] as int * 65536 + u[1] as int
  {
    BitsetIsPositional(u);
    Join2IsPositional(u);
    Join2Exact(u);
  }
}
