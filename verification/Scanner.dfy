/** The number scanner of hafnertec/hafnertec_client.cpp: it looks for the first and the last digit of a
    text, and passes the index of the last one as a length. */
module Scanner {
  import opened Chars
  import opened Bits

  // ---------- atof ----------

  /** Where the run of digits that begins at i ends. */
  function RunFrom(t: string, i: nat): (n: nat)
    requires i <= |t|
    ensures i <= n <= |t|
    ensures forall k :: i <= k < n ==> IsDigit(t[k])
    ensures n < |t| ==> !IsDigit(t[n])
    decreases |t| - i
  {
    if i < |t| && IsDigit(t[i]) then RunFrom(t, i + 1) else i
  }

  /** The length of the run of digits at the front. */
  function DigitRun(t: string): (n: nat)
    ensures n <= |t|
    ensures forall i :: 0 <= i < n ==> IsDigit(t[i])
    ensures n < |t| ==> !IsDigit(t[n])
  {
    RunFrom(t, 0)
  }

  function Digit(c: char): nat
    requires IsDigit(c)
  {
    c as int - '0' as int
  }

  function IntOf(ds: string): nat
    requires forall i :: 0 <= i < |ds| ==> IsDigit(ds[i])
  {
    if ds == "" then 0 else 10 * IntOf(ds[..|ds| - 1]) + Digit(ds[|ds| - 1])
  }

  function Pow10(n: nat): (p: real)
    ensures p > 0.0
  {
    if n == 0 then 1.0 else 10.0 * Pow10(n - 1)
  }

  /** The value of digits behind a point. */
  function FractionOf(ds: string): real
    requires forall i :: 0 <= i < |ds| ==> IsDigit(ds[i])
  {
    if ds == "" then 0.0 else FractionOf(ds[..|ds| - 1]) + Digit(ds[|ds| - 1]) as real / Pow10(|ds|)
  }

  /** A point follows the leading digits. */
  predicate HasPoint(t: string) {
    DigitRun(t) < |t| && t[DigitRun(t)] == '.'
  }

  function BehindPoint(t: string): string {
    if HasPoint(t) then t[DigitRun(t) + 1..] else ""
  }

  function FractionRun(t: string): (n: nat)
    ensures n > 0 ==> DigitRun(t) + 1 + n <= |t|
  {
    DigitRun(BehindPoint(t))
  }

  function FractionDigits(t: string): (ds: string)
    ensures |ds| == FractionRun(t) && forall i :: 0 <= i < |ds| ==> IsDigit(ds[i])
  {
    BehindPoint(t)[..FractionRun(t)]
  }

  /** Where the longest unsigned decimal at the front of a text ends: behind its last digit. */
  function NumeralEnd(t: string): (n: nat)
    ensures n <= |t|
  {
    if FractionRun(t) > 0 then DigitRun(t) + 1 + FractionRun(t) else DigitRun(t)
  }

  /** The value of the longest unsigned decimal at the front. */
  function Decimal(t: string): real {
    IntOf(t[..DigitRun(t)]) as real + FractionOf(FractionDigits(t))
  }

  predicate HexForm(t: string) {
    && |t| >= 3 && t[0] == '0' && (t[1] == 'x' || t[1] == 'X')
    && (IsHexDigit(t[2]) || (t[2] == '.' && |t| >= 4 && IsHexDigit(t[3])))
  }

  /** An exponent at position k. */
  predicate ExponentAt(t: string, k: nat) {
    && k + 1 < |t| && (t[k] == 'e' || t[k] == 'E')
    && (IsDigit(t[k + 1]) || ((t[k + 1] == '+' || t[k + 1] == '-') && k + 2 < |t| && IsDigit(t[k + 2])))
  }

  /** The position behind the digits and, if there is one, the point of the leading decimal. */
  function MantissaEnd(t: string): nat {
    if HasPoint(t) then DigitRun(t) + 1 + FractionRun(t) else DigitRun(t)
  }

  /** A hexadecimal number, or a decimal with an exponent: the forms for which atof reads more than the
      leading decimal. */
  predicate Special(t: string) {
    HexForm(t) || ExponentAt(t, MantissaEnd(t))
  }

  /** atof on an empty text or one that starts with a digit; `special` is its value on special forms. */
  function Atof(t: string, special: string -> real): real
    requires t == "" || IsDigit(t[0])
  {
    if t == "" then 0.0 else if Special(t) then special(t) else Decimal(t)
  }

  // ---------- the scanner ----------

  /** The first digit at i or behind it. */
  function DigitFrom(s: string, i: nat): (k: nat)
    requires i <= |s|
    ensures i <= k <= |s| && (k < |s| ==> IsDigit(s[k]))
    ensures forall j :: i <= j < k ==> !IsDigit(s[j])
    decreases |s| - i
  {
    if i == |s| || IsDigit(s[i]) then i else DigitFrom(s, i + 1)
  }

  /** The last digit before n, or -1. */
  function DigitBefore(s: string, n: nat): (k: int)
    requires n <= |s|
    ensures -1 <= k < n && (k >= 0 ==> IsDigit(s[k]))
    ensures forall j :: k < j < n ==> !IsDigit(s[j])
  {
    if n == 0 || IsDigit(s[n - 1]) then n - 1 else DigitBefore(s, n - 1)
  }

  function FirstDigit(s: string): (i: nat)
    ensures i <= |s| && (i < |s| ==> IsDigit(s[i]))
    ensures forall j :: 0 <= j < i ==> !IsDigit(s[j])
  {
    DigitFrom(s, 0)
  }

  function LastDigit(s: string): (i: int)
    ensures -1 <= i < |s| && (i >= 0 ==> IsDigit(s[i]))
    ensures forall j :: i < j < |s| ==> !IsDigit(s[j])
  {
    DigitBefore(s, |s|)
  }

  /** s.substr(pos, count), where a negative count converts to npos. */
  function Substr(s: string, pos: nat, count: int): string
    requires pos <= |s|
  {
    if count < 0 || pos + count > |s| then s[pos..] else s[pos..pos + count]
  }

  /** What the scanner reads: nothing unless there are two digits, and then up to `last` characters from
      the first digit on. */
  function Scanned(s: string, special: string -> real): real {
    var first, last := FirstDigit(s), LastDigit(s);
    if last <= first then 0.0 else Atof(Substr(s, first, last), special)
  }

  method ParseNumeric(s: string, special: string -> real) returns (x: real)
    ensures x == Scanned(s, special)
  {
    var start := 0;
    while start < |s|
      invariant start <= |s|
      invariant forall j :: 0 <= j < start ==> !IsDigit(s[j])
    {
      if IsDigit(s[start]) && s[start] != '-' && s[start] != '.' && s[start] != '+' {
        break;
      }
      start := start + 1;
    }
    assert start == FirstDigit(s);

    var end := |s| - 1;
    while end > start
      invariant end <= |s| - 1 && (end >= start || end == |s| - 1)
      invariant forall j :: end < j < |s| ==> !IsDigit(s[j])
    {
      if IsDigit(s[end]) && s[end] != '-' && s[end] != '.' && s[end] != '+' {
        break;
      }
      end := end - 1;
    }

    assert start < |s| ==> IsDigit(s[end]) && end == LastDigit(s);
    assert start == |s| ==> LastDigit(s) == -1 && Substr(s, start, end) == "";
    if start == end {
      return 0.0;
    }
    var n := Substr(s, start, end);
    return Atof(n, special);
  }

  // ---------- truncated texts ----------

  /** The digit run is determined by its two properties. */
  lemma DigitRunUnique(t: string, n: nat)
    requires n <= |t| && (forall i :: 0 <= i < n ==> IsDigit(t[i])) && (n < |t| ==> !IsDigit(t[n]))
    ensures DigitRun(t) == n
  {
  }

  function Min(a: int, b: int): int {
    if a <= b then a else b
  }

  lemma DigitRunCut(t: string, n: nat)
    requires n <= |t|
    ensures DigitRun(t[..n]) == Min(DigitRun(t), n)
  {
    DigitRunUnique(t[..n], Min(DigitRun(t), n));
  }

  /** Cutting a text that starts with a digit cuts its numeral. */
  lemma CutPoint(t: string, n: nat)
    requires 1 <= n <= |t|
    ensures HasPoint(t[..n]) <==> HasPoint(t) && n > DigitRun(t)
    ensures HasPoint(t[..n]) ==> BehindPoint(t[..n]) == BehindPoint(t)[..n - DigitRun(t) - 1]
    ensures FractionRun(t[..n]) == if HasPoint(t[..n]) then Min(FractionRun(t), n - DigitRun(t) - 1) else 0
  {
    DigitRunCut(t, n);
    var a := DigitRun(t);
    if HasPoint(t) && n > a {
      assert t[..n][a + 1..] == t[a + 1..][..n - a - 1];
      DigitRunCut(BehindPoint(t), n - a - 1);
    }
  }

  lemma CutParts(t: string, n: nat)
    requires 1 <= n <= |t|
    ensures t[..n][..DigitRun(t[..n])] == t[..Min(DigitRun(t), n)]
    ensures HasPoint(t[..n]) ==> HasPoint(t) && n > DigitRun(t)
    ensures HasPoint(t[..n]) ==> FractionDigits(t[..n]) == FractionDigits(t)[..Min(FractionRun(t), n - DigitRun(t) - 1)]
    ensures !HasPoint(t[..n]) ==> FractionDigits(t[..n]) == ""
  {
    DigitRunCut(t, n);
    CutPoint(t, n);
  }

  /** Cutting a text never makes it special. */
  lemma CutSpecial(t: string, n: nat)
    requires 1 <= n <= |t| && Special(t[..n])
    ensures Special(t)
  {
    DigitRunCut(t, n);
    CutPoint(t, n);
    if !HexForm(t[..n]) {
      assert MantissaEnd(t[..n]) == MantissaEnd(t);
    }
  }

  /** Cutting behind the last digit changes no value. */
  lemma CutBehindDigits(t: string, n: nat)
    requires 1 <= n <= |t| && NumeralEnd(t) <= n
    ensures Decimal(t[..n]) == Decimal(t)
  {
    CutPoint(t, n);
    CutParts(t, n);
    assert FractionDigits(t[..n]) == FractionDigits(t);
  }

  lemma CutFraction(t: string)
    requires DigitRun(t) >= 1 && FractionRun(t) > 0
    ensures var t', b := t[..NumeralEnd(t) - 1], FractionRun(t);
            && t'[..DigitRun(t')] == t[..DigitRun(t)]
            && FractionRun(t') == b - 1 && FractionDigits(t') == FractionDigits(t)[..b - 1]
  {
    CutPoint(t, NumeralEnd(t) - 1);
    CutParts(t, NumeralEnd(t) - 1);
  }

  lemma ZeroQuotient(d: nat, p: real)
    requires p > 0.0
    ensures d as real / p == 0.0 <==> d == 0
  {
    assert d as real / p * p == d as real;
  }

  lemma LastFractionDigit(f: string)
    requires f != "" && forall i :: 0 <= i < |f| ==> IsDigit(f[i])
    ensures FractionOf(f[..|f| - 1]) == FractionOf(f) <==> f[|f| - 1] == '0'
  {
    ZeroQuotient(Digit(f[|f| - 1]), Pow10(|f|));
  }

  lemma DropFromFraction(t: string)
    requires DigitRun(t) >= 1 && FractionRun(t) > 0
    ensures var n := NumeralEnd(t) - 1;
            Decimal(t[..n]) == Decimal(t) <==> t[n] == '0'
  {
    var f := FractionDigits(t);
    assert t[NumeralEnd(t) - 1] == f[|f| - 1];
    CutFraction(t);
    LastFractionDigit(f);
  }

  lemma WholeNumber(t: string)
    requires FractionRun(t) == 0
    ensures Decimal(t) == IntOf(t[..DigitRun(t)]) as real
  {
    assert FractionDigits(t) == "";
  }

  lemma LastIntegerDigit(ds: string)
    requires ds != "" && forall i :: 0 <= i < |ds| ==> IsDigit(ds[i])
    ensures IntOf(ds[..|ds| - 1]) == IntOf(ds) <==> IntOf(ds) == 0
    ensures IntOf(ds) == 0 ==> ds[|ds| - 1] == '0'
  {
  }

  lemma DropFromInteger(t: string)
    requires DigitRun(t) >= 2 && FractionRun(t) == 0
    ensures var n := DigitRun(t) - 1;
            Decimal(t[..n]) == Decimal(t) <==> IntOf(t[..DigitRun(t)]) == 0
    ensures IntOf(t[..DigitRun(t)]) == 0 ==> t[DigitRun(t) - 1] == '0'
  {
    var a := DigitRun(t);
    WholeNumber(t);
    assert Decimal(t[..a - 1]) == IntOf(t[..a - 1]) as real by {
      CutPoint(t, a - 1);
      CutParts(t, a - 1);
      WholeNumber(t[..a - 1]);
    }
    assert t[..a][..a - 1] == t[..a - 1];
    LastIntegerDigit(t[..a]);
  }

  lemma DropLast(t: string)
    requires DigitRun(t) >= 1 && NumeralEnd(t) >= 2
    ensures var n := NumeralEnd(t) - 1;
            Decimal(t[..n]) == Decimal(t) <==> t[n] == '0' && (FractionRun(t) > 0 || IntOf(t[..DigitRun(t)]) == 0)
  {
    if FractionRun(t) > 0 {
      DropFromFraction(t);
    } else {
      DropFromInteger(t);
    }
  }

  // ---------- numerals and numbers ----------

  predicate Digits(s: string) {
    forall i :: 0 <= i < |s| ==> '0' <= s[i] <= '9'
  }

  /** The decimal numeral of a number. */
  function Show(n: nat): (s: string)
    ensures s != "" && Digits(s)
  {
    if n < 10 then ["0123456789"[n]] else Show(n / 10) + ["0123456789"[n % 10]]
  }

  lemma DigitShown(d: nat)
    requires d < 10
    ensures '0' <= "0123456789"[d] <= '9' && Digit("0123456789"[d]) == d
  {
  }

  lemma IntOfAppend(ds: string, c: char)
    requires Digits(ds) && IsDigit(c)
    ensures Digits(ds + [c]) && IntOf(ds + [c]) == 10 * IntOf(ds) + Digit(c)
  {
    assert (ds + [c])[..|ds|] == ds;
  }

  /** A numeral denotes the number it was written for. */
  lemma {:induction false} ShownNumber(n: nat)
    ensures IntOf(Show(n)) == n
  {
    if n < 10 {
      DigitShown(n);
      IntOfAppend("", "0123456789"[n]);
      assert "" + ["0123456789"[n]] == ["0123456789"[n]];
    } else {
      ShownNumber(n / 10);
      DigitShown(n % 10);
      IntOfAppend(Show(n / 10), "0123456789"[n % 10]);
    }
  }

  lemma {:induction false} PowersOfTen(n: nat)
    ensures Pow10(n) == Pow(10, n) as real && Pow(10, n) >= 1
  {
    if n > 0 {
      PowersOfTen(n - 1);
    }
  }

  lemma OneMoreDigit(v: real, x: nat, d: nat, p: real, w: real, y: nat, q: real)
    requires p > 0.0 && v * p == x as real
    requires q == 10.0 * p && w == v + d as real / q && y == 10 * x + d
    ensures w * q == y as real
  {
    assert d as real / q * q == d as real;
    assert v * q == 10.0 * (v * p);
  }

  lemma {:induction false} FractionScaled(ds: string) returns (w: real, y: nat, q: real)
    requires Digits(ds)
    ensures w == FractionOf(ds) && y == IntOf(ds) && q == Pow10(|ds|)
    ensures w * q == y as real
  {
    w, y, q := FractionOf(ds), IntOf(ds), Pow10(|ds|);
    if ds != "" {
      var v, x, p := FractionScaled(ds[..|ds| - 1]);
      OneMoreDigit(v, x, Digit(ds[|ds| - 1]), p, w, y, q);
    }
  }

  /** k digits behind the point are the number they spell, over 10^k. */
  lemma FractionExact(ds: string)
    requires Digits(ds)
    ensures FractionOf(ds) * Pow(10, |ds|) as real == IntOf(ds) as real
  {
    var w, y, q := FractionScaled(ds);
    PowersOfTen(|ds|);
  }

  /** A text that starts with a whole numeral, and no fraction behind it. */
  lemma WholeExact(t: string, a: string, rest: string)
    requires t == a + rest && a != "" && Digits(a)
    requires rest == "" || (!IsDigit(rest[0]) && (rest[0] == '.' ==> |rest| == 1 || !IsDigit(rest[1])))
    ensures NumeralEnd(t) == |a| && Decimal(t) == IntOf(a) as real
  {
    DigitRunUnique(t, |a|);
    assert t[..|a|] == a;
    if HasPoint(t) {
      assert BehindPoint(t) == rest[1..];
      DigitRunUnique(rest[1..], 0);
    }
    WholeNumber(t);
  }

  lemma PointShape(t: string, a: string, behind: string)
    requires t == a + "." + behind && a != "" && Digits(a)
    ensures DigitRun(t) == |a| && t[..|a|] == a && HasPoint(t) && BehindPoint(t) == behind
  {
    DigitRunUnique(t, |a|);
  }

  lemma LeadingRun(t: string, f: string, rest: string)
    requires t == f + rest && Digits(f) && (rest == "" || !IsDigit(rest[0]))
    ensures DigitRun(t) == |f| && t[..|f|] == f
  {
    DigitRunUnique(t, |f|);
  }

  /** A text that starts with a numeral with a point: its value is that of both digit strings, the second over
      a power of ten. */
  lemma PointExact(t: string, a: string, f: string, rest: string)
    requires t == a + "." + (f + rest) && a != "" && Digits(a) && f != "" && Digits(f)
    requires rest == "" || !IsDigit(rest[0])
    ensures NumeralEnd(t) == |a| + 1 + |f|
    ensures Decimal(t) == IntOf(a) as real + FractionOf(f)
    ensures FractionOf(f) * Pow(10, |f|) as real == IntOf(f) as real
  {
    PointShape(t, a, f + rest);
    LeadingRun(f + rest, f, rest);
    FractionExact(f);
  }

  // ---------- what the scanner gets right ----------

  /** With no digit or a single one the scanner returns 0, whatever the digit. */
  lemma FewDigits(s: string, special: string -> real)
    requires forall i, j :: 0 <= i < j < |s| ==> !(IsDigit(s[i]) && IsDigit(s[j]))
    ensures Scanned(s, special) == 0.0
  {
    var first, last := FirstDigit(s), LastDigit(s);
    assert last <= first;
  }

  lemma SubstrIsCut(s: string, pos: nat, count: nat)
    requires pos <= |s|
    ensures Substr(s, pos, count) == s[pos..][..Min(count, |s| - pos)]
  {
  }

  /** A numeral ends behind a digit. */
  lemma EndsAtDigit(t: string)
    requires t != "" && IsDigit(t[0])
    ensures NumeralEnd(t) >= 1 && IsDigit(t[NumeralEnd(t) - 1])
  {
    var a := DigitRun(t);
    if FractionRun(t) > 0 {
      assert t[NumeralEnd(t) - 1] == t[a + 1..][FractionRun(t) - 1];
    }
  }

  /** The numeral at the first digit ends at or before the last digit. */
  lemma NumeralBeforeLast(s: string)
    requires FirstDigit(s) < LastDigit(s)
    ensures FirstDigit(s) + NumeralEnd(s[FirstDigit(s)..]) <= LastDigit(s) + 1
  {
    var first := FirstDigit(s);
    EndsAtDigit(s[first..]);
    assert IsDigit(s[first + NumeralEnd(s[first..]) - 1]);
  }

  lemma ReadsCut(u: string, t: string, n: nat, special: string -> real)
    requires 1 <= n <= |t| && u == t[..n] && IsDigit(t[0]) && !Special(t) && NumeralEnd(t) <= n
    ensures Atof(u, special) == Decimal(t)
  {
    CutBehindDigits(t, n);
    if Special(u) {
      CutSpecial(t, n);
    }
  }

  /** With two digits or more of which the first is not at index 0, it returns the value of the longest
      unsigned decimal at the first digit. */
  lemma ScansDecimal(s: string, special: string -> real)
    requires 1 <= FirstDigit(s) < LastDigit(s) && !Special(s[FirstDigit(s)..])
    ensures Scanned(s, special) == Decimal(s[FirstDigit(s)..])
  {
    var first, last := FirstDigit(s), LastDigit(s);
    var t, u, n := s[first..], Substr(s, first, last), Min(last, |s| - first);
    SubstrIsCut(s, first, last);
    NumeralBeforeLast(s);
    ReadsCut(u, t, n, special);
  }

  lemma ReadsFromStart(s: string, special: string -> real)
    requires 0 == FirstDigit(s) < LastDigit(s) && !Special(s)
    ensures Scanned(s, special) == Decimal(s[..LastDigit(s)])
  {
    assert Substr(s, 0, LastDigit(s)) == s[..LastDigit(s)];
    if Special(s[..LastDigit(s)]) {
      CutSpecial(s, LastDigit(s));
    }
  }

  /** A numeral at index 0 that reaches behind the last digit ends with it. */
  lemma LastEndsNumeral(s: string)
    requires 0 == FirstDigit(s) < LastDigit(s) < NumeralEnd(s)
    ensures LastDigit(s) == NumeralEnd(s) - 1
  {
    EndsAtDigit(s);
    assert IsDigit(s[NumeralEnd(s) - 1]);
  }

  /** Dropping the last digit of a text that begins with a numeral. */
  lemma DroppedDigit(s: string)
    requires 0 == FirstDigit(s) < LastDigit(s)
    ensures var last := LastDigit(s);
            Decimal(s[..last]) == Decimal(s) <==>
              || last >= NumeralEnd(s)
              || (s[last] == '0' && (FractionRun(s) > 0 || IntOf(s[..DigitRun(s)]) == 0))
  {
    if LastDigit(s) >= NumeralEnd(s) {
      CutBehindDigits(s, LastDigit(s));
    } else {
      LastEndsNumeral(s);
      DropLast(s);
    }
  }

  /** With the first digit at index 0 the last digit of the text is cut off. The result is right exactly
      when that digit lies behind the numeral, or is a zero that does not matter: at the end of a
      fraction, or of an integer that is zero. */
  lemma ScansFromStart(s: string, special: string -> real)
    requires 0 == FirstDigit(s) < LastDigit(s) && !Special(s)
    ensures var last := LastDigit(s);
            Scanned(s, special) == Decimal(s) <==>
              || last >= NumeralEnd(s)
              || (s[last] == '0' && (FractionRun(s) > 0 || IntOf(s[..DigitRun(s)]) == 0))
  {
    ReadsFromStart(s, special);
    DroppedDigit(s);
  }

  lemma SingleDigitValue(t: string)
    requires t != "" && IsDigit(t[0]) && forall i :: 0 < i < |t| ==> !IsDigit(t[i])
    ensures Decimal(t) == Digit(t[0]) as real
  {
    DigitRunUnique(t, 1);
    WholeNumber(t);
    assert t[..1] == [t[0]] && IntOf([t[0]][..0]) == 0;
  }

  /** A single digit is read as 0, so that only the zero comes out right. */
  lemma SingleDigit(s: string, special: string -> real)
    requires 0 <= FirstDigit(s) == LastDigit(s)
    ensures Scanned(s, special) == 0.0
    ensures Scanned(s, special) == Decimal(s[FirstDigit(s)..]) <==> s[FirstDigit(s)] == '0'
  {
    FewDigits(s, special);
    var i := FirstDigit(s);
    var t := s[i..];
    assert Decimal(t) == Digit(s[i]) as real by {
      assert forall k :: 0 < k < |t| ==> t[k] == s[i + k];
      SingleDigitValue(t);
    }
  }

  /** When the scanner is right: for every text, its result is the value of the longest unsigned decimal
      at the first digit if and only if the text has no digit; or its only digit is 0; or there are more,
      and either the first is not at index 0, or dropping the last one makes no difference. */
  lemma ScansExactly(s: string, special: string -> real)
    requires !Special(s[FirstDigit(s)..])
    ensures var first, last := FirstDigit(s), LastDigit(s);
            Scanned(s, special) == Decimal(s[first..]) <==>
              || last < 0
              || (first == last && s[first] == '0')
              || 1 <= first < last
              || (0 == first < last && (|| last >= NumeralEnd(s)
                                        || (s[last] == '0' && (FractionRun(s) > 0 || IntOf(s[..DigitRun(s)]) == 0))))
  {
    var first, last := FirstDigit(s), LastDigit(s);
    if last < 0 {
      FewDigits(s, special);
      assert first == |s|;
      assert s[first..] == "";
      assert Decimal("") == 0.0;
    } else if first == last {
      SingleDigit(s, special);
    } else if first > 0 {
      ScansDecimal(s, special);
    } else {
      assert s[0..] == s;
      ScansFromStart(s, special);
    }
  }

  /** "18.8" is read as 18. */
  lemma LosesLastDigit(special: string -> real)
    ensures Scanned("18.8", special) != Decimal("18.8")
  {
    var s := "18.8";
    assert s[3..] == "8";
    assert DigitRun(s) == 2 && DigitRun(s[3..]) == 1;
    assert FirstDigit(s) == 0 && LastDigit(s) == 3;
    ScansFromStart(s, special);
  }
}
