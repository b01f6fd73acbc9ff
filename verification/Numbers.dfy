/**
  How JSON Patch compares numbers: canonicalNumber rewrites a number text, and
  numbers are equal when the rewritten texts are.
 */
module Numbers {
  import opened Ascii
  import R = Rfc8259

  const MAX_INT: int := 0x7FFF_FFFF_FFFF_FFFF
  const MIN_INT: int := -0x8000_0000_0000_0000

  predicate FitsInt(n: int) { MIN_INT <= n <= MAX_INT }

  // The text operations that canonicalNumber uses

  function LowerByte(c: byte): byte { if 0x41 <= c <= 0x5A then c + 0x20 else c }

  function Lower(s: Bytes): (t: Bytes)
    ensures |t| == |s|
  {
    seq(|s|, i requires 0 <= i < |s| => LowerByte(s[i]))
  }

  /** strings.Cut */
  datatype Parts = Parts(before: Bytes, after: Bytes, found: bool)

  function Cut(s: Bytes, c: byte): Parts {
    if s == [] then Parts([], [], false)
    else if s[0] == c then Parts([], s[1..], true)
    else
      var p := Cut(s[1..], c);
      Parts([s[0]] + p.before, p.after, p.found)
  }

  function TrimLeft(s: Bytes): Bytes { if s != [] && s[0] == ZERO then TrimLeft(s[1..]) else s }

  function TrimRight(s: Bytes): Bytes {
    if s != [] && s[|s| - 1] == ZERO then TrimRight(s[..|s| - 1]) else s
  }

  function Digit(c: byte): (d: nat)
    ensures IsDigit(c) ==> d < 10
  {
    if IsDigit(c) then (c - ZERO) as nat else 0
  }

  /** The number that decimal digits denote. */
  function Nat(s: Bytes): nat {
    if s == [] then 0 else 10 * Nat(s[..|s| - 1]) + Digit(s[|s| - 1])
  }

  /** strconv.Atoi: None unless s is a sign and digits, and the number fits. */
  function Atoi(s: Bytes): Option<int> {
    var u := if s != [] && (s[0] == PLUS || s[0] == MINUS) then s[1..] else s;
    var n: int := if s != [] && s[0] == MINUS then 0 - Nat(u) else Nat(u);
    if u != [] && R.AllDigits(u) && FitsInt(n) then Some(n) else None
  }

  function NatText(n: nat): (s: Bytes)
    ensures s != [] && R.AllDigits(s) && Nat(s) == n
  {
    var last := ZERO + (n % 10) as byte;
    if n < 10 then OneDigit(last); [last]
    else
      var s := NatText(n / 10) + [last];
      assert s[..|s| - 1] == NatText(n / 10);
      s
  }

  lemma OneDigit(c: byte)
    requires IsDigit(c)
    ensures Nat([c]) == Digit(c)
  {
    assert [c][..0] == [];
  }

  /** strconv.Itoa */
  function Itoa(n: int): Bytes { if n < 0 then [MINUS] + NatText(-n) else NatText(n) }

  /** The exponent is moved by this much when digits are trimmed. */
  function Shift(digits: Bytes, frac: Bytes): int { |digits| - |TrimRight(digits)| - |frac| }

  /** The check before the addition, which must not overflow. */
  predicate WouldOverflow(exp: int, shift: int) {
    (shift > 0 && exp > MAX_INT - shift) || (shift < 0 && exp < MIN_INT - shift)
  }

  const ZERO_TEXT: Bytes := [ZERO]
  const EXP: byte := 0x65

  function CanonicalText(neg: bool, digits: Bytes, exp: int): Bytes {
    (if neg then [MINUS] else []) + (digits + ([EXP] + Itoa(exp)))
  }

  /** What is left of canonicalNumber once the text is in parts. */
  function CanonicalParts(neg: bool, whole: Bytes, frac: Bytes, exp: Option<int>): Option<Bytes> {
    if whole == [] || !R.AllDigits(whole + frac) || exp == None then None
    else
      var digits := TrimLeft(whole + frac);
      if digits == [] then Some(ZERO_TEXT)
      else if WouldOverflow(exp.value, Shift(digits, frac)) then None
      else Some(CanonicalText(neg, TrimRight(digits), exp.value + Shift(digits, frac)))
  }

  function Canonical(s: Bytes): Option<Bytes> {
    var neg := s != [] && s[0] == MINUS;
    var p := Cut(Lower(if neg then s[1..] else s), EXP);
    var m := Cut(p.before, DOT);
    CanonicalParts(neg, m.before, m.after, if p.found then Atoi(p.after) else Some(0))
  }

  predicate NumbersEqual(a: Bytes, b: Bytes) {
    a == b || (Canonical(a).Some? && Canonical(b).Some? && Canonical(a) == Canonical(b))
  }

  /** canonicalNumber, its parts found one after the other. */
  method CanonicalNumber(text: Bytes) returns (r: Option<Bytes>)
    ensures r == Canonical(text)
  {
    hide TrimLeft, TrimRight, Cut, Lower, Atoi, Itoa;
    var s := text;
    var neg := false;
    if s != [] && s[0] == MINUS {
      neg := true;
      s := s[1..];
    }
    var p := Cut(Lower(s), EXP);
    var m := Cut(p.before, DOT);
    if m.before == [] {
      return None;
    }
    var digits := m.before + m.after;
    for i := 0 to |digits|
      invariant forall j :: 0 <= j < i ==> IsDigit(digits[j])
    {
      if !IsDigit(digits[i]) {
        return None;
      }
    }
    var exp := 0;
    if p.found {
      var e := Atoi(p.after);
      if e == None {
        return None;
      }
      exp := e.value;
    }
    digits := TrimLeft(digits);
    if digits == [] {
      return Some([ZERO]);
    }
    var trimmed := TrimRight(digits);
    var shift := |digits| - |trimmed| - |m.after|;
    if (shift > 0 && exp > MAX_INT - shift) || (shift < 0 && exp < MIN_INT - shift) {
      return None;
    }
    exp := exp + shift;
    var sign: Bytes := if neg then [MINUS] else [];
    return Some(sign + (trimmed + ([EXP] + Itoa(exp))));
  }

  // What a number text means

  function Pow10(n: nat): (p: int)
    ensures p >= 1
  {
    if n == 0 then 1 else 10 * Pow10(n - 1)
  }

  /** Ten to any power, as a rational. */
  function Power(n: int): (p: real)
    ensures p > 0.0
  {
    if n >= 0 then Pow10(n) as real else 1.0 / Pow10(-n) as real
  }

  function FracDigits(n: R.Number): Bytes { if n.frac == None then [] else n.frac.value }

  /** The exponent as the text has it, unbounded. */
  function ExponentOf(n: R.Number): int {
    if n.exp == None then 0
    else if n.exp.value.sign == [MINUS] then 0 - Nat(n.exp.value.digits)
    else Nat(n.exp.value.digits)
  }

  function Sign(neg: bool): int { if neg then -1 else 1 }

  /** The value of a derived number. */
  function Value(n: R.Number): real {
    Sign(n.minus != []) as real * Nat(n.whole + FracDigits(n)) as real * Power(ExponentOf(n) - |FracDigits(n)|)
  }

  // Digits

  lemma {:induction false} NatConcat(a: Bytes, b: Bytes)
    ensures Nat(a + b) == Nat(a) * Pow10(|b|) + Nat(b)
  {
    if b == [] {
      assert a + b == a;
    } else {
      var c := b[..|b| - 1];
      NatConcat(a, c);
      assert (a + b)[..|a + b| - 1] == a + c;
      calc {
        Nat(a + b);
        10 * Nat(a + c) + Digit(b[|b| - 1]);
        10 * (Nat(a) * Pow10(|c|) + Nat(c)) + Digit(b[|b| - 1]);
        { Tenfold(Nat(a), Pow10(|c|)); }
        Nat(a) * Pow10(|b|) + (10 * Nat(c) + Digit(b[|b| - 1]));
        Nat(a) * Pow10(|b|) + Nat(b);
      }
    }
  }

  lemma Tenfold(a: int, b: int)
    ensures 10 * (a * b) == a * (10 * b)
  {
  }

  lemma {:induction false} NatTrimLeft(s: Bytes)
    ensures Nat(TrimLeft(s)) == Nat(s)
    ensures TrimLeft(s) == [] || TrimLeft(s)[0] != ZERO
    ensures R.AllDigits(s) ==> R.AllDigits(TrimLeft(s))
  {
    if s != [] && s[0] == ZERO {
      NatTrimLeft(s[1..]);
      NatConcat([ZERO], s[1..]);
      OneDigit(ZERO);
      assert s == [ZERO] + s[1..];
    }
  }

  lemma {:induction false} NatTrimRight(s: Bytes)
    requires R.AllDigits(s) && (s == [] || s[0] != ZERO)
    ensures |TrimRight(s)| <= |s| && Nat(s) == Nat(TrimRight(s)) * Pow10(|s| - |TrimRight(s)|)
    ensures R.AllDigits(TrimRight(s)) && (s != [] ==> TrimRight(s) != [] && TrimRight(s)[0] == s[0])
    ensures TrimRight(s) != [] ==> TrimRight(s)[|TrimRight(s)| - 1] != ZERO
    decreases |s|
  {
    if s != [] && s[|s| - 1] == ZERO {
      var t := s[..|s| - 1];
      NatTrimRight(t);
      Tenfold(Nat(TrimRight(t)), Pow10(|t| - |TrimRight(t)|));
    }
  }

  lemma {:induction false} NatPositive(s: Bytes)
    requires R.AllDigits(s) && s != [] && s[0] != ZERO
    ensures Nat(s) > 0
  {
    if |s| == 1 {
      assert s == [s[0]];
      OneDigit(s[0]);
    } else {
      NatPositive(s[..|s| - 1]);
    }
  }

  /** Digits without a leading zero are determined by their number. */
  lemma {:induction false} NatInjective(a: Bytes, b: Bytes)
    requires R.AllDigits(a) && R.AllDigits(b) && Nat(a) == Nat(b)
    requires (a == [] || a[0] != ZERO) && (b == [] || b[0] != ZERO)
    ensures a == b
    decreases |a|
  {
    if a == [] || b == [] {
      if a != [] {
        NatPositive(a);
      }
      if b != [] {
        NatPositive(b);
      }
    } else {
      var a1, b1 := a[..|a| - 1], b[..|b| - 1];
      NatInjective(a1, b1);
      assert a == a1 + [a[|a| - 1]] && b == b1 + [b[|b| - 1]];
    }
  }

  lemma ItoaInjective(a: int, b: int)
    requires Itoa(a) == Itoa(b)
    ensures a == b
  {
    hide NatText;
    assert a >= 0 ==> IsDigit(Itoa(a)[0]);
    assert b >= 0 ==> IsDigit(Itoa(b)[0]);
    if a < 0 {
      assert Itoa(a)[0] == MINUS && Itoa(a)[1..] == NatText(-a) && Itoa(b)[1..] == NatText(-b);
    }
  }

  // Powers of ten

  lemma PowerStep(n: int)
    ensures Power(n + 1) == 10.0 * Power(n)
  {
    if n < -1 {
      var p := Pow10(-n - 1) as real;
      assert Pow10(-n) as real == 10.0 * p;
      assert 10.0 * (1.0 / (10.0 * p)) == 1.0 / p;
    }
  }

  lemma {:induction false} PowerPlus(n: int, k: nat)
    ensures Power(n + k) == Power(n) * Pow10(k) as real
  {
    hide Power;
    if k > 0 {
      PowerPlus(n, k - 1);
      PowerStep(n + k - 1);
      RealTenfold(Power(n), Pow10(k - 1) as real);
      assert Pow10(k) as real == 10.0 * Pow10(k - 1) as real;
    }
  }

  lemma RealTenfold(a: real, b: real)
    ensures 10.0 * (a * b) == a * (10.0 * b)
  {
  }

  lemma Cancel(a: real, b: real, c: real)
    requires c > 0.0 && a * c == b * c
    ensures a == b
  {
  }

  lemma RealAssoc(a: real, b: real, c: real)
    ensures a * (b * c) == (a * b) * c
    ensures a * (b * c) == (a * c) * b
  {
  }

  /** A number that is not a multiple of ten, times a power of ten, determines
      both. */
  lemma Scientific(m: nat, d: int, n: nat, e: int)
    requires m > 0 && n > 0 && m % 10 != 0 && n % 10 != 0
    requires m as real * Power(d) == n as real * Power(e)
    ensures m == n && d == e
  {
    if d == e {
      Cancel(m as real, n as real, Power(d));
    } else if d < e {
      Shifted(m, d, n, e);
    } else {
      Shifted(n, e, m, d);
    }
  }

  lemma Shifted(m: nat, d: int, n: nat, e: int)
    requires d < e && m as real * Power(d) == n as real * Power(e)
    ensures m % 10 == 0
  {
    hide Power;
    var k := e - d;
    PowerPlus(d, k);
    RealAssoc(n as real, Power(d), Pow10(k) as real);
    Cancel(m as real, n as real * Pow10(k) as real, Power(d));
    assert m as real == (n * Pow10(k)) as real;
    Tenfold(n, Pow10(k - 1));
    assert m == 10 * (n * Pow10(k - 1));
  }

  // The parts of a number text

  lemma LowerConcat(a: Bytes, b: Bytes)
    ensures Lower(a + b) == Lower(a) + Lower(b)
  {
  }

  lemma LowerPlain(s: Bytes)
    requires forall i :: 0 <= i < |s| ==> LowerByte(s[i]) == s[i]
    ensures Lower(s) == s
  {
  }

  lemma {:induction false} CutFound(a: Bytes, c: byte, b: Bytes)
    requires c !in a
    ensures Cut(a + ([c] + b), c) == Parts(a, b, true)
  {
    var s := a + ([c] + b);
    if a == [] {
      assert s == [c] + b && s[1..] == b;
    } else {
      assert s[0] == a[0] && s[1..] == a[1..] + ([c] + b);
      CutFound(a[1..], c, b);
      assert [a[0]] + a[1..] == a;
    }
  }

  lemma {:induction false} CutMissing(a: Bytes, c: byte)
    requires c !in a
    ensures Cut(a, c) == Parts(a, [], false)
  {
    if a != [] {
      CutMissing(a[1..], c);
      assert [a[0]] + a[1..] == a;
    }
  }

  function ExponentText(n: R.Number): Bytes {
    if n.exp == None then [] else n.exp.value.sign + n.exp.value.digits
  }

  function Mantissa(n: R.Number): Bytes { n.whole + R.FracText(n.frac) }

  /** The number texts that canonicalNumber reads: digits, a fraction that may be
      empty, and an exponent. Those of RFC 8259 are among them. */
  predicate IsNumeral(n: R.Number) {
    (n.minus == [] || n.minus == [MINUS])
    && n.whole != [] && R.AllDigits(n.whole)
    && (n.frac.Some? ==> R.AllDigits(n.frac.value))
    && (n.exp.Some? ==>
          (n.exp.value.e == 0x65 || n.exp.value.e == 0x45)
          && (n.exp.value.sign == [] || n.exp.value.sign == [PLUS] || n.exp.value.sign == [MINUS])
          && n.exp.value.digits != [] && R.AllDigits(n.exp.value.digits))
  }

  lemma JsonIsNumeral(n: R.Number)
    requires R.NumberOk(n)
    ensures IsNumeral(n)
  {
  }

  lemma MantissaBytes(n: R.Number)
    requires IsNumeral(n)
    ensures var m := Mantissa(n);
            EXP !in m && Lower(m) == m && m != [] && m[0] != MINUS
    ensures DOT !in n.whole && R.AllDigits(n.whole + FracDigits(n))
    ensures Lower(ExponentText(n)) == ExponentText(n)
  {
    LowerPlain(Mantissa(n));
    LowerPlain(ExponentText(n));
  }

  /** The text after the sign, cut at its exponent. */
  lemma ExponentCut(n: R.Number)
    requires IsNumeral(n)
    ensures Cut(Lower(Mantissa(n) + R.ExpText(n.exp)), EXP) == Parts(Mantissa(n), ExponentText(n), n.exp.Some?)
  {
    hide IsNumeral, Cut, Lower;
    MantissaBytes(n);
    var m := Mantissa(n);
    LowerConcat(m, R.ExpText(n.exp));
    if n.exp == None {
      LowerNone();
      assert m + [] == m;
      CutMissing(m, EXP);
    } else {
      LowerE(n);
      CutFound(m, EXP, ExponentText(n));
    }
  }

  lemma LowerNone()
    ensures Lower([]) == []
  {
  }

  lemma LowerE(n: R.Number)
    requires IsNumeral(n) && n.exp.Some?
    ensures Lower(R.ExpText(n.exp)) == [EXP] + ExponentText(n)
  {
    MantissaBytes(n);
    assert R.ExpText(n.exp) == [n.exp.value.e] + ExponentText(n);
    LowerConcat([n.exp.value.e], ExponentText(n));
  }

  lemma MantissaCut(n: R.Number)
    requires IsNumeral(n)
    ensures Cut(Mantissa(n), DOT) == Parts(n.whole, FracDigits(n), n.frac.Some?)
  {
    hide Cut;
    MantissaBytes(n);
    if n.frac == None {
      CutMissing(n.whole, DOT);
      assert n.whole + [] == n.whole;
    } else {
      CutFound(n.whole, DOT, FracDigits(n));
    }
  }

  lemma AtoiReads(n: R.Number)
    requires IsNumeral(n) && n.exp.Some?
    ensures Atoi(ExponentText(n)) == if FitsInt(ExponentOf(n)) then Some(ExponentOf(n)) else None
  {
    var s := ExponentText(n);
    var digits := n.exp.value.digits;
    if n.exp.value.sign != [] {
      assert s[1..] == digits;
    } else {
      assert s == digits && IsDigit(s[0]);
    }
  }

  function ReadExponent(n: R.Number): Option<int> { if FitsInt(ExponentOf(n)) then Some(ExponentOf(n)) else None }

  lemma CanonicalOfParts(n: R.Number)
    requires IsNumeral(n)
    ensures Canonical(R.NumberText(n)) == CanonicalParts(n.minus != [], n.whole, FracDigits(n), ReadExponent(n))
  {
    hide Cut, Lower, Atoi, CanonicalParts, IsNumeral, Mantissa, R.ExpText;
    var t := Mantissa(n) + R.ExpText(n.exp);
    MantissaBytes(n);
    ExponentCut(n);
    MantissaCut(n);
    TextAfterSign(n);
    assert t[0] == Mantissa(n)[0];
    if n.exp.Some? {
      AtoiReads(n);
    } else {
      assert ReadExponent(n) == Some(0);
    }
  }

  lemma TextAfterSign(n: R.Number)
    requires IsNumeral(n)
    ensures var t := Mantissa(n) + R.ExpText(n.exp);
            R.NumberText(n) == n.minus + t && (n.minus != [] ==> n.minus == [MINUS] && (n.minus + t)[1..] == t)
            && (n.minus == [] ==> n.minus + t == t)
  {
    hide R.FracText, R.ExpText;
    assert n.whole + (R.FracText(n.frac) + R.ExpText(n.exp)) == Mantissa(n) + R.ExpText(n.exp);
  }

  // What the canonical text is

  function Digits(n: R.Number): Bytes { TrimLeft(n.whole + FracDigits(n)) }

  function Trimmed(n: R.Number): Bytes { TrimRight(Digits(n)) }

  /** The exponent of the canonical text, unbounded. */
  function Scaled(n: R.Number): int { ExponentOf(n) + Shift(Digits(n), FracDigits(n)) }

  predicate IsZero(n: R.Number) { Digits(n) == [] }

  /** The number has a canonical text: its exponent fits sixty-four bits, and so
      does the one left when its digits are trimmed. */
  predicate InRange(n: R.Number) { FitsInt(ExponentOf(n)) && (!IsZero(n) ==> FitsInt(Scaled(n))) }

  /** canonicalNumber succeeds exactly on the numbers in range; its check before
      the addition refuses exactly the sums that would overflow. */
  lemma CanonicalExactly(n: R.Number)
    requires IsNumeral(n)
    ensures Canonical(R.NumberText(n))
            == if !InRange(n) then None
               else if IsZero(n) then Some(ZERO_TEXT)
               else Some(CanonicalText(n.minus != [], Trimmed(n), Scaled(n)))
  {
    hide TrimLeft, TrimRight, Canonical, Itoa;
    CanonicalOfParts(n);
    MantissaBytes(n);
  }

  /** The parts of the canonical text, and the value they denote. */
  lemma CanonicalDenotes(n: R.Number)
    requires IsNumeral(n)
    ensures IsZero(n) ==> Value(n) == 0.0
    ensures !IsZero(n) ==>
              var t := Trimmed(n);
              R.AllDigits(t) && t != [] && t[0] != ZERO && Nat(t) > 0 && Nat(t) % 10 != 0
              && Value(n) == Sign(n.minus != []) as real * (Nat(t) as real * Power(Scaled(n)))
  {
    hide TrimLeft, TrimRight, Power, Pow10, Nat, Sign, IsNumeral, R.AllDigits;
    MantissaBytes(n);
    var all := n.whole + FracDigits(n);
    NatTrimLeft(all);
    if IsZero(n) {
      NatNone();
    } else {
      var d, t := Digits(n), Trimmed(n);
      NatTrimRight(d);
      NatPositive(t);
      LastDigit(t);
      ScaledValue(Sign(n.minus != []) as real, Nat(all), Nat(t), |d| - |t|, ExponentOf(n) - |FracDigits(n)|);
    }
  }

  lemma NatNone()
    ensures Nat([]) == 0
  {
  }

  /** Digits moved into the exponent. */
  lemma ScaledValue(sign: real, all: nat, t: nat, k: nat, e: int)
    requires all == t * Pow10(k)
    ensures sign * all as real * Power(e) == sign * (t as real * Power(e + k))
  {
    hide Power, Pow10;
    PowerPlus(e, k);
    assert all as real == t as real * Pow10(k) as real;
    Regroup(sign, t as real, Pow10(k) as real, Power(e));
  }

  lemma Regroup(a: real, b: real, c: real, d: real)
    ensures a * (b * c) * d == a * (b * (d * c))
  {
    RealAssoc(b, c, d);
    RealAssoc(a, b * c, d);
    RealAssoc(b, d, c);
  }

  lemma LastDigit(t: Bytes)
    requires R.AllDigits(t) && t != [] && t[|t| - 1] != ZERO
    ensures Nat(t) % 10 != 0
  {
    EndsIn(Nat(t[..|t| - 1]), Digit(t[|t| - 1]));
  }

  lemma EndsIn(n: nat, d: nat)
    requires d < 10
    ensures (10 * n + d) % 10 == d
  {
  }

  lemma SignedText(neg: bool, s: Bytes)
    requires s != [] && IsDigit(s[0])
    ensures var c := (if neg then [MINUS] else []) + s;
            (c[0] == MINUS <==> neg) && c[if neg then 1 else 0..] == s
  {
  }

  lemma SameText(neg: bool, t: Bytes, d: int, neg': bool, t': Bytes, d': int)
    requires R.AllDigits(t) && R.AllDigits(t') && t != [] && t' != []
    requires CanonicalText(neg, t, d) == CanonicalText(neg', t', d')
    ensures neg == neg' && t == t' && d == d'
  {
    hide Itoa;
    var s, s' := t + ([EXP] + Itoa(d)), t' + ([EXP] + Itoa(d'));
    assert s[0] == t[0] && s'[0] == t'[0];
    SignedText(neg, s);
    SignedText(neg', s');
    CutFound(t, EXP, Itoa(d));
    CutFound(t', EXP, Itoa(d'));
    ItoaInjective(d, d');
  }

  lemma SignedScientific(neg: bool, m: nat, d: int, neg': bool, m': nat, d': int)
    requires m > 0 && m' > 0 && m % 10 != 0 && m' % 10 != 0
    requires Sign(neg) as real * (m as real * Power(d)) == Sign(neg') as real * (m' as real * Power(d'))
    ensures neg == neg' && m == m' && d == d'
  {
    hide Power;
    PositiveProduct(m as real, Power(d));
    PositiveProduct(m' as real, Power(d'));
    Scientific(m, d, m', d');
  }

  lemma PositiveProduct(a: real, b: real)
    requires a > 0.0 && b > 0.0
    ensures a * b > 0.0
  {
  }

  lemma ZeroTextIsOther(neg: bool, t: Bytes, d: int)
    requires R.AllDigits(t)
    ensures CanonicalText(neg, t, d) != ZERO_TEXT
  {
    hide Itoa;
    var c := CanonicalText(neg, t, d);
    var i := (if neg then 1 else 0) + |t|;
    assert c[i] == EXP;
  }

  /** canonicalNumber gives a normal form: where it succeeds, two texts are
      rewritten to the same text exactly when their values are equal. */
  lemma CanonicalIsNormalForm(n: R.Number, m: R.Number)
    requires IsNumeral(n) && IsNumeral(m) && InRange(n) && InRange(m)
    ensures Canonical(R.NumberText(n)) == Canonical(R.NumberText(m)) <==> Value(n) == Value(m)
  {
    hide IsNumeral, Canonical, CanonicalText, Value, Digits, Trimmed, Scaled, Power, Nat;
    CanonicalExactly(n);
    CanonicalExactly(m);
    CanonicalDenotes(n);
    CanonicalDenotes(m);
    if !IsZero(n) {
      ZeroTextIsOther(n.minus != [], Trimmed(n), Scaled(n));
      PositiveProduct(Nat(Trimmed(n)) as real, Power(Scaled(n)));
    }
    if !IsZero(m) {
      ZeroTextIsOther(m.minus != [], Trimmed(m), Scaled(m));
      PositiveProduct(Nat(Trimmed(m)) as real, Power(Scaled(m)));
    }
    if !IsZero(n) && !IsZero(m) {
      var a, b := n.minus != [], m.minus != [];
      if Canonical(R.NumberText(n)) == Canonical(R.NumberText(m)) {
        SameText(a, Trimmed(n), Scaled(n), b, Trimmed(m), Scaled(m));
      }
      if Value(n) == Value(m) {
        SignedScientific(a, Nat(Trimmed(n)), Scaled(n), b, Nat(Trimmed(m)), Scaled(m));
        NatInjective(Trimmed(n), Trimmed(m));
      }
    }
  }

  /** When numbersEqual answers yes: for the same text, and for equal values in
      range. */
  lemma NumbersEqualExactly(n: R.Number, m: R.Number)
    requires IsNumeral(n) && IsNumeral(m)
    ensures NumbersEqual(R.NumberText(n), R.NumberText(m))
            <==> R.NumberText(n) == R.NumberText(m) || (InRange(n) && InRange(m) && Value(n) == Value(m))
  {
    hide IsNumeral, Canonical, Value, R.NumberText;
    CanonicalExactly(n);
    CanonicalExactly(m);
    if InRange(n) && InRange(m) {
      CanonicalIsNormalForm(n, m);
    }
  }

  // Where numbersEqual and the values disagree

  const PLAIN_ZERO := R.Number([], [ZERO], None, None)

  /** Zero, with an exponent one past the largest that fits. */
  // Every text that has a canonical one is a numeral.

  lemma {:induction false} CutParts(s: Bytes, c: byte)
    ensures var p := Cut(s, c);
            if p.found then s == p.before + ([c] + p.after) else s == p.before && p.after == []
    decreases |s|
  {
    if s != [] && s[0] != c {
      CutParts(s[1..], c);
      var p := Cut(s[1..], c);
      assert s == [s[0]] + s[1..];
      if p.found {
        assert [s[0]] + (p.before + ([c] + p.after)) == ([s[0]] + p.before) + ([c] + p.after);
      }
    }
  }

  /** Text that is lower-cased to a part without letters was that part. */
  lemma LowerKeeps(s: Bytes, a: nat, b: nat)
    requires a <= b <= |s| && forall i :: a <= i < b ==> Lower(s)[i] < 0x61
    ensures s[a..b] == Lower(s)[a..b]
  {
    assert forall i :: a <= i < b ==> Lower(s)[i] == LowerByte(s[i]);
  }

  lemma AtoiForm(s: Bytes) returns (sign: Bytes, digits: Bytes)
    requires Atoi(s).Some?
    ensures s == sign + digits && digits != [] && R.AllDigits(digits)
    ensures sign == [] || sign == [PLUS] || sign == [MINUS]
    ensures forall i :: 0 <= i < |s| ==> s[i] < 0x61
  {
    if s[0] == PLUS || s[0] == MINUS {
      sign, digits := [s[0]], s[1..];
    } else {
      sign, digits := [], s;
    }
  }

  /** The exponent of u, from the letter at k on. */
  lemma ExponentForm(u: Bytes, k: nat) returns (x: R.Exponent)
    requires k < |u| && Lower(u)[k] == EXP && Atoi(Lower(u)[k + 1..]).Some?
    ensures u[k..] == R.ExpText(Some(x)) && (x.e == 0x65 || x.e == 0x45)
    ensures (x.sign == [] || x.sign == [PLUS] || x.sign == [MINUS]) && x.digits != [] && R.AllDigits(x.digits)
  {
    hide Atoi, Lower;
    var after := Lower(u)[k + 1..];
    var sign, digits := AtoiForm(after);
    assert forall i :: k < i < |u| ==> Lower(u)[i] == after[i - k - 1];
    LowerKeeps(u, k + 1, |u|);
    LetterAt(u, k);
    assert u[k + 1..|u|] == u[k + 1..] && Lower(u)[k + 1..|u|] == after;
    x := R.Exponent(u[k], sign, digits);
    assert u[k..] == [u[k]] + u[k + 1..];
    assert [u[k]] + sign + digits == [u[k]] + (sign + digits);
  }

  /** The digits and the fraction of u. */
  lemma MantissaForm(u: Bytes) returns (whole: Bytes, frac: Option<Bytes>)
    requires var p := Cut(Lower(u), EXP);
             var m := Cut(p.before, DOT);
             m.before != [] && R.AllDigits(m.before + m.after)
    ensures var p := Cut(Lower(u), EXP);
            |p.before| <= |u| && u[..|p.before|] == whole + R.FracText(frac)
    ensures whole != [] && R.AllDigits(whole) && (frac.Some? ==> R.AllDigits(frac.value))
  {
    hide Cut, Lower;
    var p := Cut(Lower(u), EXP);
    CutParts(Lower(u), EXP);
    var m := Cut(p.before, DOT);
    CutParts(p.before, DOT);
    whole := m.before;
    frac := if m.found then Some(m.after) else None;
    var k := |p.before|;
    DigitsOnly(m.before, m.after);
    assert forall i :: 0 <= i < k ==> Lower(u)[i] == p.before[i];
    LowerKeeps(u, 0, k);
    assert Lower(u)[0..k] == p.before;
  }

  /** A text is a numeral if what is left of its exponent is digits and a
      fraction. */
  lemma UnsignedForm(u: Bytes) returns (whole: Bytes, frac: Option<Bytes>, exp: Option<R.Exponent>)
    requires var p := Cut(Lower(u), EXP);
             var m := Cut(p.before, DOT);
             m.before != [] && R.AllDigits(m.before + m.after) && (p.found ==> Atoi(p.after).Some?)
    ensures IsNumeral(R.Number([], whole, frac, exp)) && u == whole + (R.FracText(frac) + R.ExpText(exp))
  {
    hide Atoi, Cut, Lower, R.FracText, R.AllDigits;
    var p := Cut(Lower(u), EXP);
    CutParts(Lower(u), EXP);
    whole, frac := MantissaForm(u);
    exp := None;
    var k := |p.before|;
    if p.found {
      assert Lower(u)[k] == EXP && Lower(u)[k + 1..] == p.after;
      var x := ExponentForm(u, k);
      exp := Some(x);
    } else {
      assert u[k..] == [];
    }
    assert u == u[..k] + u[k..];
    assert u == (whole + R.FracText(frac)) + R.ExpText(exp);
  }

  lemma NumeralForm(t: Bytes) returns (n: R.Number)
    requires Canonical(t).Some?
    ensures IsNumeral(n) && R.NumberText(n) == t
  {
    hide Atoi, TrimLeft, TrimRight, Cut, Lower, R.FracText, R.ExpText, R.AllDigits;
    var minus: Bytes := if t != [] && t[0] == MINUS then [MINUS] else [];
    var u := t[|minus|..];
    assert t == minus + u;
    var whole, frac, exp := UnsignedForm(u);
    n := R.Number(minus, whole, frac, exp);
  }

  lemma LetterAt(u: Bytes, k: nat)
    requires k < |u| && Lower(u)[k] == EXP
    ensures u[k] == 0x65 || u[k] == 0x45
  {
  }

  lemma DigitsOnly(a: Bytes, b: Bytes)
    requires R.AllDigits(a + b)
    ensures R.AllDigits(a) && R.AllDigits(b)
    ensures forall i :: 0 <= i < |a + ([DOT] + b)| ==> (a + ([DOT] + b))[i] < 0x61
  {
    assert forall i :: 0 <= i < |a| ==> (a + b)[i] == a[i];
    assert forall i :: 0 <= i < |b| ==> (a + b)[|a| + i] == b[i];
  }

  // What a number text stands for in a comparison

  /** The value of a numeral in range, or else the text. */
  datatype Quantity = Denotes(value: real) | Unread(text: Bytes)

  ghost predicate Reads(t: Bytes, n: R.Number) { IsNumeral(n) && InRange(n) && R.NumberText(n) == t }

  ghost function QuantityOf(t: Bytes): Quantity {
    if exists n :: Reads(t, n) then
      var n :| Reads(t, n);
      Denotes(Value(n))
    else Unread(t)
  }

  lemma CanonicalReads(t: Bytes)
    ensures Canonical(t).Some? <==> exists n :: Reads(t, n)
  {
    hide Canonical, IsNumeral, R.NumberText, InRange;
    if Canonical(t).Some? {
      var n := NumeralForm(t);
      CanonicalExactly(n);
      assert Reads(t, n);
    }
    if n :| Reads(t, n) {
      CanonicalExactly(n);
    }
  }

  /** Two number texts are found equal exactly when they denote the same value,
      or neither has a value in range and they are the same text. */
  lemma EqualQuantities(a: Bytes, b: Bytes)
    ensures NumbersEqual(a, b) <==> QuantityOf(a) == QuantityOf(b)
  {
    hide Canonical, IsNumeral, R.NumberText, InRange, Value;
    CanonicalReads(a);
    CanonicalReads(b);
    if (exists n :: Reads(a, n)) && exists m :: Reads(b, m) {
      var n :| Reads(a, n) && QuantityOf(a) == Denotes(Value(n));
      var m :| Reads(b, m) && QuantityOf(b) == Denotes(Value(m));
      CanonicalIsNormalForm(n, m);
    }
  }

  function FarZero(): R.Number {
    R.Number([], [ZERO], None, Some(R.Exponent(EXP, [], NatText(MAX_INT + 1))))
  }

  /** Two texts with one value that are not found equal: a zero whose exponent
      does not fit, and a plain zero. */
  lemma FarZeroIsNotEqual()
    ensures R.NumberOk(FarZero()) && R.NumberOk(PLAIN_ZERO)
    ensures Value(FarZero()) == Value(PLAIN_ZERO)
    ensures !NumbersEqual(R.NumberText(FarZero()), R.NumberText(PLAIN_ZERO))
  {
    hide Canonical, Power, NatText, Value;
    FarZeroOk();
    CanonicalExactly(FarZero());
    ZeroValue(FarZero());
    ZeroValue(PLAIN_ZERO);
    assert |R.NumberText(PLAIN_ZERO)| == 1;
  }

  lemma FarZeroOk()
    ensures R.NumberOk(FarZero()) && R.NumberOk(PLAIN_ZERO) && ExponentOf(FarZero()) == MAX_INT + 1
  {
    hide NatText;
  }

  lemma ZeroValue(n: R.Number)
    requires n.whole == [ZERO] && n.frac == None
    ensures Value(n) == 0.0
  {
    hide Power;
    assert [ZERO] + [] == [ZERO];
    OneDigit(ZERO);
  }
}
