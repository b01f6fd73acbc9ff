/**
  The text that a JSON string spells, as the standards say it: section 3 of RFC
  3629 for bytes, section 2.1 of RFC 2781 for the units of escapes, and section
  7 of RFC 8259 for the escapes. Unquoting is held against it.
 */
module Spelling {
  import opened Ascii
  import opened Utf8
  import opened QuotedStrings
  import opened StringLaws
  import R = Rfc8259

  /** U+FFFD stands for what cannot be decoded. */
  const BAD: nat := 0xFFFD

  predicate IsScalarValue(r: nat) { r < 0xD800 || 0xE000 <= r < 0x110000 }

  // Scalar values of UTF-8

  /** How many bytes a lead byte announces. */
  function Width(c: byte): (n: nat) {
    if c < 0x80 then 1
    else if 0xC0 <= c < 0xE0 then 2
    else if 0xE0 <= c < 0xF0 then 3
    else if 0xF0 <= c < 0xF8 then 4
    else 0
  }

  /** The bits of an encoding: those of the lead byte, and six of each other. */
  function Bits(e: Bytes): nat
    requires |e| > 0 && |e| == Width(e[0]) && forall i :: 1 <= i < |e| ==> IsContinuation(e[i])
  {
    if |e| == 1 then e[0] as nat
    else if |e| == 2 then (e[0] - 0xC0) as nat * 0x40 + Six(e[1])
    else if |e| == 3 then ((e[0] - 0xE0) as nat * 0x40 + Six(e[1])) * 0x40 + Six(e[2])
    else (((e[0] - 0xF0) as nat * 0x40 + Six(e[1])) * 0x40 + Six(e[2])) * 0x40 + Six(e[3])
  }

  function Six(c: byte): nat
    requires IsContinuation(c)
  {
    (c - 0x80) as nat
  }

  /** The least value that needs n bytes. */
  function Least(n: nat): nat { if n <= 1 then 0 else if n == 2 then 0x80 else if n == 3 then 0x800 else 0x10000 }

  /** The scalar value that is encoded at the start of s. */
  function First(s: Bytes): Option<nat> {
    if s == [] || Width(s[0]) == 0 || Width(s[0]) > |s| then None
    else
      var e := s[..Width(s[0])];
      if (forall i :: 1 <= i < |e| ==> IsContinuation(e[i])) && IsScalarValue(Bits(e)) && Bits(e) >= Least(|e|)
      then Some(Bits(e)) else None
  }

  /** The scalar values of UTF-8 text. */
  function Scalars(s: Bytes): Option<seq<nat>>
    decreases |s|
  {
    if s == [] then Some([])
    else if First(s) == None then None
    else
      match Scalars(s[Width(s[0])..])
      case None => None
      case Some(rs) => Some([First(s).value] + rs)
  }

  lemma FirstIsRune(s: Bytes)
    requires s != []
    ensures if RuneSize(s) > 0 then First(s).Some? && Width(s[0]) == RuneSize(s) else First(s) == None
  {
    var n := Width(s[0]);
    if 0 < n <= |s| {
      var e := s[..n];
      assert forall i :: 0 <= i < n ==> e[i] == s[i];
      if n == 2 {
        assert IsContinuation(e[1]) <==> forall i :: 1 <= i < |e| ==> IsContinuation(e[i]);
      } else if n == 3 {
        assert IsContinuation(e[1]) && IsContinuation(e[2]) <==> forall i :: 1 <= i < |e| ==> IsContinuation(e[i]);
      } else if n == 4 {
        assert IsContinuation(e[1]) && IsContinuation(e[2]) && IsContinuation(e[3])
          <==> forall i :: 1 <= i < |e| ==> IsContinuation(e[i]);
      }
    }
  }

  lemma FirstLocal(e: Bytes, rest: Bytes)
    requires e != [] && First(e).Some? && Width(e[0]) == |e|
    ensures First(e + rest) == First(e)
    ensures Scalars(e + rest).Some? == Scalars(rest).Some?
    ensures Scalars(rest).Some? ==> Scalars(e + rest).value == [First(e).value] + Scalars(rest).value
  {
    assert (e + rest)[..|e|] == e && e[..|e|] == e;
    assert (e + rest)[|e|..] == rest;
  }

  /** What AppendRune writes for a scalar value is its encoding. */
  lemma EncodeIsFirst(r: nat)
    requires IsScalarValue(r)
    ensures First(EncodeRune(r)) == Some(r) && Width(EncodeRune(r)[0]) == |EncodeRune(r)|
  {
    if r <= 0x7FF {
      assert EncodeRune(r)[..|EncodeRune(r)|] == EncodeRune(r);
    } else if r <= 0xFFFF {
      EncodeIsFirst3(r);
    } else {
      EncodeIsFirst4(r);
    }
  }

  lemma EncodeIsFirst3(r: nat)
    requires IsScalarValue(r) && 0x7FF < r <= 0xFFFF
    ensures First(EncodeRune(r)) == Some(r) && Width(EncodeRune(r)[0]) == |EncodeRune(r)|
  {
    var a, b, c: nat := r / 0x1000, r / 0x40 % 0x40, r % 0x40;
    ThreeParts(r);
    var e: Bytes := [(0xE0 + a) as byte, (0x80 + b) as byte, (0x80 + c) as byte];
    assert EncodeRune(r) == e && e[..3] == e;
    BitsOfThree(e, a, b, c);
  }

  lemma ThreeParts(r: nat)
    ensures (r / 0x1000 * 0x40 + r / 0x40 % 0x40) * 0x40 + r % 0x40 == r
    ensures r < 0x10000 ==> r / 0x1000 < 0x10
  {
  }

  lemma BitsOfThree(e: Bytes, a: nat, b: nat, c: nat)
    requires a < 0x10 && b < 0x40 && c < 0x40
    requires e == [(0xE0 + a) as byte, (0x80 + b) as byte, (0x80 + c) as byte]
    ensures Width(e[0]) == 3 && (forall i :: 1 <= i < 3 ==> IsContinuation(e[i]))
    ensures Bits(e) == (a * 0x40 + b) * 0x40 + c
  {
  }

  lemma EncodeIsFirst4(r: nat)
    requires IsScalarValue(r) && 0xFFFF < r
    ensures First(EncodeRune(r)) == Some(r) && Width(EncodeRune(r)[0]) == |EncodeRune(r)|
  {
    var a, b, c, d: nat := r / 0x40000, r / 0x1000 % 0x40, r / 0x40 % 0x40, r % 0x40;
    FourParts(r);
    var e: Bytes := [(0xF0 + a) as byte, (0x80 + b) as byte, (0x80 + c) as byte, (0x80 + d) as byte];
    assert EncodeRune(r) == e && e[..4] == e;
    BitsOfFour(e, a, b, c, d);
  }

  lemma FourParts(r: nat)
    ensures ((r / 0x40000 * 0x40 + r / 0x1000 % 0x40) * 0x40 + r / 0x40 % 0x40) * 0x40 + r % 0x40 == r
    ensures r < 0x110000 ==> r / 0x40000 <= 4
  {
  }

  lemma BitsOfFour(e: Bytes, a: nat, b: nat, c: nat, d: nat)
    requires a <= 4 && b < 0x40 && c < 0x40 && d < 0x40
    requires e == [(0xF0 + a) as byte, (0x80 + b) as byte, (0x80 + c) as byte, (0x80 + d) as byte]
    ensures Width(e[0]) == 4 && (forall i :: 1 <= i < 4 ==> IsContinuation(e[i]))
    ensures Bits(e) == ((a * 0x40 + b) * 0x40 + c) * 0x40 + d
  {
  }

  lemma ReplacementIsBad()
    ensures First(REPLACEMENT) == Some(BAD) && Width(REPLACEMENT[0]) == |REPLACEMENT|
  {
    EncodeIsFirst(BAD);
    assert EncodeRune(BAD) == REPLACEMENT;
  }

  // Escapes

  /** What the short escapes stand for. */
  const SHORT: map<byte, byte> := map[
    QUOTE := QUOTE, BACKSLASH := BACKSLASH, SLASH := SLASH,
    0x62 := 0x08, 0x66 := 0x0C, 0x6E := LF, 0x72 := CR, 0x74 := TAB]

  const LOWER: Bytes := [
    0x30, 0x31, 0x32, 0x33, 0x34, 0x35, 0x36, 0x37, 0x38, 0x39, 0x61, 0x62, 0x63, 0x64, 0x65, 0x66]

  const UPPER: Bytes := [
    0x30, 0x31, 0x32, 0x33, 0x34, 0x35, 0x36, 0x37, 0x38, 0x39, 0x41, 0x42, 0x43, 0x44, 0x45, 0x46]

  predicate IsDigitOf(c: byte, d: nat) { d < 16 && (c == LOWER[d] || c == UPPER[d]) }

  /** h is u in four hexadecimal digits of either case. */
  predicate IsHexOf(h: Bytes, u: nat) {
    |h| == 4 && u < 0x10000
    && IsDigitOf(h[0], u / 0x1000) && IsDigitOf(h[1], u / 0x100 % 16)
    && IsDigitOf(h[2], u / 16 % 16) && IsDigitOf(h[3], u % 16)
  }

  lemma DigitValue(c: byte, d: nat)
    requires IsDigitOf(c, d)
    ensures IsHex(c) && HexValue(c) == d
  {
  }

  lemma HexOfUnit(h: Bytes, u: nat)
    requires IsHexOf(h, u)
    ensures Hex4(h) == Some(u) && R.CharOk(R.Unicode(h))
  {
    hide IsDigitOf, HexValue;
    DigitValue(h[0], u / 0x1000);
    DigitValue(h[1], u / 0x100 % 16);
    DigitValue(h[2], u / 16 % 16);
    DigitValue(h[3], u % 16);
    HexDigitsDenote(u);
  }

  /** The units of UTF-16 for a scalar value. */
  function Units(r: nat): (us: seq<nat>)
    requires IsScalarValue(r)
  {
    if r < 0x10000 then [r] else [0xD800 + (r - 0x10000) / 0x400, 0xDC00 + (r - 0x10000) % 0x400]
  }

  // The meaning of the characters of a string

  /** The unescaped bytes at the start of chars. */
  function Plain(chars: seq<R.Char>): Bytes {
    if chars != [] && chars[0].Unescaped? then [chars[0].c] + Plain(chars[1..]) else []
  }

  function Unit(ch: R.Char): nat
    requires ch.Unicode? && R.CharOk(ch)
  {
    Hex4(ch.hex).value
  }

  /** chars begins with the two units of one scalar value. */
  predicate BeginsWithPair(chars: seq<R.Char>)
    requires R.CharsOk(chars)
  {
    |chars| > 1 && chars[0].Unicode? && chars[1].Unicode?
    && IsHighSurrogate(Unit(chars[0])) && IsLowSurrogate(Unit(chars[1]))
  }

  /** The scalar values that chars spell. A byte that is no UTF-8, and a unit that
      is half of a pair only, spell U+FFFD. */
  function Spelled(chars: seq<R.Char>): seq<nat>
    requires R.CharsOk(chars)
    decreases |chars|
  {
    if chars == [] then []
    else
      match chars[0]
      case Escaped(c) => [SHORT[c] as nat] + Spelled(chars[1..])
      case Unescaped(_) =>
        if First(Plain(chars)) == None then [BAD] + Spelled(chars[1..])
        else
          PlainFits(chars);
          [First(Plain(chars)).value] + Spelled(chars[Width(Plain(chars)[0])..])
      case Unicode(_) =>
        if BeginsWithPair(chars) then
          [0x10000 + (Unit(chars[0]) - 0xD800) * 0x400 + (Unit(chars[1]) - 0xDC00)] + Spelled(chars[2..])
        else if IsScalarValue(Unit(chars[0])) then [Unit(chars[0])] + Spelled(chars[1..])
        else [BAD] + Spelled(chars[1..])
  }

  lemma PlainFits(chars: seq<R.Char>)
    ensures |Plain(chars)| <= |chars|
    ensures forall i :: 0 <= i < |Plain(chars)| ==> chars[i] == R.Unescaped(Plain(chars)[i])
  {
  }

  /** The text of chars is its unescaped bytes, and then an escape or nothing. */
  lemma {:induction false} PlainBegins(chars: seq<R.Char>) returns (rest: Bytes)
    requires R.CharsOk(chars)
    ensures R.CharsText(chars) == Plain(chars) + rest && (rest != [] ==> rest[0] == BACKSLASH)
    decreases |chars|
  {
    if chars != [] && chars[0].Unescaped? {
      rest := PlainBegins(chars[1..]);
      assert R.CharText(chars[0]) + (Plain(chars[1..]) + rest) == Plain(chars) + rest;
    } else {
      rest := R.CharsText(chars);
    }
  }

  lemma {:induction false} TextSkips(chars: seq<R.Char>, n: nat)
    requires n <= |Plain(chars)|
    ensures n <= |chars| && n <= |R.CharsText(chars)| && R.CharsText(chars)[n..] == R.CharsText(chars[n..])
    decreases n
  {
    if n == 0 {
      assert chars[0..] == chars;
    } else {
      TextSkips(chars[1..], n - 1);
      assert chars[1..][n - 1..] == chars[n..];
      assert R.CharsText(chars) == [chars[0].c] + R.CharsText(chars[1..]);
      assert R.CharsText(chars)[n..] == R.CharsText(chars[1..])[n - 1..];
    }
  }

  /** What the text of chars begins with is decided by its unescaped bytes. */
  lemma PlainDecides(chars: seq<R.Char>)
    requires R.CharsOk(chars) && chars != [] && chars[0].Unescaped?
    ensures R.CharsText(chars) != [] && R.CharsText(chars)[0] == chars[0].c == Plain(chars)[0]
    ensures RuneSize(R.CharsText(chars)) == RuneSize(Plain(chars))
  {
    hide R.CharsText, RuneSize;
    var rest := PlainBegins(chars);
    RuneEndsBefore(Plain(chars), rest);
  }

  /** An encoding does not go on over a byte of ASCII. */
  lemma RuneEndsBefore(p: Bytes, rest: Bytes)
    requires p != [] && (rest != [] ==> rest[0] < 0x80)
    ensures RuneSize(p + rest) == RuneSize(p)
  {
    var s := p + rest;
    assert forall i :: 0 <= i < |p| ==> s[i] == p[i];
    assert rest != [] ==> s[|p|] == rest[0];
  }

  lemma PrependSpelled(e: Bytes, r: nat, rest: Option<Bytes>, rs: seq<nat>)
    requires e != [] && First(e) == Some(r) && Width(e[0]) == |e|
    requires rest.Some? && Scalars(rest.value) == Some(rs)
    ensures Scalars(Prepend(e, rest).value) == Some([r] + rs)
  {
    FirstLocal(e, rest.value);
  }

  /** Unquoting gives the UTF-8 of the scalar values that the characters spell. */
  lemma {:induction false} BodySpells(chars: seq<R.Char>)
    requires R.CharsOk(chars)
    ensures var out := Unescape(R.CharsText(chars)); out.Some? && Scalars(out.value) == Some(Spelled(chars))
    decreases |chars|
  {
    hide DecodeEscape, RuneSize, First, Scalars, Hex4, EncodeRune;
    if chars == [] {
      assert Scalars([]) == Some([]) by { NothingSpelled(); }
    } else {
      match chars[0] {
        case Unescaped(_) => PlainSpells(chars);
        case Escaped(_) =>
          BodySpells(chars[1..]);
          ShortSpells(chars);
        case Unicode(_) =>
          BodySpells(chars[1..]);
          if BeginsWithPair(chars) {
            BodySpells(chars[2..]);
            PairSpells(chars);
          } else {
            UnitSpells(chars);
          }
      }
    }
  }

  lemma NothingSpelled()
    ensures Scalars([]) == Some([])
  {
  }

  lemma {:induction false} PlainSpells(chars: seq<R.Char>)
    requires R.CharsOk(chars) && chars != [] && chars[0].Unescaped?
    ensures var out := Unescape(R.CharsText(chars)); out.Some? && Scalars(out.value) == Some(Spelled(chars))
    decreases |chars|, 0
  {
    hide DecodeEscape, RuneSize, First, Scalars, R.CharsText;
    var s := R.CharsText(chars);
    PlainDecides(chars);
    FirstIsRune(Plain(chars));
    var n := RuneSize(Plain(chars));
    TextSkips(chars, 1);
    if n == 0 {
      BodySpells(chars[1..]);
      ReplacementIsBad();
      PrependSpelled(REPLACEMENT, BAD, Unescape(s[1..]), Spelled(chars[1..]));
      SmallIsRune(s);
    } else {
      var rest := PlainBegins(chars);
      TextSkips(chars, n);
      BodySpells(chars[n..]);
      assert s[..n] == Plain(chars)[..n];
      WholeRune(Plain(chars));
      PrependSpelled(s[..n], First(Plain(chars)).value, Unescape(s[n..]), Spelled(chars[n..]));
      if s[0] < 0x80 {
        SmallIsRune(s);
        assert s[..1] == [s[0]];
      }
    }
  }

  lemma SmallIsRune(s: Bytes)
    requires s != []
    ensures s[0] < 0x80 <==> RuneSize(s) == 1
  {
  }

  lemma WholeRune(s: Bytes)
    requires s != [] && RuneSize(s) > 0
    ensures First(s[..RuneSize(s)]) == First(s) && First(s).Some? && Width(s[0]) == RuneSize(s)
  {
    hide RuneSize;
    FirstIsRune(s);
    var n := Width(s[0]);
    assert s[..n][..n] == s[..n];
  }

  lemma ShortSpells(chars: seq<R.Char>)
    requires R.CharsOk(chars) && chars != [] && chars[0].Escaped?
    requires var out := Unescape(R.CharsText(chars[1..])); out.Some? && Scalars(out.value) == Some(Spelled(chars[1..]))
    ensures var out := Unescape(R.CharsText(chars)); out.Some? && Scalars(out.value) == Some(Spelled(chars))
  {
    hide Scalars, First, DecodeUnicodeEscape;
    var s, c := R.CharsText(chars), chars[0].c;
    assert R.CharOk(chars[0]);
    assert s[0] == BACKSLASH && s[1] == c && s[2..] == R.CharsText(chars[1..]);
    assert DecodeEscape(s) == Some(Escape([SHORT[c]], 2));
    AsciiIsFirst(SHORT[c]);
    PrependSpelled([SHORT[c]], SHORT[c] as nat, Unescape(s[2..]), Spelled(chars[1..]));
  }

  lemma AsciiIsFirst(c: byte)
    requires c < 0x80
    ensures First([c]) == Some(c as nat) && Width(c) == 1
  {
    assert [c][..1] == [c];
  }

  /** How the text of a \u escape begins. */
  lemma UnitText(chars: seq<R.Char>)
    requires R.CharsOk(chars) && chars != [] && chars[0].Unicode?
    ensures var s := R.CharsText(chars);
            |s| >= 6 && s[0] == BACKSLASH && s[1] == 0x75 && s[2..6] == chars[0].hex && s[6..] == R.CharsText(chars[1..])
            && Hex4(s[2..6]) == Some(Unit(chars[0]))
  {
    assert R.CharOk(chars[0]);
    var s := R.CharsText(chars);
    assert s == ([BACKSLASH, 0x75] + chars[0].hex) + R.CharsText(chars[1..]);
  }

  lemma PairSpells(chars: seq<R.Char>)
    requires R.CharsOk(chars) && BeginsWithPair(chars)
    requires var out := Unescape(R.CharsText(chars[2..])); out.Some? && Scalars(out.value) == Some(Spelled(chars[2..]))
    ensures var out := Unescape(R.CharsText(chars)); out.Some? && Scalars(out.value) == Some(Spelled(chars))
  {
    hide Scalars, First, Hex4, EncodeRune, R.CharsText;
    var s := R.CharsText(chars);
    UnitText(chars);
    UnitText(chars[1..]);
    assert chars[1..][1..] == chars[2..];
    assert s[8..12] == s[6..][2..6] && s[12..] == s[6..][6..] && s[6] == s[6..][0] && s[7] == s[6..][1];
    var r := 0x10000 + (Unit(chars[0]) - 0xD800) * 0x400 + (Unit(chars[1]) - 0xDC00);
    assert DecodeEscape(s) == Some(Escape(EncodeRune(r), 12));
    EncodeIsFirst(r);
    PrependSpelled(EncodeRune(r), r, Unescape(s[12..]), Spelled(chars[2..]));
  }

  /** Behind a unit comes no unit, if the text does not go on with one. */
  lemma NextUnit(chars: seq<R.Char>)
    requires R.CharsOk(chars)
    ensures var s := R.CharsText(chars);
            |s| >= 6 && s[0] == BACKSLASH && s[1] == 0x75 ==> chars != [] && chars[0].Unicode?
  {
    if chars != [] {
      assert R.CharOk(chars[0]);
    }
  }

  lemma UnitSpells(chars: seq<R.Char>)
    requires R.CharsOk(chars) && chars != [] && chars[0].Unicode? && !BeginsWithPair(chars)
    requires var out := Unescape(R.CharsText(chars[1..])); out.Some? && Scalars(out.value) == Some(Spelled(chars[1..]))
    ensures var out := Unescape(R.CharsText(chars)); out.Some? && Scalars(out.value) == Some(Spelled(chars))
  {
    hide Scalars, First, Hex4, EncodeRune, R.CharsText;
    var s := R.CharsText(chars);
    UnitText(chars);
    NextUnit(chars[1..]);
    var u := Unit(chars[0]);
    if |s| >= 12 && s[6] == BACKSLASH && s[7] == 0x75 {
      assert s[6] == s[6..][0] && s[7] == s[6..][1];
      UnitText(chars[1..]);
      assert s[8..12] == s[6..][2..6];
      assert chars[1..][0] == chars[1];
    }
    var r := if IsScalarValue(u) then u else BAD;
    ReplacementIsBad();
    EncodeIsFirst(r);
    assert EncodeRune(BAD) == REPLACEMENT by { BadIsReplacement(); }
    assert DecodeEscape(s) == Some(Escape(EncodeRune(r), 6));
    PrependSpelled(EncodeRune(r), r, Unescape(s[6..]), Spelled(chars[1..]));
  }

  lemma BadIsReplacement()
    ensures EncodeRune(BAD) == REPLACEMENT
  {
  }

  /** Every string of section 7 of RFC 8259 unquotes to the text it spells. */
  lemma StringSpells(chars: seq<R.Char>)
    requires R.CharsOk(chars)
    ensures var out := Unquote(R.StringText(chars)); out.Some? && Scalars(out.value) == Some(Spelled(chars))
  {
    BodySpells(chars);
    var raw := R.StringText(chars);
    assert raw[1..|raw| - 1] == R.CharsText(chars);
  }

  // Every spelling

  /** cs are one spelling of r: its bytes, a short escape, or the escapes of its
      units; half of a pair alone spells U+FFFD. */
  predicate Spells(cs: seq<R.Char>, r: nat) {
    IsScalarValue(r) && R.CharsOk(cs) &&
    (|| (cs != [] && |Plain(cs)| == |cs| == Width(Plain(cs)[0]) && First(Plain(cs)) == Some(r))
     || (|cs| == 1 && cs[0].Escaped? && cs[0].c in SHORT && SHORT[cs[0].c] as nat == r)
     || (|cs| == |Units(r)| && forall i :: 0 <= i < |cs| ==> cs[i].Unicode? && IsHexOf(cs[i].hex, Units(r)[i]))
     || (r == BAD && IsHalf(cs)))
  }

  predicate IsHalf(cs: seq<R.Char>)
    requires R.CharsOk(cs)
  {
    |cs| == 1 && cs[0].Unicode? && !IsScalarValue(Unit(cs[0]))
  }

  /** Two halves that would make a pair do not stand side by side. */
  predicate Apart(a: seq<R.Char>, b: seq<R.Char>)
    requires R.CharsOk(a) && R.CharsOk(b)
  {
    !(IsHalf(a) && IsHalf(b) && IsHighSurrogate(Unit(a[0])) && IsLowSurrogate(Unit(b[0])))
  }

  predicate SpellsText(pieces: seq<seq<R.Char>>, rs: seq<nat>) {
    |pieces| == |rs| && (forall i :: 0 <= i < |rs| ==> Spells(pieces[i], rs[i]))
    && forall i :: 0 < i < |rs| ==> Apart(pieces[i - 1], pieces[i])
  }

  function Flat<T>(pieces: seq<seq<T>>): seq<T> {
    if pieces == [] then [] else pieces[0] + Flat(pieces[1..])
  }

  lemma {:induction false} SpelledFlat(pieces: seq<seq<R.Char>>, rs: seq<nat>)
    requires SpellsText(pieces, rs)
    ensures R.CharsOk(Flat(pieces)) && Spelled(Flat(pieces)) == rs
    decreases |pieces|
  {
    hide Spells, Spelled, R.CharOk;
    if pieces != [] {
      var rest := Flat(pieces[1..]);
      assert forall i :: 0 < i < |rs| ==> pieces[1..][i - 1] == pieces[i] && rs[1..][i - 1] == rs[i];
      SpelledFlat(pieces[1..], rs[1..]);
      assert Spells(pieces[0], rs[0]);
      PieceOk(pieces[0], rs[0]);
      if |pieces| > 1 {
        assert Spells(pieces[1], rs[1]);
        PieceOk(pieces[1], rs[1]);
        assert Apart(pieces[0], pieces[1]);
        FlatBegins(pieces[1..]);
        NoPair(pieces[0], pieces[1], rs[1], rest);
      }
      PieceSpells(pieces[0], rs[0], rest);
      assert [rs[0]] + rs[1..] == rs;
    } else {
      assert Spelled([]) == [] by { NoneSpelled(); }
    }
  }

  lemma NoneSpelled()
    ensures Spelled([]) == []
  {
  }

  lemma PieceOk(cs: seq<R.Char>, r: nat)
    requires Spells(cs, r)
    ensures cs != [] && R.CharsOk(cs)
  {
  }

  lemma FlatBegins<T>(pieces: seq<seq<T>>)
    requires pieces != []
    ensures pieces[0] <= Flat(pieces)
  {
  }

  /** In front of a piece that it stands apart from, half of a pair is alone. */
  lemma NoPair(cs: seq<R.Char>, next: seq<R.Char>, r: nat, rest: seq<R.Char>)
    requires R.CharsOk(cs) && Spells(next, r) && Apart(cs, next) && next != [] && next <= rest && R.CharsOk(rest)
    ensures IsHalf(cs) ==> !BeginsWithPair(cs + rest)
  {
    if IsHalf(cs) && BeginsWithPair(cs + rest) {
      assert rest[0] == next[0] && R.CharOk(next[0]);
      UnitOfPiece(next, r);
    }
  }

  lemma UnitOfPiece(cs: seq<R.Char>, r: nat)
    requires Spells(cs, r) && cs != [] && cs[0].Unicode?
    ensures IsHalf(cs) || Unit(cs[0]) == Units(r)[0]
  {
    hide Hex4;
    if Plain(cs) == [] && !IsHalf(cs) {
      HexOfUnit(cs[0].hex, Units(r)[0]);
    }
  }

  /** A piece spells its scalar value, whatever it does not pair with follows. */
  lemma PieceSpells(cs: seq<R.Char>, r: nat, rest: seq<R.Char>)
    requires Spells(cs, r) && R.CharsOk(cs) && R.CharsOk(rest)
    requires R.CharsOk(cs + rest) && (IsHalf(cs) ==> !BeginsWithPair(cs + rest))
    ensures Spelled(cs + rest) == [r] + Spelled(rest)
  {
    hide Hex4, First, Spelled, R.CharOk, BeginsWithPair, IsHexOf;
    PieceOk(cs, r);
    match cs[0] {
      case Unescaped(_) => BytesSpell(cs, r, rest);
      case Escaped(_) => EscapeSpells(cs, r, rest);
      case Unicode(_) =>
        if IsHalf(cs) {
          HalfIsBad(cs, r);
          HalfSpells(cs, rest);
        } else {
          UnitsSpell(cs, r, rest);
        }
    }
  }

  lemma BytesSpell(cs: seq<R.Char>, r: nat, rest: seq<R.Char>)
    requires Spells(cs, r) && cs != [] && cs[0].Unescaped? && R.CharsOk(rest) && R.CharsOk(cs + rest)
    ensures Spelled(cs + rest) == [r] + Spelled(rest)
  {
    hide Hex4, First, R.CharOk, IsHexOf, Unit;
    var all := cs + rest;
    assert all[|cs|..] == rest && all[0] == cs[0];
    PlainConcat(cs, rest);
    FirstLocal(Plain(cs), Plain(rest));
  }

  lemma EscapeSpells(cs: seq<R.Char>, r: nat, rest: seq<R.Char>)
    requires Spells(cs, r) && cs != [] && cs[0].Escaped? && R.CharsOk(rest) && R.CharsOk(cs + rest)
    ensures Spelled(cs + rest) == [r] + Spelled(rest)
  {
    hide Hex4, First, IsHexOf, Unit;
    var all := cs + rest;
    assert all[1..] == rest && all[0] == cs[0];
  }

  lemma HalfIsBad(cs: seq<R.Char>, r: nat)
    requires Spells(cs, r) && IsHalf(cs)
    ensures r == BAD
  {
    hide Hex4, First, R.CharOk;
    if r != BAD {
      HexOfUnit(cs[0].hex, Units(r)[0]);
    }
  }

  lemma HalfSpells(cs: seq<R.Char>, rest: seq<R.Char>)
    requires R.CharsOk(cs) && R.CharsOk(cs + rest) && R.CharsOk(rest) && IsHalf(cs) && !BeginsWithPair(cs + rest)
    ensures Spelled(cs + rest) == [BAD] + Spelled(rest)
  {
    hide Hex4, First, BeginsWithPair;
    var all := cs + rest;
    assert all[1..] == rest && all[0] == cs[0];
  }

  lemma {:induction false} PlainConcat(cs: seq<R.Char>, rest: seq<R.Char>)
    requires |Plain(cs)| == |cs|
    ensures Plain(cs + rest) == Plain(cs) + Plain(rest)
    decreases |cs|
  {
    if cs == [] {
      assert cs + rest == rest;
    } else {
      PlainConcat(cs[1..], rest);
      assert (cs + rest)[1..] == cs[1..] + rest;
    }
  }

  lemma UnitsSpell(cs: seq<R.Char>, r: nat, rest: seq<R.Char>)
    requires Spells(cs, r) && cs != [] && cs[0].Unicode? && !IsHalf(cs) && R.CharsOk(rest) && R.CharsOk(cs + rest)
    ensures Spelled(cs + rest) == [r] + Spelled(rest)
  {
    hide Hex4, First, Spelled, R.CharOk, IsHexOf;
    var all := cs + rest;
    assert all[|cs|..] == rest && all[0] == cs[0];
    UnitOfPiece(cs, r);
    if r >= 0x10000 {
      assert all[1] == cs[1];
      HexOfUnit(cs[1].hex, Units(r)[1]);
      assert 0x10000 + (Units(r)[0] - 0xD800) * 0x400 + (Units(r)[1] - 0xDC00) == r;
      PairedSpells(all);
    } else {
      AloneSpells(all);
    }
  }

  lemma PairedSpells(chars: seq<R.Char>)
    requires R.CharsOk(chars) && BeginsWithPair(chars)
    ensures Spelled(chars)
            == [0x10000 + (Unit(chars[0]) - 0xD800) * 0x400 + (Unit(chars[1]) - 0xDC00)] + Spelled(chars[2..])
  {
    hide Hex4, First;
  }

  lemma AloneSpells(chars: seq<R.Char>)
    requires R.CharsOk(chars) && chars != [] && chars[0].Unicode? && IsScalarValue(Unit(chars[0]))
    ensures Spelled(chars) == [Unit(chars[0])] + Spelled(chars[1..])
  {
    hide Hex4, First;
  }

  /** Whatever way each scalar value of a text is spelled, in bytes, by a short
      escape, or by the escapes of its units in digits of either case, the string
      unquotes to the UTF-8 of the text. */
  lemma SpellingIsRead(pieces: seq<seq<R.Char>>, rs: seq<nat>)
    requires SpellsText(pieces, rs)
    ensures R.CharsOk(Flat(pieces))
    ensures var out := Unquote(R.StringText(Flat(pieces))); out.Some? && Scalars(out.value) == Some(rs)
  {
    hide Unquote, Scalars, Spelled;
    SpelledFlat(pieces, rs);
    StringSpells(Flat(pieces));
  }
}
