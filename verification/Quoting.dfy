/** What quoting writes, character by character. */
module Quoting {
  import opened Ascii
  import opened Utf8
  import opened QuotedStrings
  import opened Spelling
  import opened Texts
  import R = Rfc8259

  /** The characters with a short escape; the solidus needs none. */
  const SHORT_OF: map<nat, byte> := map[
    0x22 := QUOTE, 0x5C := BACKSLASH, 0x08 := 0x62, 0x0C := 0x66, 0x0A := 0x6E, 0x0D := 0x72, 0x09 := 0x74]

  /** What HTML escaping covers besides. */
  const HTML: set<nat> := {0x3C, 0x3E, 0x26, 0x2028, 0x2029}

  function Lower4(r: nat): Bytes
    requires r < 0x10000
  {
    [LOWER[r / 0x1000], LOWER[r / 0x100 % 16], LOWER[r / 16 % 16], LOWER[r % 16]]
  }

  function AsItIs(e: Bytes): seq<R.Char> { if e == [] then [] else [R.Unescaped(e[0])] + AsItIs(e[1..]) }

  /** How a scalar value is written: by a short escape, or in lower-case digits if
      it is a control character or HTML escaping covers it, or as it is. */
  function Written(r: nat, html: bool): seq<R.Char> {
    if r in SHORT_OF then [R.Escaped(SHORT_OF[r])]
    else if r < 0x20 || (html && r in HTML) then [R.Unicode(Lower4(r))]
    else AsItIs(EncodeRune(r))
  }

  function WrittenAll(rs: seq<nat>, html: bool): seq<R.Char> {
    if rs == [] then [] else Written(rs[0], html) + WrittenAll(rs[1..], html)
  }

  /** The scalar values of bytes, each byte that is no UTF-8 being U+FFFD. */
  function Repaired(s: Bytes): seq<nat>
    decreases |s|
  {
    if s == [] then []
    else if First(s) == None then [BAD] + Repaired(s[1..])
    else [First(s).value] + Repaired(s[Width(s[0])..])
  }

  lemma FirstFits(s: Bytes)
    requires First(s).Some?
    ensures s != [] && 1 <= Width(s[0]) <= |s|
  {
  }

  /** Valid UTF-8 needs no repair. */
  lemma {:induction false} NothingToRepair(s: Bytes)
    requires Scalars(s).Some?
    ensures Repaired(s) == Scalars(s).value
    decreases |s|
  {
    hide First;
    if s != [] {
      FirstFits(s);
      NothingToRepair(s[Width(s[0])..]);
    }
  }

  lemma {:induction false} TextAsItIs(e: Bytes)
    ensures R.CharsText(AsItIs(e)) == e
  {
    if e != [] {
      TextAsItIs(e[1..]);
      assert AsItIs(e)[1..] == AsItIs(e[1..]);
      assert e == [e[0]] + e[1..];
    }
  }

  lemma {:induction false} TextConcat(a: seq<R.Char>, b: seq<R.Char>)
    ensures R.CharsText(a + b) == R.CharsText(a) + R.CharsText(b)
  {
    hide R.CharText;
    if a == [] {
      assert a + b == b;
    } else {
      TextConcat(a[1..], b);
      assert (a + b)[0] == a[0] && (a + b)[1..] == a[1..] + b;
      Assoc(R.CharText(a[0]), R.CharsText(a[1..]), R.CharsText(b));
    }
  }

  lemma OneText(ch: R.Char)
    ensures R.CharsText([ch]) == R.CharText(ch)
  {
    assert [ch][1..] == [];
  }

  lemma EscapeText(r: nat)
    requires r < 0x10000
    ensures R.CharsText([R.Unicode(Lower4(r))]) == UnicodeEscape(r)
  {
    hide Lower4, UnicodeEscape;
    OneText(R.Unicode(Lower4(r)));
    DigitsText(r);
    assert R.CharText(R.Unicode(Lower4(r))) == [BACKSLASH, 0x75] + Lower4(r);
  }

  lemma DigitsText(r: nat)
    requires r < 0x10000
    ensures UnicodeEscape(r) == [BACKSLASH, 0x75] + Lower4(r)
  {
    assert forall d: nat :: d < 16 ==> HexDigit(d) == LOWER[d];
  }

  /** A scalar value has one encoding. */
  lemma EncodingIs(s: Bytes)
    requires First(s).Some?
    ensures EncodeRune(First(s).value) == s[..Width(s[0])]
  {
    var e := s[..Width(s[0])];
    var r := Bits(e);
    if |e| == 1 {
      assert e == [e[0]];
    } else if |e| == 2 {
      assert r == (e[0] - 0xC0) as nat * 0x40 + Six(e[1]);
      assert r / 0x40 == (e[0] - 0xC0) as nat && r % 0x40 == Six(e[1]);
      assert e == [e[0], e[1]];
    } else if |e| == 3 {
      EncodingIs3(e, r);
    } else {
      EncodingIs4(e, r);
    }
  }

  lemma EncodingIs3(e: Bytes, r: nat)
    requires |e| == 3 && Width(e[0]) == 3 && (forall i :: 1 <= i < 3 ==> IsContinuation(e[i])) && r == Bits(e)
    requires 0x800 <= r && IsScalarValue(r)
    ensures EncodeRune(r) == e
  {
    var a, b, c := (e[0] - 0xE0) as nat, Six(e[1]), Six(e[2]);
    assert r == (a * 0x40 + b) * 0x40 + c;
    assert r / 0x1000 == a && r / 0x40 % 0x40 == b && r % 0x40 == c;
    assert e == [e[0], e[1], e[2]];
  }

  lemma EncodingIs4(e: Bytes, r: nat)
    requires |e| == 4 && Width(e[0]) == 4 && (forall i :: 1 <= i < 4 ==> IsContinuation(e[i])) && r == Bits(e)
    requires 0x10000 <= r && IsScalarValue(r)
    ensures EncodeRune(r) == e
  {
    var a, b, c, d := (e[0] - 0xF0) as nat, Six(e[1]), Six(e[2]), Six(e[3]);
    FourthsOf(r, a, b, c, d);
    assert e == [e[0], e[1], e[2], e[3]];
  }

  lemma DivStep(q: nat, x: nat)
    requires x < 0x40
    ensures (q * 0x40 + x) / 0x40 == q && (q * 0x40 + x) % 0x40 == x
  {
  }

  lemma DivTwice(r: nat)
    ensures r / 0x1000 == r / 0x40 / 0x40 && r / 0x40000 == r / 0x1000 / 0x40
  {
  }

  lemma FourthsOf(r: nat, a: nat, b: nat, c: nat, d: nat)
    requires b < 0x40 && c < 0x40 && d < 0x40 && r == ((a * 0x40 + b) * 0x40 + c) * 0x40 + d
    ensures r / 0x40000 == a && r / 0x1000 % 0x40 == b && r / 0x40 % 0x40 == c && r % 0x40 == d
  {
    DivTwice(r);
    DivStep((a * 0x40 + b) * 0x40 + c, d);
    DivStep(a * 0x40 + b, c);
    DivStep(a, b);
  }

  /** U+2028 and U+2029 by their bytes. */
  lemma SeparatorIs(s: Bytes)
    requires s != []
    ensures LineSeparatorAt(s) <==> First(s) == Some(0x2028) || First(s) == Some(0x2029)
    ensures LineSeparatorAt(s) ==> First(s) == Some(if s[2] == 0xA8 then 0x2028 else 0x2029) && Width(s[0]) == 3
  {
    if LineSeparatorAt(s) {
      var e := s[..3];
      assert e == [s[0], s[1], s[2]];
      assert Bits(e) == if s[2] == 0xA8 then 0x2028 else 0x2029;
    }
    if First(s) == Some(0x2028) || First(s) == Some(0x2029) {
      EncodingIs(s);
      var e := s[..Width(s[0])];
      assert e == EncodeRune(First(s).value);
      assert |e| == 3 && e[0] == s[0] && e[1] == s[1] && e[2] == s[2];
    }
  }

  /** A byte that is no UTF-8. */
  lemma BadWrites(s: Bytes, html: bool)
    requires s != [] && First(s) == None
    ensures QuoteStep(s, html) == Escape(R.CharsText(Written(BAD, html)), 1)
  {
    hide First, UnicodeEscape, R.CharsText, EncodeRune;
    SeparatorIs(s);
    FirstIsRune(s);
    SmallFirst(s);
    TextAsItIs(EncodeRune(BAD));
    BadIsReplacement();
  }

  /** One step of quoting writes one scalar value. */
  lemma StepWrites(s: Bytes, html: bool)
    requires First(s).Some?
    ensures QuoteStep(s, html) == Escape(R.CharsText(Written(First(s).value, html)), Width(s[0]))
  {
    hide First, UnicodeEscape, R.CharsText, EncodeRune, Lower4, RuneSize, LineSeparatorAt;
    var r := First(s).value;
    FirstFits(s);
    SeparatorIs(s);
    FirstIsRune(s);
    EncodingIs(s);
    SmallFirst(s);
    TextAsItIs(EncodeRune(r));
    if r < 0x10000 {
      EscapeText(r);
    }
    if r in SHORT_OF {
      OneText(R.Escaped(SHORT_OF[r]));
      EscapedText(SHORT_OF[r]);
    }
  }

  lemma EscapedText(c: byte)
    ensures R.CharText(R.Escaped(c)) == [BACKSLASH, c]
  {
  }

  lemma SmallFirst(s: Bytes)
    requires s != []
    ensures s[0] < 0x80 ==> First(s) == Some(s[0] as nat) && Width(s[0]) == 1 && s[..1] == [s[0]]
    ensures s[0] >= 0x80 && First(s).Some? ==> First(s).value >= 0x80
  {
    if s[0] < 0x80 {
      assert s[..1] == [s[0]];
    }
  }

  lemma {:induction false} BodyWrites(s: Bytes, html: bool)
    ensures QuoteBody(s, html) == R.CharsText(WrittenAll(Repaired(s), html))
    decreases |s|
  {
    hide QuoteStep, First, Written;
    if s != [] {
      var r := if First(s) == None then BAD else First(s).value;
      var n := if First(s) == None then 1 else Width(s[0]);
      if First(s) == None {
        BadWrites(s, html);
      } else {
        FirstFits(s);
        StepWrites(s, html);
      }
      BodyWrites(s[n..], html);
      var rest := Repaired(s[n..]);
      assert Repaired(s) == [r] + rest && ([r] + rest)[1..] == rest;
      TextConcat(Written(r, html), WrittenAll(rest, html));
    }
  }

  /** Quoted text is a string of the grammar: every character of the value in the
      form that is preferred for it. */
  lemma QuoteWrites(s: Bytes, html: bool)
    ensures Quote(s, html) == R.StringText(WrittenAll(Repaired(s), html))
  {
    BodyWrites(s, html);
  }

  // Source text that is kept

  lemma {:induction false} ContinuationsNeedNone(s: Bytes, n: nat)
    requires n <= |s| && forall i :: 0 <= i < n ==> IsContinuation(s[i])
    ensures NeedsHtmlEscape(s) <==> NeedsHtmlEscape(s[n..])
    decreases n
  {
    if n == 0 {
      assert s[0..] == s;
    } else {
      ContinuationsNeedNone(s[1..], n - 1);
      assert s[1..][n - 1..] == s[n..];
    }
  }

  lemma FirstNeeds(s: Bytes)
    requires First(s).Some?
    ensures Width(s[0]) <= |s|
    ensures NeedsHtmlEscape(s) <==> First(s).value in HTML || NeedsHtmlEscape(s[Width(s[0])..])
  {
    hide First, LineSeparatorAt;
    FirstFits(s);
    SeparatorIs(s);
    SmallFirst(s);
    if s[0] >= 0x80 {
      var n := Width(s[0]);
      FirstContinues(s);
      ContinuationsNeedNone(s[1..], n - 1);
      assert s[1..][n - 1..] == s[n..];
    }
  }

  lemma FirstContinues(s: Bytes)
    requires First(s).Some? && s[0] >= 0x80
    ensures 1 <= Width(s[0]) <= |s| && forall i :: 0 <= i < Width(s[0]) - 1 ==> IsContinuation(s[1..][i])
  {
    var e := s[..Width(s[0])];
    assert forall i :: 0 <= i < |e| - 1 ==> s[1..][i] == e[i + 1];
  }

  lemma {:induction false} TextNeeds(s: Bytes)
    ensures Valid(s) <==> Scalars(s).Some?
    ensures Valid(s) ==> (NeedsHtmlEscape(s) <==> exists r :: r in Scalars(s).value && r in HTML)
    decreases |s|
  {
    hide First, RuneSize, NeedsHtmlEscape;
    if s == [] {
      assert !NeedsHtmlEscape([]) by { NothingNeeds(); }
    } else {
      FirstIsRune(s);
      if First(s).Some? {
        FirstFits(s);
        FirstNeeds(s);
        TextNeeds(s[Width(s[0])..]);
        if Scalars(s).Some? {
          var rs := Scalars(s[Width(s[0])..]).value;
          assert Scalars(s).value == [First(s).value] + rs;
          assert forall r :: r in Scalars(s).value <==> r == First(s).value || r in rs;
        }
      }
    }
  }

  lemma NothingNeeds()
    ensures !NeedsHtmlEscape([])
  {
  }

  /** A string is written as the source has it exactly when that is UTF-8 and HTML
      escaping is off or covers none of its characters; otherwise its value is
      quoted. */
  lemma SourceIsKept(raw: Bytes, value: Bytes, html: bool)
    ensures SourceString(raw, value, html)
            == if raw != [] && Scalars(raw).Some?
                  && (html ==> forall r :: r in Scalars(raw).value ==> r !in HTML)
               then raw else R.StringText(WrittenAll(Repaired(value), html))
  {
    hide Quote, Valid, NeedsHtmlEscape, Scalars, Repaired, R.StringText;
    TextNeeds(raw);
    QuoteWrites(value, html);
  }
}
