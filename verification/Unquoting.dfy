/** The string reader as it runs: unquoteString and its helpers, with their
    fast path and their indexes into the body. */
module Unquoting {
  import opened Ascii
  import opened Utf8
  import opened QuotedStrings
  import opened StringLaws

  method ContainsByte(s: Bytes, b: byte) returns (found: bool)
    ensures found <==> b in s
  {
    for i := 0 to |s|
      invariant b !in s[..i]
    {
      if s[i] == b {
        return true;
      }
    }
    assert s[..|s|] == s;
    return false;
  }

  /** Four hexadecimal digits into sixteen bits. */
  method ParseHex4(s: Bytes) returns (r: Option<nat>)
    requires |s| == 4
    ensures r == Hex4(s)
  {
    var v: nat := 0;
    var i := 0;
    while i < 4
      invariant 0 <= i <= 4
      invariant forall j :: 0 <= j < i ==> IsHex(s[j])
      invariant i == 0 ==> v == 0
      invariant i == 1 ==> v == HexValue(s[0])
      invariant i == 2 ==> v == HexValue(s[0]) * 16 + HexValue(s[1])
      invariant i == 3 ==> v == (HexValue(s[0]) * 16 + HexValue(s[1])) * 16 + HexValue(s[2])
      invariant i == 4 ==> Some(v) == Hex4(s)
    {
      var c := s[i];
      var d: nat;
      if ZERO <= c <= NINE {
        d := (c - ZERO) as nat;
      } else if 0x61 <= c <= 0x66 {
        d := (c - 0x61) as nat + 10;
      } else if 0x41 <= c <= 0x46 {
        d := (c - 0x41) as nat + 10;
      } else {
        return None;
      }
      v := (v * 16 + d) % 0x10000;
      i := i + 1;
    }
    return Some(v);
  }

  /** The escape at body[i] appended to out, and the index behind it. */
  method AppendUnicodeEscape(out: Bytes, body: Bytes, i: nat) returns (r: Option<(Bytes, nat)>)
    requires i + 1 < |body| && body[i] == BACKSLASH && body[i + 1] == 0x75
    ensures r == Appended(out, i, DecodeUnicodeEscape(body[i..]))
  {
    hide Hex4, EncodeRune;
    ghost var s := body[i..];
    if i + 6 > |body| {
      return None;
    }
    assert body[i + 2..i + 6] == s[2..6];
    var r1 := ParseHex4(body[i + 2..i + 6]);
    if r1 == None {
      return None;
    }
    var at := i + 6;
    if !IsHighSurrogate(r1.value) && !IsLowSurrogate(r1.value) {
      return Some((out + EncodeRune(r1.value), at));
    }
    if at + 6 <= |body| && body[at] == BACKSLASH && body[at + 1] == 0x75 {
      assert body[at + 2..at + 6] == s[8..12];
      var r2 := ParseHex4(body[at + 2..at + 6]);
      if r2.Some? && IsHighSurrogate(r1.value) && IsLowSurrogate(r2.value) {
        return Some((out + EncodeRune(CombineSurrogates(r1.value, r2.value)), at + 6));
      }
    }
    return Some((out + REPLACEMENT, at));
  }

  function Appended(out: Bytes, i: nat, e: Option<Escape>): Option<(Bytes, nat)> {
    match e
    case None => None
    case Some(x) => Some((out + x.out, i + x.size))
  }

  method AppendEscape(out: Bytes, body: Bytes, i: nat) returns (r: Option<(Bytes, nat)>)
    requires i + 1 < |body| && body[i] == BACKSLASH
    ensures r == Appended(out, i, DecodeEscape(body[i..]))
  {
    hide DecodeUnicodeEscape;
    var next := body[i + 1];
    assert body[i..][1] == next;
    if next == QUOTE || next == BACKSLASH || next == SLASH {
      return Some((out + [next], i + 2));
    } else if next == 0x62 {
      return Some((out + [0x08], i + 2));
    } else if next == 0x66 {
      return Some((out + [0x0C], i + 2));
    } else if next == 0x6E {
      return Some((out + [LF], i + 2));
    } else if next == 0x72 {
      return Some((out + [CR], i + 2));
    } else if next == 0x74 {
      return Some((out + [TAB], i + 2));
    } else if next == 0x75 {
      r := AppendUnicodeEscape(out, body, i);
    } else {
      return None;
    }
  }

  /** One turn of the loop: the character at i. */
  lemma UnescapeStep(body: Bytes, i: nat)
    requires i < |body|
    ensures var s := body[i..];
            Unescape(s)
            == if s[0] >= 0x80 then
                 (if RuneSize(s) == 0 then Prepend(REPLACEMENT, Unescape(body[i + 1..]))
                  else Prepend(s[..RuneSize(s)], Unescape(body[i + RuneSize(s)..])))
               else if s[0] != BACKSLASH then Prepend([s[0]], Unescape(body[i + 1..]))
               else if |s| < 2 then None
               else match DecodeEscape(s)
                    case None => None
                    case Some(e) => Prepend(e.out, Unescape(body[i + e.size..]))
  {
    hide RuneSize, DecodeEscape;
    var s := body[i..];
    assert s[1..] == body[i + 1..];
    assert s[RuneSize(s)..] == body[i + RuneSize(s)..];
    if |s| > 1 && DecodeEscape(s).Some? {
      assert s[DecodeEscape(s).value.size..] == body[i + DecodeEscape(s).value.size..];
    }
  }

  lemma PrependTwice(a: Bytes, b: Bytes, r: Option<Bytes>)
    ensures Prepend(a, Prepend(b, r)) == Prepend(a + b, r)
  {
    if r.Some? {
      assert a + (b + r.value) == a + b + r.value;
    }
  }

  method UnquoteString(raw: Bytes) returns (r: Option<Bytes>)
    ensures r == Unquote(raw)
  {
    hide RuneSize, DecodeEscape, Unescape, Valid;
    if |raw| < 2 || raw[0] != QUOTE || raw[|raw| - 1] != QUOTE {
      return None;
    }
    var body := raw[1..|raw| - 1];
    // Without escapes and bad bytes the body spells itself.
    var escaped := ContainsByte(body, BACKSLASH);
    if !escaped && Valid(body) {
      PlainTextSpellsItself(body);
      return Some(body);
    }
    var out: Bytes := [];
    var i := 0;
    NothingYet(body);
    while i < |body|
      invariant i <= |body|
      invariant Prepend(out, Unescape(body[i..])) == Unescape(body)
    {
      var c := body[i];
      UnescapeStep(body, i);
      if c >= 0x80 {
        var size := RuneSize(body[i..]);
        if size == 0 {
          PrependTwice(out, REPLACEMENT, Unescape(body[i + 1..]));
          out := out + REPLACEMENT;
          i := i + 1;
        } else {
          assert body[i..][..size] == body[i..i + size];
          PrependTwice(out, body[i..i + size], Unescape(body[i + size..]));
          out := out + body[i..i + size];
          i := i + size;
        }
      } else if c != BACKSLASH {
        PrependTwice(out, [c], Unescape(body[i + 1..]));
        out := out + [c];
        i := i + 1;
      } else {
        if i + 1 >= |body| {
          return None;
        }
        var next := AppendEscape(out, body, i);
        if next == None {
          return None;
        }
        PrependTwice(out, DecodeEscape(body[i..]).value.out, Unescape(body[next.value.1..]));
        out, i := next.value.0, next.value.1;
      }
    }
    Finished(body[i..], out);
    return Some(out);
  }

  lemma NothingYet(body: Bytes)
    ensures Prepend([], Unescape(body[0..])) == Unescape(body)
  {
    assert body[0..] == body;
    if Unescape(body).Some? {
      assert [] + Unescape(body).value == Unescape(body).value;
    }
  }

  lemma Finished(s: Bytes, out: Bytes)
    requires s == []
    ensures Prepend(out, Unescape(s)) == Some(out)
  {
    assert Unescape(s) == Some([]);
    assert out + [] == out;
  }
}
