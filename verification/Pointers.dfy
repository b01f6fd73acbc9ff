/** JSON Pointers: the decoded tokens of a pointer, and the text of a token
    list, as in sections 3 and 4 of RFC 6901. */
module Pointers {
  import opened Ascii
  import opened Numbers
  import R = Rfc8259

  const TILDE: byte := 0x7E

  type Tokens = seq<Bytes>

  /** ~1 stands for a slash and ~0 for a tilde; no other use of ~ is allowed. */
  function DecodeToken(s: Bytes): Option<Bytes>
    decreases |s|
  {
    if s == [] then Some([])
    else if s[0] != TILDE then PutFirst(s[0], DecodeToken(s[1..]))
    else if |s| < 2 || (s[1] != ZERO && s[1] != 0x31) then None
    else PutFirst(if s[1] == ZERO then TILDE else SLASH, DecodeToken(s[2..]))
  }

  function PutFirst(c: byte, r: Option<Bytes>): Option<Bytes> { if r == None then None else Some([c] + r.value) }

  /** strings.Split(s, "/") */
  function SplitSlashes(s: Bytes): (parts: seq<Bytes>)
    ensures parts != []
  {
    if s == [] then [[]]
    else
      var rest := SplitSlashes(s[1..]);
      if s[0] == SLASH then [[]] + rest else [[s[0]] + rest[0]] + rest[1..]
  }

  function DecodeAll(parts: seq<Bytes>): Option<Tokens> {
    if parts == [] then Some([])
    else
      match (DecodeToken(parts[0]), DecodeAll(parts[1..]))
      case (Some(t), Some(ts)) => Some([t] + ts)
      case _ => None
  }

  /** pointerTokens */
  function PointerTokens(ptr: Bytes): Option<Tokens> {
    if ptr == [] then Some([])
    else if ptr[0] != SLASH then None
    else DecodeAll(SplitSlashes(ptr[1..]))
  }

  method DecodePointerToken(s: Bytes) returns (r: Option<Bytes>)
    ensures r == DecodeToken(s)
  {
    if TILDE !in s {
      PlainToken(s);
      return Some(s);
    }
    var sb: Bytes := [];
    var i := 0;
    assert s[0..] == s;
    NothingBefore(DecodeToken(s));
    while i < |s|
      invariant i <= |s|
      invariant DecodeToken(s) == Before(sb, DecodeToken(s[i..]))
    {
      ghost var t := s[i..];
      assert t[1..] == s[i + 1..];
      if s[i] != TILDE {
        BeforeFirst(sb, s[i], DecodeToken(s[i + 1..]));
        sb := sb + [s[i]];
      } else {
        if i + 1 >= |s| || (s[i + 1] != ZERO && s[i + 1] != 0x31) {
          return None;
        }
        assert t[2..] == s[i + 2..];
        var c := if s[i + 1] == ZERO then TILDE else SLASH;
        BeforeFirst(sb, c, DecodeToken(s[i + 2..]));
        sb := sb + [c];
        i := i + 1;
      }
      i := i + 1;
    }
    assert s[i..] == [];
    assert sb + [] == sb;
    return Some(sb);
  }

  /** pointerTokens, part by part. */
  method ReadPointer(ptr: Bytes) returns (r: Option<Tokens>)
    ensures r == PointerTokens(ptr)
  {
    hide DecodeToken, SplitSlashes;
    if ptr == [] {
      return Some([]);
    }
    if ptr[0] != SLASH {
      return None;
    }
    var raw := SplitSlashes(ptr[1..]);
    var out: Tokens := [];
    assert raw[0..] == raw;
    NoTokensYet(DecodeAll(raw));
    for i := 0 to |raw|
      invariant DecodeAll(raw) == After(out, DecodeAll(raw[i..]))
    {
      ghost var rest := raw[i..];
      assert rest[1..] == raw[i + 1..];
      var tok := DecodePointerToken(raw[i]);
      if tok == None {
        return None;
      }
      AfterOne(out, tok.value, DecodeAll(raw[i + 1..]));
      out := out + [tok.value];
    }
    assert raw[|raw|..] == [];
    assert out + [] == out;
    return Some(out);
  }

  function After(a: Tokens, r: Option<Tokens>): Option<Tokens> { if r == None then None else Some(a + r.value) }

  lemma NoTokensYet(r: Option<Tokens>)
    ensures After([], r) == r
  {
    if r.Some? {
      assert [] + r.value == r.value;
    }
  }

  lemma AfterOne(a: Tokens, t: Bytes, r: Option<Tokens>)
    ensures After(a, if r == None then None else Some([t] + r.value)) == After(a + [t], r)
  {
    if r.Some? {
      assert a + ([t] + r.value) == a + [t] + r.value;
    }
  }

  function Before(a: Bytes, r: Option<Bytes>): Option<Bytes> { if r == None then None else Some(a + r.value) }

  lemma NothingBefore(r: Option<Bytes>)
    ensures Before([], r) == r
  {
    if r.Some? {
      assert [] + r.value == r.value;
    }
  }

  lemma BeforeFirst(a: Bytes, c: byte, r: Option<Bytes>)
    ensures Before(a, PutFirst(c, r)) == Before(a + [c], r)
  {
    if r.Some? {
      assert a + ([c] + r.value) == a + [c] + r.value;
    }
  }

  lemma {:induction false} PlainToken(s: Bytes)
    requires TILDE !in s
    ensures DecodeToken(s) == Some(s)
  {
    if s != [] {
      PlainToken(s[1..]);
      assert s == [s[0]] + s[1..];
    }
  }

  // Writing

  function EscapeByte(c: byte): Bytes {
    if c == TILDE then [TILDE, ZERO] else if c == SLASH then [TILDE, 0x31] else [c]
  }

  function EncodeToken(t: Bytes): Bytes { if t == [] then [] else EscapeByte(t[0]) + EncodeToken(t[1..]) }

  function PointerText(ts: Tokens): Bytes {
    if ts == [] then [] else [SLASH] + (EncodeToken(ts[0]) + PointerText(ts[1..]))
  }

  lemma {:induction false} DecodeInvertsEncode(t: Bytes)
    ensures DecodeToken(EncodeToken(t)) == Some(t) && SLASH !in EncodeToken(t)
  {
    if t != [] {
      var e := EncodeToken(t[1..]);
      DecodeInvertsEncode(t[1..]);
      var s := EncodeToken(t);
      var first := EscapeByte(t[0]);
      assert s[|first|..] == e && s[0] == first[0];
      assert |first| == 2 ==> s[1] == first[1];
      assert t == [t[0]] + t[1..];
    }
  }

  /** A part of a pointer that decodes is what encoding writes. */
  lemma {:induction false} EncodeInvertsDecode(s: Bytes)
    requires DecodeToken(s).Some? && SLASH !in s
    ensures EncodeToken(DecodeToken(s).value) == s
    decreases |s|
  {
    if s != [] {
      var k := if s[0] != TILDE then 1 else 2;
      var t := DecodeToken(s).value;
      EncodeInvertsDecode(s[k..]);
      assert t[1..] == DecodeToken(s[k..]).value;
      assert s == s[..k] + s[k..];
      assert s[..k] == EscapeByte(t[0]);
    }
  }

  // Splitting

  function JoinSlashes(parts: seq<Bytes>): Bytes {
    if parts == [] then [] else [SLASH] + (parts[0] + JoinSlashes(parts[1..]))
  }

  lemma JoinCons(p: Bytes, rest: seq<Bytes>)
    ensures JoinSlashes([p] + rest) == [SLASH] + (p + JoinSlashes(rest))
  {
    assert ([p] + rest)[1..] == rest;
  }

  lemma Unslashed(a: Bytes, b: Bytes)
    requires [SLASH] + a == [SLASH] + b
    ensures a == b
  {
    assert ([SLASH] + a)[1..] == a && ([SLASH] + b)[1..] == b;
  }

  lemma {:induction false} SplitJoins(s: Bytes)
    ensures JoinSlashes(SplitSlashes(s)) == [SLASH] + s
    ensures forall i :: 0 <= i < |SplitSlashes(s)| ==> SLASH !in SplitSlashes(s)[i]
  {
    hide JoinSlashes;
    var none: seq<Bytes> := [];
    if s == [] {
      JoinCons([], none);
      assert SplitSlashes(s) == [[]] + none;
      assert JoinSlashes(none) == [] by { NoneJoined(); }
      assert [SLASH] + ([] + []) == [SLASH] + s;
    } else {
      SplitJoins(s[1..]);
      var rest := SplitSlashes(s[1..]);
      if s[0] == SLASH {
        JoinCons([], rest);
        assert [SLASH] + ([] + JoinSlashes(rest)) == [SLASH] + s;
      } else {
        JoinCons(rest[0], rest[1..]);
        assert rest == [rest[0]] + rest[1..];
        Unslashed(rest[0] + JoinSlashes(rest[1..]), s[1..]);
        JoinCons([s[0]] + rest[0], rest[1..]);
        assert [s[0]] + rest[0] + JoinSlashes(rest[1..]) == [s[0]] + (rest[0] + JoinSlashes(rest[1..]));
        assert [s[0]] + s[1..] == s;
      }
    }
  }

  lemma NoneJoined()
    ensures JoinSlashes([]) == []
  {
  }

  lemma {:induction false} SplitPrefix(a: Bytes, b: Bytes)
    requires SLASH !in a
    ensures SplitSlashes(a + ([SLASH] + b)) == [a] + SplitSlashes(b)
    ensures SplitSlashes(a) == [a]
  {
    var s := a + ([SLASH] + b);
    if a == [] {
      assert s == [SLASH] + b && s[1..] == b;
    } else {
      SplitPrefix(a[1..], b);
      assert s[1..] == a[1..] + ([SLASH] + b) && s[0] == a[0];
      assert [a[0]] + a[1..] == a;
      assert ([a[1..]] + SplitSlashes(b))[1..] == SplitSlashes(b);
    }
  }

  lemma DecodeAllCons(e: Bytes, parts: seq<Bytes>, t: Bytes, ts: Tokens)
    requires DecodeToken(e) == Some(t) && DecodeAll(parts) == Some(ts)
    ensures DecodeAll([e] + parts) == Some([t] + ts)
  {
    hide DecodeToken;
    assert ([e] + parts)[1..] == parts;
  }

  lemma {:induction false} DecodesAllEncoded(ts: Tokens)
    requires ts != []
    ensures DecodeAll(SplitSlashes(PointerText(ts)[1..])) == Some(ts)
  {
    hide DecodeToken, DecodeAll, SplitSlashes, EncodeToken;
    var e := EncodeToken(ts[0]);
    DecodeInvertsEncode(ts[0]);
    var rest := ts[1..];
    assert PointerText(ts)[1..] == e + PointerText(rest);
    assert ts == [ts[0]] + rest;
    if rest == [] {
      SplitPrefix(e, []);
      assert e + [] == e;
      NoneDecoded();
      assert [e] + [] == [e];
      DecodeAllCons(e, [], ts[0], []);
    } else {
      var more := PointerText(rest)[1..];
      assert PointerText(rest) == [SLASH] + more;
      SplitPrefix(e, more);
      DecodesAllEncoded(rest);
      DecodeAllCons(e, SplitSlashes(more), ts[0], rest);
    }
  }

  lemma NoneDecoded()
    ensures DecodeAll([]) == Some([])
  {
  }

  /** The text of a token list has those tokens. */
  lemma TokensOfText(ts: Tokens)
    ensures PointerTokens(PointerText(ts)) == Some(ts)
  {
    if ts != [] {
      DecodesAllEncoded(ts);
    }
  }

  lemma {:induction false} EncodesAllDecoded(parts: seq<Bytes>)
    requires DecodeAll(parts).Some? && forall i :: 0 <= i < |parts| ==> SLASH !in parts[i]
    ensures PointerText(DecodeAll(parts).value) == JoinSlashes(parts)
  {
    if parts != [] {
      EncodesAllDecoded(parts[1..]);
      EncodeInvertsDecode(parts[0]);
      var ts := DecodeAll(parts).value;
      assert ts[1..] == DecodeAll(parts[1..]).value;
    }
  }

  /** And a valid pointer is the text of its tokens. */
  lemma TextOfTokens(ptr: Bytes)
    requires PointerTokens(ptr).Some?
    ensures PointerText(PointerTokens(ptr).value) == ptr
  {
    if ptr != [] {
      var parts := SplitSlashes(ptr[1..]);
      SplitJoins(ptr[1..]);
      EncodesAllDecoded(parts);
      assert [SLASH] + ptr[1..] == ptr;
    }
  }

  // The tests that move makes on pointer texts

  predicate ProperPrefix(a: Tokens, b: Tokens) { |a| < |b| && a <= b }

  /** On valid pointers, equal texts are equal token lists. */
  lemma SamePointer(from: Bytes, path: Bytes)
    requires PointerTokens(from).Some? && PointerTokens(path).Some?
    ensures from == path <==> PointerTokens(from) == PointerTokens(path)
  {
    TextOfTokens(from);
    TextOfTokens(path);
  }

  /** And `from` followed by a slash begins `path` exactly when the tokens of
      `from` are a proper prefix of those of `path`. */
  lemma DescendantPointer(from: Bytes, path: Bytes)
    requires PointerTokens(from).Some? && PointerTokens(path).Some?
    ensures from + [SLASH] <= path <==> ProperPrefix(PointerTokens(from).value, PointerTokens(path).value)
  {
    TextOfTokens(from);
    TextOfTokens(path);
    PrefixOfText(PointerTokens(from).value, PointerTokens(path).value);
  }

  lemma TextCons(ts: Tokens)
    ensures ts == [] ==> PointerText(ts) == [] && !ProperPrefix(ts, ts)
    ensures ts != [] ==> PointerText(ts) == [SLASH] + (EncodeToken(ts[0]) + PointerText(ts[1..])) && ProperPrefix([], ts)
  {
    hide EncodeToken;
  }

  lemma {:induction false} PrefixOfText(a: Tokens, b: Tokens)
    ensures PointerText(a) + [SLASH] <= PointerText(b) <==> ProperPrefix(a, b)
  {
    hide EncodeToken, PointerText, DecodeToken;
    TextCons(a);
    TextCons(b);
    var s, t := PointerText(a), PointerText(b);
    if b == [] {
      assert |s + [SLASH]| > 0;
    } else if a == [] {
      assert s + [SLASH] == [SLASH];
      assert t[..1] == [SLASH];
    } else {
      PrefixOfText(a[1..], b[1..]);
      var e, f := EncodeToken(a[0]), EncodeToken(b[0]);
      DecodeInvertsEncode(a[0]);
      DecodeInvertsEncode(b[0]);
      var x, y := PointerText(a[1..]), PointerText(b[1..]);
      TextCons(a[1..]);
      TextCons(b[1..]);
      FirstPart(e, x + [SLASH], f, y);
      assert s + [SLASH] == [SLASH] + (e + (x + [SLASH]));
      ConsPrefix(SLASH, e + (x + [SLASH]), f + y);
      ProperTail(a, b);
    }
  }

  lemma ConsPrefix(c: byte, p: Bytes, q: Bytes)
    ensures [c] + p <= [c] + q <==> p <= q
  {
    if [c] + p <= [c] + q {
      assert forall i :: 0 <= i < |p| ==> p[i] == ([c] + p)[i + 1] == ([c] + q)[i + 1] == q[i];
    }
    if p <= q {
      assert q == p + q[|p|..];
      assert [c] + q == [c] + p + q[|p|..];
    }
  }

  lemma ProperTail(a: Tokens, b: Tokens)
    requires a != [] && b != []
    ensures ProperPrefix(a, b) <==> a[0] == b[0] && ProperPrefix(a[1..], b[1..])
  {
    if a[0] == b[0] && ProperPrefix(a[1..], b[1..]) {
      assert forall i :: 0 <= i < |a| ==> a[i] == if i == 0 then b[0] else b[1..][i - 1];
    }
    if ProperPrefix(a, b) {
      assert a[0] == b[0];
      assert forall i :: 0 <= i < |a| - 1 ==> a[1..][i] == b[1..][i];
    }
  }

  /** Where the first slash is, or the length of s. */
  function SlashIndex(s: Bytes): (k: nat)
    ensures k <= |s|
  {
    if s == [] || s[0] == SLASH then 0 else 1 + SlashIndex(s[1..])
  }

  lemma {:induction false} SlashBehind(e: Bytes, x: Bytes)
    requires SLASH !in e && (x == [] || x[0] == SLASH)
    ensures SlashIndex(e + x) == |e|
  {
    if e == [] {
      assert e + x == x;
    } else {
      assert (e + x)[1..] == e[1..] + x;
      SlashBehind(e[1..], x);
    }
  }

  lemma {:induction false} SlashInPrefix(p: Bytes, q: Bytes)
    requires p <= q && SlashIndex(p) < |p|
    ensures SlashIndex(q) == SlashIndex(p)
  {
    if p[0] != SLASH {
      assert q[0] == p[0] && p[1..] <= q[1..];
      SlashInPrefix(p[1..], q[1..]);
    }
  }

  /** The parts up to the first slash. */
  lemma FirstPart(e: Bytes, x: Bytes, f: Bytes, y: Bytes)
    requires SLASH !in e && SLASH !in f && x != [] && x[0] == SLASH && (y == [] || y[0] == SLASH)
    ensures e + x <= f + y <==> e == f && x <= y
  {
    var p, q := e + x, f + y;
    SlashBehind(e, x);
    SlashBehind(f, y);
    if p <= q {
      SlashInPrefix(p, q);
      assert p[..|e|] == q[..|e|] == f;
      assert q == p + q[|p|..];
      assert y == x + q[|p|..];
    }
    if e == f && x <= y {
      assert q == p + y[|x|..];
    }
  }

  // Array indexes

  /** parseArrayIndex: None stands for -1. */
  function ArrayIndex(tok: Bytes): (r: Option<nat>) {
    if tok == [] || (tok[0] == ZERO && |tok| > 1) || !R.AllDigits(tok) then None
    else
      match Atoi(tok)
      case Some(n) => if n >= 0 then Some(n) else None
      case None => None
  }

  method ParseArrayIndex(tok: Bytes) returns (r: Option<nat>)
    ensures r == ArrayIndex(tok)
  {
    hide Atoi;
    if tok == [] || (tok[0] == ZERO && |tok| > 1) {
      return None;
    }
    for i := 0 to |tok|
      invariant forall j :: 0 <= j < i ==> IsDigit(tok[j])
    {
      if !IsDigit(tok[i]) {
        return None;
      }
    }
    var n := Atoi(tok);
    return if n.Some? && n.value >= 0 then Some(n.value) else None;
  }

  lemma {:induction false} NatTextLead(n: nat)
    ensures NatText(n)[0] == ZERO ==> n == 0
    ensures n == 0 ==> NatText(n) == [ZERO]
  {
    if n >= 10 {
      NatTextLead(n / 10);
      assert NatText(n)[0] == NatText(n / 10)[0];
    }
  }

  /** An array index is the decimal text of a number that fits an int, and has
      no other text. */
  lemma ArrayIndexIsDecimal(tok: Bytes, n: nat)
    ensures ArrayIndex(tok) == Some(n) <==> n <= MAX_INT && tok == NatText(n)
  {
    NatTextLead(n);
    if ArrayIndex(tok) == Some(n) {
      assert Nat(tok) == n by { NotSigned(tok); }
      if tok[0] == ZERO {
        OneDigit(ZERO);
        assert tok == [ZERO];
      } else {
        NatPositive(tok);
        NatInjective(tok, NatText(n));
      }
    }
    if n <= MAX_INT && tok == NatText(n) {
      NotSigned(tok);
      if tok[0] == ZERO {
        assert tok == [ZERO];
      }
    }
  }

  lemma NotSigned(tok: Bytes)
    requires R.AllDigits(tok) && tok != []
    ensures Atoi(tok) == if FitsInt(Nat(tok)) then Some(Nat(tok)) else None
  {
    hide Nat;
    assert IsDigit(tok[0]);
  }
}
