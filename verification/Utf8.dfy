/** UTF-8 as Go's unicode/utf8 package reads and writes it. */
module Utf8 {
  import opened Ascii

  /** The encoding of U+FFFD, which replaces what cannot be decoded. */
  const REPLACEMENT: Bytes := [0xEF, 0xBF, 0xBD]

  predicate IsContinuation(c: byte) { 0x80 <= c <= 0xBF }

  /** The size of the rune encoded at the start of s, or 0 when the first byte
      does not start a valid encoding. */
  function RuneSize(s: Bytes): (n: nat)
    requires |s| > 0
    ensures n <= |s| && n <= 4
    ensures s[0] < 0x80 <==> n == 1
    ensures n > 1 ==> forall k :: 0 <= k < n ==> s[k] >= 0x80
  {
    var c := s[0];
    if c < 0x80 then 1
    else if 0xC2 <= c <= 0xDF then
      if |s| > 1 && IsContinuation(s[1]) then 2 else 0
    else if 0xE0 <= c <= 0xEF then
      if |s| > 2 && IsContinuation(s[1]) && IsContinuation(s[2])
         && (c == 0xE0 ==> s[1] >= 0xA0) && (c == 0xED ==> s[1] < 0xA0) then 3 else 0
    else if 0xF0 <= c <= 0xF4 then
      if |s| > 3 && IsContinuation(s[1]) && IsContinuation(s[2]) && IsContinuation(s[3])
         && (c == 0xF0 ==> s[1] >= 0x90) && (c == 0xF4 ==> s[1] < 0x90) then 4 else 0
    else 0
  }

  predicate Valid(s: Bytes)
    decreases |s|
  {
    s == [] || (RuneSize(s) > 0 && Valid(s[RuneSize(s)..]))
  }

  /** utf8.AppendRune: surrogates and numbers past U+10FFFF are replaced. */
  function EncodeRune(r: nat): (s: Bytes)
    ensures 1 <= |s| <= 4
  {
    if r <= 0x7F then [r as byte]
    else if r <= 0x7FF then [(0xC0 + r / 0x40) as byte, (0x80 + r % 0x40) as byte]
    else if 0xD800 <= r <= 0xDFFF || r > 0x10FFFF then REPLACEMENT
    else if r <= 0xFFFF then
      [(0xE0 + r / 0x1000) as byte, (0x80 + r / 0x40 % 0x40) as byte, (0x80 + r % 0x40) as byte]
    else
      [(0xF0 + r / 0x40000) as byte, (0x80 + r / 0x1000 % 0x40) as byte,
       (0x80 + r / 0x40 % 0x40) as byte, (0x80 + r % 0x40) as byte]
  }

  /** A rune's encoding is recognised whatever follows it. */
  lemma RuneSizeLocal(s: Bytes, rest: Bytes)
    requires |s| > 0 && RuneSize(s) > 0
    ensures RuneSize(s[..RuneSize(s)] + rest) == RuneSize(s)
  {
    var n := RuneSize(s);
    assert forall k :: 0 <= k < n ==> (s[..n] + rest)[k] == s[k];
  }

  lemma EncodeRuneSize(r: nat, rest: Bytes)
    ensures RuneSize(EncodeRune(r) + rest) == |EncodeRune(r)|
  {
    var e := EncodeRune(r);
    assert forall k :: 0 <= k < |e| ==> (e + rest)[k] == e[k];
  }

  lemma {:induction false} ValidPrefix(e: Bytes, rest: Bytes)
    requires |e| > 0 && RuneSize(e + rest) == |e| && Valid(rest)
    ensures Valid(e + rest)
  {
    assert (e + rest)[|e|..] == rest;
  }

  lemma {:induction false} ValidConcat(a: Bytes, b: Bytes)
    requires Valid(a) && Valid(b)
    ensures Valid(a + b)
    decreases |a|
  {
    if a == [] {
      assert a + b == b;
    } else {
      var n := RuneSize(a);
      ValidConcat(a[n..], b);
      RuneSizeLocal(a, a[n..] + b);
      assert a + b == a[..n] + (a[n..] + b);
      assert (a + b)[n..] == a[n..] + b;
    }
  }
}
