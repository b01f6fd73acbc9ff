/** Which source text of a key is kept when a caller's tree is taken over. */
module NodeImport {
  import opened Ascii
  import opened Utf8
  import opened Lexer
  import opened QuotedStrings
  import opened StringLaws
  import opened Unquoting

  /** What the loop of plainStringToken looks for: a byte behind a backslash is
      skipped, and no other byte may be a quote or a control character. */
  predicate PlainBody(b: Bytes) {
    b == []
    || if b[0] == BACKSLASH then |b| < 2 || PlainBody(b[2..]) else b[0] != QUOTE && b[0] >= SPACE && PlainBody(b[1..])
  }

  method PlainStringToken(raw: Bytes) returns (r: bool)
    requires |raw| >= 2
    ensures r <==> Valid(raw) && PlainBody(raw[1..|raw| - 1])
  {
    hide Valid;
    if !Valid(raw) {
      return false;
    }
    var body := raw[1..|raw| - 1];
    var i := 1;
    assert body[0..] == body;
    while i < |raw| - 1
      invariant 1 <= i
      invariant i <= |raw| - 1 ==> PlainBody(body) == PlainBody(body[i - 1..])
      invariant i > |raw| - 1 ==> PlainBody(body)
    {
      ghost var rest := body[i - 1..];
      assert rest[0] == raw[i] && rest[1..] == body[i..];
      assert |rest| >= 2 ==> rest[2..] == body[i + 1..];
      if raw[i] == BACKSLASH {
        i := i + 1;
      } else if raw[i] == QUOTE || raw[i] < SPACE {
        return false;
      }
      i := i + 1;
    }
    assert body[|body|..] == [];
    return true;
  }

  /** importNode keeps the source text raw of a key. */
  method KeepsRawKey(raw: Bytes, key: Bytes) returns (kept: bool)
    ensures kept <==> IsStringToken(raw) && Valid(raw) && Unquote(raw) == Some(key)
  {
    hide Valid, PlainBody, Unescape, StringTail;
    if raw == [] {
      return false;
    }
    KeptIsToken(raw);
    var text := UnquoteString(raw);
    if text == None || text.value != key {
      return false;
    }
    kept := PlainStringToken(raw);
  }

  /** Bytes that need no escape. */
  predicate PlainBytes(b: Bytes) { forall i :: 0 <= i < |b| ==> b[i] != BACKSLASH && b[i] != QUOTE && b[i] >= SPACE }

  lemma {:induction false} PlainSkip(b: Bytes, k: nat)
    requires k <= |b| && PlainBytes(b[..k])
    ensures PlainBody(b) <==> PlainBody(b[k..])
  {
    if k > 0 {
      assert b[..k][0] == b[0];
      assert b[1..][..k - 1] == b[..k][1..];
      PlainSkip(b[1..], k - 1);
      assert b[1..][k - 1..] == b[k..];
    } else {
      assert b[0..] == b;
    }
  }

  /** The four digits behind \\u are plain. */
  lemma HexIsPlain(b: Bytes)
    requires |b| >= 6 && b[0] == BACKSLASH && b[1] == 0x75 && IsHex(b[2]) && IsHex(b[3]) && IsHex(b[4]) && IsHex(b[5])
    ensures PlainBody(b) <==> PlainBody(b[6..])
    ensures StringBody(b[6..]) ==> StringBody(b)
  {
    var c := b[2..];
    assert c[..4] == b[2..6];
    PlainSkip(c, 4);
    assert c[4..] == b[6..];
  }

  /** A body that is plain and can be unescaped is what the scanner accepts
      between quotes. */
  lemma {:induction false} PlainIsBody(b: Bytes)
    requires PlainBody(b) && Unescape(b).Some?
    ensures StringBody(b)
    decreases |b|
  {
    hide RuneSize, EncodeRune;
    if b == [] {
    } else if b[0] >= 0x80 {
      var k := if RuneSize(b) == 0 then 1 else RuneSize(b);
      assert PlainBytes(b[..k]);
      PlainSkip(b, k);
      PlainIsBody(b[k..]);
      BodyOfHighBytes(b[..k]);
      BodyConcat(b[..k], b[k..]);
      assert b == b[..k] + b[k..];
    } else if b[0] != BACKSLASH {
      PlainIsBody(b[1..]);
    } else if b[1] != 0x75 {
      PlainIsBody(b[2..]);
    } else {
      UnicodeIsBody(b);
    }
  }

  lemma {:induction false} UnicodeIsBody(b: Bytes)
    requires |b| > 1 && b[0] == BACKSLASH && b[1] == 0x75 && PlainBody(b) && Unescape(b).Some?
    ensures StringBody(b)
    decreases |b|, 0
  {
    hide EncodeRune, StringBody, PlainBody;
    var e := DecodeEscape(b).value;
    assert Hex4(b[2..6]).Some?;
    HexIsPlain(b);
    if e.size == 12 {
      assert b[6..][2..6] == b[8..12];
      HexIsPlain(b[6..]);
      assert b[6..][6..] == b[12..];
      PlainIsBody(b[12..]);
    } else {
      PlainIsBody(b[6..]);
    }
  }

  lemma {:induction false} BodyIsPlain(b: Bytes)
    requires StringBody(b)
    ensures PlainBody(b)
    decreases |b|
  {
    if b != [] {
      var k: nat := if b[0] == BACKSLASH then EscapeLen(b).value else 1;
      BodyIsPlain(b[k..]);
      if k == 6 {
        HexIsPlain(b);
      }
    }
  }

  /** Once it unquotes, a text is plain exactly when it is, as a whole, one
      string token. */
  lemma KeptIsToken(raw: Bytes)
    ensures IsStringToken(raw) <==> IsQuoted(raw) && Unquote(raw).Some? && PlainBody(raw[1..|raw| - 1])
  {
    hide StringTail, StringBody, PlainBody, Unescape;
    TokenBody(raw);
    if IsQuoted(raw) {
      var b := raw[1..|raw| - 1];
      if StringBody(b) {
        UnescapeTotal(b);
        BodyIsPlain(b);
      }
      if Unescape(b).Some? && PlainBody(b) {
        PlainIsBody(b);
      }
    }
  }
}
