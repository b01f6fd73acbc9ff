/**
  What a value read from a stream has to do with the document that the slice of
  the source between two offsets is.
 */
module Streaming {
  import opened Ascii
  import opened Lexer
  import opened Tree
  import opened Syntax
  import opened Transparency
  import opened Locality
  import opened RelayoutRefines
  import opened Utf8

  /** stripBOM: None for the byte order marks of UTF-16 and UTF-32. */
  function StripBom(data: Bytes): (src: Option<Bytes>)
    ensures src.Some? ==> |src.value| <= |data| && src.value == data[|data| - |src.value|..]
  {
    if UTF8_BOM <= data then Some(data[3..])
    else if [0x00, 0x00, 0xFE, 0xFF] <= data then None
    else if [0xFE, 0xFF] <= data || [0xFF, 0xFE] <= data then None
    else Some(data)
  }

  /** The slice, as a whole document, means value. */
  predicate Means(slice: Bytes, o: Options, value: Value) {
    var src := StripBom(slice);
    src.Some? && var r := Parse(src.value, o); r.Ok? && ValueOf(r.val) == value
  }

  /** What the next value of a stream is, from the tokens left that are no
      comments or line breaks. */
  function NextOf(ps: seq<Token>, o: Options): Result<Node> { ParseValue(State(ps, 0, 0), 0, o) }

  lemma PlainIsClean(ts: seq<Token>)
    ensures NoTrivia(Plain(ts))
  {
    PlainHasNoTrivia(ts);
  }

  /** us alone is the document of the value it begins with. */
  lemma AloneIsDocument(us: seq<Token>, qs: seq<Token>, o: Options)
    requires NoTrivia(us) && NoTrivia(qs)
    requires var r := NextOf(us + qs, o); r.Ok? && r.st.ts == qs
    ensures var d := ParseDocument(us, o); d.Ok? && ValueOf(d.val) == ValueOf(NextOf(us + qs, o).val)
  {
    hide ParseValue, NoTrivia, HeadComments, Collect, InlineComment;
    var none: seq<Token> := [];
    NoneIsClean();
    ValueLocal(us, qs, none, 0, 0, 0, o);
    assert us + none == us;
    NothingSkipped([], us);
    NothingSkipped([], none);
  }

  lemma NoneIsClean()
    ensures NoTrivia([])
  {
  }

  /** The value that a stream gives next, its tokens among ts, means the same as
      the document of those tokens, comments and line breaks included. */
  lemma SliceIsDocument(ts: seq<Token>, slice: seq<Token>, o: Options)
    requires NextOf(HeadComments(ts).rest, o).Ok?
    requires Plain(ts) == Plain(slice) + Plain(NextOf(HeadComments(ts).rest, o).st.ts)
    ensures var d := ParseDocument(slice, o); d.Ok? && ValueOf(d.val) == ValueOf(NextOf(HeadComments(ts).rest, o).val)
    ensures var q := NextOf(Plain(ts), o);
            q.Ok? && ValueOf(q.val) == ValueOf(NextOf(HeadComments(ts).rest, o).val)
            && q.st.ts == Plain(NextOf(HeadComments(ts).rest, o).st.ts)
  {
    hide ParseValue, Collect, ParseDocument;
    var rest := HeadComments(ts).rest;
    CollectIsPlain([], ts);
    ValueTransparent(State(rest, 0, 0), 0, o);
    PlainIsClean(slice);
    PlainIsClean(NextOf(rest, o).st.ts);
    AloneIsDocument(Plain(slice), Plain(NextOf(rest, o).st.ts), o);
    DocumentTransparent(slice, o);
  }

  /** The same for a failure. */
  lemma FailureIsPlain(ts: seq<Token>, o: Options)
    requires NextOf(HeadComments(ts).rest, o).Err?
    ensures NextOf(Plain(ts), o) == Err(NextOf(HeadComments(ts).rest, o).error)
  {
    hide ParseValue, Collect;
    CollectIsPlain([], ts);
    ValueTransparent(State(HeadComments(ts).rest, 0, 0), 0, o);
  }

  // Byte order marks

  /** U+FEFF in a unit of `width` bytes, the high or the low ones first. */
  function ByteOrderMark(width: nat, high: bool): Bytes
    requires width == 2 || width == 4
  {
    var zeros: Bytes := if width == 4 then [0, 0] else [];
    if high then zeros + [0xFE, 0xFF] else [0xFF, 0xFE] + zeros
  }

  /** Only U+FEFF in UTF-8 is taken off; input that begins with it in UTF-16 or
      UTF-32, of either byte order, is refused. */
  lemma MarksAreRead(data: Bytes)
    ensures UTF8_BOM == EncodeRune(0xFEFF)
    ensures UTF8_BOM <= data ==> StripBom(data).Some? && data == UTF8_BOM + StripBom(data).value
    ensures !(UTF8_BOM <= data) ==>
              if exists width, high :: (width == 2 || width == 4) && ByteOrderMark(width, high) <= data
              then StripBom(data) == None else StripBom(data) == Some(data)
  {
    if UTF8_BOM <= data {
      assert data == data[..3] + data[3..];
    } else {
      assert ByteOrderMark(4, true) == [0x00, 0x00, 0xFE, 0xFF] && ByteOrderMark(2, true) == [0xFE, 0xFF];
      assert ByteOrderMark(2, false) == [0xFF, 0xFE] && ByteOrderMark(4, false) == [0xFF, 0xFE, 0x00, 0x00];
      if StripBom(data) == None {
        assert ByteOrderMark(4, true) <= data || ByteOrderMark(2, true) <= data || ByteOrderMark(2, false) <= data;
      }
      if ByteOrderMark(4, false) <= data {
        assert data[0] == 0xFF && data[1] == 0xFE;
      }
    }
  }

  lemma NoDocument(data: Bytes, o: Options)
    requires data != [] && data[0] in {0x00, 0xEF, 0xFE, 0xFF}
    ensures Parse(data, o).Err?
  {
    hide ParseDocument, Tokens;
    BadFirstByte(data, o.strictJSON);
    ErrorIsNoDocument(o);
  }

  /** A document begins with no byte order mark. */
  lemma DocumentHasNoBom(s: Bytes, o: Options)
    requires Parse(s, o).Ok?
    ensures StripBom(s) == Some(s)
  {
    hide Parse;
    if s != [] && s[0] in {0x00, 0xEF, 0xFE, 0xFF} {
      NoDocument(s, o);
    }
  }

  lemma BomIsStripped(s: Bytes)
    ensures StripBom(UTF8_BOM + s) == Some(s)
  {
    assert (UTF8_BOM + s)[3..] == s;
  }
}
