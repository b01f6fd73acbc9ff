/** Format, ToJSON and Minimize: a document parsed, and printed in some layout. */
module Format {
  import opened Ascii
  import opened Lexer
  import opened Tree
  import opened Syntax
  import opened WellFormed
  import opened Printer
  import opened PrintedTokens
  import opened RoundTrip
  import opened Sizes
  import opened Compact
  import opened Streaming

  /** The tree of a document, free of a byte order mark. */
  function TreeOf(data: Bytes, q: Options): Option<Node> {
    match StripBom(data)
    case None => None
    case Some(src) => (match Parse(src, q) case Err(_) => None case Ok(n, _) => Some(n))
  }

  function Reformat(data: Bytes, q: Options, o: Layout): Option<Bytes> {
    match TreeOf(data, q)
    case None => None
    case Some(n) => Some(Encode(n, o))
  }

  lemma TreeIsWf(data: Bytes, q: Options)
    ensures TreeOf(data, q).Some? ==> WfNode(TreeOf(data, q).value) && TreeOf(data, q).value.kind != KeyValueNode
  {
    hide WfNode, ParseDocument, AllGenuine;
    if TreeOf(data, q).Some? {
      var src := StripBom(data).value;
      TokensAreGenuine(src, q.strictJSON);
      ParsedIsWf(Tokens(src, q.strictJSON), q);
    }
  }

  /** Read under p, the output means the document; where the limits of p do not
      admit its tree, it is not read. */
  predicate ReadsBack(out: Bytes, p: Options, n: Node) {
    if Admits(p, n) then Means(out, p, ValueOf(n)) else TreeOf(out, p) == None
  }

  /** The limits that a document was read under admit its tree. */
  lemma OwnLimitsAdmit(data: Bytes, q: Options, p: Options)
    ensures TreeOf(data, q).Some? && SameLimits(p, q) ==> Admits(p, TreeOf(data, q).value)
  {
    hide ParseDocument, MembersIn, NodesIn, DepthOf;
    if TreeOf(data, q).Some? {
      ParsedIsAdmitted(Tokens(StripBom(data).value, q.strictJSON), q);
    }
  }

  lemma OutputReadsBack(out: Bytes, n: Node, p: Options)
    requires StripBom(out) == Some(out) && ReadsAs(Parse(out, p), n, Admits(p, n))
    ensures ReadsBack(out, p, n)
  {
    hide Parse, StripBom, ValueOf, Admits;
  }

  lemma OutputHasNoBom(n: Node, o: Layout)
    requires WfNode(n) && n.kind != KeyValueNode && BlankIndent(o)
    ensures StripBom(Encode(n, o)) == Some(Encode(n, o))
  {
    hide Parse, Encode, StripBom, ValueOf, WfNode, MembersIn, NodesIn, DepthOf;
    var lax := Options(false, false, 0, 0, 0);
    PrintingPreservesMeaning(n, o, lax);
    DocumentHasNoBom(Encode(n, o), lax);
  }

  /** Whatever the layout, the reformatted document means what the source means,
      to every parser whose limits admit it; those of the parser that read the
      source do. */
  lemma FormatKeepsMeaning(data: Bytes, q: Options, o: Layout, p: Options)
    requires BlankIndent(o) && !p.strictJSON
    ensures var out := Reformat(data, q, o);
            out.Some? ==> ReadsBack(out.value, p, TreeOf(data, q).value)
    ensures var out := Reformat(data, q, o);
            out.Some? && SameLimits(p, q) ==> Means(out.value, p, ValueOf(TreeOf(data, q).value))
  {
    hide WfNode, Parse, Encode, StripBom, ValueOf, Admits, Means;
    TreeIsWf(data, q);
    OwnLimitsAdmit(data, q, p);
    if TreeOf(data, q).Some? {
      var n := TreeOf(data, q).value;
      PrintingPreservesMeaning(n, o, p);
      OutputHasNoBom(n, o);
      OutputReadsBack(Encode(n, o), n, p);
    }
  }

  /** ToJSON and Minimize: strict parsers accept the output too, and reformatting
      it in the same layout changes nothing. */
  lemma MinimizedIsStrictAndFixed(data: Bytes, q: Options, o: Layout, p: Options)
    requires IsCompact(o)
    ensures var out := Reformat(data, q, o);
            out.Some? ==> ReadsBack(out.value, p, TreeOf(data, q).value)
    ensures var out := Reformat(data, q, o);
            out.Some? && SameLimits(p, q) ==>
              Means(out.value, p, ValueOf(TreeOf(data, q).value)) && Reformat(out.value, p, o) == out
  {
    hide WfNode, Parse, Encode, StripBom, ValueOf, Admits, Means;
    TreeIsWf(data, q);
    OwnLimitsAdmit(data, q, p);
    if TreeOf(data, q).Some? {
      var n := TreeOf(data, q).value;
      CompactIsFixedPoint(n, o, p);
      OutputHasNoBom(n, o);
      OutputReadsBack(Encode(n, o), n, p);
    }
  }

  /** Minimizing twice is minimizing once. */
  lemma MinimizingIsIdempotent(data: Bytes, q: Options, o: Layout)
    requires IsCompact(o)
    ensures var out := Reformat(data, q, o);
            out.Some? ==> Reformat(out.value, q, o) == out
  {
    hide Reformat, Means;
    MinimizedIsStrictAndFixed(data, q, o, q);
  }

  /** Strict output in any layout is RFC 8259 JSON of the same meaning. */
  lemma StrictFormatKeepsMeaning(data: Bytes, q: Options, o: Layout, p: Options)
    requires BlankIndent(o) && o.strictJSONOutput
    ensures var out := Reformat(data, q, o);
            out.Some? ==> ReadsBack(out.value, p, TreeOf(data, q).value)
    ensures var out := Reformat(data, q, o);
            out.Some? && SameLimits(p, q) ==> Means(out.value, p, ValueOf(TreeOf(data, q).value))
  {
    hide WfNode, Parse, Encode, StripBom, ValueOf, Admits, Means;
    TreeIsWf(data, q);
    OwnLimitsAdmit(data, q, p);
    if TreeOf(data, q).Some? {
      var n := TreeOf(data, q).value;
      StrictOutputIsStrict(n, o, p);
      OutputHasNoBom(n, o);
      OutputReadsBack(Encode(n, o), n, p);
    }
  }
}
