/** Which marshaler output the fast path takes, by the grammar of RFC 8259. */
module RelayoutAccepts {
  import opened Ascii
  import opened Lexer
  import opened Syntax
  import opened Printer
  import opened Relayout
  import opened GrammarLaws
  import R = Rfc8259
  import RelayoutRefines

  /** The fast path succeeds exactly on what the grammar derives with no two
      names of an object equal and containers nested at most ten thousand deep. */
  lemma RelayoutAcceptsExactly(data: Bytes, strict: bool, depth: nat, o: Layout, out: Bytes)
    ensures RelayoutTokens(Tokens(data, strict), depth, o, out).Some?
            <==> exists w: Bytes, j: R.Json, z: Bytes ::
                   R.Derives(w, j, z, data) && NamesDiffer(j) && Depth(j) <= 10_000
  {
    hide ParseDocument, Run, Tokens, PrintValue, R.Derives, NamesDiffer, Depth;
    RelayoutRefines.RelayoutRefinesParseThenPrint(data, strict, depth, o, out);
    AcceptsWhatIsDerivable(data, PLAIN_JSON);
    assert forall j :: Allowed(j, 0, PLAIN_JSON) <==> NamesDiffer(j) && Depth(j) <= EMBEDDED_MAX_DEPTH;
  }
}
