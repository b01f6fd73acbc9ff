/**
  Where tokens end in the source, and what the tokens of a slice of it are.
 */
module Slices {
  import opened Ascii
  import opened Lexer
  import opened LexerLaws
  import opened Positions
  import opened Rendering

  /** The offset just past the first n tokens. */
  function EndOf(s: Bytes, strict: bool, n: nat): (k: nat)
    ensures k <= |s|
    decreases n
  {
    if n == 0 then 0 else Next(s, strict).size + EndOf(s[Next(s, strict).size..], strict, n - 1)
  }

  predicate NoError(ts: seq<Token>) { ERROR !in ts }

  lemma TokensUnfold(s: Bytes, strict: bool)
    ensures var e := Next(s, strict);
            Tokens(s, strict)
            == if e.tok == EOF then [] else if e.tok == ERROR then [ERROR] else [e.tok] + Tokens(s[e.size..], strict)
  {
    hide Next;
  }

  /** Blanks in front of a token do not change it. */
  lemma SkipBlanks(s: Bytes, strict: bool, k: nat)
    requires k <= |s| && AllBlank(s[..k])
    ensures var e, f := Next(s, strict), Next(s[k..], strict);
            e.tok == f.tok && e.lead == k + f.lead && e.size == k + f.size
    ensures Tokens(s, strict) == Tokens(s[k..], strict)
  {
    hide ScanToken, Blanks, AllBlank, Tokens;
    BlanksSkipped(s[..k], s[k..], strict);
    assert s == s[..k] + s[k..];
    DropTwice(s, k, Blanks(s[k..]));
  }

  lemma FirstToken(s: Bytes, strict: bool, n: nat)
    requires 0 < n <= |Tokens(s, strict)| && NoError(Tokens(s, strict)[..n])
    ensures var e := Next(s, strict);
            var us := Tokens(s[e.size..], strict);
            e.tok != EOF && e.tok != ERROR && Tokens(s, strict) == [e.tok] + us
            && NoError(us[..n - 1]) && Tokens(s, strict)[..n] == [e.tok] + us[..n - 1]
  {
    TokensUnfold(s, strict);
    hide Next, Tokens;
    var e := Next(s, strict);
    var ts, us := Tokens(s, strict), Tokens(s[e.size..], strict);
    assert ts[..n][0] == ts[0];
    assert ts == [e.tok] + us;
    assert us[..n - 1] == ts[..n][1..];
  }

  lemma EndUnfolds(s: Bytes, strict: bool, n: nat)
    requires n > 0
    ensures EndOf(s, strict, n) == Next(s, strict).size + EndOf(s[Next(s, strict).size..], strict, n - 1)
  {
    hide Next;
  }

  lemma NoEnd(s: Bytes, strict: bool)
    ensures EndOf(s, strict, 0) == 0
  {
  }

  /** The tokens from the n-th on are those of what is left of the source. */
  lemma {:induction false} TokensFrom(s: Bytes, strict: bool, n: nat)
    requires n <= |Tokens(s, strict)| && NoError(Tokens(s, strict)[..n])
    ensures Tokens(s, strict)[n..] == Tokens(s[EndOf(s, strict, n)..], strict)
  {
    hide Next, Tokens, NoError, EndOf;
    if n > 0 {
      FirstToken(s, strict, n);
      EndUnfolds(s, strict, n);
      var t := s[Next(s, strict).size..];
      TokensFrom(t, strict, n - 1);
      assert t[EndOf(t, strict, n - 1)..] == s[EndOf(s, strict, n)..];
    } else {
      NoEnd(s, strict);
      assert s[0..] == s;
    }
  }

  lemma {:induction false} EndOfNext(s: Bytes, strict: bool, n: nat)
    ensures EndOf(s, strict, n + 1)
            == EndOf(s, strict, n) + Next(s[EndOf(s, strict, n)..], strict).size
  {
    hide Next;
    if n == 0 {
      assert s[0..] == s;
      assert EndOf(s[Next(s, strict).size..], strict, 0) == 0;
    } else {
      var t := s[Next(s, strict).size..];
      EndOfNext(t, strict, n - 1);
      assert t[EndOf(t, strict, n - 1)..] == s[EndOf(s, strict, n)..];
    }
  }

  /** A cut behind the first token leaves it. */
  lemma CutFirst(s: Bytes, strict: bool, end: nat)
    requires Next(s, strict).tok != EOF && Next(s, strict).tok != ERROR && Next(s, strict).size <= end <= |s|
    ensures var n := Next(s, strict).size;
            Next(s[..end], strict) == Next(s, strict) && s[..end][n..] == s[n..][..end - n]
  {
    hide Next;
    var n := Next(s, strict).size;
    var u := s[n..][..end - n];
    NextLocal(s, strict, u);
    assert s[..end] == s[..n] + u;
  }

  lemma CutUnfolds(s: Bytes, strict: bool, end: nat)
    requires Next(s, strict).tok != EOF && Next(s, strict).tok != ERROR && Next(s, strict).size <= end <= |s|
    ensures var e := Next(s, strict);
            Tokens(s[..end], strict) == [e.tok] + Tokens(s[e.size..][..end - e.size], strict)
  {
    hide Next;
    CutFirst(s, strict, end);
  }

  /** Cutting the source behind n tokens, and the blanks after them, leaves
      those tokens. */
  lemma {:induction false} CutTokens(s: Bytes, strict: bool, n: nat, end: nat)
    requires n <= |Tokens(s, strict)| && NoError(Tokens(s, strict)[..n])
    requires EndOf(s, strict, n) <= end <= |s| && AllBlank(s[EndOf(s, strict, n)..end])
    ensures Tokens(s[..end], strict) == Tokens(s, strict)[..n]
  {
    hide Next, EndOf, Tokens, AllBlank, NoError;
    if n == 0 {
      NoEnd(s, strict);
      BlanksOnly(s[..end], strict);
    } else {
      FirstToken(s, strict, n);
      EndUnfolds(s, strict, n);
      var e := Next(s, strict);
      var t, m := s[e.size..], end - e.size;
      CutUnfolds(s, strict, end);
      assert t[EndOf(t, strict, n - 1)..m] == s[EndOf(s, strict, n)..end];
      CutTokens(t, strict, n - 1, m);
    }
  }

  lemma BlanksOnly(s: Bytes, strict: bool)
    requires AllBlank(s)
    ensures Tokens(s, strict) == []
  {
    var none: Bytes := [];
    BlanksSkipped(s, none, strict);
    assert s + none == s;
    assert Next(none, strict).tok == EOF;
  }

  /** Cutting behind n tokens leaves where the first a of them end. */
  lemma {:induction false} CutEnds(s: Bytes, strict: bool, n: nat, end: nat, a: nat)
    requires n <= |Tokens(s, strict)| && NoError(Tokens(s, strict)[..n]) && a <= n
    requires EndOf(s, strict, n) <= end <= |s|
    ensures EndOf(s[..end], strict, a) == EndOf(s, strict, a) <= EndOf(s, strict, n)
  {
    hide Next, EndOf, Tokens, NoError;
    if a == 0 {
      NoEnd(s, strict);
      NoEnd(s[..end], strict);
    } else {
      FirstToken(s, strict, n);
      EndUnfolds(s, strict, n);
      EndUnfolds(s, strict, a);
      EndUnfolds(s[..end], strict, a);
      CutFirst(s, strict, end);
      var size := Next(s, strict).size;
      CutEnds(s[size..], strict, n - 1, end - size, a - 1);
    }
  }

  // Where the parser stands

  /** pos is behind the first n tokens, past some of the blanks after them. */
  ghost predicate Boundary(s: Bytes, strict: bool, n: nat, pos: nat) {
    n <= |Tokens(s, strict)| && NoError(Tokens(s, strict)[..n])
    && EndOf(s, strict, n) <= pos <= |s| && AllBlank(s[EndOf(s, strict, n)..pos])
  }

  /** A slice between two boundaries has the tokens between them. */
  lemma SliceTokens(s: Bytes, strict: bool, a: nat, from: nat, b: nat, to: nat)
    requires Boundary(s, strict, a, from) && Boundary(s, strict, b, to) && a <= b && from <= to
    ensures Tokens(s[from..to], strict) == Tokens(s, strict)[a..b]
  {
    hide Next, Tokens, EndOf, AllBlank;
    var cut := s[..to];
    var ts := Tokens(s, strict);
    CutTokens(s, strict, b, to);
    CutEnds(s, strict, b, to, a);
    assert ts[..b][..a] == ts[..a];
    TokensFrom(cut, strict, a);
    var k := EndOf(s, strict, a);
    assert cut[k..] == s[k..to];
    assert s[k..to][..from - k] == s[k..from];
    SkipBlanks(s[k..to], strict, from - k);
    assert s[k..to][from - k..] == s[from..to];
    assert ts[..b][a..] == ts[a..b];
  }

  /** Boundaries behind more tokens are further on. */
  lemma BoundaryOrder(s: Bytes, strict: bool, a: nat, from: nat, b: nat, to: nat)
    requires Boundary(s, strict, a, from) && Boundary(s, strict, b, to) && a < b
    ensures from < to
  {
    hide Tokens, AllBlank, EndOf, Next;
    var k := EndOf(s, strict, a);
    var ts := Tokens(s, strict);
    CutEnds(s, strict, b, to, a + 1);
    EndOfNext(s, strict, a);
    assert ts[..b][a] == ts[a];
    assert ts[..b][..a] == ts[..a];
    TokensFrom(s, strict, a);
    var t := s[k..];
    TokensUnfold(t, strict);
    assert ts[a..][0] == ts[a];
    assert t[..from - k] == s[k..from];
    SkipBlanks(t, strict, from - k);
    NextMoves(t[from - k..], strict);
  }

  lemma NextMoves(s: Bytes, strict: bool)
    ensures var e := Next(s, strict); e.tok != EOF && e.tok != ERROR ==> e.size > 0
  {
    hide ScanToken;
  }

  /** What is left after n tokens are gone is rest, and pos is behind them. */
  ghost predicate Stands(s: Bytes, strict: bool, rest: seq<Token>, pos: nat) {
    var n := |Tokens(s, strict)| - |rest|;
    n >= 0 && Tokens(s, strict)[n..] == rest && Boundary(s, strict, n, pos)
  }

  /** The same, with the first token of rest scanned: it began at `at` and the
      scanner is at pos. The offset kept for a line break is behind it. */
  ghost predicate Holds(s: Bytes, strict: bool, rest: seq<Token>, at: nat, pos: nat) {
    var n := |Tokens(s, strict)| - |rest|;
    n >= 0 && Tokens(s, strict)[n..] == rest && NoError(Tokens(s, strict)[..n])
    && var e := Next(s[EndOf(s, strict, n)..], strict);
    (if rest == [] then e.tok == EOF else e.tok == rest[0])
    && at == (if e.tok.kind == Newline then pos else EndOf(s, strict, n) + e.lead)
    && (e.tok != EOF && e.tok != ERROR ==> pos == EndOf(s, strict, n) + e.size)
  }

  /** The offset `end` is behind the tokens gone, or behind a line break that
      is still to come. */
  ghost predicate EndsAt(s: Bytes, strict: bool, rest: seq<Token>, end: nat) {
    var n := |Tokens(s, strict)| - |rest|;
    n >= 0 && Tokens(s, strict)[n..] == rest
    && (Boundary(s, strict, n, end) || (rest != [] && rest[0].kind == Newline && Boundary(s, strict, n + 1, end)))
  }

  /** How many tokens are gone. */
  function Gone(s: Bytes, strict: bool, rest: seq<Token>): nat {
    if |rest| <= |Tokens(s, strict)| then |Tokens(s, strict)| - |rest| else 0
  }

  /** The offset just past the tokens gone and all blanks behind them. */
  function Behind(s: Bytes, strict: bool, rest: seq<Token>): nat {
    var k := EndOf(s, strict, Gone(s, strict, rest));
    k + Blanks(s[k..])
  }

  /** The same, but behind the line break that comes next, if it was looked at. */
  function EndSeen(s: Bytes, strict: bool, rest: seq<Token>, looked: bool): nat {
    if looked && rest != [] && rest[0].kind == Newline then EndOf(s, strict, Gone(s, strict, rest) + 1)
    else Behind(s, strict, rest)
  }

  /** Where the scan error in the last token is reported. */
  function ErrorOffset(s: Bytes, strict: bool): nat {
    var k := Behind(s, strict, [ERROR]);
    k + Fault(s[k..], strict)
  }

  lemma SeenError(s: Bytes, strict: bool)
    ensures EndSeen(s, strict, [ERROR], true) == Behind(s, strict, [ERROR])
  {
  }

  lemma HoldsEnds(s: Bytes, strict: bool, rest: seq<Token>, at: nat, pos: nat)
    requires Holds(s, strict, rest, at, pos) && pos <= |s|
    ensures EndsAt(s, strict, rest, at) && at == EndSeen(s, strict, rest, true)
  {
    hide Next, Tokens, EndOf, Boundary, Blanks;
    var n := |Tokens(s, strict)| - |rest|;
    EndOfNext(s, strict, n);
    LeadIsBlanks(s[EndOf(s, strict, n)..], strict);
    if rest != [] && rest[0].kind == Newline {
      BumpStands(s, strict, rest, at, pos);
    } else {
      LeadIsBoundary(s, strict, n);
    }
  }

  lemma LeadIsBlanks(s: Bytes, strict: bool)
    ensures Next(s, strict).lead == Blanks(s)
  {
    hide ScanToken;
  }

  lemma LeadIsBoundary(s: Bytes, strict: bool, n: nat)
    requires n <= |Tokens(s, strict)| && NoError(Tokens(s, strict)[..n])
    ensures var k := EndOf(s, strict, n); Boundary(s, strict, n, k + Next(s[k..], strict).lead)
  {
    hide Tokens, ScanToken, EndOf;
    var k := EndOf(s, strict, n);
    LeadIsBlank(s[k..]);
    assert s[k..][..Blanks(s[k..])] == s[k..k + Blanks(s[k..])];
  }

  lemma BoundaryFurther(s: Bytes, strict: bool, n: nat, pos: nat)
    requires Boundary(s, strict, n, pos)
    ensures Boundary(s, strict, n, pos + Blanks(s[pos..]))
  {
    hide Tokens, EndOf, Blanks, AllBlank, NoError;
    LeadIsBlank(s[pos..]);
    BlankJoin(s, EndOf(s, strict, n), pos, Blanks(s[pos..]));
  }

  lemma TokensFurther(s: Bytes, strict: bool, pos: nat)
    requires pos <= |s|
    ensures Tokens(s[pos..], strict) == Tokens(s[pos + Blanks(s[pos..])..], strict)
  {
    hide Tokens, Blanks, AllBlank, Next;
    var t := s[pos..];
    var b := Blanks(t);
    LeadIsBlank(t);
    SkipBlanks(t, strict, b);
    DropTwice(s, pos, b);
  }

  lemma StandsFurther(s: Bytes, strict: bool, rest: seq<Token>, pos: nat)
    requires Stands(s, strict, rest, pos) && pos <= |s|
    ensures var k := pos + Blanks(s[pos..]);
            Stands(s, strict, rest, k) && EndsAt(s, strict, rest, k) && k == EndSeen(s, strict, rest, false)
  {
    hide Tokens, Blanks, AllBlank, EndOf, NoError, Next;
    var n := |Tokens(s, strict)| - |rest|;
    var from := EndOf(s, strict, n);
    BoundaryFurther(s, strict, n, pos);
    assert s[from..][..pos - from] == s[from..pos] && s[from..][pos - from..] == s[pos..];
    SkipBlanks(s[from..], strict, pos - from);
    LeadIsBlanks(s[from..], strict);
    LeadIsBlanks(s[pos..], strict);
  }

  lemma BlankJoin(s: Bytes, k: nat, pos: nat, b: nat)
    requires k <= pos && pos + b <= |s| && AllBlank(s[k..pos]) && AllBlank(s[pos..][..b])
    ensures AllBlank(s[k..pos + b])
  {
    assert s[k..pos + b] == s[k..pos] + s[pos..][..b];
  }

  lemma {:induction false} LeadIsBlank(s: Bytes)
    ensures AllBlank(s[..Blanks(s)])
  {
    if s != [] && IsBlank(s[0]) {
      LeadIsBlank(s[1..]);
      assert s[..Blanks(s)] == [s[0]] + s[1..][..Blanks(s[1..])];
    }
  }

  lemma BoundaryAtStart(s: Bytes, strict: bool)
    ensures Boundary(s, strict, 0, 0)
  {
    hide Tokens, EndOf;
    NoEnd(s, strict);
    assert s[0..0] == [];
    Nothing(Tokens(s, strict));
  }

  lemma Nothing(ts: seq<Token>)
    ensures NoError(ts[..0]) && ts[0..] == ts
  {
  }

  lemma StandsAtStart(s: Bytes, strict: bool)
    ensures Stands(s, strict, Tokens(s, strict), 0)
  {
    hide Tokens, Boundary;
    BoundaryAtStart(s, strict);
    Nothing(Tokens(s, strict));
  }

  /** The blanks already passed make no difference. */
  lemma StandsSkips(s: Bytes, strict: bool, rest: seq<Token>, pos: nat)
    requires Stands(s, strict, rest, pos)
    ensures var from := EndOf(s, strict, |Tokens(s, strict)| - |rest|);
            var e, f := Next(s[from..], strict), Next(s[pos..], strict);
            rest == Tokens(s[pos..], strict)
            && e.tok == f.tok && from + e.lead == pos + f.lead && from + e.size == pos + f.size
  {
    hide Next, Tokens, AllBlank, NoError, EndOf;
    var n := |Tokens(s, strict)| - |rest|;
    var from := EndOf(s, strict, n);
    TokensFrom(s, strict, n);
    var t := s[from..];
    assert t[..pos - from] == s[from..pos];
    SkipBlanks(t, strict, pos - from);
    DropTwice(s, from, pos - from);
  }

  /** What a scan from where the parser stands gives. */
  lemma ScanHolds(s: Bytes, strict: bool, rest: seq<Token>, pos: nat, at: nat, next: nat)
    requires Stands(s, strict, rest, pos)
    requires var e := Next(s[pos..], strict);
             at == (if e.tok.kind == Newline then next else pos + e.lead)
             && (e.tok != EOF && e.tok != ERROR ==> next == pos + e.size)
    ensures rest == Tokens(s[pos..], strict)
    ensures Holds(s, strict, rest, at, next)
  {
    hide Next, Tokens, AllBlank, NoError, EndOf;
    assert NoError(Tokens(s, strict)[..|Tokens(s, strict)| - |rest|]);
    StandsSkips(s, strict, rest, pos);
    TokensUnfold(s[pos..], strict);
  }

  lemma BumpStands(s: Bytes, strict: bool, rest: seq<Token>, at: nat, pos: nat)
    requires Holds(s, strict, rest, at, pos) && rest != [] && rest[0] != ERROR && rest[0] != EOF && pos <= |s|
    ensures Stands(s, strict, rest[1..], pos)
  {
    hide Next, Tokens, EndOf;
    var n := |Tokens(s, strict)| - |rest|;
    EndOfNext(s, strict, n);
    var ts := Tokens(s, strict);
    assert ts[n + 1..] == ts[n..][1..];
    assert ts[..n + 1] == ts[..n] + [rest[0]];
    assert s[pos..pos] == [];
  }

  lemma HeldIsToken(s: Bytes, strict: bool, rest: seq<Token>, at: nat, pos: nat)
    requires Holds(s, strict, rest, at, pos) && rest != []
    ensures rest[0] in Tokens(s, strict)
  {
    hide Next, Tokens, EndOf;
    assert rest[0] == Tokens(s, strict)[|Tokens(s, strict)| - |rest|];
  }
}
