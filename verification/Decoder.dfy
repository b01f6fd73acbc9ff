/**
  The streaming decoder: one parser kept across calls. Whatever calls are made,
  each value is the value of the slice of the input between the offsets before
  and after it.
 */
module Decoder {
  import opened Ascii
  import opened Lexer
  import opened Tree
  import opened Syntax
  import opened SyntaxTurns
  import opened Transparency
  import opened Locality
  import opened Slices
  import opened Offsets
  import opened Halts
  import opened Streaming
  import Parser

  datatype Failure = DocumentSize | Encoding | Parsing(answer: Parser.Answer)

  datatype Outcome = Next(root: Node) | EndOfInput | Failed(error: Failure)

  /** A value that was decoded, and the offsets before and after it. */
  datatype Decoded = Decoded(from: nat, to: nat, value: Value)

  /** Values decoded one behind the other, from the start of data to `end`. */
  ghost predicate Consecutive(log: seq<Decoded>, data: Bytes, end: nat, o: Options) {
    (log == [] ==> end == 0)
    && (log != [] ==> log[0].from == 0 && log[|log| - 1].to == end)
    && (forall i :: 0 < i < |log| ==> log[i - 1].to == log[i].from)
    && forall i :: 0 <= i < |log| ==>
         log[i].from < log[i].to <= |data| && Means(data[log[i].from..log[i].to], o, log[i].value)
  }

  lemma OneMore(log: seq<Decoded>, data: Bytes, end: nat, o: Options, d: Decoded)
    requires Consecutive(log, data, end, o) && d.from == end < d.to <= |data| && Means(data[d.from..d.to], o, d.value)
    ensures Consecutive(log + [d], data, d.to, o)
  {
    hide Means;
    var more := log + [d];
    forall i | 0 <= i < |more|
      ensures more[i].from < more[i].to <= |data| && Means(data[more[i].from..more[i].to], o, more[i].value)
      ensures i > 0 ==> more[i - 1].to == more[i].from
    {
      assert i < |log| ==> more[i] == log[i];
      assert 0 < i <= |log| ==> more[i - 1] == log[i - 1];
    }
  }

  /** From offset `from` on, the input has the tokens that rest has, comments
      and line breaks aside; n of the tokens come before. */
  ghost predicate Resumes(src: Bytes, strict: bool, n: nat, from: nat, rest: seq<Token>) {
    var ts := Tokens(src, strict);
    Boundary(src, strict, n, from) && |rest| <= |ts| && ts[|ts| - |rest|..] == rest
    && (|rest| <= |ts| - n || (|rest| == |ts| - n + 1 && rest[0].kind == Newline))
    && Plain(ts[n..]) == Plain(rest)
  }

  /** What the decoder resumes with is what the input has from there on. */
  lemma ResumesSlice(src: Bytes, strict: bool, n: nat, from: nat, rest: seq<Token>)
    requires Resumes(src, strict, n, from, rest)
    ensures from <= |src| && Plain(Tokens(src[from..], strict)) == Plain(rest)
  {
    hide Tokens, Plain, Boundary;
    TokensAtBoundary(src, strict, n, from);
  }

  /** Skipping comments and line breaks. */
  lemma ResumesCollected(src: Bytes, strict: bool, n: nat, from: nat, rest: seq<Token>)
    requires Resumes(src, strict, n, from, rest)
    ensures Resumes(src, strict, n, from, HeadComments(rest).rest)
  {
    hide Tokens, Plain, Boundary;
    BreakSkipped(rest);
    CollectIsPlain([], rest);
    CollectLeft([], rest);
  }

  /** The next value's tokens are those that the input has next. */
  lemma ResumesAtValue(src: Bytes, strict: bool, n: nat, from: nat, rest: seq<Token>)
    requires Resumes(src, strict, n, from, rest)
    ensures from <= |src| && HeadComments(Tokens(src[from..], strict)).rest == HeadComments(rest).rest
  {
    hide Tokens, Boundary, Plain, Collect;
    var ts := Tokens(src, strict);
    BoundaryIn(src, strict, n, from);
    TokensAtBoundary(src, strict, n, from);
    if |rest| <= |ts| - n {
      LeftOfBoth(ts, n, rest);
      SamePlain(ts[n..], rest);
    } else {
      SyntaxTurns.DropOne(rest);
      assert rest[1..] == ts[n..];
    }
  }

  lemma LeftOfBoth(ts: seq<Token>, n: nat, rest: seq<Token>)
    requires n <= |ts| && LeftOf(rest, ts) && |rest| <= |ts| - n
    ensures LeftOf(rest, ts[n..])
  {
  }

  lemma SamePlain(ts: seq<Token>, rest: seq<Token>)
    requires LeftOf(rest, ts) && Plain(ts) == Plain(rest)
    ensures Collect([], ts).rest == Collect([], rest).rest
  {
    hide Plain, Collect;
    var x := ts[..|ts| - |rest|];
    assert ts == x + rest;
    PlainConcat(x, rest);
    TriviaSkipped(x, rest);
  }

  lemma {:induction false} TriviaSkipped(x: seq<Token>, rest: seq<Token>)
    requires Plain(x) == []
    ensures Collect([], x + rest).rest == Collect([], rest).rest
  {
    if x == [] {
      assert x + rest == rest;
    } else {
      assert (x + rest)[0] == x[0] && (x + rest)[1..] == x[1..] + rest;
      assert IsTrivia(x[0]) && Plain(x[1..]) == [];
      SyntaxTurns.DropOne(x + rest);
      TriviaSkipped(x[1..], rest);
    }
  }

  lemma NothingPlain(ts: seq<Token>)
    requires HeadComments(ts).rest == []
    ensures Plain(ts) == []
  {
    CollectIsPlain([], ts);
  }

  lemma SomethingPlain(ts: seq<Token>)
    requires HeadComments(ts).rest != []
    ensures Plain(ts) != []
  {
    var rest := HeadComments(ts).rest;
    CollectIsPlain([], ts);
    assert Plain(rest) == [rest[0]] + Plain(rest[1..]);
  }

  lemma PlainSplit(ts: seq<Token>, n: nat, m: nat)
    requires n <= m <= |ts|
    ensures Plain(ts[n..]) == Plain(ts[n..m]) + Plain(ts[m..])
  {
    hide Plain;
    PlainConcat(ts[n..m], ts[m..]);
    assert ts[n..] == ts[n..m] + ts[m..];
  }

  lemma PlainPastBreak(rest: seq<Token>)
    requires rest != [] && rest[0].kind == Newline
    ensures Plain(rest[1..]) == Plain(rest)
  {
    assert Plain(rest) == [] + Plain(rest[1..]);
  }

  /** The step from one value to the next. */
  lemma Resumed(src: Bytes, strict: bool, n: nat, from: nat, rest: seq<Token>, left: seq<Token>, end: nat) returns (m: nat)
    requires Resumes(src, strict, n, from, rest) && EndsAt(src, strict, left, end) && |left| < |HeadComments(rest).rest|
    ensures n < m && from < end <= |src| && Resumes(src, strict, m, end, left)
    ensures Plain(rest) == Plain(Tokens(src[from..end], strict)) + Plain(left)
  {
    hide Tokens, Plain, Boundary;
    var ts := Tokens(src, strict);
    BreakSkipped(rest);
    m := |ts| - |left|;
    if !Boundary(src, strict, m, end) {
      assert left != [] && left[0].kind == Newline;
      m := m + 1;
      assert ts[m..] == left[1..];
      PlainPastBreak(left);
    }
    BoundaryIn(src, strict, m, end);
    BoundaryOrder(src, strict, n, from, m, end);
    SliceTokens(src, strict, n, from, m, end);
    PlainSplit(ts, n, m);
  }

  lemma BreakSkipped(rest: seq<Token>)
    ensures |HeadComments(rest).rest| <= |rest|
    ensures rest != [] && rest[0].kind == Newline ==> |HeadComments(rest).rest| < |rest|
  {
  }

  lemma BoundaryIn(src: Bytes, strict: bool, n: nat, pos: nat)
    requires Boundary(src, strict, n, pos)
    ensures n <= |Tokens(src, strict)| && pos <= |src|
  {
    hide Tokens, EndOf;
  }

  /** A value that cannot be parsed: the slice from its offset on is no document
      either, and is complained of in the same way. */
  lemma NextComplains(src: Bytes, o: Options, n: nat, from: nat, rest: seq<Token>)
    requires Resumes(src, o.strictJSON, n, from, rest) && HeadComments(rest).rest != []
    requires NextOf(HeadComments(rest).rest, o).Err?
    ensures var hs := HeadComments(rest).rest;
            from <= |src| && ComplaintOf(src[from..], o).Some?
            && ComplaintAt(src, o.strictJSON, NextOf(hs, o).error, HaltValue(State(hs, 0, 0), 0, o))
               == Moved(ComplaintOf(src[from..], o).value, from)
  {
    hide Tokens, Boundary, Plain, HeadComments, ParseValue, HaltValue, LeftOf, ComplaintAt;
    ResumesAtValue(src, o.strictJSON, n, from, rest);
    var ts := Tokens(src[from..], o.strictJSON);
    var hs := HeadComments(rest).rest;
    HaltsInValue(State(hs, 0, 0), 0, o);
    HeadLeft(ts);
    HaltsFurther(HaltValue(State(hs, 0, 0), 0, o), hs, ts);
    ComplaintMoves(src, o.strictJSON, n, from, NextOf(hs, o).error, HaltValue(State(hs, 0, 0), 0, o));
  }

  /** A value was parsed: its slice means that value, and the decoder resumes
      behind it. */
  lemma ValueTaken(data: Bytes, src: Bytes, o: Options, n: nat, from: nat, rest: seq<Token>, end: nat) returns (m: nat)
    requires Resumes(src, o.strictJSON, n, from, rest) && StripBom(data) == Some(src)
    requires var r := NextOf(HeadComments(rest).rest, o); r.Ok? && EndsAt(src, o.strictJSON, r.st.ts, end)
    ensures var r := NextOf(HeadComments(rest).rest, o);
            var bom := |data| - |src|;
            from < end <= |src| && Resumes(src, o.strictJSON, m, end, r.st.ts)
            && Means(data[if from == 0 then 0 else bom + from..bom + end], o, ValueOf(r.val))
            && Plain(Tokens(src[end..], o.strictJSON)) == Plain(r.st.ts)
    ensures var r, q := NextOf(HeadComments(rest).rest, o), NextOf(Plain(rest), o);
            q.Ok? && ValueOf(q.val) == ValueOf(r.val) && q.st.ts == Plain(r.st.ts)
  {
    hide Tokens, Plain, Resumes, EndsAt, HeadComments, StripBom, ParseDocument, ParseValue;
    var r := NextOf(HeadComments(rest).rest, o);
    Shrinks(HeadComments(rest).rest, o);
    m := Resumed(src, o.strictJSON, n, from, rest, r.st.ts, end);
    SliceIsDocument(rest, Tokens(src[from..end], o.strictJSON), o);
    DocumentHasNoBom(src[from..end], o);
    ResumesSlice(src, o.strictJSON, m, end, r.st.ts);
    SliceOfData(data, src, from, end);
  }

  lemma MovedReport(r: Parser.Answer, c: Complaint, src: Bytes, k: nat)
    ensures Parser.Reports(r, Moved(c, k), src, 0) <==> Parser.Reports(r, c, src, k)
  {
  }

  lemma NothingToParse(o: Options)
    ensures NextOf([], o).Err?
  {
  }

  lemma Shrinks(ts: seq<Token>, o: Options)
    ensures NextOf(ts, o).Ok? ==> |NextOf(ts, o).st.ts| < |ts|
  {
  }

  /** The slice of the data from an offset on, a byte order mark included. */
  lemma SliceOfData(data: Bytes, src: Bytes, from: nat, end: nat)
    requires StripBom(data) == Some(src) && from <= end <= |src| && StripBom(src[from..end]) == Some(src[from..end])
    ensures var bom := |data| - |src|;
            StripBom(data[if from == 0 then 0 else bom + from..bom + end]) == Some(src[from..end])
  {
    hide StripBom;
    BomParts(data, src);
    if data != src {
      MarkedSlice(data, src, from, end);
    }
  }

  lemma MarkedSlice(data: Bytes, src: Bytes, from: nat, end: nat)
    requires data == UTF8_BOM + src && from <= end <= |src| && StripBom(src[from..end]) == Some(src[from..end])
    ensures |data| - |src| == 3
    ensures StripBom(data[if from == 0 then 0 else 3 + from..3 + end]) == Some(src[from..end])
  {
    hide StripBom;
    if from == 0 {
      assert data[0..3 + end] == UTF8_BOM + src[0..end];
      BomIsStripped(src[0..end]);
    } else {
      assert data[3 + from..3 + end] == src[from..end];
    }
  }

  lemma BomParts(data: Bytes, src: Bytes)
    requires StripBom(data) == Some(src)
    ensures (data == UTF8_BOM + src && |data| - |src| == 3) || data == src
  {
    if UTF8_BOM <= data {
      assert data == data[..3] + data[3..];
    }
  }

  lemma Begins(src: Bytes, strict: bool)
    ensures Resumes(src, strict, 0, 0, Tokens(src, strict))
  {
    hide Tokens, Plain, Boundary;
    BoundaryAtStart(src, strict);
    Nothing(Tokens(src, strict));
  }

  class Decoder {
    const data: Bytes // what the reader holds
    const opts: Options
    const maxDocumentSize: int
    var p: Parser.Parser?
    var loaded: bool
    var err: Option<Failure>
    var bom: nat
    var consumed: nat
    ghost var log: seq<Decoded>
    ghost var taken: nat // how many tokens come before the next value's slice

    constructor (input: Bytes, o: Options, limit: int)
      ensures Valid() && fresh(Frame() - {this}) && data == input && opts == o && maxDocumentSize == limit
      ensures !loaded && err == None && consumed == 0 && log == []
    {
      data, opts, maxDocumentSize := input, o, limit;
      p, loaded, err, bom, consumed := null, false, None, 0, 0;
      log, taken := [], 0;
    }

    ghost function Frame(): set<object>
      reads this
    {
      if p == null then {this} else {this, p, p.sc}
    }

    /** Where in the scanned source the next slice begins. */
    function Start(): nat
      reads this
    {
      if consumed < bom then 0 else consumed - bom
    }

    /** What is wrong with the input before anything is parsed. */
    function LoadFailure(): Option<Failure> {
      if maxDocumentSize > 0 && |data| > maxDocumentSize then Some(DocumentSize)
      else if StripBom(data) == None then Some(Encoding)
      else None
    }

    /** The input without a byte order mark. */
    function Source(): Bytes {
      match StripBom(data)
      case None => []
      case Some(src) => src
    }

    ghost predicate Valid()
      reads this, Frame()
    {
      Consecutive(log, data, consumed, opts) && Start() <= |Source()|
      && (!loaded ==> p == null && err == None)
      && (p == null ==> consumed == 0 && bom == 0)
      && (loaded && p == null ==> err.Some? && err == LoadFailure())
      && (p != null ==>
            loaded && LoadFailure() == None && p.Valid() && p.opts == opts && StripBom(data) == Some(p.sc.src)
            && bom == |data| - |p.sc.src| && (consumed == 0 || bom < consumed)
            && (err == None ==> Resumes(p.sc.src, opts.strictJSON, taken, Start(), p.Rest())))
    }

    /** What is still to be read: the tokens of the input from the last offset
        on, without comments and line breaks. */
    ghost function ToRead(): seq<Token>
      requires Start() <= |Source()|
      reads this
    {
      Plain(Tokens(Source()[Start()..], opts.strictJSON))
    }

    /** The tokens of the input from the next value on. */
    ghost function Ahead(): seq<Token>
      requires Start() <= |Source()|
      reads this
    {
      HeadComments(Tokens(Source()[Start()..], opts.strictJSON)).rest
    }

    /** r is what comes next in an input that has these tokens ahead, comments and
        line breaks aside. */
    ghost predicate Answers(r: Outcome, ahead: seq<Token>)
      reads this
    {
      if ahead == [] then r.EndOfInput?
      else
        match NextOf(ahead, opts)
        case Err(_) => r.Failed?
        case Ok(n, st) =>
          r.Next? && ValueOf(r.root) == ValueOf(n) && Start() <= |Source()| && ToRead() == st.ts
    }

    /** f is what parsing the input from an offset on complains of, counted from
        the start. */
    ghost predicate Complains(f: Failure, from: nat) {
      from <= |Source()| && f.Parsing? && ComplaintOf(Source()[from..], opts).Some?
      && Parser.Reports(f.answer, ComplaintOf(Source()[from..], opts).value, Source(), from)
    }

    /** The offset kept after a value that begins with the tokens hs. */
    function OffsetAfter(hs: seq<Token>): nat {
      |data| - |Source()|
      + OffsetBehind(Source(), opts.strictJSON, IsOpen(Peek(hs).kind), Own(State(hs, 0, 0), 0, opts))
    }

    /** ensureLoaded: the first call reads the input. */
    method EnsureLoaded() returns (e: Option<Failure>)
      requires Valid()
      modifies this
      ensures Valid() && loaded && fresh(Frame() - old(Frame())) && consumed == old(consumed) && log == old(log)
      ensures old(loaded) ==> e == None && unchanged(this)
      ensures !old(loaded) ==> e == err == LoadFailure()
      ensures Start() == old(Start())
      ensures p == null <==> LoadFailure().Some?
    {
      hide Consecutive, Resumes, Tokens, StripBom, Parser.Parser.Valid, Parser.Parser.Rest;
      if loaded {
        return None;
      }
      loaded := true;
      if maxDocumentSize > 0 && |data| > maxDocumentSize {
        err := Some(DocumentSize);
        return err;
      }
      var src := StripBom(data);
      if src == None {
        err := Some(Encoding);
        return err;
      }
      bom := |data| - |src.value|;
      p := new Parser.Parser(src.value, opts);
      taken := 0;
      Begins(src.value, opts.strictJSON);
      return None;
    }

    /** The parser's part of nextValue: the next value, and where it ends. */
    method ParseNext() returns (r: Outcome, end: nat)
      requires p != null && p.Valid() && p.opts == opts
      modifies p, p.sc
      ensures p.Valid()
      ensures r.EndOfInput? ==> HeadComments(old(p.Rest())).rest == [] == p.Rest()
      ensures !r.EndOfInput? ==>
                HeadComments(old(p.Rest())).rest != []
                && match NextOf(HeadComments(old(p.Rest())).rest, opts)
                   case Err(e) =>
                     r.Failed? && r.error.Parsing?
                     && var hs := HeadComments(old(p.Rest())).rest;
                     Parser.Reports(r.error.answer, ComplaintAt(p.sc.src, opts.strictJSON, e, HaltValue(State(hs, 0, 0), 0, opts)),
                                    p.sc.src, 0)
                   case Ok(n, st) =>
                     r.Next? && ValueOf(r.root) == ValueOf(n) && p.Rest() == st.ts
                     && EndsAt(p.sc.src, opts.strictJSON, st.ts, end)
                     && var hs := HeadComments(old(p.Rest())).rest;
                     end == OffsetBehind(p.sc.src, opts.strictJSON, IsOpen(Peek(hs).kind), Own(State(hs, 0, 0), 0, opts))
    {
      hide Parser.Parser.Valid, Parser.Parser.Rest, HeadComments, Tokens, EndsAt, JoinNotes, ParseValue, Positions.Located;
      hide EndSeen, OffsetBehind, Own, LooksBehind, HaltValue, ErrorOffset;
      ghost var st := State(HeadComments(p.Rest()).rest, 0, 0);
      end := 0;
      p.depth, p.keys, p.nodes := 0, 0, 0;
      var lead := p.CollectHeadComments();
      var t := p.Peek();
      if t.kind == EofToken {
        return EndOfInput, 0;
      }
      var root := p.ParseValue();
      if root.Failed? {
        p.ErrorIsStop();
        var answer := if p.err.Some? then Parser.Unreadable(p.err.value) else Parser.Refused(root.error, root.at);
        return Failed(Parsing(answer)), 0;
      }
      end := p.ValueEnd();
      EndIsOffsetBehind(p.sc.src, st, opts);
      r := Next(root.val.WithHead(JoinNotes(lead, root.val.notes.head)));
    }

    /** The state once a value has been parsed that ends at `end`. */
    method Record(root: Node, end: nat, ghost rest: seq<Token>)
      requires p != null && loaded && LoadFailure() == None && p.Valid() && p.opts == opts && StripBom(data) == Some(p.sc.src) && err == None
      requires bom == |data| - |p.sc.src| && (consumed == 0 || bom < consumed) && Consecutive(log, data, consumed, opts)
      requires Resumes(p.sc.src, opts.strictJSON, taken, Start(), rest)
      requires var r := NextOf(HeadComments(rest).rest, opts);
               r.Ok? && ValueOf(root) == ValueOf(r.val) && p.Rest() == r.st.ts
               && EndsAt(p.sc.src, opts.strictJSON, r.st.ts, end)
      modifies this`taken, this`log, this`consumed
      ensures Valid() && old(consumed) < consumed <= |data| && consumed == bom + end
      ensures Means(data[old(consumed)..consumed], opts, ValueOf(root))
      ensures log == old(log) + [Decoded(old(consumed), consumed, ValueOf(root))]
      ensures var q := NextOf(Plain(rest), opts);
              Plain(rest) != [] && q.Ok? && ValueOf(root) == ValueOf(q.val) && ToRead() == q.st.ts
    {
      hide Consecutive, Resumes, Tokens, Plain, Means, EndsAt, StripBom, HeadComments, ParseValue;
      hide Parser.Parser.Valid, Parser.Parser.Rest;
      NothingToParse(opts);
      ghost var m := ValueTaken(data, p.sc.src, opts, taken, Start(), rest, end);
      ghost var d := Decoded(consumed, bom + end, ValueOf(root));
      OneMore(log, data, consumed, opts, d);
      taken, log, consumed := m, log + [d], bom + end;
    }

    /** nextValue: the value, the end of the input, or an error that every
        later call returns too. */
    method NextValue() returns (r: Outcome)
      requires Valid() && loaded
      modifies Frame()
      ensures Valid() && loaded && Frame() == old(Frame())
      ensures old(err).Some? ==> r == Failed(old(err).value) && unchanged(this)
      ensures r.Failed? ==> err == Some(r.error) && consumed == old(consumed) && log == old(log)
      ensures r.EndOfInput? ==> err == None && consumed == old(consumed) && log == old(log)
      ensures r.Next? ==>
                err == None && old(consumed) < consumed <= |data|
                && Means(data[old(consumed)..consumed], opts, ValueOf(r.root))
                && log == old(log) + [Decoded(old(consumed), consumed, ValueOf(r.root))]
      // Which of the three it is depends only on the input from the offset on.
      ensures old(err) == None ==> Answers(r, old(ToRead()))
      ensures old(err) == None && r.Failed? ==> Complains(r.error, old(Start()))
      ensures r.Next? ==> consumed == OffsetAfter(old(Ahead()))
    {
      hide Consecutive, Resumes, Tokens, Plain, Means, EndsAt, StripBom, HeadComments, ParseValue;
      hide HaltValue, ComplaintAt, ComplaintOf, Parser.Reports;
      hide Parser.Parser.Valid, Parser.Parser.Rest;
      if err.Some? {
        return Failed(err.value);
      }
      ghost var src, strict := p.sc.src, opts.strictJSON;
      ghost var from, rest := Start(), p.Rest();
      ResumesAtValue(src, strict, taken, from, rest);
      ResumesSlice(src, strict, taken, from, rest);
      var end;
      r, end := ParseNext();
      if r.EndOfInput? {
        ResumesCollected(src, strict, taken, from, rest);
        NothingPlain(rest);
      } else if r.Failed? {
        FailureIsPlain(rest, opts);
        SomethingPlain(rest);
        NextComplains(src, opts, taken, from, rest);
        MovedReport(r.error.answer, ComplaintOf(src[from..], opts).value, src, from);
        err := Some(r.error);
      } else if r.Next? {
        Record(r.root, end, rest);
      }
    }

    /** Decode, up to the tree it hands to the decoder of Go values. */
    method Decode() returns (r: Outcome)
      requires Valid()
      modifies Frame()
      ensures Valid() && loaded && fresh(Frame() - old(Frame()))
      ensures old(err).Some? ==> r == Failed(old(err).value) && unchanged(this)
      ensures r.Failed? ==> err == Some(r.error) && consumed == old(consumed) && log == old(log)
      ensures r.EndOfInput? ==> err == None && consumed == old(consumed) && log == old(log)
      ensures r.Next? ==>
                err == None && old(consumed) < consumed <= |data|
                && Means(data[old(consumed)..consumed], opts, ValueOf(r.root))
                && log == old(log) + [Decoded(old(consumed), consumed, ValueOf(r.root))]
      ensures old(err) == None ==>
                if LoadFailure().Some? then r == Failed(LoadFailure().value)
                else Answers(r, old(ToRead())) && (r.Failed? ==> Complains(r.error, old(Start())))
      ensures r.Next? ==> consumed == OffsetAfter(old(Ahead()))
    {
      hide Consecutive, Resumes, Tokens, Plain, Means, StripBom, ParseValue, HeadComments, Answers, OffsetAfter, Complains;
      var e := EnsureLoaded();
      if e.Some? {
        return Failed(e.value);
      }
      r := NextValue();
    }

    /** Whether another value, or an error, comes next. */
    method More() returns (more: bool)
      requires Valid()
      modifies Frame()
      ensures Valid() && loaded && fresh(Frame() - old(Frame()))
      ensures consumed == old(consumed) && log == old(log) && Start() == old(Start())
      ensures err == if old(loaded) then old(err) else LoadFailure()
      ensures more <==> err == None && old(ToRead()) != []
    {
      hide Consecutive, Resumes, Tokens, Plain, Means, StripBom, HeadComments;
      hide Parser.Parser.Valid, Parser.Parser.Rest;
      var e := EnsureLoaded();
      if e.Some? || err.Some? {
        return false;
      }
      ghost var src, rest := p.sc.src, p.Rest();
      ResumesSlice(src, opts.strictJSON, taken, Start(), rest);
      ResumesCollected(src, opts.strictJSON, taken, Start(), rest);
      var lead := p.CollectHeadComments();
      var t := p.Peek();
      if t.kind == EofToken {
        NothingPlain(rest);
      } else {
        SomethingPlain(rest);
      }
      return t.kind != EofToken;
    }

    function InputOffset(): nat
      reads this
    {
      consumed
    }
  }
}
