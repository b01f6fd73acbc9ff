/** Lines of the source: what line and column numbers mean. */
module Positions {
  import opened Ascii
  import opened Lexer

  datatype Position = Position(line: nat, column: nat, offset: nat)

  /** The index of the first CR or LF, or the length of s. */
  function BreakIndex(s: Bytes): (n: nat)
    ensures n <= |s|
    ensures n < |s| ==> IsLineBreak(s[n])
    ensures forall i :: 0 <= i < n ==> !IsLineBreak(s[i])
  {
    if s == [] || IsLineBreak(s[0]) then 0 else 1 + BreakIndex(s[1..])
  }

  /** The offset just past the first line break. */
  function AfterBreak(s: Bytes): (n: nat)
    requires BreakIndex(s) < |s|
    ensures BreakIndex(s) < n <= |s|
  {
    var b := BreakIndex(s);
    if s[b] == CR && b + 1 < |s| && s[b + 1] == LF then b + 2 else b + 1
  }

  /** Where line n of s begins, lines counted from 1. */
  function LineStart(s: Bytes, n: int): (r: Option<nat>)
    ensures r.Some? ==> r.value <= |s|
    decreases |s|
  {
    if n == 1 then Some(0)
    else if BreakIndex(s) == |s| then None
    else Plus(AfterBreak(s), LineStart(s[AfterBreak(s)..], n - 1))
  }

  function FirstLine(s: Bytes): Bytes { s[..BreakIndex(s)] }

  /** The text of line n, without its line break. */
  function LineText(s: Bytes, n: int): Option<Bytes> {
    match LineStart(s, n)
    case None => None
    case Some(k) => Some(FirstLine(s[k..]))
  }

  /** sourceLine */
  method SourceLine(source: Bytes, n: int) returns (r: Option<Bytes>)
    ensures r == LineText(source, n)
  {
    hide BreakIndex, LineStart;
    var data := source;
    var line := 1;
    while true
      invariant LineText(source, n) == LineText(data, n - line + 1)
      decreases |data|
    {
      var end := IndexOfBreak(data);
      ThisLine(data, n - line + 1);
      if line == n {
        if end == |data| {
          return Some(data);
        }
        return Some(data[..end]);
      }
      if end == |data| {
        return None;
      }
      if data[end] == CR && end + 1 < |data| && data[end + 1] == LF {
        end := end + 1;
      }
      NextLineText(data, n - line + 1);
      data := data[end + 1..];
      line := line + 1;
    }
  }

  /** bytes.IndexAny(s, "\r\n"), with the length of s for not found. */
  method IndexOfBreak(s: Bytes) returns (n: nat)
    ensures n == BreakIndex(s)
  {
    n := 0;
    while n < |s| && !IsLineBreak(s[n])
      invariant n <= |s|
      invariant BreakIndex(s) == n + BreakIndex(s[n..])
    {
      assert s[n..][1..] == s[n + 1..];
      n := n + 1;
    }
  }

  lemma DropTwice(s: Bytes, j: nat, k: nat)
    requires j + k <= |s|
    ensures s[j..][k..] == s[j + k..]
  {
  }

  lemma ThisLine(s: Bytes, n: int)
    ensures n == 1 ==> LineText(s, n) == Some(s[..BreakIndex(s)])
    ensures n != 1 && BreakIndex(s) == |s| ==> LineText(s, n) == None
    ensures BreakIndex(s) == |s| ==> s[..BreakIndex(s)] == s
  {
    hide BreakIndex;
    assert s[0..] == s;
  }

  lemma NextLineText(s: Bytes, n: int)
    requires n != 1 && BreakIndex(s) < |s|
    ensures LineText(s, n) == LineText(s[AfterBreak(s)..], n - 1)
  {
    var a := AfterBreak(s);
    StartStep(s, n);
    LineTextIs(s, n);
    LineTextIs(s[a..], n - 1);
    hide BreakIndex, AfterBreak, LineStart, FirstLine, LineText;
    if LineStart(s, n).Some? {
      DropTwice(s, a, LineStart(s[a..], n - 1).value);
    }
  }

  lemma LineTextIs(s: Bytes, n: int)
    ensures LineStart(s, n) == None ==> LineText(s, n) == None
    ensures LineStart(s, n).Some? ==> LineText(s, n) == Some(FirstLine(s[LineStart(s, n).value..]))
  {
    hide BreakIndex;
  }

  lemma StartStep(s: Bytes, n: int)
    requires n != 1 && BreakIndex(s) < |s|
    ensures LineStart(s, n) == Plus(AfterBreak(s), LineStart(s[AfterBreak(s)..], n - 1))
  {
    hide BreakIndex, AfterBreak;
  }

  /** Position p is in s where its line and column say: sourceLine finds its
      line, which begins column - 1 bytes before it and does not end before it. */
  predicate Located(s: Bytes, p: Position) {
    1 <= p.line && 1 <= p.column <= p.offset + 1 && p.offset <= |s|
    && LineStart(s, p.line as int) == Some(p.offset - (p.column - 1))
    && forall i :: p.offset - (p.column - 1) <= i < p.offset ==>
         !IsLineBreak(s[i]) || (i == p.offset - 1 && s[i] == CR && p.offset < |s| && s[p.offset] == LF)
  }

  /** advance: the position one byte further. */
  function Advanced(s: Bytes, p: Position): Position
    requires p.offset < |s|
  {
    if s[p.offset] == LF || (s[p.offset] == CR && !(p.offset + 1 < |s| && s[p.offset + 1] == LF)) then
      Position(p.line + 1, 1, p.offset + 1)
    else Position(p.line, p.column + 1, p.offset + 1)
  }

  lemma FirstStart(s: Bytes)
    ensures LineStart(s, 1) == Some(0)
  {
  }

  lemma NoStart(s: Bytes, n: int)
    requires n != 1 && BreakIndex(s) == |s|
    ensures LineStart(s, n) == None
  {
  }

  /** The line after the one that begins at k. */
  lemma {:induction false} NextLine(s: Bytes, n: int, k: nat)
    requires n >= 1 && LineStart(s, n) == Some(k) && k <= |s| && BreakIndex(s[k..]) < |s[k..]|
    ensures LineStart(s, n + 1) == Some(k + AfterBreak(s[k..]))
    decreases |s|
  {
    hide BreakIndex, AfterBreak, LineStart;
    if n == 1 {
      FirstStart(s);
      assert s[0..] == s;
      StartStep(s, 2);
      FirstStart(s[AfterBreak(s)..]);
    } else {
      if BreakIndex(s) == |s| {
        NoStart(s, n);
      }
      StartStep(s, n);
      StartStep(s, n + 1);
      var a := AfterBreak(s);
      DropTwice(s, a, k - a);
      NextLine(s[a..], n - 1, k - a);
    }
  }

  lemma {:induction false} FirstBreak(s: Bytes, b: nat)
    requires b < |s| && IsLineBreak(s[b]) && forall i :: 0 <= i < b ==> !IsLineBreak(s[i])
    ensures BreakIndex(s) == b
  {
    if b > 0 {
      FirstBreak(s[1..], b - 1);
    }
  }

  /** The line break that is complete once p.offset is taken. */
  lemma BreakHere(s: Bytes, p: Position)
    requires Located(s, p) && p.offset < |s| && Advanced(s, p).column == 1
    ensures var t := s[p.offset - (p.column - 1)..]; BreakIndex(t) < |t| && AfterBreak(t) == p.column
  {
    hide LineStart;
    var start := p.offset - (p.column - 1);
    var t := s[start..];
    var b: nat := if p.column > 1 && s[p.offset - 1] == CR then p.column - 2 else p.column - 1;
    assert t[b] == s[start + b];
    assert forall i :: 0 <= i < b ==> t[i] == s[start + i];
    FirstBreak(t, b);
    assert b + 1 < |t| ==> t[b + 1] == s[start + b + 1];
  }

  /** The position invariant: advancing keeps a position located, for any mix
      of LF, CR and CRLF. */
  lemma AdvancedIsLocated(s: Bytes, p: Position)
    requires Located(s, p) && p.offset < |s|
    ensures Located(s, Advanced(s, p))
  {
    hide LineStart, BreakIndex, AfterBreak;
    if Advanced(s, p).column == 1 {
      BreakHere(s, p);
      NextLine(s, p.line as int, p.offset - (p.column - 1));
    }
  }

  /** The text of a located position's line reaches at least up to it, a CR
      before an LF aside. */
  lemma LocatedInLine(s: Bytes, p: Position)
    requires Located(s, p)
    ensures LineText(s, p.line as int).Some?
    ensures var text := LineText(s, p.line as int).value;
            |text| >= p.column - 1 || (|text| == p.column - 2 && p.offset < |s| && s[p.offset] == LF)
  {
    var start := p.offset - (p.column - 1);
    var t := s[start..];
    var b := BreakIndex(t);
    if b < p.column - 1 {
      assert t[b] == s[start + b];
    }
  }

  /** Every later line begins behind the break of line n. */
  lemma {:induction false} LaterLine(s: Bytes, n: int, k: nat, m: int, j: nat)
    requires 1 <= n < m && LineStart(s, n) == Some(k) && LineStart(s, m) == Some(j) && k <= |s|
    ensures BreakIndex(s[k..]) < |s[k..]| && k + AfterBreak(s[k..]) <= j
    decreases |s|
  {
    hide BreakIndex, AfterBreak;
    if n == 1 {
      FirstStart(s);
      assert s[k..] == s;
      if BreakIndex(s) == |s| {
        NoStart(s, m);
      } else {
        StartStep(s, m);
      }
    } else if BreakIndex(s) == |s| {
      NoStart(s, n);
    } else {
      var a := AfterBreak(s);
      StartStep(s, n);
      StartStep(s, m);
      LaterLine(s[a..], n - 1, k - a, m - 1, j - a);
      DropTwice(s, a, k - a);
    }
  }

  lemma NotLater(s: Bytes, p: Position, q: Position)
    requires Located(s, p) && Located(s, q) && p.offset == q.offset
    ensures p.line >= q.line
  {
    if p.line < q.line {
      var k, j := p.offset - (p.column - 1), q.offset - (q.column - 1);
      LaterLine(s, p.line as int, k, q.line as int, j);
    }
  }

  /** Line and column are determined by the offset. */
  lemma LocatedIsUnique(s: Bytes, p: Position, q: Position)
    requires Located(s, p) && Located(s, q) && p.offset == q.offset
    ensures p == q
  {
    hide Located;
    NotLater(s, p, q);
    NotLater(s, q, p);
    SameLine(s, p, q);
  }

  lemma SameLine(s: Bytes, p: Position, q: Position)
    requires Located(s, p) && Located(s, q) && p.offset == q.offset && p.line == q.line
    ensures p.column == q.column
  {
  }
}
