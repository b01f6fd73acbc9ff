/**
  Among tokens without comments and line breaks, what a value is depends only
  on the tokens it takes.
 */
module Locality {
  import opened Ascii
  import opened Lexer
  import opened QuotedStrings
  import opened Tree
  import opened Syntax
  import opened SyntaxTurns

  ghost predicate NoTrivia(ts: seq<Token>) { forall i :: 0 <= i < |ts| ==> !IsTrivia(ts[i]) }

  /** b is what is left of a. */
  predicate LeftOf(b: seq<Token>, a: seq<Token>) { |b| <= |a| && a[|a| - |b|..] == b }

  lemma LeftTwice(c: seq<Token>, b: seq<Token>, a: seq<Token>)
    requires LeftOf(c, b) && LeftOf(b, a)
    ensures LeftOf(c, a)
  {
  }

  lemma LeftClean(b: seq<Token>, a: seq<Token>)
    requires LeftOf(b, a) && NoTrivia(a)
    ensures NoTrivia(b)
  {
    forall i | 0 <= i < |b|
      ensures !IsTrivia(b[i])
    {
      assert b[i] == a[|a| - |b| + i];
    }
  }

  lemma DropOne(a: seq<Token>)
    requires a != []
    ensures LeftOf(a[1..], a)
  {
  }

  lemma NothingSkipped(acc: Bytes, ts: seq<Token>)
    requires NoTrivia(ts)
    ensures Collect(acc, ts) == Noted(acc, ts) && InlineComment(ts) == Noted([], ts)
    ensures HeadComments(ts) == Noted([], ts)
  {
    assert !IsTrivia(Peek(ts));
    assert Collect([], ts) == Noted([], ts);
  }

  // What is left is the end of what there was.

  lemma {:induction false} ValueLeaves(st: State, depth: nat, o: Options)
    requires NoTrivia(st.ts)
    ensures var r := ParseValue(st, depth, o); r.Ok? ==> LeftOf(r.st.ts, st.ts)
    decreases |st.ts|, 1
  {
    hide ParseContainer, Unquote, ParseChildren, ParseChild;
    if IsOpen(Peek(st.ts).kind) {
      ContainerLeaves(st, depth, o);
    }
  }

  lemma {:induction false} ContainerLeaves(st: State, depth: nat, o: Options)
    requires NoTrivia(st.ts) && IsOpen(Peek(st.ts).kind)
    ensures var r := ParseContainer(st, depth, o); r.Ok? ==> LeftOf(r.st.ts, st.ts)
    decreases |st.ts|, 0
  {
    hide ParseChildren, ParseChild, ParseValue, InlineComment, LeftOf;
    var obj := Peek(st.ts).kind == ObjectStart;
    var st1 := State(st.ts[1..], st.keys, st.nodes + 1);
    DropOne(st.ts);
    LeftClean(st1.ts, st.ts);
    ChildrenLeave(st1, depth + 1, o, obj, START);
    var r := ParseChildren(st1, depth + 1, o, obj, START);
    if r.Ok? {
      LeftTwice(r.st.ts, st1.ts, st.ts);
      LeftClean(r.st.ts, st.ts);
      NothingSkipped([], r.st.ts);
    }
  }

  lemma {:induction false} ChildLeaves(st: State, depth: nat, o: Options, obj: bool, head: Bytes)
    requires NoTrivia(st.ts)
    ensures var r := ParseChild(st, depth, o, obj, head); r.Ok? ==> LeftOf(r.st.ts, st.ts)
    decreases |st.ts|, 2
  {
    hide ParseContainer, Unquote, ParseValue, LeftOf, Collect;
    if !obj {
      ValueLeaves(st, depth, o);
    } else if Peek(st.ts).kind == StringToken {
      DropOne(st.ts);
      LeftClean(st.ts[1..], st.ts);
      NothingSkipped([], st.ts[1..]);
      var colon := st.ts[1..];
      if Peek(colon).kind == NameSeparator {
        DropOne(colon);
        LeftClean(colon[1..], colon);
        NothingSkipped([], colon[1..]);
        LeftTwice(colon[1..], colon, st.ts);
        ValueLeaves(st.(ts := colon[1..]), depth, o);
        var v := ParseValue(st.(ts := colon[1..]), depth, o);
        if v.Ok? {
          LeftTwice(v.st.ts, colon[1..], st.ts);
        }
      }
    }
  }

  /** Attach, where there are no comments. */
  function AttachedTo(n: Node, st: State, o: Options, obj: bool, sofar: Inside): Result<Turn> {
    if obj && !o.allowDuplicateKeys && HasKey(sofar.children, n.key) then Err(DuplicateKey(n.key))
    else if obj && Over(st.keys + 1, o.maxKeys) then Err(TooManyKeys)
    else
      var st1 := st.(keys := st.keys + if obj then 1 else 0);
      if Peek(st.ts).kind == ValueSeparator then
        Ok(Turn(Inside(Put(sofar.children, n.WithFoot(JoinNotes(n.notes.foot, [])), obj), sofar.foot), true),
           st1.(ts := st.ts[1..]))
      else if Peek(st.ts).kind == Close(obj) then
        Ok(Turn(Inside(Put(sofar.children, n, obj), JoinNotes(sofar.foot, [])), false), st1)
      else Err(UnexpectedToken)
  }

  lemma AttachIs(n: Node, st: State, o: Options, obj: bool, sofar: Inside)
    requires NoTrivia(st.ts)
    ensures Attach(n, st, o, obj, sofar) == AttachedTo(n, st, o, obj, sofar)
  {
    hide Put, HasKey, JoinNotes, HeadComments, InlineComment, NoTrivia;
    NothingSkipped([], st.ts);
    if Peek(st.ts).kind == ValueSeparator {
      DropOne(st.ts);
      LeftClean(st.ts[1..], st.ts);
      NothingSkipped([], st.ts[1..]);
    }
  }

  lemma {:induction false} ChildrenLeave(st: State, depth: nat, o: Options, obj: bool, turn: Turn)
    requires NoTrivia(st.ts)
    ensures var r := ParseChildren(st, depth, o, obj, turn); r.Ok? ==> LeftOf(r.st.ts, st.ts)
    decreases |st.ts|, 3
  {
    hide ParseChild, ParseValue, Attach, HeadComments, LeftOf, NoTrivia;
    NothingSkipped([], st.ts);
    if Peek(st.ts).kind == Close(obj) {
      DropOne(st.ts);
    } else {
      ChildLeaves(st, depth, o, obj, []);
      var c := ParseChild(st, depth, o, obj, []);
      if c.Ok? {
        LeftClean(c.st.ts, st.ts);
        AttachIs(c.val, c.st, o, obj, turn.sofar);
        var a := Attach(c.val, c.st, o, obj, turn.sofar);
        if a.Ok? {
          if Peek(c.st.ts).kind == ValueSeparator {
            DropOne(c.st.ts);
            LeftTwice(a.st.ts, c.st.ts, st.ts);
          }
          LeftClean(a.st.ts, st.ts);
          ChildrenLeave(a.st, depth, o, obj, a.val);
          var r := ParseChildren(a.st, depth, o, obj, a.val);
          if r.Ok? {
            LeftTwice(r.st.ts, a.st.ts, st.ts);
          }
        }
      }
    }
  }

  // What follows a value makes no difference to it.

  lemma Split(us: seq<Token>, qs: seq<Token>, b: seq<Token>) returns (k: nat)
    requires LeftOf(b, us + qs) && LeftOf(qs, b)
    ensures k <= |us| && b == us[k..] + qs && us == us[..k] + us[k..]
  {
    k := |us| + |qs| - |b|;
    assert (us + qs)[k..] == us[k..] + qs;
  }

  lemma Ahead(us: seq<Token>, qs: seq<Token>)
    requires us != []
    ensures Peek(us + qs) == us[0] && (us + qs)[1..] == us[1..] + qs
  {
  }

  lemma CleanParts(us: seq<Token>, qs: seq<Token>)
    ensures NoTrivia(us + qs) <==> NoTrivia(us) && NoTrivia(qs)
  {
    if NoTrivia(us + qs) {
      assert forall i :: 0 <= i < |us| ==> us[i] == (us + qs)[i];
      assert forall i :: 0 <= i < |qs| ==> qs[i] == (us + qs)[|us| + i];
    }
  }

  /** r, with rest left instead of what was. */
  function Instead<T>(r: Result<T>, rest: seq<Token>): Result<T>
    requires r.Ok?
  {
    Ok(r.val, r.st.(ts := rest))
  }

  lemma {:induction false} ValueLocal(us: seq<Token>, qs: seq<Token>, rest: seq<Token>, keys: nat, nodes: nat, depth: nat, o: Options)
    requires NoTrivia(us) && NoTrivia(qs) && NoTrivia(rest)
    requires var r := ParseValue(State(us + qs, keys, nodes), depth, o); r.Ok? && r.st.ts == qs
    ensures us != []
    ensures ParseValue(State(us + rest, keys, nodes), depth, o)
            == Instead(ParseValue(State(us + qs, keys, nodes), depth, o), rest)
    decreases |us|, 1
  {
    hide ParseContainer, ParseChildren, Unquote, NoTrivia;
    Ahead(us, qs);
    Ahead(us, rest);
    if IsOpen(us[0].kind) {
      ContainerLocal(us, qs, rest, keys, nodes, depth, o);
    } else {
      assert |us| == 1;
      assert us[1..] == [];
    }
  }

  lemma {:induction false} ContainerLocal(us: seq<Token>, qs: seq<Token>, rest: seq<Token>, keys: nat, nodes: nat, depth: nat, o: Options)
    requires NoTrivia(us) && NoTrivia(qs) && NoTrivia(rest) && us != [] && IsOpen(us[0].kind)
    requires Peek(us + qs) == us[0]
    requires var r := ParseContainer(State(us + qs, keys, nodes), depth, o); r.Ok? && r.st.ts == qs
    ensures Peek(us + rest) == us[0]
    ensures ParseContainer(State(us + rest, keys, nodes), depth, o)
            == Instead(ParseContainer(State(us + qs, keys, nodes), depth, o), rest)
    decreases |us|, 0
  {
    hide ParseChildren, ParseChild, ParseValue, InlineComment, LeftOf, NoTrivia;
    Ahead(us, qs);
    Ahead(us, rest);
    var obj := us[0].kind == ObjectStart;
    var inner := us[1..] + qs;
    assert us == [us[0]] + us[1..];
    CleanParts([us[0]], us[1..]);
    CleanParts(us[1..], qs);
    var r := ParseChildren(State(inner, keys, nodes + 1), depth + 1, o, obj, START);
    ChildrenLeave(State(inner, keys, nodes + 1), depth + 1, o, obj, START);
    LeftClean(r.st.ts, inner);
    NothingSkipped([], r.st.ts);
    ChildrenLocal(us[1..], qs, rest, keys, nodes + 1, depth + 1, o, obj, START);
    NothingSkipped([], rest);
  }

  lemma {:induction false} ChildLocal(
    us: seq<Token>, qs: seq<Token>, rest: seq<Token>, keys: nat, nodes: nat, depth: nat, o: Options, obj: bool)
    requires NoTrivia(us) && NoTrivia(qs) && NoTrivia(rest)
    requires var r := ParseChild(State(us + qs, keys, nodes), depth, o, obj, []); r.Ok? && r.st.ts == qs
    ensures us != []
    ensures ParseChild(State(us + rest, keys, nodes), depth, o, obj, [])
            == Instead(ParseChild(State(us + qs, keys, nodes), depth, o, obj, []), rest)
    decreases |us|, 2
  {
    hide Unquote, ParseValue, LeftOf, Collect, NoTrivia;
    if !obj {
      ValueLocal(us, qs, rest, keys, nodes, depth, o);
    } else {
      assert |us| > 2;
      var vs := us[2..];
      assert us == [us[0]] + us[1..] && us[1..] == [us[1]] + vs;
      CleanParts([us[0]], us[1..]);
      CleanParts([us[1]], vs);
      MemberHead(us, qs);
      MemberHead(us, rest);
      ValueLocal(vs, qs, rest, keys, nodes, depth, o);
    }
  }

  /** The tokens of a member before its value, with nothing between them. */
  lemma MemberHead(us: seq<Token>, qs: seq<Token>)
    requires |us| > 2 && NoTrivia(us) && NoTrivia(qs)
    ensures Peek(us + qs) == us[0] && (us + qs)[0] == us[0]
    ensures Collect([], (us + qs)[1..]).rest == us[1..] + qs
    ensures Peek(us[1..] + qs) == us[1]
    ensures Collect([], (us[1..] + qs)[1..]).rest == us[2..] + qs
  {
    hide NoTrivia;
    CleanParts(us, qs);
    assert us == [us[0]] + us[1..] && us[1..] == [us[1]] + us[2..];
    CleanParts([us[0]], us[1..]);
    CleanParts([us[1]], us[2..]);
    CleanParts(us[1..], qs);
    CleanParts(us[2..], qs);
    Ahead(us, qs);
    Ahead(us[1..], qs);
    NothingSkipped([], us[1..] + qs);
    NothingSkipped([], us[2..] + qs);
  }

  lemma {:induction false} ChildrenLocal(
    us: seq<Token>, qs: seq<Token>, rest: seq<Token>, keys: nat, nodes: nat, depth: nat, o: Options, obj: bool, turn: Turn)
    requires NoTrivia(us) && NoTrivia(qs) && NoTrivia(rest)
    requires var r := ParseChildren(State(us + qs, keys, nodes), depth, o, obj, turn); r.Ok? && r.st.ts == qs
    ensures us != []
    ensures ParseChildren(State(us + rest, keys, nodes), depth, o, obj, turn)
            == Instead(ParseChildren(State(us + qs, keys, nodes), depth, o, obj, turn), rest)
    decreases |us|, 4
  {
    hide ParseChild, ParseChildren, ParseValue, Attach, HeadComments, LeftOf, NoTrivia, JoinNotes;
    var st := State(us + qs, keys, nodes);
    CleanParts(us, qs);
    CleanParts(us, rest);
    NothingSkipped([], us + qs);
    NothingSkipped([], us + rest);
    Shorter(st, depth, o, obj, turn);
    Ahead(us, qs);
    Ahead(us, rest);
    if us[0].kind == Close(obj) {
      ClosingTurn(st, depth, o, obj, turn);
      assert |us| == 1;
      ClosingTurn(st.(ts := us + rest), depth, o, obj, turn);
      assert us[1..] + rest == rest;
    } else {
      var k := ChildSplit(us, qs, keys, nodes, depth, o, obj, turn);
      var v, w := us[..k], us[k..];
      assert us + qs == v + (w + qs) && us + rest == v + (w + rest);
      ChildTurn(st, depth, o, obj, turn);
      ChildTurn(st.(ts := us + rest), depth, o, obj, turn);
      CleanParts(v, w);
      ChildThenRest(v, w, qs, rest, keys, nodes, depth, o, obj, turn);
    }
  }

  lemma Shorter(st: State, depth: nat, o: Options, obj: bool, turn: Turn)
    ensures var r := ParseChildren(st, depth, o, obj, turn); r.Ok? ==> |r.st.ts| < |st.ts|
  {
  }

  /** How many of the tokens us the first child takes. */
  lemma ChildSplit(us: seq<Token>, qs: seq<Token>, keys: nat, nodes: nat, depth: nat, o: Options, obj: bool, turn: Turn)
    returns (k: nat)
    requires NoTrivia(us + qs) && Peek(us + qs).kind != Close(obj)
    requires var r := ParseChildren(State(us + qs, keys, nodes), depth, o, obj, turn); r.Ok? && r.st.ts == qs
    ensures k <= |us| && us == us[..k] + us[k..]
    ensures var c := ParseChild(State(us + qs, keys, nodes), depth, o, obj, []); c.Ok? && c.st.ts == us[k..] + qs
  {
    hide ParseChild, ParseChildren, ParseValue, Attach, HeadComments, LeftOf, NoTrivia, JoinNotes, Put, HasKey;
    var st := State(us + qs, keys, nodes);
    NothingSkipped([], us + qs);
    ChildTurn(st, depth, o, obj, turn);
    var c := ParseChild(st, depth, o, obj, []);
    ChildLeaves(st, depth, o, obj, []);
    LeftClean(c.st.ts, st.ts);
    AttachIs(c.val, c.st, o, obj, turn.sofar);
    var a := Attach(c.val, c.st, o, obj, turn.sofar);
    if a.st.ts != c.st.ts {
      DropOne(c.st.ts);
    } else {
      LeftItself(c.st.ts);
    }
    LeftClean(a.st.ts, c.st.ts);
    ChildrenLeave(a.st, depth, o, obj, a.val);
    LeftTwice(qs, a.st.ts, c.st.ts);
    k := Split(us, qs, c.st.ts);
  }

  /** The step of the lemma above: v is a child and w the rest of the inside. */
  lemma {:induction false} ChildThenRest(
    v: seq<Token>, w: seq<Token>, qs: seq<Token>, rest: seq<Token>, keys: nat, nodes: nat, depth: nat, o: Options,
    obj: bool, turn: Turn)
    requires NoTrivia(v) && NoTrivia(w) && NoTrivia(qs) && NoTrivia(rest)
    requires var c := ParseChild(State(v + (w + qs), keys, nodes), depth, o, obj, []); c.Ok? && c.st.ts == w + qs
    requires var c := ParseChild(State(v + (w + qs), keys, nodes), depth, o, obj, []);
             var r := AfterChild(c, depth, o, obj, turn); r.Ok? && r.st.ts == qs
    ensures var c := ParseChild(State(v + (w + qs), keys, nodes), depth, o, obj, []);
            AfterChild(ParseChild(State(v + (w + rest), keys, nodes), depth, o, obj, []), depth, o, obj, turn)
            == Instead(AfterChild(c, depth, o, obj, turn), rest)
    decreases |v| + |w|, 3
  {
    hide ParseChild, ParseChildren, ParseValue, Attach, LeftOf, NoTrivia, Put, HasKey, JoinNotes;
    var c := ParseChild(State(v + (w + qs), keys, nodes), depth, o, obj, []);
    CleanParts(w, qs);
    CleanParts(w, rest);
    ChildLocal(v, w + qs, w + rest, keys, nodes, depth, o, obj);
    AttachIs(c.val, c.st, o, obj, turn.sofar);
    AttachIs(c.val, c.st.(ts := w + rest), o, obj, turn.sofar);
    var a := Attach(c.val, c.st, o, obj, turn.sofar);
    assert |qs| < |a.st.ts|;
    assert w != [];
    Ahead(w, qs);
    Ahead(w, rest);
    assert w == [w[0]] + w[1..];
    CleanParts([w[0]], w[1..]);
    var x := if w[0].kind == ValueSeparator then w[1..] else w;
    assert |v| + |x| < |v| + |w| || v != [];
    ChildrenLocal(x, qs, rest, a.st.keys, a.st.nodes, depth, o, obj, a.val);
  }

  lemma LeftItself(a: seq<Token>)
    ensures LeftOf(a, a)
  {
  }
}
