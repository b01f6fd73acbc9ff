/**
  The depth, key and node limits are exact. What a document needs is read off
  its tokens: how deep its brackets nest, how many colons it has, and how many
  scalars and opening brackets. A limited parse succeeds exactly when the
  unlimited parse does and those numbers are within the limits, and then it
  returns the same tree.
 */
module Limits {
  import opened Ascii
  import opened Lexer
  import opened Tree
  import opened Syntax

  function Unlimited(o: Options): Options { o.(maxDepth := 0, maxKeys := 0, maxNodes := 0) }

  // What tokens need

  predicate IsClose(k: Kind) { k == ObjectEnd || k == ArrayEnd }

  predicate IsScalar(k: Kind) { k in {StringToken, NumberToken, TrueToken, FalseToken, NullToken} }

  /** The members read: one for each colon. */
  function Members(ts: seq<Token>): nat {
    if ts == [] then 0 else Members(ts[1..]) + if ts[0].kind == NameSeparator then 1 else 0
  }

  /** The nodes created: one for each scalar (a member's is its key) and for
      each opening bracket. */
  function Nodes(ts: seq<Token>): nat {
    if ts == [] then 0 else Nodes(ts[1..]) + if IsScalar(ts[0].kind) || IsOpen(ts[0].kind) then 1 else 0
  }

  function Rise(k: Kind): int { if IsOpen(k) then 1 else if IsClose(k) then -1 else 0 }

  /** Opening brackets minus closing ones. */
  function Net(ts: seq<Token>): int {
    if ts == [] then 0 else Net(ts[1..]) + Rise(ts[0].kind)
  }

  function Max(a: int, b: int): int { if a < b then b else a }

  /** The deepest level opened by ts, which begins at level d. */
  function Nesting(ts: seq<Token>, d: int): int {
    if ts == [] then 0
    else Max(if IsOpen(ts[0].kind) then d + 1 else 0, Nesting(ts[1..], d + Rise(ts[0].kind)))
  }

  // What a stretch of parsing took

  /** From st to st' the counters were charged for the tokens taken, except for
      `due` members still to be charged; the level went from d to d + net, and
      p is the deepest level that was opened. */
  predicate Took(st: State, st': State, d: int, net: int, p: int, due: int) {
    && st'.keys + due + Members(st'.ts) == st.keys + Members(st.ts)
    && st'.nodes + Nodes(st'.ts) == st.nodes + Nodes(st.ts)
    && st'.nodes >= st.nodes && st'.keys >= st.keys
    && net + Net(st'.ts) == Net(st.ts)
    && p >= 0 && Nesting(st.ts, d) == Max(p, Nesting(st'.ts, d + net))
  }

  predicate Sound(st: State, o: Options) { !Over(st.keys, o.maxKeys) && !Over(st.nodes, o.maxNodes) }

  predicate Fits(st': State, p: int, o: Options) { !Over(p, o.maxDepth) && Sound(st', o) }

  /** One token taken. */
  lemma TookOne(st: State, st': State, d: int, net: int, p: int, due: int)
    requires st.ts != [] && st'.ts == st.ts[1..] && net == Rise(st.ts[0].kind)
    requires st'.keys == st.keys
    requires st'.nodes == st.nodes + if IsScalar(st.ts[0].kind) || IsOpen(st.ts[0].kind) then 1 else 0
    requires p == Max(0, if IsOpen(st.ts[0].kind) then d + 1 else 0)
    requires due == if st.ts[0].kind == NameSeparator then 1 else 0
    ensures Took(st, st', d, net, p, due)
  {
    NestingNatural(st.ts, d);
    NestingNatural(st'.ts, d + net);
  }

  lemma TookThen(a: State, b: State, c: State, d: int, n1: int, n2: int, p1: int, p2: int, due1: int, due2: int)
    requires Took(a, b, d, n1, p1, due1) && Took(b, c, d + n1, n2, p2, due2)
    ensures Took(a, c, d, n1 + n2, Max(p1, p2), due1 + due2)
    ensures c.keys >= b.keys >= a.keys && c.nodes >= b.nodes >= a.nodes && p1 >= 0 && p2 >= 0
  {
  }

  lemma TriviaIsFree(ts: seq<Token>, d: int)
    requires IsTrivia(Peek(ts))
    ensures Members(ts) == Members(ts[1..]) && Nodes(ts) == Nodes(ts[1..]) && Net(ts) == Net(ts[1..])
    ensures Max(0, Nesting(ts, d)) == Max(0, Nesting(ts[1..], d))
  {
  }

  lemma {:induction false} CollectIsFree(acc: Bytes, ts: seq<Token>, d: int)
    ensures var rest := Collect(acc, ts).rest;
            Members(rest) == Members(ts) && Nodes(rest) == Nodes(ts) && Net(rest) == Net(ts)
            && Max(0, Nesting(rest, d)) == Max(0, Nesting(ts, d))
    decreases |ts|
  {
    hide Members, Nodes, Net, Nesting;
    if IsTrivia(Peek(ts)) {
      TriviaIsFree(ts, d);
      if Peek(ts).kind == Newline {
        CollectIsFree(acc, ts[1..], d);
      } else {
        CollectIsFree((if acc == [] then [] else acc + [LF]) + ts[0].text, ts[1..], d);
      }
    }
  }

  lemma {:induction false} NestingNatural(ts: seq<Token>, d: int)
    ensures Nesting(ts, d) >= 0
  {
    if ts != [] {
      NestingNatural(ts[1..], d + Rise(ts[0].kind));
    }
  }

  /** Skipping line breaks and comments takes nothing. */
  lemma SkipTakesNothing(acc: Bytes, st: State, d: int)
    ensures Took(st, st.(ts := Collect(acc, st.ts).rest), d, 0, 0, 0)
  {
    CollectIsFree(acc, st.ts, d);
    NestingNatural(st.ts, d);
    NestingNatural(Collect(acc, st.ts).rest, d);
  }

  lemma InlineTakesNothing(st: State, d: int)
    ensures Took(st, st.(ts := InlineComment(st.ts).rest), d, 0, 0, 0)
  {
    NestingNatural(st.ts, d);
    NestingNatural(InlineComment(st.ts).rest, d);
  }

  /** r is a limited result and q the unlimited one, from st at level d. */
  predicate Agree<T(==)>(r: Result<T>, q: Result<T>, st: State, d: int, net: int, p: int, due: int, o: Options) {
    match q
    case Err(_) => r.Err?
    case Ok(_, st') => Took(st, st', d, net, p, due) && if Fits(st', p, o) then r == q else r.Err?
  }

  lemma ScalarLimits(st: State, d: nat, o: Options)
    requires Sound(st, o)
    ensures Agree(ParseScalar(st, o), ParseScalar(st, Unlimited(o)), st, d, 0, 0, 0, o)
  {
    hide Took;
    if ScalarNode(Peek(st.ts)).Some? {
      TookOne(st, st.(ts := st.ts[1..], nodes := st.nodes + 1), d, 0, 0, 0);
    }
  }

  lemma {:induction false} ValueLimits(st: State, d: nat, o: Options) returns (p: int)
    requires Sound(st, o)
    ensures Agree(ParseValue(st, d, o), ParseValue(st, d, Unlimited(o)), st, d, 0, p, 0, o)
    decreases |st.ts|, 1
  {
    hide Took, ParseScalar, ParseContainer, Fits;
    if IsOpen(Peek(st.ts).kind) {
      p := ContainerLimits(st, d, o);
    } else {
      ScalarLimits(st, d, o);
      p := 0;
    }
  }

  lemma {:induction false} ContainerLimits(st: State, d: nat, o: Options) returns (p: int)
    requires IsOpen(Peek(st.ts).kind) && Sound(st, o)
    ensures Agree(ParseContainer(st, d, o), ParseContainer(st, d, Unlimited(o)), st, d, 0, p, 0, o)
    decreases |st.ts|, 0
  {
    hide Members, Nodes, Net, Nesting, ParseChildren;
    var u := Unlimited(o);
    var obj := Peek(st.ts).kind == ObjectStart;
    var st1 := State(st.ts[1..], st.keys, st.nodes + 1);
    TookOne(st, st1, d, 1, d + 1, 0);
    p := ChildrenLimits(st1, d + 1, if Sound(st1, o) then o else u, obj, START);
    var q := ParseChildren(st1, d + 1, u, obj, START);
    if q.Ok? {
      InlineTakesNothing(q.st, d);
    }
    p := Max(d + 1, p);
  }

  /** In an object, the child's own member is still to be charged. */
  lemma {:induction false} ChildLimits(st: State, d: nat, o: Options, obj: bool, head: Bytes) returns (p: int)
    requires Sound(st, o)
    ensures Agree(ParseChild(st, d, o, obj, head), ParseChild(st, d, Unlimited(o), obj, head), st, d, 0, p,
                  if obj then 1 else 0, o)
    decreases |st.ts|, 2
  {
    hide Members, Nodes, Net, Nesting, ParseValue;
    p := 0;
    if !obj {
      p := ValueLimits(st, d, o);
    } else if Peek(st.ts).kind == StringToken {
      var st1 := st.(ts := Collect([], st.ts[1..]).rest);
      if Peek(st1.ts).kind == NameSeparator {
        var st2 := st1.(ts := Collect([], st1.ts[1..]).rest);
        KeyTakes(st, st1, st2, d);
        p := ValueLimits(st2, d, o);
      }
    }
  }

  /** A key and its colon: the member's node and key are still to be charged. */
  lemma KeyTakes(st: State, st1: State, st2: State, d: int)
    requires Peek(st.ts).kind == StringToken && st1 == st.(ts := Collect([], st.ts[1..]).rest)
    requires Peek(st1.ts).kind == NameSeparator && st2 == st1.(ts := Collect([], st1.ts[1..]).rest)
    ensures Took(st, st2.(nodes := st2.nodes + 1), d, 0, 0, 1)
  {
    hide Members, Nodes, Net, Nesting, Collect;
    TookOne(st, st.(ts := st.ts[1..], nodes := st.nodes + 1), d, 0, 0, 0);
    SkipTakesNothing([], st.(ts := st.ts[1..]), d);
    TookOne(st1, st1.(ts := st1.ts[1..]), d, 0, 0, 1);
    SkipTakesNothing([], st1.(ts := st1.ts[1..]), d);
  }

  lemma AttachLimits(n: Node, st: State, d: int, o: Options, obj: bool, sofar: Inside)
    requires Sound(st, o)
    ensures Agree(Attach(n, st, o, obj, sofar), Attach(n, st, Unlimited(o), obj, sofar), st, d, 0, 0, if obj then -1 else 0, o)
  {
    hide Members, Nodes, Net, Nesting, Collect, HasKey, Put;
    var st1 := st.(ts := InlineComment(st.ts).rest);
    InlineTakesNothing(st, d);
    var st2 := st1.(ts := Collect([], st1.ts).rest);
    SkipTakesNothing([], st1, d);
    if Peek(st2.ts).kind == ValueSeparator {
      var st3 := st2.(ts := st2.ts[1..]);
      TookOne(st2, st3, d, 0, 0, 0);
      InlineTakesNothing(st3, d);
    }
  }

  lemma {:induction false} ChildrenLimits(st: State, d: nat, o: Options, obj: bool, turn: Turn) returns (p: int)
    requires Sound(st, o)
    ensures Agree(ParseChildren(st, d, o, obj, turn), ParseChildren(st, d, Unlimited(o), obj, turn), st, d, -1, p, 0, o)
    decreases |st.ts|, 3
  {
    hide Took, Collect, Attach, ParseChild;
    p := 0;
    var u := Unlimited(o);
    var head := HeadComments(st.ts);
    var st0 := st.(ts := head.rest);
    SkipTakesNothing([], st, d);
    if Peek(head.rest).kind == Close(obj) {
      TookOne(st0, st0.(ts := head.rest[1..]), d, -1, 0, 0);
      TookThen(st, st0, st0.(ts := head.rest[1..]), d, 0, -1, 0, 0, 0, 0);
    } else {
      var c := ParseChild(st0, d, u, obj, head.text);
      p := ChildLimits(st0, d, o, obj, head.text);
      if c.Ok? {
        TookThen(st, st0, c.st, d, 0, 0, 0, p, 0, if obj then 1 else 0);
        var p2 := RestLimits(st, c.st, d, o, obj, turn, c.val, p);
        p := Max(p, p2);
      }
    }
  }

  /** The loop from behind a child on: c is the state there, reached from st. */
  lemma {:induction false} RestLimits(st: State, c: State, d: nat, o: Options, obj: bool, turn: Turn, n: Node, p: int) returns (p2: int)
    requires |c.ts| < |st.ts| && Took(st, c, d, 0, p, if obj then 1 else 0)
    ensures var u := Unlimited(o);
            var a := Attach(n, c, o, obj, turn.sofar);
            var b := Attach(n, c, u, obj, turn.sofar);
            var r := if a.Err? then Err(a.error) else ParseChildren(a.st, d, o, obj, a.val);
            var q := if b.Err? then Err(b.error) else ParseChildren(b.st, d, u, obj, b.val);
            match q
            case Err(_) => Fits(c, p, o) ==> r.Err?
            case Ok(_, st') =>
              Took(st, st', d, -1, Max(p, p2), 0) && p2 >= 0 && st'.keys >= c.keys && st'.nodes >= c.nodes && p >= 0
              && (Fits(c, p, o) ==> if Fits(st', p2, o) then r == q else r.Err?)
    decreases |st.ts|, 2
  {
    hide Took, Collect, Attach;
    p2 := 0;
    var u := Unlimited(o);
    var o1 := if Fits(c, p, o) then o else u;
    AttachLimits(n, c, d, o1, obj, turn.sofar);
    var b := Attach(n, c, u, obj, turn.sofar);
    if b.Ok? {
      var due := if obj then 1 else 0;
      TookThen(st, c, b.st, d, 0, 0, p, 0, due, -due);
      p2 := ChildrenLimits(b.st, d, if Sound(b.st, o1) then o1 else u, obj, b.val);
      var q := ParseChildren(b.st, d, u, obj, b.val);
      if q.Ok? {
        TookThen(st, b.st, q.st, d, 0, -1, p, p2, 0, 0);
      }
    }
  }

  /** The limits are exact. */
  lemma LimitsAreExact(ts: seq<Token>, o: Options)
    ensures var r := ParseDocument(ts, o);
            var q := ParseDocument(ts, Unlimited(o));
            if q.Ok? && !Over(Nesting(ts, 0), o.maxDepth) && !Over(Members(ts), o.maxKeys) && !Over(Nodes(ts), o.maxNodes)
            then r.Ok? && r.val == q.val else r.Err?
  {
    hide Members, Nodes, Net, Nesting, Collect, ParseValue, Finish;
    var lead := HeadComments(ts);
    var st := State(lead.rest, 0, 0);
    SkipTakesNothing([], State(ts, 0, 0), 0);
    var p := ValueLimits(st, 0, o);
    var v := ParseValue(st, 0, Unlimited(o));
    if lead.rest != [] && v.Ok? {
      var root := v.val.WithHead(JoinNotes(lead.text, v.val.notes.head));
      if Finish(root, v.st).Ok? {
        FinishTakesNothing(root, v.st);
      }
    }
  }

  /** Behind the root value there is nothing that counts. */
  lemma FinishTakesNothing(root: Node, st: State)
    requires Finish(root, st).Ok?
    ensures Members(st.ts) == 0 && Nodes(st.ts) == 0 && Nesting(st.ts, 0) == 0
  {
    hide Collect;
    var line := if root.notes.line == [] then InlineComment(st.ts) else Noted(root.notes.line, st.ts);
    InlineTakesNothing(st, 0);
    SkipTakesNothing([], st.(ts := line.rest), 0);
    assert Members([]) == 0 && Nodes([]) == 0 && Nesting([], 0) == 0;
  }
}
