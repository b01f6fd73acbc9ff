/**
  Where the comments of a document go. Every comment token has a slot, told from
  the tokens around it alone: above the node that follows, at the end of the line
  of the node before, or below. The tree holds the comments of each slot, in the
  order of the source.
 */
module CommentSlots {
  import opened Ascii
  import opened Lexer
  import opened QuotedStrings
  import opened Tree
  import opened Syntax
  import opened SyntaxTurns
  import opened WellFormed
  import Duplicates
  import Limits
  import Sizes

  // The lines of a comment

  predicate IsBlankLine(l: Bytes) { forall i :: 0 <= i < |l| ==> l[i] == SPACE || l[i] == TAB || l[i] == CR }

  function LineEnd(s: Bytes): (n: nat)
    ensures n <= |s| && (n < |s| ==> s[n] == LF)
    ensures forall i :: 0 <= i < n ==> s[i] != LF
  {
    if s == [] || s[0] == LF then 0 else 1 + LineEnd(s[1..])
  }

  /** The lines of a text that are not blank. */
  function NoteLines(s: Bytes): seq<Bytes>
    decreases |s|
  {
    var n := LineEnd(s);
    OneLine(s[..n]) + if n < |s| then NoteLines(s[n + 1..]) else []
  }

  function OneLine(l: Bytes): seq<Bytes> { if IsBlankLine(l) then [] else [l] }

  lemma EndOfFirst(a: Bytes, b: Bytes)
    ensures LineEnd(a) < |a| ==> LineEnd(a + b) == LineEnd(a)
    ensures LineEnd(a) == |a| && b != [] && b[0] == LF ==> LineEnd(a + b) == |a|
  {
    var s := a + b;
    assert forall i :: 0 <= i < |a| ==> s[i] == a[i];
    assert b != [] ==> s[|a|] == b[0];
    var n := LineEnd(s);
    if LineEnd(a) < |a| {
      assert s[LineEnd(a)] == LF;
    }
  }

  lemma {:induction false} LinesUnfold(s: Bytes)
    ensures var n := LineEnd(s);
            NoteLines(s) == if n < |s| then OneLine(s[..n]) + NoteLines(s[n + 1..]) else OneLine(s)
  {
    hide OneLine, LineEnd;
    assert LineEnd(s) == |s| ==> s[..LineEnd(s)] == s;
  }

  lemma {:induction false} LinesJoin(a: Bytes, b: Bytes)
    ensures NoteLines(a + ([LF] + b)) == NoteLines(a) + NoteLines(b)
    decreases |a|
  {
    hide NoteLines, LineEnd, OneLine;
    var s, n := a + ([LF] + b), LineEnd(a);
    EndOfFirst(a, [LF] + b);
    LinesUnfold(a);
    LinesUnfold(s);
    assert s[..n] == a[..n];
    if n < |a| {
      LinesJoin(a[n + 1..], b);
      assert s[n + 1..] == a[n + 1..] + ([LF] + b);
    } else {
      assert s[n + 1..] == b && a[..n] == a;
    }
  }

  lemma BlankParts(s: Bytes, n: nat)
    requires n <= |s| && (n < |s| ==> s[n] == LF) && forall i :: 0 <= i < n ==> s[i] != LF
    ensures IsBlankText(s) <==> IsBlankLine(s[..n]) && (n < |s| ==> IsBlankText(s[n + 1..]))
  {
    if IsBlankText(s) {
      assert forall i :: 0 <= i < n ==> s[..n][i] == s[i];
      if n < |s| {
        var u := s[n + 1..];
        forall i | 0 <= i < |u|
          ensures IsBlank(u[i]) || IsLineBreak(u[i])
        {
          assert u[i] == s[n + 1 + i];
        }
      }
    }
    if IsBlankLine(s[..n]) && (n < |s| ==> IsBlankText(s[n + 1..])) {
      forall i | 0 <= i < |s|
        ensures IsBlank(s[i]) || IsLineBreak(s[i])
      {
        if i < n {
          assert s[i] == s[..n][i];
        } else if i > n {
          assert s[i] == s[n + 1..][i - n - 1];
        }
      }
    }
  }

  lemma {:induction false} BlankHasNoLines(s: Bytes)
    ensures NoteLines(s) == [] <==> IsBlankText(s)
    decreases |s|
  {
    hide NoteLines, IsBlankLine, IsBlankText, LineEnd;
    var n := LineEnd(s);
    LinesUnfold(s);
    BlankParts(s, n);
    if n < |s| {
      BlankHasNoLines(s[n + 1..]);
    } else {
      assert s[..n] == s;
    }
  }

  lemma LinesOfNonBlank(s: Bytes)
    ensures NoteLines(NonBlank(s)) == NoteLines(s) && (NonBlank(s) != [] <==> NoteLines(s) != [])
  {
    hide IsBlankText;
    BlankHasNoLines(s);
    BlankHasNoLines([]);
    assert IsBlankText([]) by { NothingIsBlank(); }
  }

  lemma NothingIsBlank()
    ensures IsBlankText([]) && NoteLines([]) == []
  {
  }

  lemma LinesOfJoin(a: Bytes, b: Bytes)
    ensures NoteLines(JoinNotes(a, b)) == NoteLines(a) + NoteLines(b)
  {
    hide NoteLines;
    NothingIsBlank();
    LinesJoin(a, b);
    assert a + [LF] + b == a + ([LF] + b);
  }

  // The slot of a comment

  datatype Slot = Head | Line | Foot | Trail | Dropped

  /** The last token that is no comment and no line break. */
  datatype Behind = AtStart | AfterOpen | AfterComma | AfterColon | AfterScalar | AfterClose

  /** Right behind that token, or behind a bracket and one comment, or further. */
  datatype Near = Right | Second | Far

  /** Where a token stands: inside of what (an object or an array), behind what,
      how near, and whether the last child has a line comment. */
  datatype Place = Place(inside: seq<bool>, behind: Behind, near: Near, taken: bool)
  {
    predicate InObject() { inside != [] && inside[|inside| - 1] }

    predicate InArray() { inside != [] && !inside[|inside| - 1] }
  }

  const BEGIN := Place([], AtStart, Right, false)

  /** The kind of the next token that is no comment and no line break. */
  function NextKind(ts: seq<Token>): Kind {
    if ts != [] && (IsComment(ts[0]) || ts[0].kind == Newline) then NextKind(ts[1..]) else Peek(ts).kind
  }

  predicate IsClose(k: Kind) { k == ObjectEnd || k == ArrayEnd }

  /** The slot of a comment at a place, in front of a token of kind next. Behind the
      bracket that closes an element it has to give way to another comment on the
      line; behind one that closes a member's value, the second is the member's. */
  function SlotAt(pl: Place, next: Kind, another: bool): Slot {
    match pl.behind
    case AtStart => if IsClose(next) then Foot else Head
    case AfterOpen => if IsClose(next) then Foot else Head
    case AfterComma =>
      if pl.near == Right then (if pl.taken then Foot else Line) else if IsClose(next) then Foot else Head
    case AfterColon => Dropped
    case AfterScalar =>
      if next == NameSeparator then Dropped else if pl.near == Right then Line else if next == EofToken then Trail else Foot
    case AfterClose =>
      if pl.near == Right then (if pl.InArray() && another then Dropped else Line)
      else if pl.near == Second && !(pl.inside == [] && pl.taken) then Line
      else if next == EofToken then Trail
      else Foot
  }

  /** The place behind a token. */
  function Step(pl: Place, t: Token): Place {
    if IsComment(t) then
      var takes :=
        (pl.near == Right && (pl.behind == AfterScalar || (pl.behind == AfterClose && !pl.InObject())))
        || (pl.near == Second && pl.behind == AfterClose);
      Place(pl.inside, pl.behind, if pl.near == Right && pl.behind == AfterClose then Second else Far,
            pl.taken || (takes && NoteLines(t.text) != []))
    else if t.kind == Newline then pl.(near := Far)
    else if IsOpen(t.kind) then Place(pl.inside + [t.kind == ObjectStart], AfterOpen, Right, false)
    else if IsClose(t.kind) then Place(if pl.inside == [] then [] else pl.inside[..|pl.inside| - 1], AfterClose, Right, false)
    else if t.kind == ValueSeparator then pl.(behind := AfterComma, near := Right)
    else if t.kind == NameSeparator then Place(pl.inside, AfterColon, Right, false)
    else Place(pl.inside, AfterScalar, Right, false)
  }

  /** A comment that is not blank comes at once. */
  predicate Another(ts: seq<Token>) { ts != [] && IsComment(ts[0]) && NoteLines(ts[0].text) != [] }

  /** The lines of the comments in slot k among ts, the first of which is at pl. */
  function InSlot(k: Slot, ts: seq<Token>, pl: Place): seq<Bytes> {
    if ts == [] then []
    else
      (if IsComment(ts[0]) && SlotAt(pl, NextKind(ts[1..]), Another(ts[1..])) == k then NoteLines(ts[0].text) else [])
      + InSlot(k, ts[1..], Step(pl, ts[0]))
  }

  // The comments of a tree

  function OwnLines(k: Slot, n: Notes): seq<Bytes> {
    match k
    case Line => NoteLines(n.line)
    case Foot => NoteLines(n.foot)
    case Trail => NoteLines(n.trail)
    case _ => []
  }

  /** The lines of the comments that the tree n has in slot k, in the order of the
      source. A member's value has no head comment of its own. */
  function Held(k: Slot, n: Node, headed: bool): seq<Bytes>
    decreases n, 1
  {
    (if k == Head && headed then NoteLines(n.notes.head) else [])
    + HeldBy(k, n.children, n.kind != KeyValueNode)
    + OwnLines(k, n.notes)
  }

  function HeldBy(k: Slot, kids: seq<Node>, headed: bool): seq<Bytes>
    decreases kids, 0
  {
    if kids == [] then [] else Held(k, kids[0], headed) + HeldBy(k, kids[1..], headed)
  }

  // A run of comments and line breaks

  /** The lines of the comments in front of the next other token. */
  function RunLines(ts: seq<Token>): seq<Bytes> {
    if !IsTrivia(Peek(ts)) then []
    else (if IsComment(ts[0]) then NoteLines(ts[0].text) else []) + RunLines(ts[1..])
  }

  lemma {:induction false} CollectLines(acc: Bytes, ts: seq<Token>)
    ensures NoteLines(Collect(acc, ts).text) == NoteLines(acc) + RunLines(ts)
    decreases |ts|
  {
    hide NoteLines, IsComment;
    if IsTrivia(Peek(ts)) {
      TriviaKinds(ts);
      if ts[0].kind == Newline {
        CollectLines(acc, ts[1..]);
      } else {
        CollectLines(Joined(acc, ts[0].text), ts[1..]);
        JoinedLines(acc, ts[0].text);
      }
    }
  }

  function Joined(acc: Bytes, text: Bytes): Bytes { (if acc == [] then [] else acc + [LF]) + text }

  lemma JoinedLines(acc: Bytes, text: Bytes)
    ensures NoteLines(Joined(acc, text)) == NoteLines(acc) + NoteLines(text)
  {
    hide NoteLines;
    if acc == [] {
      NothingIsBlank();
      assert [] + text == text;
    } else {
      LinesJoin(acc, text);
      assert acc + [LF] + text == acc + ([LF] + text);
    }
  }

  lemma TriviaKinds(ts: seq<Token>)
    ensures IsTrivia(Peek(ts)) ==> ts != [] && (IsComment(ts[0]) <==> ts[0].kind != Newline)
  {
  }

  lemma HeadLines(ts: seq<Token>)
    ensures NoteLines(HeadComments(ts).text) == RunLines(ts)
    ensures HeadComments(ts).text != [] <==> RunLines(ts) != []
    ensures HeadComments(ts).rest == Collect([], ts).rest
  {
    hide NoteLines, RunLines, IsBlankText;
    CollectLines([], ts);
    NothingIsBlank();
    LinesOfNonBlank(Collect([], ts).text);
  }

  lemma {:induction false} RunEnds(ts: seq<Token>)
    ensures NextKind(ts) == Peek(Collect([], ts).rest).kind
    ensures IsTrivia(Peek(ts)) ==> Collect([], ts).rest == Collect([], ts[1..]).rest
    decreases |ts|
  {
    if IsTrivia(Peek(ts)) {
      RunEnds(ts[1..]);
      DropOne(ts);
    }
  }

  /** Nothing but the next token follows, or comments whose slot does not depend
      on standing right behind a token. */
  predicate Settled(pl: Place, ts: seq<Token>) {
    || pl.behind in {AtStart, AfterOpen, AfterColon} || pl.near == Far || !IsComment(Peek(ts))
    || (pl.near == Second && pl.behind == AfterClose && pl.inside == [] && pl.taken)
  }

  /** A run of comments has one slot. */
  lemma {:induction false} RunInSlot(k: Slot, ts: seq<Token>, pl: Place)
    requires Settled(pl, ts)
    ensures var rest := Collect([], ts).rest;
            InSlot(k, ts, pl)
            == (if k == SlotAt(pl.(near := Far), Peek(rest).kind, false) then RunLines(ts) else [])
               + InSlot(k, rest, pl.(near := Far))
    decreases |ts|
  {
    hide NoteLines, Collect, InSlot, SlotAt, RunLines, NextKind;
    RunEnds(ts);
    if IsTrivia(Peek(ts)) {
      var next := pl.(near := Far);
      RunEnds(ts[1..]);
      RunInSlot(k, ts[1..], next);
      OneInRun(k, ts, pl);
    } else {
      NothingCollected(ts);
      DirectIsLost(k, ts, pl);
      NoRun(ts);
    }
  }

  lemma NoRun(ts: seq<Token>)
    requires !IsTrivia(Peek(ts))
    ensures RunLines(ts) == []
  {
  }

  /** The first token of a run. */
  lemma OneInRun(k: Slot, ts: seq<Token>, pl: Place)
    requires Settled(pl, ts) && IsTrivia(Peek(ts))
    ensures var here := if IsComment(ts[0]) then NoteLines(ts[0].text) else [];
            InSlot(k, ts, pl)
            == (if k == SlotAt(pl.(near := Far), NextKind(ts[1..]), false) then here else [])
               + InSlot(k, ts[1..], pl.(near := Far))
            && RunLines(ts) == here + RunLines(ts[1..])
  {
    hide NoteLines, NextKind, SlotAt, Settled, Step;
    SettledSlot(ts, pl);
  }

  lemma SettledSlot(ts: seq<Token>, pl: Place)
    requires Settled(pl, ts) && IsTrivia(Peek(ts))
    ensures Step(pl, ts[0]) == pl.(near := Far)
    ensures IsComment(ts[0]) ==> SlotAt(pl, NextKind(ts[1..]), Another(ts[1..])) == SlotAt(pl.(near := Far), NextKind(ts[1..]), false)
  {
    hide NextKind, Another;
  }

  lemma NothingCollected(ts: seq<Token>)
    requires !IsTrivia(Peek(ts))
    ensures Collect([], ts) == Noted([], ts)
  {
  }

  lemma DirectIsLost(k: Slot, ts: seq<Token>, pl: Place)
    requires !IsTrivia(Peek(ts))
    ensures InSlot(k, ts, pl) == InSlot(k, ts, pl.(near := Far))
  {
    hide NoteLines;
    if ts != [] {
      assert Step(pl, ts[0]) == Step(pl.(near := Far), ts[0]);
    }
  }

  // Values

  function FootLines(k: Slot, foot: Bytes): seq<Bytes> { if k == Foot then NoteLines(foot) else [] }

  function HeadLinesIn(k: Slot, head: Bytes): seq<Bytes> { if k == Head then NoteLines(head) else [] }

  /** The place behind a value that leaves `own` behind its last token. */
  function PlaceBehind(inside: seq<bool>, container: bool, own: seq<Token>): Place {
    if !container then Place(inside, AfterScalar, Right, false)
    else if IsComment(Peek(own)) then Step(Place(inside, AfterClose, Right, false), own[0])
    else Place(inside, AfterClose, Right, false)
  }

  /** r took the comments in front of pl1 from those in front of pl. */
  ghost predicate Keeps(r: Result<Node>, ts: seq<Token>, pl: Place, pl1: Place, headed: bool) {
    r.Ok? ==>
      forall k :: k != Dropped ==> InSlot(k, ts, pl) == Held(k, Lasting(r.val, r.st.ts, pl1), headed) + InSlot(k, r.st.ts, pl1)
  }

  /** n, whose line comment is lost where another takes its place. */
  function Lasting(n: Node, ts: seq<Token>, pl: Place): Node {
    if pl.behind == AfterClose && pl.near == Second && pl.InArray() && Another(ts) then n.WithLine([]) else n
  }

  lemma NotLost(n: Node, ts: seq<Token>, pl: Place)
    requires !pl.InArray()
    ensures Lasting(n, ts, pl) == n
  {
  }

  /** pl is the place behind the child n. */
  predicate Behindhand(pl: Place, n: Node, ts: seq<Token>) {
    && pl.behind in {AfterScalar, AfterClose} && (pl.taken <==> n.notes.line != [])
    && (pl.behind == AfterScalar || pl.InObject() ==> !pl.taken)
    && (pl.behind == AfterScalar ==> pl.near == Right)
    && (pl.behind == AfterClose ==> pl.near == Second || !IsComment(Peek(ts)))
  }

  lemma {:induction false} ValueKeeps(st: State, d: nat, o: Options, pl: Place)
    requires !o.allowDuplicateKeys && !IsTrivia(Peek(st.ts))
    ensures var r := ParseValue(st, d, o);
            Keeps(r, st.ts, pl, PlaceBehind(pl.inside, IsOpen(Peek(st.ts).kind), Own(st, d, o)), false)
    decreases |st.ts|, 1
  {
    hide Unquote, Keeps, ParseContainer, Own, PlaceBehind;
    if IsOpen(Peek(st.ts).kind) {
      ContainerKeeps(st, d, o, pl);
    } else {
      ScalarKeeps(st, d, o, pl);
    }
  }

  lemma ScalarKeeps(st: State, d: nat, o: Options, pl: Place)
    requires !IsOpen(Peek(st.ts).kind)
    ensures Keeps(ParseScalar(st, o), st.ts, pl, PlaceBehind(pl.inside, false, Own(st, d, o)), false)
  {
    hide Unquote, InSlot, NoteLines, Held;
    var r := ParseScalar(st, o);
    if r.Ok? {
      assert Step(pl, st.ts[0]) == Place(pl.inside, AfterScalar, Right, false);
      forall k | k != Dropped
        ensures InSlot(k, st.ts, pl) == Held(k, r.val, false) + InSlot(k, st.ts[1..], Step(pl, st.ts[0]))
      {
        OneToken(k, st.ts, pl);
        NoteFree(k, r.val);
      }
    }
  }

  lemma NoteFree(k: Slot, n: Node)
    requires n.notes == NO_NOTES && n.children == []
    ensures Held(k, n, false) == []
  {
    hide NoteLines;
    NothingIsBlank();
  }

  lemma {:induction false} ContainerKeeps(st: State, d: nat, o: Options, pl: Place)
    requires !o.allowDuplicateKeys && IsOpen(Peek(st.ts).kind)
    ensures Keeps(ParseContainer(st, d, o), st.ts, pl, PlaceBehind(pl.inside, true, Own(st, d, o)), false)
    decreases |st.ts|, 0
  {
    hide ParseChildren, InSlot, NoteLines, Held, InlineComment;
    var obj := Peek(st.ts).kind == ObjectStart;
    var st1 := State(st.ts[1..], st.keys, st.nodes + 1);
    var pl1 := Place(pl.inside + [obj], AfterOpen, Right, false);
    var r := ParseChildren(st1, d + 1, o, obj, START);
    ChildrenKeep(st1, d + 1, o, obj, START, pl1);
    var q := ParseContainer(st, d, o);
    if q.Ok? {
      assert pl1.inside[..|pl1.inside| - 1] == pl.inside;
      ClosedKeeps(r, obj, pl.inside);
      forall k | k != Dropped
        ensures InSlot(k, st.ts, pl)
                == Held(k, Lasting(q.val, q.st.ts, PlaceBehind(pl.inside, true, Own(st, d, o))), false)
                   + InSlot(k, q.st.ts, PlaceBehind(pl.inside, true, Own(st, d, o)))
      {
        OneToken(k, st.ts, pl);
        NothingHeld(k);
        assert Step(pl, st.ts[0]) == pl1;
        assert Total(k, START.sofar, st1.ts, pl1) == InSlot(k, st1.ts, pl1);
      }
    }
  }

  /** A token that is no comment has nothing to keep. */
  lemma OneToken(k: Slot, ts: seq<Token>, pl: Place)
    requires ts != [] && !IsComment(ts[0])
    ensures InSlot(k, ts, pl) == InSlot(k, ts[1..], Step(pl, ts[0]))
  {
    hide NoteLines, Step, SlotAt, NextKind;
    assert InSlot(k, ts, pl) == [] + InSlot(k, ts[1..], Step(pl, ts[0]));
  }

  lemma NothingHeld(k: Slot)
    ensures HeldBy(k, [], true) == [] && FootLines(k, []) == [] && NoteLines([]) == []
  {
    NothingIsBlank();
  }

  lemma ContainerHolds(k: Slot, kind: NodeKind, kids: seq<Node>, foot: Bytes, line: Bytes)
    requires kind != KeyValueNode && k != Dropped
    ensures Held(k, Container(kind, kids, foot, line), false)
            == HeldBy(k, kids, true) + FootLines(k, foot) + if k == Line then NoteLines(line) else []
  {
    hide NoteLines;
    NothingIsBlank();
  }

  /** The comment behind a closing bracket. */
  lemma ClosedKeeps(r: Result<Inside>, obj: bool, inside: seq<bool>)
    requires r.Ok?
    ensures var q := Closed(r, obj);
            var pl1 := PlaceBehind(inside, true, r.st.ts);
            forall k :: k != Dropped ==>
              HeldBy(k, r.val.children, true) + FootLines(k, r.val.foot) + InSlot(k, r.st.ts, Place(inside, AfterClose, Right, false))
              == Held(k, Lasting(q.val, q.st.ts, pl1), false) + InSlot(k, q.st.ts, pl1)
  {
    hide InSlot, NoteLines, IsBlankText, NextKind, Held, HeldBy, FootLines, Another;
    var q := Closed(r, obj);
    var ts := r.st.ts;
    var pl := Place(inside, AfterClose, Right, false);
    var pl1 := PlaceBehind(inside, true, ts);
    var text := InlineComment(ts).text;
    NothingIsBlank();
    if IsComment(Peek(ts)) {
      LinesOfNonBlank(ts[0].text);
    }
    var line := Lasting(q.val, q.st.ts, pl1).notes.line;
    assert Lasting(q.val, q.st.ts, pl1) == Container(ContainerKind(obj), r.val.children, r.val.foot, line);
    forall k | k != Dropped
      ensures HeldBy(k, r.val.children, true) + FootLines(k, r.val.foot) + InSlot(k, ts, pl)
              == Held(k, Lasting(q.val, q.st.ts, pl1), false) + InSlot(k, q.st.ts, pl1)
    {
      ContainerHolds(k, ContainerKind(obj), r.val.children, r.val.foot, line);
      if IsComment(Peek(ts)) {
        LineInSlot(k, ts, pl);
      }
    }
  }

  /** A comment right behind a value is in its line slot. */
  lemma LineInSlot(k: Slot, ts: seq<Token>, pl: Place)
    requires IsComment(Peek(ts)) && pl.near != Far && k != Dropped
    requires if pl.behind == AfterClose then !(pl.near == Second && pl.inside == [] && pl.taken)
             else pl.behind == AfterScalar && pl.near == Right && NextKind(ts) != NameSeparator
    ensures var gone := pl.behind == AfterClose && pl.near == Right && pl.InArray() && Another(ts[1..]);
            InSlot(k, ts, pl)
            == (if k == Line && !gone then NoteLines(ts[0].text) else []) + InSlot(k, ts[1..], Step(pl, ts[0]))
  {
    hide NoteLines;
  }

  lemma HeldLine(k: Slot, n: Node, text: Bytes, headed: bool)
    requires n.notes.line == []
    ensures Held(k, n.WithLine(text), headed) == Held(k, n, headed) + if k == Line then NoteLines(text) else []
  {
    hide NoteLines;
    NothingIsBlank();
  }

  lemma HeldFoot(k: Slot, n: Node, text: Bytes, headed: bool)
    ensures Held(k, n.WithFoot(JoinNotes(n.notes.foot, text)), headed) == Held(k, n, headed) + FootLines(k, text)
  {
    hide NoteLines, JoinNotes;
    LinesOfJoin(n.notes.foot, text);
  }

  lemma HeldHead(k: Slot, n: Node, head: Bytes)
    ensures Held(k, n.WithHead(head), true) == HeadLinesIn(k, head) + Held(k, n, false)
  {
    hide NoteLines;
  }

  lemma {:induction false} HeldAppend(k: Slot, kids: seq<Node>, n: Node)
    ensures HeldBy(k, kids + [n], true) == HeldBy(k, kids, true) + Held(k, n, true)
  {
    hide Held;
    if kids == [] {
      assert [n][1..] == [] && [] + [n] == [n];
    } else {
      HeldAppend(k, kids[1..], n);
      assert (kids + [n])[1..] == kids[1..] + [n] && (kids + [n])[0] == kids[0];
    }
  }

  // What follows a child

  /** The comment on the line of a child. */
  /** A comment on the line of n takes the place of the one that n has. */
  lemma LineTakes(k: Slot, n: Node, ts: seq<Token>, pl: Place)
    requires Behindhand(pl, n, ts) && IsComment(Peek(ts)) && (pl.inside == [] ==> n.notes.line == [])
    ensures var text := NonBlank(ts[0].text);
            Held(k, Lasting(n, ts, pl), true) + (if k == Line then NoteLines(ts[0].text) else []) == Held(k, SetLine(n, text), true)
  {
    hide NoteLines, Held, IsBlankText;
    var text := NonBlank(ts[0].text);
    var m := Lasting(n, ts, pl);
    LinesOfNonBlank(ts[0].text);
    if m.notes.line == [] {
      HeldLine(k, m, text, true);
      assert m.WithLine(text) == n.WithLine(text);
      if text == [] {
        assert m == n && n.WithLine([]) == n;
      }
    } else {
      assert text == [] && m == n;
      assert SetLine(n, text) == n;
    }
  }

  lemma NoneFollows(n: Node, ts: seq<Token>, pl: Place)
    requires !IsComment(Peek(ts))
    ensures Lasting(n, ts, pl) == n
  {
  }

  lemma LineKeeps(n: Node, ts: seq<Token>, pl: Place) returns (pl1: Place)
    requires Behindhand(pl, n, ts) && NextKind(ts) != NameSeparator && (pl.inside == [] ==> n.notes.line == [])
    ensures pl1.behind in {AfterScalar, AfterClose}
    ensures var line := InlineComment(ts);
            var n1 := SetLine(n, line.text);
            && pl1.inside == pl.inside && pl1.behind == pl.behind && (pl1.taken <==> n1.notes.line != [])
            && Settled(pl1, line.rest) && NextKind(line.rest) == NextKind(ts)
            && forall k :: k != Dropped ==>
                 Held(k, Lasting(n, ts, pl), true) + InSlot(k, ts, pl) == Held(k, n1, true) + InSlot(k, line.rest, pl1)
  {
    hide NoteLines, InSlot, Held, IsBlankText, Lasting;
    pl1 := pl;
    if IsComment(Peek(ts)) {
      pl1 := Step(pl, ts[0]);
      var text := NonBlank(ts[0].text);
      LinesOfNonBlank(ts[0].text);
      forall k | k != Dropped
        ensures Held(k, Lasting(n, ts, pl), true) + InSlot(k, ts, pl)
                == Held(k, SetLine(n, text), true) + InSlot(k, ts[1..], pl1)
      {
        LineInSlot(k, ts, pl);
        LineTakes(k, n, ts, pl);
      }
    } else {
      assert Lasting(n, ts, pl) == n by { NoneFollows(n, ts, pl); }
    }
  }

  /** The comments on the lines below a child, in front of a comma or a closing
      bracket. */
  lemma BetweenKeeps(ts: seq<Token>, pl: Place)
    requires Settled(pl, ts) && pl.behind in {AfterScalar, AfterClose}
    requires NextKind(ts) == ValueSeparator || IsClose(NextKind(ts))
    ensures var between := HeadComments(ts);
            Peek(between.rest).kind == NextKind(ts)
            && forall k :: InSlot(k, ts, pl) == FootLines(k, between.text) + InSlot(k, between.rest, pl.(near := Far))
  {
    hide NoteLines, InSlot, Collect, HeadComments, RunLines;
    HeadLines(ts);
    RunEnds(ts);
    forall k
      ensures InSlot(k, ts, pl)
              == FootLines(k, HeadComments(ts).text) + InSlot(k, HeadComments(ts).rest, pl.(near := Far))
    {
      RunInSlot(k, ts, pl);
    }
  }

  /** The comment behind a comma. */
  lemma AfterCommaKeeps(n: Node, ts: seq<Token>, pl: Place) returns (pl1: Place)
    requires pl.behind == AfterComma && pl.near == Right && (pl.taken <==> n.notes.line != [])
    ensures var after := InlineComment(ts);
            && Settled(pl1, after.rest) && pl1.behind == AfterComma && pl1.inside == pl.inside
            && forall k :: Held(k, n, true) + InSlot(k, ts, pl)
                           == Held(k, AttachAfterComma(n, after.text), true) + InSlot(k, after.rest, pl1)
  {
    hide NoteLines, InSlot, Held, IsBlankText, JoinNotes;
    pl1 := pl;
    if IsComment(Peek(ts)) {
      pl1 := Step(pl, ts[0]);
      LinesOfNonBlank(ts[0].text);
      var text := NonBlank(ts[0].text);
      forall k
        ensures Held(k, n, true) + InSlot(k, ts, pl) == Held(k, AttachAfterComma(n, text), true) + InSlot(k, ts[1..], pl1)
      {
        CommaInSlot(k, ts, pl);
        if n.notes.line == [] {
          HeldLine(k, n, text, true);
        } else {
          HeldFoot(k, n, text, true);
        }
      }
    }
  }

  lemma CommaInSlot(k: Slot, ts: seq<Token>, pl: Place)
    requires IsComment(Peek(ts)) && pl.near == Right && pl.behind == AfterComma
    ensures InSlot(k, ts, pl)
            == (if k == (if pl.taken then Foot else Line) then NoteLines(ts[0].text) else []) + InSlot(k, ts[1..], Step(pl, ts[0]))
  {
    hide NoteLines;
  }

  lemma FollowKeeps(n: Node, ts: seq<Token>, obj: bool, pl: Place) returns (pl1: Place)
    requires Behindhand(pl, n, ts) && pl.inside != [] && Follow(n, ts, obj).Some?
    ensures var f := Follow(n, ts, obj).value;
            && Settled(pl1, f.rest) && pl1.inside == pl.inside
            && pl1.behind in {AfterComma, AfterScalar, AfterClose} && (f.foot != [] ==> pl1.behind != AfterComma)
            && (pl1.behind != AfterComma ==> Peek(f.rest).kind == Syntax.Close(obj))
            && forall k :: k != Dropped ==>
                 Held(k, Lasting(n, ts, pl), true) + InSlot(k, ts, pl)
                 == Held(k, f.child, true) + FootLines(k, f.foot) + InSlot(k, f.rest, pl1)
  {
    hide NoteLines, InSlot, Held, InlineComment, HeadComments, JoinNotes, AttachAfterComma, Settled, Lasting, Behindhand;
    var line := InlineComment(ts);
    var between := HeadComments(line.rest);
    NextOfFollow(n, ts, obj);
    var pl0 := LineKeeps(n, ts, pl);
    BetweenKeeps(line.rest, pl0);
    var n1 := SetLine(n, line.text);
    pl1 := pl0.(near := Far);
    var f := Follow(n, ts, obj).value;
    if Peek(between.rest).kind == ValueSeparator {
      var n2 := n1.WithFoot(JoinNotes(n1.notes.foot, between.text));
      var comma := Step(pl1, between.rest[0]);
      pl1 := AfterCommaKeeps(n2, between.rest[1..], comma);
      forall k | k != Dropped
        ensures Held(k, Lasting(n, ts, pl), true) + InSlot(k, ts, pl)
                == Held(k, f.child, true) + FootLines(k, f.foot) + InSlot(k, f.rest, pl1)
      {
        HeldFoot(k, n1, between.text, true);
        OneToken(k, between.rest, pl0.(near := Far));
        NothingHeld(k);
        CommaParts(k, Held(k, n1, true), FootLines(k, between.text), InSlot(k, between.rest, pl0.(near := Far)));
      }
    } else {
      assert Settled(pl1, f.rest) by { NotDirect(pl1, f.rest); }
    }
  }

  lemma NotDirect(pl: Place, ts: seq<Token>)
    requires pl.near == Far
    ensures Settled(pl, ts)
  {
  }

  lemma CommaParts(k: Slot, a: seq<Bytes>, b: seq<Bytes>, c: seq<Bytes>)
    ensures a + (b + c) == (a + b) + c && a + [] == a
  {
  }

  /** A child is followed by a comma or a closing bracket. */
  lemma NextOfFollow(n: Node, ts: seq<Token>, obj: bool)
    requires Follow(n, ts, obj).Some?
    ensures NextKind(ts) == ValueSeparator || NextKind(ts) == Syntax.Close(obj)
  {
    hide Collect;
    var line := InlineComment(ts);
    RunEnds(ts);
    RunEnds(line.rest);
  }

  // Children

  lemma NoHeadYet(st: State, d: nat, o: Options)
    ensures var r := ParseValue(st, d, o); r.Ok? ==> r.val.notes.head == []
  {
    hide ParseChildren, InlineComment, Unquote;
  }

  /** Where a value's own line comment leaves the place behind it. */
  lemma ValuePlace(st: State, d: nat, o: Options, pl: Place)
    requires ParseValue(st, d, o).Ok?
    ensures var r := ParseValue(st, d, o);
            var pl1 := PlaceBehind(pl.inside, IsOpen(Peek(st.ts).kind), Own(st, d, o));
            pl1.inside == pl.inside
            && Behindhand(pl1, if pl.InObject() then r.val.WithLine([]) else r.val, r.st.ts)
  {
    hide ParseChildren, Unquote, NoteLines, IsBlankText;
    var own := Own(st, d, o);
    if IsOpen(Peek(st.ts).kind) && IsComment(Peek(own)) {
      LinesOfNonBlank(own[0].text);
    }
  }

  /** The colon of a member: comments around it are dropped. */
  lemma {:induction false} KeyDrops(k: Slot, ts: seq<Token>, pl: Place)
    requires k != Dropped && pl.behind == AfterScalar && NextKind(ts) == NameSeparator
    ensures var colon := Collect([], ts).rest;
            colon != [] && InSlot(k, ts, pl) == InSlot(k, colon[1..], Place(pl.inside, AfterColon, Right, false))
    decreases |ts|
  {
    hide NoteLines, Collect, NextKind;
    RunEnds(ts);
    if IsTrivia(Peek(ts)) {
      RunEnds(ts[1..]);
      KeyDrops(k, ts[1..], Step(pl, ts[0]));
    } else {
      NothingCollected(ts);
      OneToken(k, ts, pl);
    }
  }

  lemma MemberHolds(k: Slot, key: Bytes, raw: Bytes, v: Node, head: Bytes)
    ensures k != Dropped ==> Held(k, KeyValue(key, raw, v, head), true) == HeadLinesIn(k, head) + Held(k, v, false)
  {
    hide NoteLines;
    NothingIsBlank();
    assert HeldBy(k, [v], false) == Held(k, v, false) + HeldBy(k, [v][1..], false);
    assert HeldBy(k, [v][1..], false) == [];
  }

  /** A key, its colon, and what is dropped around it. */
  lemma KeyInSlot(k: Slot, ts: seq<Token>, pl: Place)
    requires k != Dropped && Peek(ts).kind == StringToken && Peek(Collect([], ts[1..]).rest).kind == NameSeparator
    ensures var colon := Collect([], ts[1..]).rest;
            InSlot(k, ts, pl) == InSlot(k, Collect([], colon[1..]).rest, Place(pl.inside, AfterColon, Far, false))
  {
    hide NoteLines, InSlot, Collect, NextKind, RunLines;
    var colon := Collect([], ts[1..]).rest;
    RunEnds(ts[1..]);
    OneToken(k, ts, pl);
    KeyDrops(k, ts[1..], Place(pl.inside, AfterScalar, Right, false));
    RunInSlot(k, colon[1..], Place(pl.inside, AfterColon, Right, false));
  }

  lemma {:induction false} MemberKeeps(st: State, d: nat, o: Options, head: Bytes, pl: Place) returns (pl1: Place)
    requires !o.allowDuplicateKeys && pl.InObject()
    requires ParseChild(st, d, o, true, head).Ok?
    ensures var c := ParseChild(st, d, o, true, head);
            && Behindhand(pl1, c.val, c.st.ts) && pl1.inside == pl.inside
            && forall k :: k != Dropped ==>
                 HeadLinesIn(k, head) + InSlot(k, st.ts, pl)
                 == Held(k, Lasting(c.val, c.st.ts, pl1), true) + InSlot(k, c.st.ts, pl1)
    decreases |st.ts|, 2
  {
    hide ParseValue, Unquote, Collect, InSlot, Held, NoteLines, NextKind, PlaceBehind, Own, Lasting;
    var key := st.ts[0];
    NeedsKey(st, d, o, head);
    MemberIs(st, d, o, head);
    var afterKey := st.ts[1..];
    var colon := Collect([], afterKey).rest;
    var value := st.(ts := Collect([], colon[1..]).rest);
    RunEnds(afterKey);
    var atColon := Place(pl.inside, AfterColon, Right, false);
    var atValue := atColon.(near := Far);
    RunIsOver(colon[1..]);
    ValueKeeps(value, d, o, atValue);
    var v := ParseValue(value, d, o);
    ValuePlace(value, d, o, atValue);
    pl1 := PlaceBehind(pl.inside, IsOpen(Peek(value.ts).kind), Own(value, d, o));
    NotLost(v.val, v.st.ts, pl1);
    NotLost(ParseChild(st, d, o, true, head).val, v.st.ts, pl1);
    forall k | k != Dropped
      ensures HeadLinesIn(k, head) + InSlot(k, st.ts, pl)
              == Held(k, ParseChild(st, d, o, true, head).val, true) + InSlot(k, v.st.ts, pl1)
    {
      KeyInSlot(k, st.ts, pl);
      MemberHolds(k, Unquote(key.text).value, key.text, v.val, head);
      CommaParts(k, HeadLinesIn(k, head), Held(k, v.val, false), InSlot(k, v.st.ts, pl1));
    }
  }

  lemma NeedsKey(st: State, d: nat, o: Options, head: Bytes)
    requires ParseChild(st, d, o, true, head).Ok?
    ensures Peek(st.ts).kind == StringToken && st.ts != [] && Unquote(st.ts[0].text).Some?
  {
    hide ParseValue, Unquote, Collect;
  }

  lemma {:induction false} RunIsOver(ts: seq<Token>)
    ensures !IsTrivia(Peek(Collect([], ts).rest))
  {
  }

  lemma {:induction false} ChildKeeps(st: State, d: nat, o: Options, obj: bool, head: Bytes, pl: Place) returns (pl1: Place)
    requires !o.allowDuplicateKeys && !IsTrivia(Peek(st.ts)) && pl.InObject() == obj
    requires ParseChild(st, d, o, obj, head).Ok?
    ensures var c := ParseChild(st, d, o, obj, head);
            && Behindhand(pl1, c.val, c.st.ts) && pl1.inside == pl.inside
            && forall k :: k != Dropped ==>
                 HeadLinesIn(k, head) + InSlot(k, st.ts, pl)
                 == Held(k, Lasting(c.val, c.st.ts, pl1), true) + InSlot(k, c.st.ts, pl1)
    decreases |st.ts|, 3
  {
    hide ParseValue, ParseChild, Unquote, Collect, InSlot, Held, NoteLines, NextKind, PlaceBehind, Own, JoinNotes;
    if obj {
      pl1 := MemberKeeps(st, d, o, head, pl);
    } else {
      ElementIs(st, d, o, head);
      ValueKeeps(st, d, o, pl);
      NoHeadYet(st, d, o);
      NothingBefore(head);
      var v := ParseValue(st, d, o);
      ValuePlace(st, d, o, pl);
      pl1 := PlaceBehind(pl.inside, IsOpen(Peek(st.ts).kind), Own(st, d, o));
      forall k | k != Dropped
        ensures HeadLinesIn(k, head) + InSlot(k, st.ts, pl)
                == Held(k, Lasting(v.val.WithHead(head), v.st.ts, pl1), true) + InSlot(k, v.st.ts, pl1)
      {
        var n := Lasting(v.val, v.st.ts, pl1);
        HeldHead(k, n, head);
        assert Lasting(v.val.WithHead(head), v.st.ts, pl1) == n.WithHead(head);
        CommaParts(k, HeadLinesIn(k, head), Held(k, n, false), InSlot(k, v.st.ts, pl1));
      }
    }
  }

  /** What a container holds so far, and what is still to come. */
  function Total(k: Slot, inside: Inside, ts: seq<Token>, pl: Place): seq<Bytes> {
    HeldBy(k, inside.children, true) + FootLines(k, inside.foot) + InSlot(k, ts, pl)
  }

  lemma {:induction false} ChildrenKeep(st: State, d: nat, o: Options, obj: bool, turn: Turn, pl: Place)
    requires !o.allowDuplicateKeys && pl.inside != [] && pl.InObject() == obj
    requires Settled(pl, st.ts) && pl.behind in {AfterOpen, AfterComma, AfterScalar, AfterClose}
    requires pl.behind in {AfterScalar, AfterClose} ==> Peek(st.ts).kind == Syntax.Close(obj)
    requires turn.sofar.foot != [] ==> pl.behind in {AfterScalar, AfterClose}
    ensures var r := ParseChildren(st, d, o, obj, turn);
            r.Ok? ==>
              (var out := Place(pl.inside[..|pl.inside| - 1], AfterClose, Right, false);
               forall k :: k != Dropped ==> Total(k, turn.sofar, st.ts, pl) == Total(k, r.val, r.st.ts, out))
    decreases |st.ts|, 5
  {
    hide ParseChildren, ParseChild, Attach, InSlot, Held, HeldBy, NoteLines, HeadComments, Settled, Total, Step, JoinNotes;
    var r := ParseChildren(st, d, o, obj, turn);
    var head := HeadComments(st.ts);
    HeadLines(st.ts);
    if Peek(head.rest).kind == Syntax.Close(obj) {
      ClosingTurn(st, d, o, obj, turn);
      if r.Ok? {
        CloseKeeps(st.ts, obj, turn.sofar, pl);
      }
    } else {
      ChildTurn(st, d, o, obj, turn);
      if r.Ok? {
        MoreKeep(st, d, o, obj, turn, pl);
      }
    }
  }

  /** A child, and the rest of the loop. */
  lemma {:induction false} MoreKeep(st: State, d: nat, o: Options, obj: bool, turn: Turn, pl: Place)
    requires !o.allowDuplicateKeys && pl.inside != [] && pl.InObject() == obj
    requires Settled(pl, st.ts) && pl.behind in {AfterOpen, AfterComma, AfterScalar, AfterClose}
    requires pl.behind in {AfterScalar, AfterClose} ==> Peek(st.ts).kind == Syntax.Close(obj)
    requires turn.sofar.foot != [] ==> pl.behind in {AfterScalar, AfterClose}
    requires Peek(HeadComments(st.ts).rest).kind != Syntax.Close(obj)
    requires var head := HeadComments(st.ts);
             AfterChild(ParseChild(st.(ts := head.rest), d, o, obj, head.text), d, o, obj, turn).Ok?
    ensures var head := HeadComments(st.ts);
            var r := AfterChild(ParseChild(st.(ts := head.rest), d, o, obj, head.text), d, o, obj, turn);
            var out := Place(pl.inside[..|pl.inside| - 1], AfterClose, Right, false);
            forall k :: k != Dropped ==> Total(k, turn.sofar, st.ts, pl) == Total(k, r.val, r.st.ts, out)
    decreases |st.ts|, 4
  {
    hide ParseChildren, ParseChild, Attach, InSlot, Held, HeldBy, NoteLines, HeadComments, Settled, Total, Step, JoinNotes;
    hide Behindhand, Lasting, Put, HasKey, HeadLinesIn, FootLines, Follow;
    var head := HeadComments(st.ts);
    HeadLines(st.ts);
    BeforeChild(st.ts, obj, turn.sofar, pl);
    var at := pl.(near := Far);
    var s1 := st.(ts := head.rest);
    RunIsOver(st.ts);
    ChildStarts(s1, d, o, obj, head.text);
    var c := ParseChild(s1, d, o, obj, head.text);
    var pl1 := ChildKeeps(s1, d, o, obj, head.text, at);
    AttachFollows(c.val, c.st, o, obj, turn.sofar);
    var f := Follow(c.val, c.st.ts, obj).value;
    var pl2 := FollowKeeps(c.val, c.st.ts, obj, pl1);
    FollowKeepsKey(c.val, c.st.ts, obj);
    var a := Attach(c.val, c.st, o, obj, turn.sofar);
    NothingBefore(f.foot);
    PutIsAppend(turn.sofar.children, f.child, obj);
    ChildrenKeep(a.st, d, o, obj, a.val, pl2);
    forall k | k != Dropped
      ensures Total(k, turn.sofar, st.ts, pl) == Total(k, a.val.sofar, a.st.ts, pl2)
    {
      ChildMoves(k, st.ts, head, turn.sofar, pl, c.val, c.st.ts, pl1, f, pl2);
    }
  }

  lemma ChildStarts(st: State, d: nat, o: Options, obj: bool, head: Bytes)
    requires ParseChild(st, d, o, obj, head).Ok?
    ensures !IsClose(Peek(st.ts).kind)
  {
    hide ParseContainer, Unquote, Collect;
  }

  /** The closing bracket, and the comments in front of it. */
  lemma CloseKeeps(ts: seq<Token>, obj: bool, sofar: Inside, pl: Place)
    requires pl.inside != [] && Settled(pl, ts)
    requires pl.behind in {AfterOpen, AfterComma, AfterScalar, AfterClose}
    requires pl.behind in {AfterScalar, AfterClose} ==> Peek(ts).kind == Syntax.Close(obj)
    requires Peek(HeadComments(ts).rest).kind == Syntax.Close(obj)
    ensures var head := HeadComments(ts);
            var out := Place(pl.inside[..|pl.inside| - 1], AfterClose, Right, false);
            && head.rest != []
            && forall k :: k != Dropped ==>
                 Total(k, sofar, ts, pl) == Total(k, Inside(sofar.children, JoinNotes(sofar.foot, head.text)), head.rest[1..], out)
  {
    hide InSlot, HeldBy, NoteLines, HeadComments, JoinNotes, RunLines, FootLines;
    var head := HeadComments(ts);
    HeadLines(ts);
    RunEnds(ts);
    forall k | k != Dropped
      ensures Total(k, sofar, ts, pl)
              == Total(k, Inside(sofar.children, JoinNotes(sofar.foot, head.text)), head.rest[1..],
                       Place(pl.inside[..|pl.inside| - 1], AfterClose, Right, false))
    {
      FootRun(k, ts, obj, pl);
      OneToken(k, head.rest, pl.(near := Far));
      FootJoins(k, sofar.foot, head.text);
    }
  }

  lemma FootJoins(k: Slot, a: Bytes, b: Bytes)
    ensures FootLines(k, JoinNotes(a, b)) == FootLines(k, a) + FootLines(k, b)
  {
    hide NoteLines, JoinNotes;
    LinesOfJoin(a, b);
  }

  /** The comments in front of a closing bracket. */
  lemma FootRun(k: Slot, ts: seq<Token>, obj: bool, pl: Place)
    requires Settled(pl, ts) && pl.behind in {AfterOpen, AfterComma, AfterScalar, AfterClose} && k != Dropped
    requires pl.behind in {AfterScalar, AfterClose} ==> Peek(ts).kind == Syntax.Close(obj)
    requires Peek(HeadComments(ts).rest).kind == Syntax.Close(obj)
    ensures var head := HeadComments(ts);
            InSlot(k, ts, pl) == FootLines(k, head.text) + InSlot(k, head.rest, pl.(near := Far))
  {
    hide InSlot, NoteLines, HeadComments, RunLines;
    HeadLines(ts);
    RunEnds(ts);
    RunInSlot(k, ts, pl);
    if pl.behind in {AfterScalar, AfterClose} {
      NoRun(ts);
    }
  }

  /** The comments above a child. */
  lemma BeforeChild(ts: seq<Token>, obj: bool, sofar: Inside, pl: Place)
    requires Settled(pl, ts) && pl.behind in {AfterOpen, AfterComma, AfterScalar, AfterClose}
    requires pl.behind in {AfterScalar, AfterClose} ==> Peek(ts).kind == Syntax.Close(obj)
    requires sofar.foot != [] ==> pl.behind in {AfterScalar, AfterClose}
    requires Peek(HeadComments(ts).rest).kind != Syntax.Close(obj)
    ensures sofar.foot == [] && pl.behind in {AfterOpen, AfterComma}
    ensures var head := HeadComments(ts);
            !IsClose(Peek(head.rest).kind) ==>
              forall k :: InSlot(k, ts, pl) == HeadLinesIn(k, head.text) + InSlot(k, head.rest, pl.(near := Far))
  {
    hide InSlot, NoteLines, RunLines, HeadComments;
    var head := HeadComments(ts);
    HeadLines(ts);
    RunEnds(ts);
    if pl.behind in {AfterScalar, AfterClose} {
      NothingCollected(ts);
    }
    forall k | !IsClose(Peek(head.rest).kind)
      ensures InSlot(k, ts, pl) == HeadLinesIn(k, head.text) + InSlot(k, head.rest, pl.(near := Far))
    {
      RunInSlot(k, ts, pl);
    }
  }

  /** One child, put together. */
  lemma ChildMoves(
    k: Slot, ts: seq<Token>, head: Noted, sofar: Inside, pl: Place, n: Node, us: seq<Token>, pl1: Place, f: Followed, pl2: Place)
    requires sofar.foot == []
    requires InSlot(k, ts, pl) == HeadLinesIn(k, head.text) + InSlot(k, head.rest, pl.(near := Far))
    requires HeadLinesIn(k, head.text) + InSlot(k, head.rest, pl.(near := Far)) == Held(k, Lasting(n, us, pl1), true) + InSlot(k, us, pl1)
    requires Held(k, Lasting(n, us, pl1), true) + InSlot(k, us, pl1) == Held(k, f.child, true) + FootLines(k, f.foot) + InSlot(k, f.rest, pl2)
    ensures Total(k, sofar, ts, pl) == Total(k, Inside(sofar.children + [f.child], f.foot), f.rest, pl2)
  {
    hide InSlot, HeldBy, Held, NoteLines;
    HeldAppend(k, sofar.children, f.child);
    NothingHeld(k);
    var a, b, c, d := HeldBy(k, sofar.children, true), Held(k, f.child, true), FootLines(k, f.foot), InSlot(k, f.rest, pl2);
    assert a + [] + (b + c + d) == a + b + c + d;
  }

  lemma PutIsAppend(kids: seq<Node>, n: Node, obj: bool)
    requires obj ==> !HasKey(kids, n.key)
    ensures Put(kids, n, obj) == kids + [n]
  {
    if obj {
      WithoutAbsent(kids, n.key);
    }
  }

  // Documents

  /** The comments behind the root value. */
  lemma FinishKeeps(root: Node, st: State, pl: Place)
    requires Behindhand(pl, root, st.ts) && pl.inside == [] && Finish(root, st).Ok? && root.notes.trail == []
    ensures forall k :: k != Dropped ==> Held(k, root, true) + InSlot(k, st.ts, pl) == Held(k, Finish(root, st).val, true)
  {
    hide NoteLines, InSlot, Held, InlineComment, Collect, IsBlankText, RunLines, Settled, Lasting, Step, SlotAt;
    var line := if root.notes.line == [] then InlineComment(st.ts) else Noted(root.notes.line, st.ts);
    var trail := Collect([], line.rest);
    var n1 := root.WithLine(line.text);
    var pl1 := pl;
    NotLost(root, st.ts, pl);
    NextOfFinish(root, st);
    if root.notes.line == [] {
      pl1 := LineKeeps(root, st.ts, pl);
      assert n1 == SetLine(root, line.text);
    } else {
      assert n1 == root;
      ClosedIsSettled(pl, root, st.ts);
    }
    CollectLines([], line.rest);
    NothingIsBlank();
    LinesOfNonBlank(trail.text);
    forall k | k != Dropped
      ensures Held(k, root, true) + InSlot(k, st.ts, pl) == Held(k, n1.WithTrail(NonBlank(trail.text)), true)
    {
      TrailInSlot(k, line.rest, pl1);
      HeldTrail(k, n1, NonBlank(trail.text));
    }
  }

  /** What is behind the root. */
  lemma TrailInSlot(k: Slot, ts: seq<Token>, pl: Place)
    requires Settled(pl, ts) && pl.behind in {AfterScalar, AfterClose} && Collect([], ts).rest == []
    ensures InSlot(k, ts, pl) == if k == Trail then RunLines(ts) else []
  {
    hide NoteLines, InSlot, Collect, RunLines, Settled;
    RunInSlot(k, ts, pl);
    NothingLeft(k, pl.(near := Far));
  }

  lemma NothingLeft(k: Slot, pl: Place)
    ensures InSlot(k, [], pl) == []
  {
  }

  lemma ClosedIsSettled(pl: Place, n: Node, ts: seq<Token>)
    requires Behindhand(pl, n, ts) && n.notes.line != [] && pl.inside == []
    ensures Settled(pl, ts)
  {
  }

  lemma HeldTrail(k: Slot, n: Node, text: Bytes)
    requires n.notes.trail == []
    ensures Held(k, n.WithTrail(text), true) == Held(k, n, true) + if k == Trail then NoteLines(text) else []
  {
    hide NoteLines;
    NothingIsBlank();
  }

  /** Nothing but comments and line breaks follows the root. */
  lemma NextOfFinish(root: Node, st: State)
    requires Finish(root, st).Ok?
    ensures var line := if root.notes.line == [] then InlineComment(st.ts) else Noted(root.notes.line, st.ts);
            NextKind(st.ts) == NextKind(line.rest) == EofToken && Collect([], line.rest).rest == []
  {
    hide Collect;
    var line := if root.notes.line == [] then InlineComment(st.ts) else Noted(root.notes.line, st.ts);
    RunEnds(st.ts);
    RunEnds(line.rest);
  }

  lemma {:induction false} DocumentKeeps(ts: seq<Token>, o: Options)
    requires !o.allowDuplicateKeys && ParseDocument(ts, o).Ok?
    ensures forall k :: k != Dropped ==> InSlot(k, ts, BEGIN) == Held(k, ParseDocument(ts, o).val, true)
  {
    hide NoteLines, InSlot, Held, HeadComments, ParseValue, Finish, PlaceBehind, Own, JoinNotes, Behindhand;
    var lead := HeadComments(ts);
    var st := State(lead.rest, 0, 0);
    HeadLines(ts);
    RunEnds(ts);
    RunIsOver(ts);
    var at := BEGIN.(near := Far);
    var v := ParseValue(st, 0, o);
    ValueStarts(st, o);
    ValueKeeps(st, 0, o, at);
    ValuePlace(st, 0, o, at);
    NoHeadYet(st, 0, o);
    NoTrailYet(st, 0, o);
    NothingJoined(lead.text);
    var own := Own(st, 0, o);
    var pl := PlaceBehind([], IsOpen(Peek(st.ts).kind), own);
    var root := v.val.WithHead(lead.text);
    SameBehind(pl, v.val, root, v.st.ts);
    FinishKeeps(root, v.st, pl);
    forall k | k != Dropped
      ensures InSlot(k, ts, BEGIN) == Held(k, ParseDocument(ts, o).val, true)
    {
      RunInSlot(k, ts, BEGIN);
      HeldHead(k, v.val, lead.text);
      CommaParts(k, HeadLinesIn(k, lead.text), Held(k, v.val, false), InSlot(k, v.st.ts, pl));
    }
  }

  lemma SameBehind(pl: Place, n: Node, m: Node, ts: seq<Token>)
    requires Behindhand(pl, n, ts) && n.notes.line == m.notes.line
    ensures Behindhand(pl, m, ts)
  {
  }

  lemma ValueStarts(st: State, o: Options)
    requires ParseValue(st, 0, o).Ok?
    ensures !IsClose(Peek(st.ts).kind)
  {
    hide ParseContainer, Unquote;
  }

  /** The tree of a document holds exactly the comments of each slot, in the order
      of the source, if no member was replaced by a later one: those that are lost
      are those in the slot Dropped. */
  lemma CommentsAreKept(ts: seq<Token>, o: Options, k: Slot)
    requires ParseDocument(ts, o).Ok? && k != Dropped
    requires Sizes.MembersIn(ParseDocument(ts, o).val) == Limits.Members(ts)
    ensures InSlot(k, ts, BEGIN) == Held(k, ParseDocument(ts, o).val, true)
  {
    hide ParseDocument, InSlot, Held, Sizes.MembersIn, Limits.Members;
    Duplicates.DuplicatesAreExact(ts, o);
    DocumentKeeps(ts, Duplicates.Refusing(o));
  }

  // Comments that are lost

  const A: Bytes := [0x61]
  const B: Bytes := [0x62]

  function Plain(k: Kind): Token { Token(k, []) }

  /** `[[]` and two comments and `]` */
  function TwoComments(): seq<Token> {
    [Plain(ArrayStart), Plain(ArrayStart), Plain(ArrayEnd), Token(BlockComment, A), Token(BlockComment, B), Plain(ArrayEnd)]
  }

  /** Of two comments on the line behind an element that is a container, the first
      is lost. */
  lemma SomeAreDropped()
    ensures NoteLines(A) == [A] && NoteLines(B) == [B]
    ensures InSlot(Dropped, TwoComments(), BEGIN) == [A] && InSlot(Line, TwoComments(), BEGIN) == [B]
  {
    hide NoteLines, InSlot, Step;
    OneLetter(A);
    OneLetter(B);
    BracketSteps();
    var ts := TwoComments();
    var p1 := Place([false], AfterOpen, Right, false);
    var p2 := Place([false, false], AfterOpen, Right, false);
    forall k
      ensures InSlot(k, ts, BEGIN) == InSlot(k, ts[3..], Place([false], AfterClose, Right, false))
    {
      assert ts[1..][1..] == ts[2..] && ts[2..][1..] == ts[3..];
      OneToken(k, ts, BEGIN);
      OneToken(k, ts[1..], p1);
      OneToken(k, ts[2..], p2);
    }
    TwoInSlots(Dropped, ts[3..]);
    TwoInSlots(Line, ts[3..]);
  }

  lemma BracketSteps()
    ensures Step(BEGIN, Plain(ArrayStart)) == Place([false], AfterOpen, Right, false)
    ensures Step(Place([false], AfterOpen, Right, false), Plain(ArrayStart)) == Place([false, false], AfterOpen, Right, false)
    ensures Step(Place([false, false], AfterOpen, Right, false), Plain(ArrayEnd)) == Place([false], AfterClose, Right, false)
  {
    assert [] + [false] == [false] && [false] + [false] == [false, false] && [false, false][..1] == [false];
  }

  lemma TwoInSlots(k: Slot, ts: seq<Token>)
    requires |ts| == 3 && ts[0] == Token(BlockComment, A) && ts[1] == Token(BlockComment, B) && ts[2] == Plain(ArrayEnd)
    requires NoteLines(A) == [A] && NoteLines(B) == [B]
    ensures InSlot(k, ts, Place([false], AfterClose, Right, false)) == if k == Dropped then [A] else if k == Line then [B] else []
  {
    hide NoteLines, InSlot;
    var p4 := Place([false], AfterClose, Second, true);
    var p5 := Place([false], AfterClose, Far, true);
    assert ts[1..][0] == ts[1] && ts[1..][1..] == [ts[2]] && [ts[2]][1..] == [];
    OneComment(k, ts, Place([false], AfterClose, Right, false));
    OneComment(k, ts[1..], p4);
    OneToken(k, [ts[2]], p5);
    NothingLeft(k, Step(p5, ts[2]));
  }

  lemma OneComment(k: Slot, ts: seq<Token>, pl: Place)
    requires ts != [] && IsComment(ts[0])
    ensures InSlot(k, ts, pl)
            == (if SlotAt(pl, NextKind(ts[1..]), Another(ts[1..])) == k then NoteLines(ts[0].text) else [])
               + InSlot(k, ts[1..], Step(pl, ts[0]))
  {
    hide NoteLines;
  }

  lemma OneLetter(s: Bytes)
    requires |s| == 1 && s[0] > SPACE
    ensures NoteLines(s) == [s]
  {
    assert s[1..] == [] && LineEnd(s[1..]) == 0;
    assert s[..1] == s;
  }
}
