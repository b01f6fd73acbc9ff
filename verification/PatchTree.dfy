/**
  JSON Patch as it runs: the operations change a tree of nodes in place, after
  a deep copy. Each is proved against the operations on values.
 */
module PatchTree {
  import opened Ascii
  import opened Tree
  import opened Numbers
  import opened Pointers
  import opened JsonPatch
  import opened Equality
  import opened PatchValues
  import opened PatchMoves
  import opened DocTree

  /** A document that may be missing, and its shape. */
  ghost predicate Holds(n: DocNode?, t: Option<Twig>)
    reads DocNodes(t)
  {
    (n == null <==> t == None) && (t.Some? ==> t.value.node == n && Intact(t.value))
  }

  ghost function DocNodes(t: Option<Twig>): set<DocNode> { if t == None then {} else Nodes(t.value) }

  ghost function DocValue(t: Option<Twig>): Option<Node>
    reads DocNodes(t)
  {
    if t == None then None else Some(Shape(t.value))
  }

  lemma KnownDoc(t: Option<Twig>)
    ensures forall n :: n in DocNodes(t) ==> allocated(n)
  {
    if t.Some? {
      Known(t.value);
    }
  }

  method CloneDoc(n: DocNode?, ghost t: Option<Twig>) returns (m: DocNode?, ghost s: Option<Twig>)
    requires Holds(n, t)
    ensures Holds(m, s) && fresh(DocNodes(s)) && DocValue(s) == DocValue(t)
  {
    if n == null {
      m, s := null, None;
    } else {
      ghost var twig;
      m, twig := Clone(n, t.value);
      s := Some(twig);
    }
  }

  /** A kid in the heap and in the value. */
  lemma KidAt(t: Twig, i: nat)
    requires Intact(t) && i < |t.kids|
    ensures |Shape(t).children| == |t.node.children| == |t.kids|
    ensures t.node.children[i] == t.kids[i].node && Intact(t.kids[i]) && Shape(t).children[i] == Shape(t.kids[i])
    ensures Shape(t.kids[i]).kind == t.node.children[i].kind && Shape(t.kids[i]).key == t.node.children[i].key
    ensures |Shape(t.kids[i]).children| == |t.node.children[i].children| == |t.kids[i].kids|
  {
    hide Nodes, NodesOf;
    KidsIntact(t);
    KidsIntact(t.kids[i]);
  }

  lemma RootOf(t: Twig)
    requires Intact(t)
    ensures Shape(t).kind == t.node.kind && Shape(t).key == t.node.key && Shape(t).value == t.node.value
    ensures |Shape(t).children| == |t.node.children| == |t.kids|
  {
    hide Nodes, NodesOf;
    KidsIntact(t);
  }

  // Finding nodes

  /** The index of the member named key, or the number of children. */
  method MemberIndexOf(n: DocNode, key: Bytes, ghost t: Twig) returns (i: nat)
    requires Intact(t) && t.node == n && Proper(Shape(t)) && n.kind == ObjectNode
    ensures match Find(Shape(t).children, key)
            case None => i == |n.children|
            case Some(j) => i == j < |n.children|
  {
    hide Intact, Shape, Nodes, NodesOf, Proper;
    RootOf(t);
    ItemsAreProper(Shape(t));
    Known(t);
    ghost var v := Shape(t);
    i := 0;
    while i < |n.children|
      invariant Intact(t) && Shape(t) == v && |v.children| == |n.children| && i <= |n.children|
      invariant i <= |n.children| && forall j :: 0 <= j < i ==> Shape(t).children[j].key != key
    {
      KidAt(t, i);
      assert IsMember(Shape(t).children[i]);
      if n.children[i].kind == KeyValueNode && n.children[i].key == key {
        FindFirst(Shape(t).children, key, i);
        return;
      }
      i := i + 1;
    }
  }

  lemma FindFirst(items: seq<Node>, key: Bytes, i: nat)
    requires i < |items| && items[i].key == key && forall j :: 0 <= j < i ==> items[j].key != key
    ensures Find(items, key) == Some(i)
  {
  }

  /** descend: the node that one token leads to, or null. */
  method Descend(n: DocNode, tok: Bytes, ghost t: Twig) returns (r: DocNode?)
    requires Intact(t) && t.node == n && Proper(Shape(t))
    ensures match ChildValue(Shape(t), tok)
            case None => r == null
            case Some(_) =>
              var path := StepTo(Shape(t), tok);
              Reaches(t, path) && r == Sub(t, path).node
  {
    hide Intact, Shape, Nodes, NodesOf, Proper, ArrayIndex;
    RootOf(t);
    Known(t);
    if n.kind == ObjectNode {
      var i := MemberIndexOf(n, tok, t);
      if i == |n.children| {
        return null;
      }
      ItemsAreProper(Shape(t));
      KidAt(t, i);
      assert IsMember(Shape(t).children[i]);
      KidAt(t.kids[i], 0);
      TwoSteps(t, i);
      return n.children[i].children[0];
    } else if n.kind == ArrayNode {
      var i := ParseArrayIndex(tok);
      if i == None || i.value >= |n.children| {
        return null;
      }
      KidAt(t, i.value);
      OneTwigStep(t, i.value);
      return n.children[i.value];
    } else {
      return null;
    }
  }

  lemma OneTwigStep(t: Twig, i: nat)
    requires i < |t.kids|
    ensures Reaches(t, [i]) && Sub(t, [i]) == t.kids[i]
  {
    var path := [i];
    assert path[1..] == [];
  }

  lemma TwoSteps(t: Twig, i: nat)
    requires i < |t.kids| && |t.kids[i].kids| > 0
    ensures Reaches(t, [i, 0]) && Sub(t, [i, 0]) == t.kids[i].kids[0]
  {
    OneTwigStep(t.kids[i], 0);
    var path := [i, 0];
    assert path[1..] == [0];
  }

  lemma OneMoreToken(v: Node, ts: Tokens)
    requires ts != []
    ensures GetValue(v, ts)
            == match ChildValue(v, ts[0]) case None => None case Some(c) => GetValue(c, ts[1..])
    ensures ChildValue(v, ts[0]).Some? ==>
              PathTo(v, ts) == StepTo(v, ts[0]) + PathTo(ChildValue(v, ts[0]).value, ts[1..])
  {
    hide ChildValue, StepTo;
  }

  /** One token further down the tree. */
  lemma OneStepDown(t: Twig, path: seq<nat>, tok: Bytes)
    requires Intact(t) && Leads(Shape(t), path) && Reaches(t, path)
    requires var v := Part(Shape(t), path);
             Proper(v) && ChildValue(v, tok).Some? && Reaches(Sub(t, path), StepTo(v, tok))
    ensures var v := Part(Shape(t), path);
            var down := path + StepTo(v, tok);
            Leads(Shape(t), down) && Reaches(t, down) && Sub(t, down) == Sub(Sub(t, path), StepTo(v, tok))
            && Intact(Sub(t, down)) && Shape(Sub(t, down)) == Part(Shape(t), down) == ChildValue(v, tok).value
            && Proper(Part(Shape(t), down))
  {
    hide Intact, Shape, Nodes, NodesOf, Proper, Meaning, ChildValue, StepTo, Leads, Part, PutPart, Reaches, Sub;
    var v := Part(Shape(t), path);
    ChildMeaning(v, tok);
    StepLeads(v, tok);
    PartOfPart(Shape(t), path, StepTo(v, tok));
    SubOfSub(t, path, StepTo(v, tok));
    SubIntact(t, path + StepTo(v, tok));
  }

  lemma NoMoreTokens(v: Node)
    ensures GetValue(v, []) == Some(v) && PathTo(v, []) == []
  {
  }

  /** resolveTarget, in a document that is there. */
  method ResolveIn(root: DocNode, tokens: Tokens, ghost t: Twig) returns (r: DocNode?)
    requires Intact(t) && t.node == root && Proper(Shape(t))
    ensures match GetValue(Shape(t), tokens)
            case None => r == null
            case Some(_) =>
              var path := PathTo(Shape(t), tokens);
              Reaches(t, path) && r == Sub(t, path).node
  {
    hide Intact, Shape, Nodes, NodesOf, Proper, ChildValue, StepTo, PathTo, GetValue, Leads, Part, Reaches, Sub;
    var cur := root;
    ghost var v := Shape(t);
    ghost var path: seq<nat> := [];
    StartOf(t);
    assert tokens[0..] == tokens;
    Known(t);
    for i := 0 to |tokens|
      invariant Intact(t) && Shape(t) == v
      invariant Leads(v, path) && Reaches(t, path) && cur == Sub(t, path).node && Intact(Sub(t, path))
      invariant Shape(Sub(t, path)) == Part(v, path) && Proper(Part(v, path))
      invariant GetValue(v, tokens) == GetValue(Part(v, path), tokens[i..])
      invariant PathTo(v, tokens) == path + PathTo(Part(v, path), tokens[i..])
    {
      ghost var rest := tokens[i..];
      assert rest[1..] == tokens[i + 1..];
      OneMoreToken(Part(v, path), rest);
      Known(t);
      Known(Sub(t, path));
      var next := Descend(cur, tokens[i], Sub(t, path));
      if next == null {
        return null;
      }
      ghost var step := StepTo(Part(v, path), tokens[i]);
      OneStepDown(t, path, tokens[i]);
      assert path + (step + PathTo(Part(v, path + step), tokens[i + 1..])) == path + step + PathTo(Part(v, path + step), tokens[i + 1..]);
      path := path + step;
      cur := next;
    }
    NoMoreTokens(Part(v, path));
    assert tokens[|tokens|..] == [];
    assert path + [] == path;
    return cur;
  }

  lemma StartOf(t: Twig)
    requires Intact(t)
    ensures Leads(Shape(t), []) && Reaches(t, []) && Sub(t, []) == t && Part(Shape(t), []) == Shape(t)
    ensures forall p: seq<nat> :: [] + p == p
  {
  }

  // Changing nodes

  /** The children of the node at path, replaced. */
  method PutChildren(p: DocNode, children: seq<DocNode>, ghost t: Twig, ghost path: seq<nat>, ghost kids: seq<Twig>)
    returns (ghost u: Twig)
    requires Intact(t) && Leads(Shape(t), path) && Reaches(t, path) && p == Sub(t, path).node
    requires children == NodesAt(kids) && Apart(kids) && AllIntact(kids) && p !in NodesOf(kids)
    requires NodesOf(kids) !! (Nodes(t) - Nodes(Sub(t, path)))
    modifies p`children
    ensures u.node == t.node && Intact(u) && Nodes(u) <= Nodes(t) + NodesOf(kids)
    ensures Shape(u) == PutPart(old(Shape(t)), path, old(Part(Shape(t), path)).(children := old(Shapes(kids))))
  {
    hide Nodes, NodesOf, Apart, Intact, AllIntact, Shape, Shapes, NodesAt, Surrounds, Tidy;
    hide Leads, Reaches, Sub, Part, PutPart, PutTwig;
    ghost var v := Shape(t);
    IntactSurrounds(t, path);
    SubIntact(t, path);
    ghost var s := Twig(p, kids);
    RootOf(Sub(t, path));
    NodeInSub(t, path);
    ghost var part, items := Part(v, path), Shapes(kids);
    TwigParts(Sub(t, path));
    ShapeOfTwig(p, Sub(t, path).kids);
    p.children := children;
    Wrap(p, kids);
    ShapeOfTwig(p, kids);
    PutKeeps(t, path, s, v);
    u := PutTwig(t, path, s);
  }

  lemma ShapeOfTwig(m: DocNode, kids: seq<Twig>)
    ensures Shape(Twig(m, kids)) == LabelOf(m).(children := Shapes(kids))
  {
  }

  lemma TwigParts(t: Twig)
    ensures Twig(t.node, t.kids) == t
  {
  }

  lemma NodeInSub(t: Twig, path: seq<nat>)
    requires Reaches(t, path)
    ensures Sub(t, path).node in Nodes(Sub(t, path)) && Nodes(Sub(t, path)) <= Nodes(t)
  {
    SubNodes(t, path);
  }

  /** A whole list of children replaced, and what that makes of the document. */
  lemma PartEdited(v: Node, path: seq<nat>, tok: Bytes, e: Edit<Node>, items: seq<Node>)
    requires Leads(v, path) && EditItems(Part(v, path), tok, e) == Some(items)
    ensures EditValueAt(Part(v, path), tok, e) == Some(Part(v, path).(children := items))
  {
    hide EditItems;
  }

  /** One member's value replaced. */
  lemma MemberEdited(v: Node, path: seq<nat>, i: nat, tok: Bytes, e: Edit<Node>)
    requires Leads(v, path) && Part(v, path).kind == ObjectNode && Find(Part(v, path).children, tok) == Some(i) && !e.Remove?
    ensures Leads(v, path + [i]) && Part(v, path + [i]) == Part(v, path).children[i]
    ensures EditValueAt(Part(v, path), tok, e).Some?
    ensures PutPart(v, path + [i], WithValue(Part(v, path).children[i], e.value))
            == PutPart(v, path, EditValueAt(Part(v, path), tok, e).value)
  {
    var p := Part(v, path);
    NoStep(p.children[i]);
    var none: seq<nat> := [];
    OneStep(p, i, none);
    assert [i] + none == [i];
    PartOfPart(v, path, [i]);
  }

  /** A member's new value, in place of the old one. */
  method SetMember(c: DocNode, value: DocNode, ghost t: Twig, ghost path: seq<nat>, i: nat, ghost w: Twig) returns (ghost u: Twig)
    requires Intact(t) && Leads(Shape(t), path) && Reaches(t, path) && i < |Sub(t, path).kids|
    requires c == Sub(t, path).kids[i].node && Leads(Shape(t), path + [i])
    requires Intact(w) && w.node == value
    modifies c`children
    ensures u.node == t.node && Intact(u) && fresh(Nodes(u) - Nodes(t))
    ensures Shape(u) == PutPart(old(Shape(t)), path + [i], WithValue(old(Part(Shape(t), path + [i])), old(Shape(w))))
  {
    hide Nodes, NodesOf, Apart, Intact, AllIntact, Shape, Shapes, NodesAt, Leads, Reaches, Sub, Part, PutPart;
    Known(t);
    Known(w);
    ghost var v := Shape(t);
    var x;
    ghost var xt;
    x, xt := Clone(value, w);
    OneKid(xt);
    OneTwigStep(Sub(t, path), i);
    SubOfSub(t, path, [i]);
    NodeInSub(t, path + [i]);
    u := PutChildren(c, [x], t, path + [i], [xt]);
  }

  /** The part at path is as the specification has it, and the rest as it was:
      u is the tree now, whose value was v. */
  ghost predicate Edited(ok: bool, root: DocNode, u: Twig, v: Node, path: seq<nat>, spec: Option<Node>)
    requires Leads(v, path)
    reads Nodes(u)
  {
    match spec
    case None => !ok
    case Some(q) => ok && u.node == root && Intact(u) && Shape(u) == PutPart(v, path, q)
  }

  /** add, in the object or array p. */
  method AddAt(p: DocNode, last: Bytes, value: DocNode, ghost t: Twig, ghost path: seq<nat>, ghost w: Twig)
    returns (ok: bool, ghost u: Twig)
    requires Intact(t) && Leads(Shape(t), path) && Reaches(t, path) && p == Sub(t, path).node
    requires Proper(Part(Shape(t), path)) && Intact(w) && w.node == value
    modifies Nodes(t)
    ensures Edited(ok, t.node, u, old(Shape(t)), path, EditValueAt(old(Part(Shape(t), path)), last, Add(old(Shape(w)))))
    ensures fresh(Nodes(u) - Nodes(t))
  {
    hide Nodes, NodesOf, Intact, Shape, Proper, Leads, Reaches, Sub, Part, PutPart, EditItems;
    SubIntact(t, path);
    NodeInSub(t, path);
    RootOf(Sub(t, path));
    if p.kind == ObjectNode {
      u := AddMember(p, last, value, t, path, w);
      ok := true;
    } else if p.kind == ArrayNode {
      ok, u := AddElement(p, last, value, t, path, w);
    } else {
      NoEdit(Part(Shape(t), path), last, Add(Shape(w)));
      ok, u := false, t;
    }
  }

  lemma NoEdit(v: Node, tok: Bytes, e: Edit<Node>)
    requires v.kind != ObjectNode && v.kind != ArrayNode
    ensures EditValueAt(v, tok, e) == None
  {
  }

  lemma NewAtEnd(v: Node, tok: Bytes, x: Node)
    requires v.kind == ObjectNode && Find(v.children, tok) == None
    ensures EditItems(v, tok, Add(x)) == Some(Insert(v.children, |v.children|, NewMember(tok, x)))
  {
    assert v.children[..|v.children|] == v.children && v.children[|v.children|..] == [];
    assert Insert(v.children, |v.children|, NewMember(tok, x)) == v.children + [NewMember(tok, x)];
  }

  method AddMember(p: DocNode, last: Bytes, value: DocNode, ghost t: Twig, ghost path: seq<nat>, ghost w: Twig)
    returns (ghost u: Twig)
    requires Intact(t) && Leads(Shape(t), path) && Reaches(t, path) && p == Sub(t, path).node && p.kind == ObjectNode
    requires Proper(Part(Shape(t), path)) && Intact(w) && w.node == value
    modifies Nodes(t)
    ensures Edited(true, t.node, u, old(Shape(t)), path, EditValueAt(old(Part(Shape(t), path)), last, Add(old(Shape(w)))))
    ensures fresh(Nodes(u) - Nodes(t))
  {
    hide Nodes, NodesOf, NodesAt, Apart, AllIntact, Intact, Shape, Shapes, Proper, Leads, Reaches, Sub, Part, PutPart;
    hide EditItems, EditValueAt, Find;
    ghost var v, x, tp := Shape(t), Shape(w), Sub(t, path);
    SubIntact(t, path);
    NodeInSub(t, path);
    RootOf(tp);
    Known(t);
    Known(w);
    Known(tp);
    var i := MemberIndexOf(p, last, tp);
    if i < |p.children| {
      KidAt(tp, i);
      MemberEdited(v, path, i, last, Add(x));
      KidInTree(t, path, i);
      label Setting:
      u := SetMember(p.children[i], value, t, path, i, w);
      ghost var added := Nodes(u) - Nodes(t);
      assert fresh@Setting(added);
      assert fresh(added);
    } else {
      label Appending:
      u := AppendMember(p, last, value, t, path, w);
      ghost var added := Nodes(u) - Nodes(t);
      assert fresh@Appending(added);
      assert fresh(added);
    }
  }

  /** A new member, with a copy of value. */
  method NewMemberNode(key: Bytes, value: DocNode, ghost w: Twig) returns (m: DocNode, ghost s: Twig)
    requires Intact(w) && w.node == value
    ensures s.node == m && Intact(s) && fresh(Nodes(s)) && Shape(s) == NewMember(key, Shape(w))
  {
    hide Nodes, NodesOf, NodesAt, Apart, AllIntact, Intact, Shape, Shapes;
    Known(w);
    var c;
    ghost var ct;
    c, ct := Clone(value, w);
    Known(w);
    Known(ct);
    OneKid(ct);
    m := new DocNode(KeyValueNode, key, [], [], [], NO_NOTES, [c]);
    s := Twig(m, [ct]);
    OneKid(ct);
    Wrap(m, [ct]);
    ShapeOfTwig(m, [ct]);
  }

  method AppendMember(p: DocNode, last: Bytes, value: DocNode, ghost t: Twig, ghost path: seq<nat>, ghost w: Twig)
    returns (ghost u: Twig)
    requires Intact(t) && Leads(Shape(t), path) && Reaches(t, path) && p == Sub(t, path).node
    requires Part(Shape(t), path).kind == ObjectNode && Find(Part(Shape(t), path).children, last) == None
    requires Intact(w) && w.node == value
    modifies Nodes(t)
    ensures Edited(true, t.node, u, old(Shape(t)), path, EditValueAt(old(Part(Shape(t), path)), last, Add(old(Shape(w)))))
    ensures fresh(Nodes(u) - Nodes(t))
  {
    hide Nodes, NodesOf, NodesAt, Apart, AllIntact, Intact, Shape, Shapes, Proper, Leads, Reaches, Sub, Part, PutPart;
    hide EditItems, EditValueAt, Find;
    ghost var v, x, tp := Shape(t), Shape(w), Sub(t, path);
    SubIntact(t, path);
    NodeInSub(t, path);
    RootOf(tp);
    Known(t);
    Known(w);
    Known(tp);
    var m;
    ghost var mt;
    m, mt := NewMemberNode(last, value, w);
    KidsIntact(tp);
    NodesSplit(tp);
    InsertKid(tp.kids, |tp.kids|, mt);
    ItemsOf(tp);
    NewAtEnd(Part(v, path), last, x);
    PartEdited(v, path, last, Add(x), Insert(Shapes(tp.kids), |tp.kids|, Shape(mt)));
    AtEnd(p.children, m);
    u := PutChildren(p, p.children + [m], t, path, Insert(tp.kids, |tp.kids|, mt));
  }

  lemma ItemsOf(t: Twig)
    requires Intact(t)
    ensures Shape(t).children == Shapes(t.kids) && |t.kids| == |t.node.children| && t.node.children == NodesAt(t.kids)
    ensures t.node !in NodesOf(t.kids)
  {
  }

  lemma KidInTree(t: Twig, path: seq<nat>, i: nat)
    requires Reaches(t, path) && i < |Sub(t, path).kids|
    ensures Sub(t, path).kids[i].node in Nodes(t)
  {
    SubNodes(t, path);
    KidNodes(Sub(t, path).kids, i);
  }

  method AddElement(p: DocNode, last: Bytes, value: DocNode, ghost t: Twig, ghost path: seq<nat>, ghost w: Twig)
    returns (ok: bool, ghost u: Twig)
    requires Intact(t) && Leads(Shape(t), path) && Reaches(t, path) && p == Sub(t, path).node && p.kind == ArrayNode
    requires Intact(w) && w.node == value
    modifies Nodes(t)
    ensures Edited(ok, t.node, u, old(Shape(t)), path, EditValueAt(old(Part(Shape(t), path)), last, Add(old(Shape(w)))))
    ensures fresh(Nodes(u) - Nodes(t))
  {
    hide Nodes, NodesOf, NodesAt, Apart, AllIntact, Intact, Shape, Shapes, Leads, Reaches, Sub, Part, PutPart;
    hide EditItems, EditValueAt, EditArray;
    ok, u := false, t;
    ghost var v, x, tp := Shape(t), Shape(w), Sub(t, path);
    SubIntact(t, path);
    NodeInSub(t, path);
    RootOf(tp);
    Known(t);
    Known(w);
    Known(tp);
    var i: nat := |p.children|;
    if last != END {
      var index := ParseArrayIndex(last);
      if index == None || index.value > |p.children| {
        NoPlace(Part(v, path), last, x);
        return;
      }
      i := index.value;
    }
    var c;
    ghost var ct;
    c, ct := Clone(value, w);
    ItemsOf(tp);
    KidsIntact(tp);
    NodesSplit(tp);
    InsertKid(tp.kids, i, ct);
    PlaceFor(Part(v, path), last, i, x);
    PartEdited(v, path, last, Add(x), Insert(Shapes(tp.kids), i, x));
    u := PutChildren(p, Insert(p.children, i, c), t, path, Insert(tp.kids, i, ct));
    ok := true;
  }

  lemma NoPlace(v: Node, tok: Bytes, x: Node)
    requires v.kind == ArrayNode && tok != END && (ArrayIndex(tok) == None || ArrayIndex(tok).value > |v.children|)
    ensures EditValueAt(v, tok, Add(x)) == None
  {
    hide ArrayIndex;
  }

  lemma PlaceFor(v: Node, tok: Bytes, i: nat, x: Node)
    requires v.kind == ArrayNode && i <= |v.children|
    requires if tok == END then i == |v.children| else ArrayIndex(tok) == Some(i)
    ensures EditItems(v, tok, Add(x)) == Some(Insert(v.children, i, x))
  {
    hide ArrayIndex;
    AtEnd(v.children, x);
  }

  /** remove, from the object or array p. */
  method RemoveAt(p: DocNode, last: Bytes, ghost t: Twig, ghost path: seq<nat>) returns (ok: bool, ghost u: Twig)
    requires Intact(t) && Leads(Shape(t), path) && Reaches(t, path) && p == Sub(t, path).node
    requires Proper(Part(Shape(t), path))
    modifies Nodes(t)
    ensures Edited(ok, t.node, u, old(Shape(t)), path, EditValueAt(old(Part(Shape(t), path)), last, Remove))
    ensures Nodes(u) <= Nodes(t)
  {
    hide Nodes, NodesOf, NodesAt, Apart, AllIntact, Intact, Shape, Shapes, Proper, Leads, Reaches, Sub, Part, PutPart;
    hide EditItems, EditValueAt, Find, ArrayIndex;
    ok, u := false, t;
    ghost var v, tp := Shape(t), Sub(t, path);
    SubIntact(t, path);
    NodeInSub(t, path);
    RootOf(tp);
    Known(t);
    Known(tp);
    var i: nat;
    if p.kind == ObjectNode {
      i := MemberIndexOf(p, last, tp);
    } else if p.kind == ArrayNode {
      var index := ParseArrayIndex(last);
      i := if index.Some? && index.value < |p.children| then index.value else |p.children|;
    } else {
      NoEdit(Part(v, path), last, Remove);
      return;
    }
    RemovalOf(Part(v, path), last);
    if i == |p.children| {
      return;
    }
    ItemsOf(tp);
    KidsIntact(tp);
    NodesSplit(tp);
    DeleteKid(tp.kids, i);
    PartEdited(v, path, last, Remove, Delete(Shapes(tp.kids), i));
    u := PutChildren(p, Delete(p.children, i), t, path, Delete(tp.kids, i));
    ok := true;
  }

  lemma RemovalOf(v: Node, tok: Bytes)
    requires v.kind == ObjectNode || v.kind == ArrayNode
    ensures v.kind == ObjectNode ==>
              match Find(v.children, tok)
              case None => EditValueAt(v, tok, Remove) == None
              case Some(i) => EditItems(v, tok, Remove) == Some(Delete(v.children, i))
    ensures v.kind == ArrayNode ==>
              match ArrayIndex(tok)
              case None => EditValueAt(v, tok, Remove) == None
              case Some(i) =>
                if i < |v.children| then EditItems(v, tok, Remove) == Some(Delete(v.children, i))
                else EditValueAt(v, tok, Remove) == None
  {
    hide ArrayIndex;
  }

  /** replacementNode: a copy of value, with the old node's comments if it has
      none. */
  method ReplacementNode(was: DocNode, value: DocNode, ghost w: Twig) returns (n: DocNode, ghost s: Twig)
    requires Intact(w) && w.node == value
    ensures s.node == n && Intact(s) && fresh(Nodes(s))
    ensures Shape(s) == Replacement(old(LabelOf(was)), old(Shape(w)))
  {
    hide Nodes, NodesOf, NodesAt, Apart, AllIntact, Intact, Shape, Shapes;
    Known(w);
    n, s := Clone(value, w);
    ItemsOf(s);
    KidsIntact(s);
    NodesSplit(s);
    TwigParts(s);
    ShapeOfTwig(n, s.kids);
    ghost var items := Shapes(s.kids);
    if !HasComments(n.notes) {
      n.notes := was.notes;
      Wrap(n, s.kids);
      ShapeOfTwig(n, s.kids);
    }
  }

  /** replace, in the object or array p. */
  method ReplaceAt(p: DocNode, last: Bytes, value: DocNode, ghost t: Twig, ghost path: seq<nat>, ghost w: Twig)
    returns (ok: bool, ghost u: Twig)
    requires Intact(t) && Leads(Shape(t), path) && Reaches(t, path) && p == Sub(t, path).node
    requires Proper(Part(Shape(t), path)) && Intact(w) && w.node == value
    modifies Nodes(t)
    ensures Edited(ok, t.node, u, old(Shape(t)), path, EditValueAt(old(Part(Shape(t), path)), last, Replace(old(Shape(w)))))
    ensures fresh(Nodes(u) - Nodes(t))
  {
    hide Nodes, NodesOf, NodesAt, Apart, AllIntact, Intact, Shape, Shapes, Proper, Leads, Reaches, Sub, Part, PutPart;
    hide EditItems, EditValueAt, Find, ArrayIndex;
    ok, u := false, t;
    ghost var v, x, tp := Shape(t), Shape(w), Sub(t, path);
    SubIntact(t, path);
    NodeInSub(t, path);
    RootOf(tp);
    Known(t);
    Known(w);
    Known(tp);
    ReplacementOf(Part(v, path), last, x);
    if p.kind == ObjectNode {
      var i := MemberIndexOf(p, last, tp);
      if i == |p.children| {
        return;
      }
      KidAt(tp, i);
      MemberEdited(v, path, i, last, Replace(x));
      KidInTree(t, path, i);
      u := SetMember(p.children[i], value, t, path, i, w);
      ok := true;
    } else if p.kind == ArrayNode {
      var index := ParseArrayIndex(last);
      if index == None || index.value >= |p.children| {
        return;
      }
      u := ReplaceElement(p, index.value, last, value, t, path, w);
      ok := true;
    }
  }

  method ReplaceElement(p: DocNode, i: nat, ghost last: Bytes, value: DocNode, ghost t: Twig, ghost path: seq<nat>, ghost w: Twig)
    returns (ghost u: Twig)
    requires Intact(t) && Leads(Shape(t), path) && Reaches(t, path) && p == Sub(t, path).node && p.kind == ArrayNode
    requires ArrayIndex(last) == Some(i) && i < |p.children| && Intact(w) && w.node == value
    modifies Nodes(t)
    ensures Edited(true, t.node, u, old(Shape(t)), path, EditValueAt(old(Part(Shape(t), path)), last, Replace(old(Shape(w)))))
    ensures fresh(Nodes(u) - Nodes(t))
  {
    hide Nodes, NodesOf, NodesAt, Apart, AllIntact, Intact, Shape, Shapes, Leads, Reaches, Sub, Part, PutPart;
    hide EditItems, EditValueAt, ArrayIndex;
    ghost var v, x, tp := Shape(t), Shape(w), Sub(t, path);
    SubIntact(t, path);
    NodeInSub(t, path);
    RootOf(tp);
    Known(t);
    Known(w);
    Known(tp);
    ReplacementOf(Part(v, path), last, x);
    var c;
    ghost var ct;
    KidAt(tp, i);
    TwigParts(tp.kids[i]);
    ShapeOfTwig(p.children[i], tp.kids[i].kids);
    ghost var y := Replacement(Part(v, path).children[i], x);
    c, ct := ReplacementNode(p.children[i], value, w);
    ItemsOf(tp);
    KidsIntact(tp);
    NodesSplit(tp);
    ReplaceKid(tp.kids, i, ct);
    PartEdited(v, path, last, Replace(x), Shapes(tp.kids)[i := y]);
    u := PutChildren(p, p.children[i := c], t, path, tp.kids[i := ct]);
  }

  lemma ReplacementOf(v: Node, tok: Bytes, x: Node)
    ensures v.kind == ObjectNode && Find(v.children, tok) == None ==> EditValueAt(v, tok, Replace(x)) == None
    ensures v.kind == ArrayNode ==>
              match ArrayIndex(tok)
              case None => EditValueAt(v, tok, Replace(x)) == None
              case Some(i) =>
                if i < |v.children| then EditItems(v, tok, Replace(x)) == Some(v.children[i := Replacement(v.children[i], x)])
                else EditValueAt(v, tok, Replace(x)) == None
    ensures v.kind != ObjectNode && v.kind != ArrayNode ==> EditValueAt(v, tok, Replace(x)) == None
  {
    hide ArrayIndex;
  }

  // The operations

  /** The result of an operation is what the specification says; u is its
      shape. */
  ghost predicate Became(ok: bool, out: DocNode?, u: Option<Twig>, spec: Outcome<Node>)
    reads DocNodes(u)
  {
    match spec
    case Failed => !ok
    case Done(doc) => ok && Holds(out, u) && DocValue(u) == doc
  }

  ghost function AddDoc(doc: Option<Node>, path: Option<Tokens>, value: Option<Node>): Outcome<Node> {
    if path == None then Failed else AddTo(doc, path.value, value)
  }

  ghost function RemoveDoc(doc: Option<Node>, path: Option<Tokens>): Outcome<Node> {
    if path == None then Failed else EditDoc(doc, path.value, Remove)
  }

  ghost function ReplaceDoc(doc: Option<Node>, path: Option<Tokens>, value: Option<Node>): Outcome<Node> {
    if path == None || value == None then Failed else EditDoc(doc, path.value, Replace(value.value))
  }

  /** resolveParent: the container that an edit is made in, with its place in
      the tree. */
  method ResolveParent(root: DocNode, tokens: Tokens, ghost t: Twig) returns (p: DocNode?)
    requires tokens != [] && Intact(t) && t.node == root && Proper(Shape(t))
    ensures Intact(t) && Shape(t) == old(Shape(t))
    ensures match GetValue(Shape(t), Front(tokens))
            case None => p == null
            case Some(q) =>
              var path := PathTo(Shape(t), Front(tokens));
              p != null && Reaches(t, path) && p == Sub(t, path).node
              && Leads(Shape(t), path) && Part(Shape(t), path) == q && Proper(q)
  {
    hide Nodes, NodesOf, Intact, Shape, Proper, Leads, Reaches, Sub, Part, GetValue, PathTo, Meaning;
    Known(t);
    p := ResolveIn(root, Front(tokens), t);
    if p != null {
      GetMeaning(Shape(t), Front(tokens));
      PathLeads(Shape(t), Front(tokens));
    }
  }

  method OpAdd(root: DocNode?, path: Bytes, value: DocNode?, ghost t: Option<Twig>, ghost w: Option<Twig>)
    returns (ok: bool, out: DocNode?, ghost u: Option<Twig>)
    requires Holds(root, t) && Holds(value, w) && ProperDoc(DocValue(t))
    modifies DocNodes(t)
    ensures Became(ok, out, u, AddDoc(old(DocValue(t)), PointerTokens(path), old(DocValue(w))))
    ensures forall n :: n in DocNodes(u) && n !in DocNodes(t) ==> fresh(n)
  {
    hide NodesOf, Intact, Shape, Proper, Leads, Reaches, Sub, Part, PutPart, GetValue, PathTo, EditValue, EditValueAt;
    hide PointerTokens;
    ok, out, u := false, root, t;
    if value == null {
      return;
    }
    KnownDoc(t);
    KnownDoc(w);
    ghost var mine, theirs := DocNodes(t), DocNodes(w);
    label Start:
    var tokens := ReadPointer(path);
    assert unchanged@Start(mine) && unchanged@Start(theirs);
    if tokens == None {
      return;
    }
    if tokens.value == [] {
      out, u := CloneDoc(value, w);
      ok := true;
      return;
    }
    if root == null {
      return;
    }
    ghost var e := Add(Shape(w.value));
    EditByPath(Shape(t.value), tokens.value, e);
    Known(t.value);
    Known(w.value);
    label Resolving:
    var p := ResolveParent(root, tokens.value, t.value);
    assert unchanged@Resolving(theirs);
    if p == null {
      return;
    }
    ghost var twig;
    label Edit:
    ok, twig := AddAt(p, LastToken(tokens.value), value, t.value, PathTo(Shape(t.value), Front(tokens.value)), w.value);
    u := Some(twig);
    ghost var added := Nodes(twig) - Nodes(t.value);
    assert fresh@Edit(added);
    assert fresh(added);
    assert DocNodes(u) == Nodes(twig) && DocNodes(t) == Nodes(t.value);
    forall n | n in DocNodes(u) && n !in DocNodes(t)
      ensures fresh(n)
    {
      assert n in added;
    }
  }

  method OpRemove(root: DocNode?, path: Bytes, ghost t: Option<Twig>)
    returns (ok: bool, out: DocNode?, ghost u: Option<Twig>)
    requires Holds(root, t) && ProperDoc(DocValue(t))
    modifies DocNodes(t)
    ensures Became(ok, out, u, RemoveDoc(old(DocValue(t)), PointerTokens(path)))
    ensures ok ==> DocNodes(u) <= DocNodes(t)
  {
    hide Nodes, NodesOf, Intact, Shape, Proper, Leads, Reaches, Sub, Part, PutPart, GetValue, PathTo, EditValue, EditValueAt;
    hide PointerTokens;
    ok, out, u := false, root, t;
    KnownDoc(t);
    var tokens := ReadPointer(path);
    if tokens == None || tokens.value == [] || root == null {
      return;
    }
    EditByPath(Shape(t.value), tokens.value, Remove);
    Known(t.value);
    var p := ResolveParent(root, tokens.value, t.value);
    if p == null {
      return;
    }
    ghost var twig;
    ok, twig := RemoveAt(p, LastToken(tokens.value), t.value, PathTo(Shape(t.value), Front(tokens.value)));
    u := Some(twig);
  }

  method OpReplace(root: DocNode?, path: Bytes, value: DocNode?, ghost t: Option<Twig>, ghost w: Option<Twig>)
    returns (ok: bool, out: DocNode?, ghost u: Option<Twig>)
    requires Holds(root, t) && Holds(value, w) && ProperDoc(DocValue(t))
    modifies DocNodes(t)
    ensures Became(ok, out, u, ReplaceDoc(old(DocValue(t)), PointerTokens(path), old(DocValue(w))))
    ensures forall n :: n in DocNodes(u) && n !in DocNodes(t) ==> fresh(n)
  {
    hide NodesOf, Intact, Shape, Proper, Leads, Reaches, Sub, Part, PutPart, GetValue, PathTo, EditValue, EditValueAt;
    hide PointerTokens;
    ok, out, u := false, root, t;
    if value == null {
      return;
    }
    KnownDoc(t);
    KnownDoc(w);
    ghost var mine, theirs := DocNodes(t), DocNodes(w);
    label Start:
    var tokens := ReadPointer(path);
    assert unchanged@Start(mine) && unchanged@Start(theirs);
    if tokens == None {
      return;
    }
    if tokens.value == [] {
      out, u := CloneDoc(value, w);
      ok := true;
      return;
    }
    if root == null {
      return;
    }
    ghost var e := Replace(Shape(w.value));
    EditByPath(Shape(t.value), tokens.value, e);
    Known(t.value);
    Known(w.value);
    label Resolving:
    var p := ResolveParent(root, tokens.value, t.value);
    assert unchanged@Resolving(theirs);
    if p == null {
      return;
    }
    ghost var twig;
    label Edit:
    ok, twig := ReplaceAt(p, LastToken(tokens.value), value, t.value, PathTo(Shape(t.value), Front(tokens.value)), w.value);
    u := Some(twig);
    ghost var added := Nodes(twig) - Nodes(t.value);
    assert fresh@Edit(added);
    assert fresh(added);
    assert DocNodes(u) == Nodes(twig) && DocNodes(t) == Nodes(t.value);
    forall n | n in DocNodes(u) && n !in DocNodes(t)
      ensures fresh(n)
    {
      assert n in added;
    }
  }

  // Equality

  /** The values of an object's members, by key. */
  method ObjectMembers(n: DocNode, ghost t: Twig) returns (ms: map<Bytes, DocNode>, ghost twigs: map<Bytes, Twig>)
    requires Intact(t) && t.node == n && n.kind == ObjectNode && Proper(Shape(t))
    ensures ms.Keys == twigs.Keys == Keys(Shape(t).children)
    ensures Intact(t) && Shape(t) == old(Shape(t))
    ensures forall k :: k in ms ==> MemberTwig(t, k, twigs[k]) && ms[k] == twigs[k].node
  {
    hide Nodes, NodesOf, Intact, Shape, Proper, Find, MemberTwig;
    RootOf(t);
    ItemsAreProper(Shape(t));
    Known(t);
    ms, twigs := map[], map[];
    ghost var v := Shape(t);
    for i := 0 to |n.children|
      invariant Intact(t) && Shape(t) == v && |v.children| == |n.children| == |t.kids|
      invariant ms.Keys == twigs.Keys
      invariant forall k :: k in ms <==> exists j :: 0 <= j < i && v.children[j].key == k
      invariant forall k :: k in ms ==> MemberTwig(t, k, twigs[k]) && ms[k] == twigs[k].node
    {
      MemberTwigAt(t, i);
      var c := n.children[i];
      if c.kind == KeyValueNode && |c.children| > 0 {
        ms := ms[c.key := c.children[0]];
        twigs := twigs[c.key := t.kids[i].kids[0]];
      }
    }
  }

  /** s is the value of the member of t named key. */
  ghost predicate MemberTwig(t: Twig, key: Bytes, s: Twig)
    reads Nodes(t)
  {
    var i := Find(Shape(t).children, key);
    i.Some? && i.value < |t.kids| && |t.kids[i.value].kids| > 0 && s == t.kids[i.value].kids[0]
  }

  lemma MemberTwigAt(t: Twig, i: nat)
    requires Intact(t) && t.node.kind == ObjectNode && Proper(Shape(t)) && i < |t.kids|
    ensures var c := t.node.children;
            |c| == |t.kids| && c[i].kind == KeyValueNode && |c[i].children| > 0 && |t.kids[i].kids| > 0
            && c[i].children[0] == t.kids[i].kids[0].node && |Shape(t).children| == |t.kids|
            && Shape(t).children[i].key == c[i].key && MemberTwig(t, c[i].key, t.kids[i].kids[0])
  {
    hide Nodes, NodesOf, Intact, Shape, Proper, Find;
    RootOf(t);
    ItemsAreProper(Shape(t));
    KidAt(t, i);
    assert IsMember(Shape(t).children[i]);
    KidAt(t.kids[i], 0);
    FindUnique(Shape(t).children, i);
  }

  /** What a member's twig stands for. */
  lemma MemberTwigIs(t: Twig, key: Bytes, s: Twig)
    requires Intact(t) && Proper(Shape(t)) && t.node.kind == ObjectNode && MemberTwig(t, key, s)
    ensures s < t && Intact(s) && Proper(Shape(s))
    ensures Meaning(Shape(t)).Object? && key in Meaning(Shape(t)).members
            && Meaning(Shape(t)).members[key] == Meaning(Shape(s))
  {
    hide Nodes, NodesOf, Intact, Shape, Proper, Meaning;
    RootOf(t);
    ItemsAreProper(Shape(t));
    var i := Find(Shape(t).children, key).value;
    KidAt(t, i);
    assert IsMember(Shape(t).children[i]);
    KidAt(t.kids[i], 0);
    MembersAt(Shape(t).children, i);
  }

  lemma MembersOf(t: Twig)
    requires Intact(t) && Proper(Shape(t)) && t.node.kind == ObjectNode
    ensures Meaning(Shape(t)).Object? && Meaning(Shape(t)).members.Keys == Keys(Shape(t).children)
  {
    hide Nodes, NodesOf, Intact, Shape, Proper, Meaning;
    RootOf(t);
    ItemsAreProper(Shape(t));
  }

  lemma ElementsOf(t: Twig)
    requires Intact(t) && Proper(Shape(t)) && t.node.kind == ArrayNode
    ensures Meaning(Shape(t)).Array? && |Meaning(Shape(t)).items| == |t.kids| == |t.node.children|
    ensures forall i :: 0 <= i < |t.kids| ==>
              Intact(t.kids[i]) && t.kids[i].node == t.node.children[i] && Proper(Shape(t.kids[i]))
              && Meaning(Shape(t)).items[i] == Meaning(Shape(t.kids[i]))
  {
    hide Nodes, NodesOf, Intact, Shape, Proper, Meaning;
    RootOf(t);
    ItemsAreProper(Shape(t));
    forall i | 0 <= i < |t.kids|
      ensures Intact(t.kids[i]) && t.kids[i].node == t.node.children[i] && Proper(Shape(t.kids[i]))
              && Meaning(Shape(t)).items[i] == Meaning(Shape(t.kids[i]))
    {
      KidAt(t, i);
    }
  }

  /** A scalar, or the kind of a container. */
  lemma ScalarMeaning(v: Node)
    requires Proper(v)
    ensures match v.kind
            case ObjectNode => Meaning(v).Object?
            case ArrayNode => Meaning(v).Array?
            case StringNode => Meaning(v) == String(v.value)
            case NumberNode => Meaning(v) == Number(v.value)
            case BoolNode => Meaning(v) == Bool(v.value)
            case NullNode => Meaning(v) == Null && v.value == NULL_WORD
            case KeyValueNode => false
  {
  }

  method NumbersEqualBy(a: Bytes, b: Bytes) returns (r: bool)
    ensures r == NumbersEqual(a, b)
  {
    hide Canonical;
    if a == b {
      return true;
    }
    var ca := CanonicalNumber(a);
    var cb := CanonicalNumber(b);
    return ca.Some? && cb.Some? && ca == cb;
  }

  /** nodeEqual: equality as JSON values, whatever the comments, the source
      forms and the order of members. */
  method NodeEqual(a: DocNode, b: DocNode, ghost s: Twig, ghost t: Twig) returns (r: bool)
    requires Intact(s) && s.node == a && Proper(Shape(s)) && Intact(t) && t.node == b && Proper(Shape(t))
    ensures r == Same(old(Meaning(Shape(s))), old(Meaning(Shape(t))))
    ensures r <==> NormalForm(old(Meaning(Shape(s)))) == NormalForm(old(Meaning(Shape(t))))
    decreases s
  {
    hide Nodes, NodesOf, Intact, Shape, Proper, Meaning, Canonical, MemberTwig, NormalForm;
    SameIsEqual(Meaning(Shape(s)), Meaning(Shape(t)));
    RootOf(s);
    RootOf(t);
    Known(s);
    Known(t);
    ScalarMeaning(Shape(s));
    ScalarMeaning(Shape(t));
    if a.kind != b.kind {
      return false;
    }
    if a.kind == NumberNode {
      r := NumbersEqualBy(a.value, b.value);
    } else if a.kind == ArrayNode {
      r := ElementsEqual(a, b, s, t);
    } else if a.kind == ObjectNode {
      r := MembersEqual(a, b, s, t);
    } else {
      r := a.value == b.value;
    }
  }

  method ElementsEqual(a: DocNode, b: DocNode, ghost s: Twig, ghost t: Twig) returns (r: bool)
    requires Intact(s) && s.node == a && Proper(Shape(s)) && Intact(t) && t.node == b && Proper(Shape(t))
    requires a.kind == ArrayNode && b.kind == ArrayNode
    ensures r == Same(old(Meaning(Shape(s))), old(Meaning(Shape(t))))
    decreases s, 0
  {
    hide Nodes, NodesOf, Intact, Shape, Proper, Meaning, Same;
    ElementsOf(s);
    ElementsOf(t);
    ghost var x, y := Meaning(Shape(s)), Meaning(Shape(t));
    SameArrays(x, y);
    if |a.children| != |b.children| {
      return false;
    }
    Known(s);
    Known(t);
    ghost var v, w := Shape(s), Shape(t);
    for i := 0 to |a.children|
      invariant Intact(s) && Shape(s) == v && Intact(t) && Shape(t) == w
      invariant forall j :: 0 <= j < i ==> Same(x.items[j], y.items[j])
    {
      ElementsOf(s);
      ElementsOf(t);
      Known(s);
      Known(t);
      var same := NodeEqual(a.children[i], b.children[i], s.kids[i], t.kids[i]);
      if !same {
        return false;
      }
    }
    return true;
  }

  lemma SameArrays(a: Json, b: Json)
    requires a.Array? && b.Array?
    ensures Same(a, b) <==> |a.items| == |b.items| && forall i :: 0 <= i < |a.items| ==> Same(a.items[i], b.items[i])
  {
  }

  lemma SameObjects(a: Json, b: Json)
    requires a.Object? && b.Object?
    ensures Same(a, b)
            <==> a.members.Keys == b.members.Keys && forall k :: k in a.members ==> Same(a.members[k], b.members[k])
  {
  }

  method MembersEqual(a: DocNode, b: DocNode, ghost s: Twig, ghost t: Twig) returns (r: bool)
    requires Intact(s) && s.node == a && Proper(Shape(s)) && Intact(t) && t.node == b && Proper(Shape(t))
    requires a.kind == ObjectNode && b.kind == ObjectNode
    ensures r == Same(old(Meaning(Shape(s))), old(Meaning(Shape(t))))
    decreases s, 0
  {
    hide Nodes, NodesOf, Intact, Shape, Proper, Meaning, Same, MemberTwig, Keys;
    ghost var v, w := Shape(s), Shape(t);
    ghost var x, y := Meaning(v), Meaning(w);
    MembersOf(s);
    MembersOf(t);
    SameObjects(x, y);
    Known(s);
    Known(t);
    var am, bm;
    ghost var at, bt;
    am, at := ObjectMembers(a, s);
    Known(s);
    Known(t);
    bm, bt := ObjectMembers(b, t);
    assert am.Keys == x.members.Keys && bm.Keys == y.members.Keys;
    if |am.Keys| != |bm.Keys| {
      return false;
    }
    var keys := am.Keys;
    while keys != {}
      invariant Intact(s) && Shape(s) == v && Intact(t) && Shape(t) == w && keys <= am.Keys
      invariant forall k :: k in am ==> MemberTwig(s, k, at[k])
      invariant forall k :: k in bm ==> MemberTwig(t, k, bt[k])
      invariant forall k :: k in am.Keys - keys ==> k in bm && Same(x.members[k], y.members[k])
      decreases keys
    {
      var k :| k in keys;
      if k !in bm {
        assert k in x.members.Keys && k !in y.members.Keys;
        return false;
      }
      MemberTwigIs(s, k, at[k]);
      MemberTwigIs(t, k, bt[k]);
      Known(s);
      Known(t);
      var same := NodeEqual(am[k], bm[k], at[k], bt[k]);
      if !same {
        return false;
      }
      keys := keys - {k};
    }
    SameKeys(am.Keys, bm.Keys);
    return true;
  }

  /** As many keys, and all of them there: the same keys. */
  lemma SameKeys(a: set<Bytes>, b: set<Bytes>)
    requires |a| == |b| && a <= b
    ensures a == b
  {
    assert b == a + (b - a);
    assert |b| == |a| + |b - a|;
  }

  // Moving, copying, testing

  /** The document is what the specification says, as a JSON value. */
  ghost predicate Reads(ok: bool, out: DocNode?, u: Option<Twig>, spec: Outcome<Json>)
    reads DocNodes(u)
  {
    match spec
    case Failed => !ok
    case Done(doc) => ok && Holds(out, u) && ProperDoc(DocValue(u)) && DocMeaning(DocValue(u)) == doc
  }

  /** resolveTarget: the part of the document that tokens lead to, which is
      nothing at the root of a missing one. */
  method ResolveTarget(root: DocNode?, tokens: Tokens, ghost t: Option<Twig>)
    returns (found: bool, r: DocNode?, ghost s: Option<Twig>)
    requires Holds(root, t) && ProperDoc(DocValue(t))
    ensures match GetDoc(old(DocValue(t)), tokens)
            case None => !found
            case Some(v) =>
              found && Holds(r, s) && DocValue(s) == v && ProperDoc(v) && DocNodes(s) <= DocNodes(t)
  {
    hide Nodes, NodesOf, Intact, Shape, Proper, Meaning, Leads, Reaches, Sub, Part, GetValue, PathTo, Get;
    if root == null {
      return tokens == [], null, None;
    }
    NoMoreTokens(Shape(t.value));
    GetDocMeaning(DocValue(t), tokens);
    Known(t.value);
    r := ResolveIn(root, tokens, t.value);
    found := r != null;
    if found {
      PathLeads(Shape(t.value), tokens);
      SubIntact(t.value, PathTo(Shape(t.value), tokens));
      s := Some(Sub(t.value, PathTo(Shape(t.value), tokens)));
    } else {
      s := None;
    }
  }

  ghost function CopySpec(doc: Option<Node>, from: Option<Tokens>, path: Option<Tokens>): Outcome<Node> {
    if from == None || path == None then Failed else CopyDoc(doc, from.value, path.value)
  }

  ghost function MoveSpec(doc: Option<Node>, from: Option<Tokens>, path: Option<Tokens>): Outcome<Node> {
    if from == None || path == None then Failed else MoveDoc(doc, from.value, path.value)
  }

  ghost function TestSpec(doc: Document, path: Option<Tokens>, value: Document): Outcome<Json> {
    if path == None || value == None then Failed else TestValue(doc, path.value, value.value)
  }

  method OpCopy(root: DocNode?, from: Bytes, path: Bytes, ghost t: Option<Twig>)
    returns (ok: bool, out: DocNode?, ghost u: Option<Twig>)
    requires Holds(root, t) && ProperDoc(DocValue(t))
    modifies DocNodes(t)
    ensures Became(ok, out, u, CopySpec(old(DocValue(t)), PointerTokens(from), PointerTokens(path)))
    ensures forall n :: n in DocNodes(u) && n !in DocNodes(t) ==> fresh(n)
  {
    hide Nodes, NodesOf, Intact, Shape, Proper, PointerTokens, EditDoc, GetDoc;
    ok, out, u := false, root, t;
    KnownDoc(t);
    ghost var mine := DocNodes(t);
    var tokens := ReadPointer(from);
    if tokens == None {
      return;
    }
    KnownDoc(t);
    var found, val;
    ghost var s;
    found, val, s := ResolveTarget(root, tokens.value, t);
    if !found {
      return;
    }
    KnownDoc(t);
    KnownDoc(s);
    var c;
    ghost var cs;
    c, cs := CloneDoc(val, s);
    ok, out, u := OpAdd(root, path, c, t, cs);
    if !ok {
      out, u := root, t;
    }
  }

  method OpTest(root: DocNode?, path: Bytes, value: DocNode?, ghost t: Option<Twig>, ghost w: Option<Twig>)
    returns (ok: bool)
    requires Holds(root, t) && ProperDoc(DocValue(t)) && Holds(value, w) && ProperDoc(DocValue(w))
    ensures match TestSpec(old(DocMeaning(DocValue(t))), PointerTokens(path), old(DocMeaning(DocValue(w))))
            case Failed => !ok
            case Done(doc) => ok && doc == old(DocMeaning(DocValue(t)))
    ensures ok <==> Matches(old(DocMeaning(DocValue(t))), PointerTokens(path), old(DocMeaning(DocValue(w))))
    ensures Holds(root, t) && DocValue(t) == old(DocValue(t))
  {
    hide Nodes, NodesOf, Intact, Shape, Proper, Meaning, PointerTokens, Get, Same, NormalForm;
    KnownDoc(t);
    KnownDoc(w);
    ghost var mine, theirs := DocNodes(t), DocNodes(w);
    ok := false;
    if value == null {
      return;
    }
    label Start:
    var tokens := ReadPointer(path);
    assert unchanged@Start(mine) && unchanged@Start(theirs);
    if tokens == None {
      return;
    }
    KnownDoc(t);
    KnownDoc(w);
    label Resolving:
    GetDocMeaning(DocValue(t), tokens.value);
    var found, target;
    ghost var s;
    found, target, s := ResolveTarget(root, tokens.value, t);
    assert unchanged@Resolving(theirs);
    if !found || target == null {
      return;
    }
    KnownDoc(t);
    KnownDoc(w);
    KnownDoc(s);
    ok := NodeEqual(target, value, s.value, w.value);
  }

  method PutNotes(n: DocNode, notes: Notes, ghost t: Twig, ghost path: seq<nat>)
    requires Intact(t) && Leads(Shape(t), path) && Reaches(t, path) && n == Sub(t, path).node
    modifies n`notes
    ensures Intact(t) && Shape(t) == PutPart(old(Shape(t)), path, old(Part(Shape(t), path)).(notes := notes))
  {
    hide Nodes, NodesOf, Apart, Intact, AllIntact, Shape, Shapes, NodesAt, Surrounds, Tidy;
    hide Leads, Reaches, Sub, Part, PutPart, PutTwig;
    ghost var v, s := Shape(t), Sub(t, path);
    IntactSurrounds(t, path);
    SubIntact(t, path);
    NodeInSub(t, path);
    ItemsOf(s);
    KidsIntact(s);
    NodesSplit(s);
    TwigParts(s);
    ShapeOfTwig(n, s.kids);
    ghost var part, items := Part(v, path), Shapes(s.kids);
    n.notes := notes;
    Wrap(n, s.kids);
    ShapeOfTwig(n, s.kids);
    PutKeeps(t, path, s, v);
    PutSame(t, path);
  }

  lemma {:induction false} PutSame(t: Twig, path: seq<nat>)
    requires Reaches(t, path)
    ensures PutTwig(t, path, Sub(t, path)) == t
    decreases path
  {
    if path != [] {
      PutSame(t.kids[path[0]], path[1..]);
    }
  }

  /** The comments of the member that tokens name, if it is one. */
  method MemberNotes(root: DocNode, tokens: Tokens, ghost t: Twig) returns (r: Option<Notes>)
    requires Intact(t) && t.node == root && Proper(Shape(t))
    ensures Intact(t) && Shape(t) == old(Shape(t))
    ensures r == NotesOf(Shape(t), tokens)
  {
    hide Nodes, NodesOf, Intact, Shape, Proper, Leads, Reaches, Sub, Part, GetValue, PathTo, Find;
    if tokens == [] {
      return None;
    }
    Known(t);
    var p := ResolveParent(root, tokens, t);
    if p == null {
      return None;
    }
    ghost var tp := Sub(t, PathTo(Shape(t), Front(tokens)));
    SubIntact(t, PathTo(Shape(t), Front(tokens)));
    RootOf(tp);
    if p.kind != ObjectNode {
      return None;
    }
    Known(t);
    Known(tp);
    var i := MemberIndexOf(p, LastToken(tokens), tp);
    if i == |p.children| {
      return None;
    }
    KidAt(tp, i);
    TwigParts(tp.kids[i]);
    ShapeOfTwig(p.children[i], tp.kids[i].kids);
    return Some(p.children[i].notes);
  }

  /** The member that tokens name takes these comments if it has none. */
  method CarryComments(root: DocNode, tokens: Tokens, notes: Notes, ghost t: Twig)
    requires tokens != [] && Intact(t) && t.node == root && Proper(Shape(t))
    modifies Nodes(t)
    ensures Intact(t) && Shape(t) == Carry(old(Shape(t)), tokens, notes)
  {
    hide Nodes, NodesOf, Intact, Shape, Proper, Leads, Reaches, Sub, Part, PutPart, GetValue, PathTo, Find;
    Known(t);
    var p := ResolveParent(root, tokens, t);
    if p == null {
      return;
    }
    ghost var path := PathTo(Shape(t), Front(tokens));
    ghost var v, tp := Shape(t), Sub(t, path);
    SubIntact(t, path);
    RootOf(tp);
    if p.kind != ObjectNode {
      return;
    }
    Known(t);
    Known(tp);
    var i := MemberIndexOf(p, LastToken(tokens), tp);
    if i == |p.children| {
      return;
    }
    var dst := p.children[i];
    KidAt(tp, i);
    TwigParts(tp.kids[i]);
    ShapeOfTwig(dst, tp.kids[i].kids);
    KidInTree(t, path, i);
    KidLeads(v, path, i);
    OneTwigStep(tp, i);
    SubOfSub(t, path, [i]);
    MemberLeads(v, tokens, MemberOf(v, tokens).value);
    if !HasComments(dst.notes) {
      PutNotes(dst, dst.notes.(head := notes.head, line := notes.line, foot := notes.foot), t, path + [i]);
    } else {
      PutSamePart(v, path + [i]);
    }
  }

  lemma {:induction false} PutSamePart(v: Node, path: seq<nat>)
    requires Leads(v, path)
    ensures PutPart(v, path, Part(v, path)) == v
    decreases path
  {
    if path != [] {
      PutSamePart(v.children[path[0]], path[1..]);
    }
  }

  lemma KidLeads(v: Node, path: seq<nat>, i: nat)
    requires Leads(v, path) && i < |Part(v, path).children|
    ensures Leads(v, path + [i])
  {
    var none: seq<nat> := [];
    NoStep(Part(v, path).children[i]);
    OneStep(Part(v, path), i, none);
    assert [i] + none == [i];
    PartOfPart(v, path, [i]);
  }

  method OpMove(root: DocNode?, from: Bytes, path: Bytes, ghost t: Option<Twig>)
    returns (ok: bool, out: DocNode?, ghost u: Option<Twig>)
    requires Holds(root, t) && ProperDoc(DocValue(t))
    modifies DocNodes(t)
    ensures Became(ok, out, u, MoveSpec(old(DocValue(t)), PointerTokens(from), PointerTokens(path)))
    ensures forall n :: n in DocNodes(u) && n !in DocNodes(t) ==> fresh(n)
  {
    hide Nodes, NodesOf, Intact, Shape, Proper, PointerTokens, GetDoc, EditDoc, ProperPrefix, PatchMoves.MoveApart;
    ok, out, u := false, root, t;
    KnownDoc(t);
    var tokens := ReadPointer(from);
    if tokens == None {
      return;
    }
    KnownDoc(t);
    var found, val;
    ghost var s;
    found, val, s := ResolveTarget(root, tokens.value, t);
    if !found {
      return;
    }
    KnownDoc(t);
    KnownDoc(s);
    var dst := ReadPointer(path);
    if dst == None {
      return;
    }
    SamePointer(from, path);
    DescendantPointer(from, path);
    if from == path {
      return true, root, t;
    }
    if from + [SLASH] <= path {
      return;
    }
    ok, out, u := MoveApart(root, from, path, tokens.value, dst.value, val, t, s);
  }

  /** A move to another place, outside of what is moved. */
  method MoveApart(root: DocNode?, from: Bytes, path: Bytes, tokens: Tokens, dst: Tokens, val: DocNode?,
                   ghost t: Option<Twig>, ghost s: Option<Twig>)
    returns (ok: bool, out: DocNode?, ghost u: Option<Twig>)
    requires Holds(root, t) && ProperDoc(DocValue(t)) && Holds(val, s) && ProperDoc(DocValue(s))
    requires PointerTokens(from) == Some(tokens) && PointerTokens(path) == Some(dst)
    modifies DocNodes(t)
    ensures Became(ok, out, u, PatchMoves.MoveApart(old(DocValue(t)), tokens, dst, old(DocValue(s))))
    ensures forall n :: n in DocNodes(u) && n !in DocNodes(t) ==> fresh(n)
  {
    hide Nodes, NodesOf, Intact, Shape, Proper, Meaning, PointerTokens, EditDoc, EditDocument, NotesOf, Carry;
    ok, out, u := false, root, t;
    ghost var doc, v := DocValue(t), DocValue(s);
    EditDocMeaning(doc, tokens, Remove);
    KnownDoc(t);
    KnownDoc(s);
    var notes := None;
    if root != null {
      notes := MemberNotes(root, tokens, t.value);
    }
    KnownDoc(t);
    KnownDoc(s);
    var moved;
    ghost var mt;
    moved, mt := CloneDoc(val, s);
    KnownDoc(t);
    KnownDoc(mt);
    var rest;
    ghost var rt;
    ok, rest, rt := OpRemove(root, from, t);
    if !ok {
      return;
    }
    KnownDoc(rt);
    KnownDoc(mt);
    AddToMeaning(DocValue(rt), dst, v);
    ok, out, u := OpAdd(rest, path, moved, rt, mt);
    if !ok {
      u := t;
      return;
    }
    if notes.Some? && out != null && dst != [] {
      CarryComments(out, dst, notes.value, u.value);
    } else if notes.Some? && out != null {
      NothingCarried(Shape(u.value), notes.value);
    }
  }

  lemma NothingCarried(v: Node, notes: Notes)
    ensures Carry(v, [], notes) == v
  {
  }

  // A patch

  datatype PatchOp = PatchOp(op: string, path: Bytes, from: Bytes, value: DocNode?)

  /** An operation on trees, its operand having shape w. */
  ghost predicate Stands(op: PatchOp, w: Option<Twig>, e: TreeOp)
    reads DocNodes(w)
  {
    Holds(op.value, w) && ProperDoc(DocValue(w)) && e == TreeOp(op.op, op.path, op.from, DocValue(w))
  }

  /** applyOp */
  method ApplyOp(root: DocNode?, op: PatchOp, ghost t: Option<Twig>, ghost w: Option<Twig>, ghost e: TreeOp)
    returns (ok: bool, out: DocNode?, ghost u: Option<Twig>)
    requires Holds(root, t) && ProperDoc(DocValue(t)) && Stands(op, w, e)
    modifies DocNodes(t)
    ensures Became(ok, out, u, PerformOn(old(DocValue(t)), e))
    ensures Reads(ok, out, u, Perform(old(DocMeaning(DocValue(t))), OpMeaning(e)))
    ensures forall n :: n in DocNodes(u) && n !in DocNodes(t) ==> fresh(n)
  {
    hide Nodes, NodesOf, Intact, Shape, Proper, Meaning, PointerTokens, EditDoc, AddTo, MoveDoc, CopyDoc, Perform, TestValue;
    PerformMeaning(DocValue(t), e);
    ok, out, u := false, root, t;
    if op.op == "add" {
      ok, out, u := OpAdd(root, op.path, op.value, t, w);
    } else if op.op == "remove" {
      ok, out, u := OpRemove(root, op.path, t);
    } else if op.op == "replace" {
      ok, out, u := OpReplace(root, op.path, op.value, t, w);
    } else if op.op == "move" {
      ok, out, u := OpMove(root, op.from, op.path, t);
    } else if op.op == "copy" {
      ok, out, u := OpCopy(root, op.from, op.path, t);
    } else if op.op == "test" {
      ok := OpTest(root, op.path, op.value, t, w);
    }
    if !ok {
      u := t;
    }
  }

  ghost function OperandNodes(ws: seq<Option<Twig>>): set<DocNode> {
    set i, n | 0 <= i < |ws| && n in DocNodes(ws[i]) :: n
  }

  ghost predicate AllStand(ops: seq<PatchOp>, ws: seq<Option<Twig>>, es: seq<TreeOp>)
    reads OperandNodes(ws)
  {
    |ops| == |ws| == |es|
    && forall i :: 0 <= i < |ops| ==> (OperandIn(ws, i); Stands(ops[i], ws[i], es[i]))
  }

  lemma OperandIn(ws: seq<Option<Twig>>, i: nat)
    requires i < |ws|
    ensures DocNodes(ws[i]) <= OperandNodes(ws)
  {
  }

  lemma KnownOperands(ws: seq<Option<Twig>>)
    ensures forall n :: n in OperandNodes(ws) ==> allocated(n)
  {
    forall n | n in OperandNodes(ws)
      ensures allocated(n)
    {
      var i :| 0 <= i < |ws| && n in DocNodes(ws[i]);
      KnownDoc(ws[i]);
    }
  }

  lemma OperandsAreProper(ops: seq<PatchOp>, ws: seq<Option<Twig>>, es: seq<TreeOp>)
    requires AllStand(ops, ws, es)
    ensures ProperOps(es)
  {
    hide Proper, Holds, DocNodes;
    forall i | 0 <= i < |es|
      ensures ProperDoc(es[i].value)
    {
      assert Stands(ops[i], ws[i], es[i]);
    }
  }

  lemma OneMoreOperation(doc: Option<Node>, es: seq<TreeOp>, i: nat)
    requires ProperDoc(doc) && ProperOps(es) && i < |es|
    ensures ProperOps(es[i..]) && ProperOps(es[i + 1..])
    ensures match PerformOn(doc, es[i])
            case Failed => PerformAllOn(doc, es[i..]) == Failed
            case Done(next) => ProperDoc(next) && PerformAllOn(doc, es[i..]) == PerformAllOn(next, es[i + 1..])
  {
    hide PerformOn, Proper;
    PerformMeaning(doc, es[i]);
    assert es[i..][1..] == es[i + 1..];
  }

  /** Patch.Apply: the operations on a deep copy. It modifies neither root nor the
      operands, and shares no node with them; where an operation fails it gives
      no document. */
  method Apply(root: DocNode?, ops: seq<PatchOp>, ghost t: Option<Twig>, ghost ws: seq<Option<Twig>>, ghost es: seq<TreeOp>)
    returns (ok: bool, out: DocNode?, ghost u: Option<Twig>)
    requires Holds(root, t) && ProperDoc(DocValue(t)) && AllStand(ops, ws, es)
    ensures ProperOps(es) && Became(ok, out, u, PerformAllOn(old(DocValue(t)), es))
    ensures Reads(ok, out, u, PerformAll(old(DocMeaning(DocValue(t))), OpMeanings(es)))
    ensures ok ==> fresh(DocNodes(u))
    ensures !ok ==> out == null
  {
    hide Nodes, NodesOf, Intact, Shape, Proper, Meaning, PerformOn, DocNodes, PerformAllOn, PerformAll, OpMeanings, Stands, OperandNodes;
    hide ProperOps;
    ghost var doc := DocValue(t);
    OperandsAreProper(ops, ws, es);
    PerformAllMeaning(doc, es);
    KnownDoc(t);
    KnownOperands(ws);
    ghost var theirs := OperandNodes(ws);
    out, u := CloneDoc(root, t);
    ghost var mine := DocNodes(u);
    assert es[0..] == es;
    for i := 0 to |ops|
      invariant Holds(out, u) && ProperDoc(DocValue(u)) && mine == DocNodes(u) && fresh(mine)
      invariant unchanged(theirs)
      invariant AllStand(ops, ws, es)
      invariant ProperOps(es[i..]) && PerformAllOn(DocValue(u), es[i..]) == PerformAllOn(doc, es)
    {
      OneMoreOperation(DocValue(u), es, i);
      KnownDoc(u);
      KnownOperands(ws);
      label Before:
      ok, out, u := ApplyOp(out, ops[i], u, ws[i], es[i]);
      if !ok {
        return false, null, u;
      }
      forall n | n in DocNodes(u)
        ensures fresh(n)
      {
        if n !in mine {
          assert fresh@Before(n);
        }
      }
      mine := DocNodes(u);
    }
    NoOperations(DocValue(u), es[|ops|..]);
    ok := true;
  }

  lemma NoOperations(doc: Option<Node>, es: seq<TreeOp>)
    requires ProperDoc(doc) && es == []
    ensures ProperOps(es) && PerformAllOn(doc, es) == Done(doc)
  {
  }
}
