/** Reading a document through a pointer compiled to a path, which keeps a
    selection of nodes and maps it through each token. */
module PathRead {
  import opened Ascii
  import opened Tree
  import opened Pointers
  import opened PatchValues
  import opened DocTree
  import opened PatchTree

  /** The node that resolveTarget finds in a document that is there. */
  ghost function TargetNode(t: Twig, tokens: Tokens): Option<DocNode>
    reads Nodes(t)
  {
    var path := PathTo(Shape(t), tokens);
    if GetValue(Shape(t), tokens) == None || !Reaches(t, path) then None else Some(Sub(t, path).node)
  }

  function Selection(r: Option<DocNode>): seq<DocNode> { if r == None then [] else [r.value] }

  /** What one token selects below one node. */
  ghost function Selected(t: Twig, tok: Bytes): Option<DocNode>
    reads Nodes(t)
  {
    var path := StepTo(Shape(t), tok);
    if ChildValue(Shape(t), tok) == None || !Reaches(t, path) then None else Some(Sub(t, path).node)
  }

  /** childByName: a member's value, in an object. */
  method ChildByName(n: DocNode, name: Bytes, ghost t: Twig) returns (r: seq<DocNode>)
    requires Intact(t) && t.node == n && Proper(Shape(t))
    ensures r == if n.kind == ObjectNode then Selection(Selected(t, name)) else []
  {
    hide Nodes, NodesOf, Intact, Shape, Proper, Find;
    RootOf(t);
    ItemsAreProper(Shape(t));
    if n.kind != ObjectNode {
      return [];
    }
    Known(t);
    ghost var v := Shape(t);
    for i := 0 to |n.children|
      invariant Intact(t) && Shape(t) == v && |v.children| == |n.children| == |t.kids|
      invariant forall j :: 0 <= j < i ==> v.children[j].key != name
    {
      KidAt(t, i);
      assert IsMember(v.children[i]);
      KidAt(t.kids[i], 0);
      var c := n.children[i];
      if c.kind == KeyValueNode && c.key == name && |c.children| > 0 {
        FindFirst(v.children, name, i);
        TwoSteps(t, i);
        return [c.children[0]];
      }
    }
    FindNone(v.children, name);
    return [];
  }

  lemma FindNone(items: seq<Node>, key: Bytes)
    requires forall j :: 0 <= j < |items| ==> items[j].key != key
    ensures Find(items, key) == None
  {
  }

  /** applySegment, for a token and a selection of one node: an index of an array
      is resolved here, by the document's structure. */
  method ApplyToken(cur: seq<DocNode>, name: Bytes, ghost t: Twig) returns (next: seq<DocNode>)
    requires Intact(t) && cur == [t.node] && Proper(Shape(t))
    ensures next == Selection(Selected(t, name))
  {
    hide Nodes, NodesOf, Intact, Shape, Proper, Find, ArrayIndex, Selected;
    next := [];
    ghost var v := Shape(t);
    Known(t);
    for k := 0 to |cur|
      invariant Intact(t) && Shape(t) == v
      invariant next == if k == 0 then [] else Selection(Selected(t, name))
    {
      var n := cur[k];
      RootOf(t);
      Known(t);
      var named := ChildByName(n, name, t);
      next := next + named;
      if n.kind == ArrayNode {
        var i := ParseArrayIndex(name);
        if i.Some? && i.value < |n.children| {
          KidAt(t, i.value);
          OneTwigStep(t, i.value);
          ElementSelected(t, name, i.value);
          next := next + [n.children[i.value]];
        } else {
          NothingSelected(t, name);
        }
      } else if n.kind != ObjectNode {
        NothingSelected(t, name);
      }
    }
  }

  lemma ElementSelected(t: Twig, tok: Bytes, i: nat)
    requires Intact(t) && t.node.kind == ArrayNode && ArrayIndex(tok) == Some(i) && i < |t.kids|
    ensures Selected(t, tok) == Some(t.kids[i].node)
  {
    hide Nodes, NodesOf, Intact, Shape, ArrayIndex;
    RootOf(t);
    OneTwigStep(t, i);
  }

  lemma NothingSelected(t: Twig, tok: Bytes)
    requires Intact(t)
    requires t.node.kind != ObjectNode
             && (t.node.kind == ArrayNode ==> ArrayIndex(tok) == None || ArrayIndex(tok).value >= |t.node.children|)
    ensures Selected(t, tok) == None
  {
    hide Nodes, NodesOf, Intact, Shape, ArrayIndex;
    RootOf(t);
  }

  /** Read, for a pointer's tokens: the node that resolveTarget finds, or
      nothing. */
  method Read(root: DocNode?, tokens: Tokens, ghost t: Option<Twig>) returns (cur: seq<DocNode>)
    requires Holds(root, t) && ProperDoc(DocValue(t))
    ensures cur == if t == None then [] else Selection(TargetNode(t.value, tokens))
  {
    hide Nodes, NodesOf, Intact, Shape, Proper, ChildValue, StepTo, PathTo, GetValue, Leads, Part, Reaches, Sub;
    if root == null {
      return [];
    }
    cur := [root];
    ghost var tree := t.value;
    ghost var v, s, path := Shape(tree), tree, [];
    StartOf(tree);
    assert tokens[0..] == tokens;
    Known(tree);
    for i := 0 to |tokens|
      invariant Intact(tree) && Shape(tree) == v && cur == [s.node] && Intact(s)
      invariant Leads(v, path) && Reaches(tree, path) && s == Sub(tree, path)
      invariant Shape(s) == Part(v, path) && Proper(Part(v, path))
      invariant GetValue(v, tokens) == GetValue(Part(v, path), tokens[i..])
      invariant PathTo(v, tokens) == path + PathTo(Part(v, path), tokens[i..])
    {
      ghost var rest := tokens[i..];
      assert rest[1..] == tokens[i + 1..];
      OneMoreToken(Part(v, path), rest);
      Known(tree);
      Known(s);
      SelectedIs(s, tokens[i]);
      cur := ApplyToken(cur, tokens[i], s);
      if |cur| == 0 {
        return [];
      }
      ghost var step := StepTo(Part(v, path), tokens[i]);
      OneStepDown(tree, path, tokens[i]);
      assert path + (step + PathTo(Part(v, path + step), tokens[i + 1..])) == path + step + PathTo(Part(v, path + step), tokens[i + 1..]);
      path := path + step;
      s := Sub(tree, path);
    }
    NoMoreTokens(Part(v, path));
    assert tokens[|tokens|..] == [];
    assert path + [] == path;
  }

  /** A token selects a node exactly when it leads to a value. */
  lemma SelectedIs(t: Twig, tok: Bytes)
    requires Intact(t) && Proper(Shape(t))
    ensures match ChildValue(Shape(t), tok)
            case None => Selected(t, tok) == None
            case Some(_) =>
              var path := StepTo(Shape(t), tok);
              Reaches(t, path) && Selected(t, tok) == Some(Sub(t, path).node)
  {
    hide Nodes, NodesOf, Intact, Shape, Proper, ChildValue, StepTo, Reaches, Sub;
    if ChildValue(Shape(t), tok).Some? {
      StepLeads(Shape(t), tok);
      SubIntact(t, StepTo(Shape(t), tok));
    }
  }

  /** resolveTarget, stated the same way: the two agree on every document. */
  method ResolveTargetNode(root: DocNode, tokens: Tokens, ghost t: Twig) returns (r: DocNode?)
    requires Intact(t) && t.node == root && Proper(Shape(t))
    ensures TargetNode(t, tokens) == if r == null then None else Some(r)
  {
    hide Nodes, NodesOf, Intact, Shape, Proper, GetValue, PathTo, Reaches, Sub;
    Known(t);
    r := ResolveIn(root, tokens, t);
  }
}
