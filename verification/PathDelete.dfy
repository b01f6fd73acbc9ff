/** Deleting what a pointer matches, by way of a map from nodes to parents. */
module PathDelete {
  import opened Ascii
  import opened Tree
  import opened Pointers
  import opened JsonPatch
  import opened PatchValues
  import opened DocTree
  import opened PatchTree
  import opened PathRead

  type ParentMap = map<DocNode, DocNode>

  /** Every node below the root of t has its parent. */
  ghost predicate Parents(m: ParentMap, t: Twig)
    decreases t
  {
    forall i :: 0 <= i < |t.kids| ==>
      t.kids[i].node in m && m[t.kids[i].node] == t.node && Parents(m, t.kids[i])
  }

  /** m and p agree on these nodes. */
  ghost predicate Agree(m: ParentMap, p: ParentMap, ns: set<DocNode>) {
    forall n :: n in ns ==> (n in m <==> n in p) && (n in m ==> m[n] == p[n])
  }

  lemma {:induction false} ParentsAgree(m: ParentMap, p: ParentMap, t: Twig)
    requires Parents(m, t) && Agree(m, p, NodesOf(t.kids))
    ensures Parents(p, t)
    decreases t
  {
    forall i | 0 <= i < |t.kids|
      ensures t.kids[i].node in p && p[t.kids[i].node] == t.node && Parents(p, t.kids[i])
    {
      KidNodes(t.kids, i);
      NodesSplit(t.kids[i]);
      assert t.kids[i].node in NodesOf(t.kids);
      ParentsAgree(m, p, t.kids[i]);
    }
  }

  /** mapNodeParents, below n. */
  method Visit(n: DocNode, m: ParentMap, ghost t: Twig) returns (p: ParentMap)
    requires Intact(t) && t.node == n
    ensures Parents(p, t)
    ensures forall k :: k !in NodesOf(t.kids) ==> Agree(m, p, {k})
    decreases t
  {
    hide Nodes, NodesOf, Intact, Shape;
    KidsIntact(t);
    Known(t);
    p := m;
    for i := 0 to |n.children|
      invariant Intact(t)
      invariant forall j :: 0 <= j < i ==>
                  t.kids[j].node in p && p[t.kids[j].node] == n && Parents(p, t.kids[j])
      invariant forall k :: k !in NodesOf(t.kids) ==> Agree(m, p, {k})
    {
      KidsIntact(t);
      KidNodes(t.kids, i);
      NodesSplit(t.kids[i]);
      ghost var before := p;
      var c := n.children[i];
      p := p[c := n];
      ghost var set1 := p;
      Known(t);
      Known(t.kids[i]);
      p := Visit(c, p, t.kids[i]);
      KidsIntact(t);
      NotBelow(t.kids[i]);
      assert Agree(set1, p, {c});
      forall j | 0 <= j < i
        ensures t.kids[j].node in p && p[t.kids[j].node] == n && Parents(p, t.kids[j])
      {
        NodesSplit(t.kids[j]);
        assert Nodes(t.kids[j]) !! Nodes(t.kids[i]);
        Unvisited(before, set1, p, t, i, j);
        assert Agree(before, p, {t.kids[j].node});
        ParentsAgree(before, p, t.kids[j]);
      }
      forall k | k !in NodesOf(t.kids)
        ensures Agree(m, p, {k})
      {
        assert Agree(m, before, {k});
        assert k != c && k !in NodesOf(t.kids[i].kids);
        assert Agree(set1, p, {k});
      }
    }
  }

  lemma NotBelow(t: Twig)
    requires Intact(t)
    ensures t.node !in NodesOf(t.kids)
  {
  }

  lemma Unvisited(before: ParentMap, set1: ParentMap, p: ParentMap, t: Twig, i: nat, j: nat)
    requires 0 <= j < i < |t.kids| && Nodes(t.kids[j]) !! Nodes(t.kids[i])
    requires set1 == before[t.kids[i].node := t.node]
    requires forall k :: k !in NodesOf(t.kids[i].kids) ==> Agree(set1, p, {k})
    ensures Agree(before, p, Nodes(t.kids[j]))
    ensures Agree(before, p, {t.kids[j].node}) && Agree(before, p, NodesOf(t.kids[j].kids))
  {
    NodesSplit(t.kids[i]);
    NodesSplit(t.kids[j]);
    forall n | n in Nodes(t.kids[j])
      ensures (n in before <==> n in p) && (n in before ==> before[n] == p[n])
    {
      assert n !in Nodes(t.kids[i]);
      assert Agree(set1, p, {n});
    }
  }

  /** c is a member with this value. */
  predicate Wraps(c: DocNode, target: DocNode)
    reads c
  {
    c.kind == KeyValueNode && |c.children| > 0 && c.children[0] == target
  }

  /** findChild: the parent of target, and where target, or else the member that
      has it, is first among the parent's children; null and -1 if nowhere. */
  method FindChild(parents: ParentMap, target: DocNode) returns (parent: DocNode?, k: int)
    ensures target !in parents ==> parent == null
    ensures parent == null ==> k == -1
    ensures parent == null && target in parents ==>
              forall c :: c in parents[target].children ==> c != target && !Wraps(c, target)
    ensures parent != null ==> target in parents && parent == parents[target] && 0 <= k < |parent.children|
    ensures parent != null && target in parent.children ==>
              parent.children[k] == target && target !in parent.children[..k]
    ensures parent != null && target !in parent.children ==>
              Wraps(parent.children[k], target) && forall c :: c in parent.children[..k] ==> !Wraps(c, target)
  {
    if target !in parents {
      return null, -1;
    }
    parent := parents[target];
    for i := 0 to |parent.children|
      invariant target !in parent.children[..i]
    {
      if parent.children[i] == target {
        return parent, i;
      }
    }
    for i := 0 to |parent.children|
      invariant forall c :: c in parent.children[..i] ==> !Wraps(c, target)
    {
      if parent.children[i].kind == KeyValueNode && |parent.children[i].children| > 0
         && parent.children[i].children[0] == target {
        return parent, i;
      }
    }
    return null, -1;
  }

  /** A kid's place among the children is the first that holds it. */
  lemma FirstPlace(t: Twig, i: nat, k: nat)
    requires Intact(t) && i < |t.kids| && k < |t.node.children|
    requires t.node.children[k] == t.kids[i].node
    ensures k == i
  {
    hide Nodes, NodesOf, Intact, Shape;
    KidsIntact(t);
    if k != i {
      DifferentKids(t.kids, k, i);
    }
  }

  lemma DifferentKids(kids: seq<Twig>, i: nat, j: nat)
    requires i < |kids| && j < |kids| && i != j && Apart(kids)
    ensures kids[i].node != kids[j].node
  {
    hide NodesOf;
    NodesSplit(kids[i]);
    NodesSplit(kids[j]);
    assert Nodes(kids[i]) !! Nodes(kids[j]);
  }

  lemma {:induction false} ParentsOfSub(m: ParentMap, t: Twig, path: seq<nat>)
    requires Parents(m, t) && Reaches(t, path)
    ensures Parents(m, Sub(t, path))
    decreases path
  {
    if path != [] {
      ParentsOfSub(m, t.kids[path[0]], path[1..]);
    }
  }

  /** What a pointer with tokens matches can be removed, and nothing else can. */
  lemma {:induction false} RemovableIsThere(v: Node, ts: Tokens)
    requires ts != [] && Proper(v)
    ensures EditValue(v, ts, Remove).Some? <==> GetValue(v, ts).Some?
    decreases ts
  {
    hide Proper, Meaning, ArrayIndex, SetChildValue;
    if |ts| == 1 {
      assert ts[1..] == [];
      ItemsAreProper(v);
      if v.kind == ObjectNode && Find(v.children, ts[0]).Some? {
        assert IsMember(v.children[Find(v.children, ts[0]).value]);
      }
    } else {
      ChildMeaning(v, ts[0]);
      var c := ChildValue(v, ts[0]);
      if c.Some? {
        RemovableIsThere(c.value, ts[1..]);
      }
    }
  }

  datatype Deletion = NotFound | IsRoot | Deleted

  /** A pointer's tokens, its last one apart. */
  lemma {:induction false} LastStep(v: Node, ts: Tokens)
    requires ts != [] && Proper(v) && GetValue(v, ts).Some?
    ensures GetValue(v, Front(ts)).Some? && ChildValue(GetValue(v, Front(ts)).value, LastToken(ts)).Some?
    ensures Proper(GetValue(v, Front(ts)).value)
    ensures PathTo(v, ts) == PathTo(v, Front(ts)) + StepTo(GetValue(v, Front(ts)).value, LastToken(ts))
    decreases ts
  {
    hide Proper, Meaning, ChildValue, StepTo, GetValue, PathTo;
    OneMoreToken(v, ts);
    ChildMeaning(v, ts[0]);
    if |ts| == 1 {
      assert Front(ts) == [] && ts[1..] == [];
      NoMoreTokens(v);
      NoMoreTokens(ChildValue(v, ts[0]).value);
      var step := StepTo(v, ts[0]);
      assert [] + step == step && step + [] == step;
    } else {
      var c := ChildValue(v, ts[0]).value;
      assert Front(ts)[0] == ts[0] && Front(ts)[1..] == Front(ts[1..]);
      OneMoreToken(v, Front(ts));
      LastStep(c, ts[1..]);
      var q := GetValue(c, Front(ts[1..])).value;
      assert StepTo(v, ts[0]) + (PathTo(c, Front(ts[1..])) + StepTo(q, LastToken(ts)))
          == StepTo(v, ts[0]) + PathTo(c, Front(ts[1..])) + StepTo(q, LastToken(ts));
    }
  }

  /** Delete, for a pointer's tokens: it does what the remove operation does. */
  method Delete(root: DocNode, tokens: Tokens, ghost t: Twig) returns (r: Deletion, ghost u: Twig)
    requires Intact(t) && t.node == root && Proper(Shape(t))
    modifies Nodes(t)
    ensures r == NotFound <==> GetValue(old(Shape(t)), tokens) == None
    ensures r == IsRoot <==> tokens == []
    ensures r != Deleted ==> u == t && Intact(t) && Shape(t) == old(Shape(t))
    ensures tokens != [] ==> (r == Deleted <==> EditValue(old(Shape(t)), tokens, Remove).Some?)
    ensures r == Deleted ==>
              u.node == root && Intact(u) && EditValue(old(Shape(t)), tokens, Remove) == Some(Shape(u))
  {
    hide Nodes, NodesOf, Intact, Shape, Proper, GetValue, PathTo, Reaches, Sub, Leads, Part, EditValue, Parents, ChildValue, StepTo;
    u := t;
    Known(t);
    ghost var v := Shape(t);
    NoMoreTokens(v);
    if tokens != [] {
      RemovableIsThere(v, tokens);
    }
    var matches := Read(root, tokens, Some(t));
    FoundBelow(t, tokens);
    if |matches| == 0 {
      return NotFound, t;
    }
    if root in matches {
      return IsRoot, t;
    }
    LastStep(v, tokens);
    Known(t);
    var parents := Visit(root, map[], t);
    for i := |matches| downto 0
      invariant i == |matches| ==> u == t && Intact(t) && Shape(t) == v
      invariant i < |matches| ==> u.node == root && Intact(u) && EditValue(v, tokens, Remove) == Some(Shape(u))
    {
      u := DeleteTarget(matches[i], parents, tokens, t);
    }
    r := Deleted;
  }

  /** What a pointer finds, which is the root only for the empty pointer. */
  lemma FoundBelow(t: Twig, tokens: Tokens)
    requires Intact(t) && Proper(Shape(t))
    ensures GetValue(Shape(t), tokens) == None ==> TargetNode(t, tokens) == None
    ensures GetValue(Shape(t), tokens).Some? ==>
              var path := PathTo(Shape(t), tokens);
              Reaches(t, path) && TargetNode(t, tokens) == Some(Sub(t, path).node)
              && (Sub(t, path).node == t.node <==> tokens == [])
  {
    hide Nodes, NodesOf, Intact, Shape, Proper, GetValue, PathTo, Reaches, Sub, Leads, Part;
    if GetValue(Shape(t), tokens).Some? {
      PathLeads(Shape(t), tokens);
      SubIntact(t, PathTo(Shape(t), tokens));
      NoMoreTokens(Shape(t));
      StartOf(t);
      if tokens != [] {
        OneMoreToken(Shape(t), tokens);
        StepLeads(Shape(t), tokens[0]);
        BelowIsOther(t, PathTo(Shape(t), tokens));
      }
    }
  }

  lemma BelowIsOther(t: Twig, path: seq<nat>)
    requires Intact(t) && Reaches(t, path) && path != []
    ensures Sub(t, path).node != t.node
  {
    hide Nodes, NodesOf, Intact;
    NotBelow(t);
    NodeInSub(t.kids[path[0]], path[1..]);
    KidNodes(t.kids, path[0]);
  }

  lemma ParentsAt(m: ParentMap, t: Twig, i: nat)
    requires Parents(m, t) && i < |t.kids|
    ensures t.kids[i].node in m && m[t.kids[i].node] == t.node
    ensures |t.kids[i].kids| > 0 ==>
              t.kids[i].kids[0].node in m && m[t.kids[i].kids[0].node] == t.kids[i].node
  {
    assert Parents(m, t.kids[i]);
  }

  /** Where the last token leads from the container at path. */
  lemma TargetPlace(t: Twig, path: seq<nat>, tok: Bytes)
    requires Intact(t) && Reaches(t, path) && Intact(Sub(t, path)) && Proper(Shape(Sub(t, path)))
    requires ChildValue(Shape(Sub(t, path)), tok).Some?
    ensures var p := Sub(t, path);
            var step := StepTo(Shape(p), tok);
            step != [] && step[0] < |p.kids| && Reaches(p, step) && Reaches(t, path + step)
            && Sub(t, path + step) == Sub(p, step)
            && if p.node.kind == ObjectNode then
                 |p.kids[step[0]].kids| > 0 && Sub(p, step) == p.kids[step[0]].kids[0]
                 && p.kids[step[0]].node.kind == KeyValueNode && Find(Shape(p).children, tok) == Some(step[0])
               else
                 p.node.kind == ArrayNode && Sub(p, step) == p.kids[step[0]] && ArrayIndex(tok) == Some(step[0])
  {
    hide Nodes, NodesOf, Intact, Shape, Proper, ArrayIndex, Reaches, Sub;
    var p := Sub(t, path);
    RootOf(p);
    var i := StepTo(Shape(p), tok)[0];
    if p.node.kind == ObjectNode {
      ItemsAreProper(Shape(p));
      assert IsMember(Shape(p).children[i]);
      KidAt(p, i);
      TwoSteps(p, i);
    } else {
      OneTwigStep(p, i);
    }
    SubOfSub(t, path, StepTo(Shape(p), tok));
  }

  /** Removing the target from its container: an object loses the whole
      member. */
  method DeleteTarget(target: DocNode, parents: ParentMap, ghost tokens: Tokens, ghost t: Twig) returns (ghost u: Twig)
    requires Intact(t) && Proper(Shape(t)) && tokens != [] && GetValue(Shape(t), tokens).Some?
    requires Reaches(t, PathTo(Shape(t), tokens)) && target == Sub(t, PathTo(Shape(t), tokens)).node
    requires Parents(parents, t)
    modifies Nodes(t)
    ensures u.node == t.node && Intact(u) && EditValue(old(Shape(t)), tokens, Remove) == Some(Shape(u))
  {
    hide Nodes, NodesOf, NodesAt, Apart, AllIntact, Intact, Shape, Shapes, Proper, GetValue, PathTo, Reaches, Sub, Leads, Part, EditValue;
    hide Parents, EditValueAt, EditItems, PutPart, Find, ArrayIndex;
    ghost var v, last := Shape(t), LastToken(tokens);
    ghost var path := PathTo(v, Front(tokens));
    LastStep(v, tokens);
    PathLeads(v, Front(tokens));
    SubIntact(t, path);
    NodeInSub(t, path);
    ghost var tp := Sub(t, path);
    ghost var i := StepTo(Part(v, path), last)[0];
    RootOf(tp);
    TargetPlace(t, path, last);
    ParentsOfSub(parents, t, path);
    ParentsAt(parents, tp, i);
    var node := target;
    var kv := parents[node];
    if kv.kind == KeyValueNode {
      node := kv;
    }
    ItemsOf(tp);
    KidsIntact(tp);
    NodesSplit(tp);
    Known(t);
    Known(tp);
    assert parents[node] == tp.node && tp.node.children[i] == node;
    assert node in tp.node.children;
    var p, k := FindChild(parents, node);
    FirstPlace(tp, i, k);
    DeleteKid(tp.kids, i);
    RemovalOf(Part(v, path), last);
    EditByPath(v, tokens, Remove);
    PartEdited(v, path, last, Remove, JsonPatch.Delete(Shapes(tp.kids), i));
    u := PutChildren(p, JsonPatch.Delete(p.children, k), t, path, JsonPatch.Delete(tp.kids, i));
  }
}
