/**
  The tree of nodes that a patch changes in place. A twig is a ghost picture of
  a tree's shape: which node each child is.
 */
module DocTree {
  import opened Ascii
  import opened Tree
  import opened JsonPatch
  import opened PatchValues

  class DocNode {
    var kind: NodeKind
    var key: Bytes
    var rawKey: Bytes
    var value: Bytes
    var rawValue: Bytes
    var notes: Notes
    var children: seq<DocNode>

    constructor (k: NodeKind, key: Bytes, rawKey: Bytes, value: Bytes, rawValue: Bytes, notes: Notes, children: seq<DocNode>)
      ensures kind == k && this.key == key && this.rawKey == rawKey && this.value == value
      ensures this.rawValue == rawValue && this.notes == notes && this.children == children
    {
      kind, this.key, this.rawKey, this.value := k, key, rawKey, value;
      this.rawValue, this.notes, this.children := rawValue, notes, children;
    }
  }

  datatype Twig = Twig(node: DocNode, kids: seq<Twig>)

  ghost function Nodes(t: Twig): set<DocNode> { {t.node} + NodesOf(t.kids) }

  ghost function NodesOf(kids: seq<Twig>): set<DocNode> {
    set i, n | 0 <= i < |kids| && n in Nodes(kids[i]) :: n
  }

  lemma KidNodes(kids: seq<Twig>, i: nat)
    requires i < |kids|
    ensures Nodes(kids[i]) <= NodesOf(kids)
  {
  }

  /** The twig is the shape of the tree in the heap, and no node is in it
      twice. */
  ghost predicate Intact(t: Twig)
    reads Nodes(t)
    decreases t, 1
  {
    t.node.children == NodesAt(t.kids) && t.node !in NodesOf(t.kids) && Apart(t.kids) && AllIntact(t.kids)
  }

  ghost predicate AllIntact(kids: seq<Twig>)
    reads NodesOf(kids)
    decreases kids, 0
  {
    forall i :: 0 <= i < |kids| ==> Intact(kids[i])
  }

  ghost function NodesAt(kids: seq<Twig>): (ns: seq<DocNode>)
    ensures |ns| == |kids| && forall i :: 0 <= i < |kids| ==> ns[i] == kids[i].node
  {
    seq(|kids|, i requires 0 <= i < |kids| => kids[i].node)
  }

  ghost predicate Apart(kids: seq<Twig>) {
    forall i, j :: 0 <= i < j < |kids| ==> Nodes(kids[i]) !! Nodes(kids[j])
  }

  /** What a node holds besides its children. */
  function Label(v: Node): Node { v.(children := []) }

  ghost function LabelOf(n: DocNode): Node
    reads n
  {
    Node(n.kind, n.key, n.rawKey, n.value, n.rawValue, n.notes, [])
  }

  lemma LastKid(kids: seq<Twig>)
    requires kids != []
    ensures NodesOf(kids[..|kids| - 1]) <= NodesOf(kids) && Nodes(kids[|kids| - 1]) <= NodesOf(kids)
  {
    forall n | n in NodesOf(kids[..|kids| - 1])
      ensures n in NodesOf(kids)
    {
      var i :| 0 <= i < |kids| - 1 && n in Nodes(kids[..|kids| - 1][i]);
      assert n in Nodes(kids[i]);
    }
  }

  /** Everything in the tree, comments and source forms included. */
  ghost function Shape(t: Twig): Node
    reads Nodes(t)
    decreases t, 1
  {
    Node(t.node.kind, t.node.key, t.node.rawKey, t.node.value, t.node.rawValue, t.node.notes, Shapes(t.kids))
  }

  ghost function Shapes(kids: seq<Twig>): (ns: seq<Node>)
    reads NodesOf(kids)
    ensures |ns| == |kids|
    ensures forall i :: 0 <= i < |kids| ==> ns[i] == Shape(kids[i])
    decreases kids, 0
  {
    if kids == [] then []
    else
      LastKid(kids);
      Shapes(kids[..|kids| - 1]) + [Shape(kids[|kids| - 1])]
  }

  /** The nodes of a twig at hand are allocated. */
  lemma {:induction false} Known(t: Twig)
    ensures forall n :: n in Nodes(t) ==> allocated(n)
    decreases t
  {
    forall n | n in Nodes(t)
      ensures allocated(n)
    {
      if n != t.node {
        assert n in NodesOf(t.kids);
        var i :| 0 <= i < |t.kids| && n in Nodes(t.kids[i]);
        Known(t.kids[i]);
      }
    }
  }

  lemma KnownKids(kids: seq<Twig>)
    ensures forall n :: n in NodesOf(kids) ==> allocated(n)
  {
    forall n | n in NodesOf(kids)
      ensures allocated(n)
    {
      var i :| 0 <= i < |kids| && n in Nodes(kids[i]);
      Known(kids[i]);
    }
  }

  lemma KidsIntact(t: Twig)
    requires Intact(t)
    ensures t.node.children == NodesAt(t.kids) && Apart(t.kids) && AllIntact(t.kids)
    ensures forall i :: 0 <= i < |t.kids| ==> Intact(t.kids[i]) && t.node.children[i] == t.kids[i].node
  {
  }

  lemma Wrap(m: DocNode, kids: seq<Twig>)
    requires m.children == NodesAt(kids) && m !in NodesOf(kids) && Apart(kids) && AllIntact(kids)
    ensures Intact(Twig(m, kids)) && Nodes(Twig(m, kids)) == {m} + NodesOf(kids)
  {
  }

  lemma NoKids()
    ensures NodesOf([]) == {} && NodesAt([]) == [] && Apart([]) && AllIntact([]) && Shapes([]) == []
  {
  }

  /** cloneNode */
  method Clone(n: DocNode, ghost t: Twig) returns (m: DocNode, ghost s: Twig)
    requires Intact(t) && t.node == n
    ensures s.node == m && Intact(s) && fresh(Nodes(s)) && Shape(s) == Shape(t)
    decreases t
  {
    hide NodesOf, NodesAt, Apart, AllIntact, Intact, Shapes;
    var kids: seq<DocNode> := [];
    ghost var twigs: seq<Twig> := [];
    ghost var all: set<DocNode> := {};
    KidsIntact(t);
    NoKids();
    assert Shapes(t.kids)[..0] == [];
    for i := 0 to |n.children|
      invariant Intact(t) && Shape(t) == old(Shape(t)) && Shapes(t.kids) == old(Shapes(t.kids))
      invariant |twigs| == i && kids == NodesAt(twigs) && fresh(all) && all == NodesOf(twigs)
      invariant Apart(twigs) && AllIntact(twigs) && Shapes(twigs) == Shapes(t.kids)[..i]
    {
      var kid;
      ghost var twig;
      KidsIntact(t);
      Known(t);
      kid, twig := Clone(n.children[i], t.kids[i]);
      Push(twigs, twig);
      kids := kids + [kid];
      twigs := twigs + [twig];
      all := all + Nodes(twig);
      assert Shapes(t.kids)[..i + 1] == Shapes(t.kids)[..i] + [Shape(t.kids[i])];
    }
    assert Shapes(t.kids)[..|n.children|] == Shapes(t.kids);
    Known(t);
    KnownKids(twigs);
    m := new DocNode(n.kind, n.key, n.rawKey, n.value, n.rawValue, n.notes, kids);
    Wrap(m, twigs);
    s := Twig(m, twigs);
  }

  lemma Push(kids: seq<Twig>, t: Twig)
    ensures NodesOf(kids + [t]) == NodesOf(kids) + Nodes(t)
    ensures NodesAt(kids + [t]) == NodesAt(kids) + [t.node]
    ensures Shapes(kids + [t]) == Shapes(kids) + [Shape(t)]
    ensures AllIntact(kids) && Intact(t) ==> AllIntact(kids + [t])
    ensures Apart(kids) && NodesOf(kids) !! Nodes(t) ==> Apart(kids + [t])
  {
    hide Nodes, NodesOf, NodesAt, Shape, Shapes, Intact;
    var all := kids + [t];
    AtEnd(kids, t);
    InsertedNodes(kids, |kids|, t);
    assert NodesAt(all) == NodesAt(kids) + [t.node];
    assert Shapes(all) == Shapes(kids) + [Shape(t)];
    if Apart(kids) && NodesOf(kids) !! Nodes(t) {
      forall i, j | 0 <= i < j < |all|
        ensures Nodes(all[i]) !! Nodes(all[j])
      {
        KidNodes(kids, i);
      }
    }
  }

  lemma AtEnd<V>(vs: seq<V>, v: V)
    ensures Insert(vs, |vs|, v) == vs + [v]
  {
  }

  // Twigs by position

  predicate Reaches(t: Twig, path: seq<nat>)
    decreases path
  {
    path == [] || (path[0] < |t.kids| && Reaches(t.kids[path[0]], path[1..]))
  }

  function Sub(t: Twig, path: seq<nat>): Twig
    requires Reaches(t, path)
    decreases path
  {
    if path == [] then t else Sub(t.kids[path[0]], path[1..])
  }

  function PutTwig(t: Twig, path: seq<nat>, s: Twig): Twig
    requires Reaches(t, path)
    decreases path
  {
    if path == [] then s
    else t.(kids := t.kids[path[0] := PutTwig(t.kids[path[0]], path[1..], s)])
  }

  lemma {:induction false} SubIntact(t: Twig, path: seq<nat>)
    requires Intact(t) && Leads(Shape(t), path)
    ensures Reaches(t, path) && Intact(Sub(t, path)) && Nodes(Sub(t, path)) <= Nodes(t)
    ensures Shape(Sub(t, path)) == Part(Shape(t), path)
    decreases path
  {
    hide Nodes, NodesOf, Intact;
    if path != [] {
      KidsIntact(t);
      var k := t.kids[path[0]];
      SubIntact(k, path[1..]);
      KidNodes(t.kids, path[0]);
      NodesSplit(t);
    }
  }

  lemma NodesSplit(t: Twig)
    ensures Nodes(t) == {t.node} + NodesOf(t.kids)
  {
  }

  lemma {:induction false} SubOfSub(t: Twig, p: seq<nat>, q: seq<nat>)
    requires Reaches(t, p) && Reaches(Sub(t, p), q)
    ensures Reaches(t, p + q) && Sub(t, p + q) == Sub(Sub(t, p), q)
    decreases p
  {
    if p == [] {
      assert p + q == q;
    } else {
      assert (p + q)[0] == p[0] && (p + q)[1..] == p[1..] + q;
      SubOfSub(t.kids[p[0]], p[1..], q);
    }
  }

  /** Another twig in the place of one kid. */
  lemma NodesPut(kids: seq<Twig>, i: nat, s: Twig)
    requires i < |kids| && Apart(kids)
    ensures NodesOf(kids[i := s]) == (NodesOf(kids) - Nodes(kids[i])) + Nodes(s)
  {
    hide Nodes;
    var all := kids[i := s];
    forall n | n in NodesOf(all)
      ensures n in Nodes(s) || n in NodesOf(kids) - Nodes(kids[i])
    {
      var j :| 0 <= j < |all| && n in Nodes(all[j]);
      if j != i {
        assert n in Nodes(kids[j]);
      }
    }
    forall n | n in NodesOf(kids) - Nodes(kids[i])
      ensures n in NodesOf(all)
    {
      var j :| 0 <= j < |kids| && n in Nodes(kids[j]);
      assert n in Nodes(all[j]);
    }
    assert all[i] == s;
  }

  lemma ApartPut(kids: seq<Twig>, i: nat, s: Twig)
    requires i < |kids| && Apart(kids) && Nodes(s) !! (NodesOf(kids) - Nodes(kids[i]))
    ensures Apart(kids[i := s])
  {
    hide Nodes;
    var all := kids[i := s];
    forall j, k | 0 <= j < k < |all|
      ensures Nodes(all[j]) !! Nodes(all[k])
    {
      KidNodes(kids, j);
      KidNodes(kids, k);
    }
  }

  /** No node is in the twig twice. */
  ghost predicate Tidy(t: Twig)
    decreases t
  {
    t.node !in NodesOf(t.kids) && Apart(t.kids) && forall i :: 0 <= i < |t.kids| ==> Tidy(t.kids[i])
  }

  lemma {:induction false} IntactIsTidy(t: Twig)
    requires Intact(t)
    ensures Tidy(t)
    decreases t
  {
    KidsIntact(t);
    forall i | 0 <= i < |t.kids|
      ensures Tidy(t.kids[i])
    {
      IntactIsTidy(t.kids[i]);
    }
  }

  /** Everything in the tree but the part at path is intact, and is as v has
      it. */
  ghost predicate Surrounds(t: Twig, path: seq<nat>, v: Node)
    requires Tidy(t) && Reaches(t, path) && Leads(v, path)
    reads Nodes(t) - Nodes(Sub(t, path))
    decreases path
  {
    path == []
    || (var i := path[0];
        SubNodes(t.kids[i], path[1..]);
        KidNodes(t.kids, i);
        assert t.node !in Nodes(Sub(t, path));
        t.node.children == NodesAt(t.kids) && LabelOf(t.node) == Label(v) && |v.children| == |t.kids|
        && OthersAre(t, i, v.children)
        && Surrounds(t.kids[i], path[1..], v.children[i]))
  }

  ghost predicate OthersAre(t: Twig, i: nat, items: seq<Node>)
    requires Tidy(t) && i < |t.kids| == |items|
    reads NodesOf(t.kids) - Nodes(t.kids[i])
  {
    forall j :: 0 <= j < |t.kids| && j != i ==>
      (KidsDiffer(t, i, j); Intact(t.kids[j]) && Shape(t.kids[j]) == items[j])
  }

  lemma KidsDiffer(t: Twig, i: nat, j: nat)
    requires i < |t.kids| && j < |t.kids| && j != i && Apart(t.kids)
    ensures Nodes(t.kids[j]) <= NodesOf(t.kids) - Nodes(t.kids[i])
  {
    KidNodes(t.kids, j);
    assert Nodes(t.kids[j]) !! Nodes(t.kids[i]);
  }

  lemma {:induction false} SubNodes(t: Twig, path: seq<nat>)
    requires Reaches(t, path)
    ensures Nodes(Sub(t, path)) <= Nodes(t)
    decreases path
  {
    if path != [] {
      SubNodes(t.kids[path[0]], path[1..]);
      KidNodes(t.kids, path[0]);
    }
  }

  lemma {:induction false} IntactSurrounds(t: Twig, path: seq<nat>)
    requires Intact(t) && Reaches(t, path) && Leads(Shape(t), path)
    ensures Tidy(t) && Surrounds(t, path, Shape(t))
    decreases path
  {
    IntactIsTidy(t);
    if path != [] {
      KidsIntact(t);
      IntactSurrounds(t.kids[path[0]], path[1..]);
    }
  }

  /** With another part in its place, the whole is intact, and it is the tree
      with that part there. */
  lemma {:induction false} PutKeeps(t: Twig, path: seq<nat>, s: Twig, v: Node)
    requires Tidy(t) && Reaches(t, path) && Leads(v, path) && Surrounds(t, path, v)
    requires Intact(s) && s.node == Sub(t, path).node && Nodes(s) !! (Nodes(t) - Nodes(Sub(t, path)))
    ensures var u := PutTwig(t, path, s);
            u.node == t.node && Intact(u) && Nodes(u) == Nodes(t) - Nodes(Sub(t, path)) + Nodes(s)
            && Shape(u) == PutPart(v, path, Shape(s))
    decreases path
  {
    hide Nodes, NodesOf;
    if path != [] {
      var i := path[0];
      var k := t.kids[i];
      SubNodes(k, path[1..]);
      KidNodes(t.kids, i);
      NodesSplit(t);
      PutKeeps(k, path[1..], s, v.children[i]);
      var x := PutTwig(k, path[1..], s);
      NodesPut(t.kids, i, x);
      ApartPut(t.kids, i, x);
      var u := Twig(t.node, t.kids[i := x]);
      NodesSplit(u);
      assert Shapes(u.kids) == v.children[i := Shape(x)];
    }
  }

  // Lists of kids

  lemma InsertAt<V>(vs: seq<V>, i: nat, v: V)
    requires i <= |vs|
    ensures |Insert(vs, i, v)| == |vs| + 1 && Insert(vs, i, v)[i] == v
    ensures forall j :: 0 <= j <= |vs| && j != i ==> Insert(vs, i, v)[j] == vs[Ahead(i, j)]
  {
  }

  lemma InsertedNodes(kids: seq<Twig>, i: nat, x: Twig)
    requires i <= |kids|
    ensures NodesOf(Insert(kids, i, x)) == NodesOf(kids) + Nodes(x)
  {
    hide Nodes, Insert;
    InsertAt(kids, i, x);
    var all := Insert(kids, i, x);
    forall n | n in NodesOf(all)
      ensures n in NodesOf(kids) + Nodes(x)
    {
      var j :| 0 <= j < |all| && n in Nodes(all[j]);
      if j != i {
        assert n in Nodes(kids[Ahead(i, j)]);
      }
    }
    forall n | n in NodesOf(kids)
      ensures n in NodesOf(all)
    {
      var j :| 0 <= j < |kids| && n in Nodes(kids[j]);
      assert n in Nodes(all[if j < i then j else j + 1]);
    }
    KidNodes(all, i);
  }

  lemma InsertKid(kids: seq<Twig>, i: nat, x: Twig)
    requires i <= |kids| && AllIntact(kids) && Apart(kids) && Intact(x) && Nodes(x) !! NodesOf(kids)
    ensures var all := Insert(kids, i, x);
            AllIntact(all) && Apart(all) && NodesOf(all) == NodesOf(kids) + Nodes(x)
            && NodesAt(all) == Insert(NodesAt(kids), i, x.node) && Shapes(all) == Insert(Shapes(kids), i, Shape(x))
  {
    hide Nodes, NodesOf, NodesAt, Intact, Shape, Shapes, Insert;
    var all := Insert(kids, i, x);
    InsertAt(kids, i, x);
    InsertAt(NodesAt(kids), i, x.node);
    InsertAt(Shapes(kids), i, Shape(x));
    InsertedNodes(kids, i, x);
    forall j, k | 0 <= j < k < |all|
      ensures Nodes(all[j]) !! Nodes(all[k])
    {
      if j != i {
        KidNodes(kids, Ahead(i, j));
      }
      if k != i {
        KidNodes(kids, Ahead(i, k));
      }
    }
  }

  lemma DeletedNodes(kids: seq<Twig>, i: nat)
    requires i < |kids|
    ensures NodesOf(Delete(kids, i)) <= NodesOf(kids)
  {
    hide Nodes, Delete;
    Deleted(kids, i);
    var all := Delete(kids, i);
    forall n | n in NodesOf(all)
      ensures n in NodesOf(kids)
    {
      var j :| 0 <= j < |all| && n in Nodes(all[j]);
      assert n in Nodes(kids[Behind(i, j)]);
    }
  }

  lemma DeleteKid(kids: seq<Twig>, i: nat)
    requires i < |kids| && AllIntact(kids) && Apart(kids)
    ensures var all := Delete(kids, i);
            AllIntact(all) && Apart(all) && NodesOf(all) <= NodesOf(kids)
            && NodesAt(all) == Delete(NodesAt(kids), i) && Shapes(all) == Delete(Shapes(kids), i)
  {
    hide Nodes, NodesOf, NodesAt, Intact, Shape, Shapes, Delete;
    Deleted(kids, i);
    Deleted(NodesAt(kids), i);
    Deleted(Shapes(kids), i);
    DeletedNodes(kids, i);
    var all := Delete(kids, i);
    forall j, k | 0 <= j < k < |all|
      ensures Nodes(all[j]) !! Nodes(all[k])
    {
      assert Behind(i, j) < Behind(i, k);
    }
  }

  lemma ReplaceKid(kids: seq<Twig>, i: nat, x: Twig)
    requires i < |kids| && AllIntact(kids) && Apart(kids) && Intact(x) && Nodes(x) !! NodesOf(kids)
    ensures var all := kids[i := x];
            AllIntact(all) && Apart(all) && NodesOf(all) <= NodesOf(kids) + Nodes(x)
            && NodesAt(all) == NodesAt(kids)[i := x.node] && Shapes(all) == Shapes(kids)[i := Shape(x)]
  {
    hide Nodes, NodesOf, NodesAt, Intact, Shape, Shapes;
    NodesPut(kids, i, x);
    ApartPut(kids, i, x);
    assert NodesAt(kids[i := x]) == NodesAt(kids)[i := x.node];
    assert Shapes(kids[i := x]) == Shapes(kids)[i := Shape(x)];
  }

  /** A single kid. */
  lemma OneKid(x: Twig)
    requires Intact(x)
    ensures AllIntact([x]) && Apart([x]) && NodesOf([x]) == Nodes(x) && NodesAt([x]) == [x.node]
    ensures Shapes([x]) == [Shape(x)]
  {
    hide Nodes, NodesOf, NodesAt, Intact, Shape, Shapes;
    var one := [x];
    NodesOfOne(x);
    assert one[0] == x;
  }

  lemma NodesOfOne(x: Twig)
    ensures NodesOf([x]) == Nodes(x)
  {
    hide Nodes;
    var one := [x];
    assert one[0] == x;
    KidNodes(one, 0);
  }
}
