/**
  The patch operations on trees, whose objects are lists of members in order and
  whose nodes have comments, and what they mean as JSON values.
 */
module PatchValues {
  import opened Ascii
  import opened Lexer
  import opened Tree
  import opened Pointers
  import opened JsonPatch
  import opened WellFormed

  /** The index of the first member with this key. */
  function Find(items: seq<Node>, key: Bytes): (r: Option<nat>)
    ensures r.Some? ==> r.value < |items| && items[r.value].key == key
                        && forall i :: 0 <= i < r.value ==> items[i].key != key
    ensures r == None ==> forall i :: 0 <= i < |items| ==> items[i].key != key
  {
    if items == [] then None
    else if items[0].key == key then Some(0)
    else Plus(1, Find(items[1..], key))
  }

  ghost predicate UniqueKeys(items: seq<Node>) {
    forall i, j :: 0 <= i < j < |items| ==> items[i].key != items[j].key
  }

  predicate IsMember(m: Node) { m.kind == KeyValueNode && |m.children| == 1 }

  /** A value as the parser builds it: an object's items are members with one
      value each, and no two members have the same key. */
  ghost predicate Proper(v: Node)
    decreases v
  {
    match v.kind
    case ObjectNode =>
      UniqueKeys(v.children) && forall i :: 0 <= i < |v.children| ==> IsMember(v.children[i]) && Proper(v.children[i].children[0])
    case ArrayNode => forall i :: 0 <= i < |v.children| ==> Proper(v.children[i])
    case KeyValueNode => false
    case NullNode => v.value == NULL_WORD && v.children == []
    case _ => v.children == []
  }

  function Keys(items: seq<Node>): set<Bytes> { set i | 0 <= i < |items| :: items[i].key }

  /** The JSON value that a proper value is. */
  ghost function Meaning(v: Node): Json
    requires Proper(v)
    decreases v
  {
    match v.kind
    case ObjectNode =>
      Object(map k | k in Keys(v.children) :: k := Meaning(v.children[Find(v.children, k).value].children[0]))
    case ArrayNode => Array(seq(|v.children|, i requires 0 <= i < |v.children| => Meaning(v.children[i])))
    case StringNode => String(v.value)
    case NumberNode => Number(v.value)
    case BoolNode => Bool(v.value)
    case NullNode => Null
  }

  /** The key of a proper object's member finds it. */
  lemma FindUnique(items: seq<Node>, i: nat)
    requires UniqueKeys(items) && i < |items|
    ensures Find(items, items[i].key) == Some(i)
  {
  }

  // Places

  /** descend: the value that one token leads to. */
  function ChildValue(v: Node, tok: Bytes): Option<Node> {
    match v.kind
    case ObjectNode =>
      (match Find(v.children, tok)
       case Some(i) => if v.children[i].children != [] then Some(v.children[i].children[0]) else None
       case None => None)
    case ArrayNode =>
      (match ArrayIndex(tok)
       case Some(i) => if i < |v.children| then Some(v.children[i]) else None
       case None => None)
    case _ => None
  }

  function GetValue(v: Node, ts: Tokens): Option<Node>
    decreases ts
  {
    if ts == [] then Some(v)
    else
      match ChildValue(v, ts[0])
      case None => None
      case Some(c) => GetValue(c, ts[1..])
  }

  function WithValue(m: Node, c: Node): Node { m.(children := [c]) }

  function SetChildValue(v: Node, tok: Bytes, c: Node): Node {
    match v.kind
    case ObjectNode =>
      (match Find(v.children, tok)
       case Some(i) => v.(children := v.children[i := WithValue(v.children[i], c)])
       case None => v)
    case ArrayNode =>
      (match ArrayIndex(tok)
       case Some(i) => if i < |v.children| then v.(children := v.children[i := c]) else v
       case None => v)
    case _ => v
  }

  function NewMember(key: Bytes, c: Node): Node { Node(KeyValueNode, key, [], [], [], NO_NOTES, [c]) }

  /** The members after an edit: one that is there keeps its place, and a new
      one goes to the end. */
  function EditMembers(items: seq<Node>, tok: Bytes, e: Edit<Node>): Option<seq<Node>> {
    match Find(items, tok)
    case None => if e.Add? then Some(items + [NewMember(tok, e.value)]) else None
    case Some(i) =>
      if e.Remove? then Some(Delete(items, i)) else Some(items[i := WithValue(items[i], e.value)])
  }

  predicate HasComments(n: Notes) { n != NO_NOTES }

  /** replacementNode: x, with the comments of the node it replaces if it has
      none. */
  function Replacement(was: Node, x: Node): Node {
    if HasComments(x.notes) then x else x.(notes := was.notes)
  }

  /** The edit of an array: a replaced element hands its comments on. */
  function Handing(items: seq<Node>, tok: Bytes, e: Edit<Node>): Edit<Node> {
    if e.Replace? && ArrayIndex(tok).Some? && ArrayIndex(tok).value < |items| then
      Replace(Replacement(items[ArrayIndex(tok).value], e.value))
    else e
  }

  function EditItems(v: Node, tok: Bytes, e: Edit<Node>): Option<seq<Node>> {
    match v.kind
    case ObjectNode => EditMembers(v.children, tok, e)
    case ArrayNode => EditArray(v.children, tok, Handing(v.children, tok, e))
    case _ => None
  }

  function EditValueAt(v: Node, tok: Bytes, e: Edit<Node>): Option<Node> {
    match EditItems(v, tok, e)
    case None => None
    case Some(items) => Some(v.(children := items))
  }

  function EditValue(v: Node, ts: Tokens, e: Edit<Node>): Option<Node>
    requires ts != []
    decreases ts
  {
    if |ts| == 1 then EditValueAt(v, ts[0], e)
    else
      match ChildValue(v, ts[0])
      case None => None
      case Some(c) =>
        match EditValue(c, ts[1..], e)
        case None => None
        case Some(d) => Some(SetChildValue(v, ts[0], d))
  }

  // What the edits mean

  ghost predicate ProperEdit(e: Edit<Node>) { e.Remove? || Proper(e.value) }

  ghost function MeaningOf(e: Edit<Node>): Edit<Json>
    requires ProperEdit(e)
  {
    match e
    case Add(v) => Add(Meaning(v))
    case Remove => Remove
    case Replace(v) => Replace(Meaning(v))
  }

  ghost function Members(items: seq<Node>): map<Bytes, Json>
    requires ProperMembers(items)
  {
    map k | k in Keys(items) :: k := Meaning(items[Find(items, k).value].children[0])
  }

  ghost predicate ProperMembers(items: seq<Node>) {
    UniqueKeys(items) && forall i :: 0 <= i < |items| ==> IsMember(items[i]) && Proper(items[i].children[0])
  }

  lemma MembersAt(items: seq<Node>, i: nat)
    requires ProperMembers(items) && i < |items|
    ensures items[i].key in Members(items) && Members(items)[items[i].key] == Meaning(items[i].children[0])
  {
    FindUnique(items, i);
  }

  lemma MeaningOfObject(v: Node)
    requires Proper(v) && v.kind == ObjectNode
    ensures ProperMembers(v.children) && Meaning(v) == Object(Members(v.children))
  {
  }

  lemma ProperObject(v: Node, items: seq<Node>)
    requires v.kind == ObjectNode && ProperMembers(items)
    ensures Proper(v.(children := items)) && Meaning(v.(children := items)) == Object(Members(items))
  {
  }

  ghost predicate ProperItems(items: seq<Node>) { forall i :: 0 <= i < |items| ==> Proper(items[i]) }

  ghost function Meanings(items: seq<Node>): (js: seq<Json>)
    requires ProperItems(items)
    ensures |js| == |items| && forall i :: 0 <= i < |items| ==> js[i] == Meaning(items[i])
  {
    seq(|items|, i requires 0 <= i < |items| => Meaning(items[i]))
  }

  lemma MeaningOfArray(v: Node, items: seq<Node>)
    requires v.kind == ArrayNode && ProperItems(items)
    ensures Proper(v.(children := items)) && Meaning(v.(children := items)) == Array(Meanings(items))
  {
    assert Meaning(v.(children := items)).items == Meanings(items);
  }

  lemma ItemsAreProper(v: Node)
    requires Proper(v)
    ensures v.kind == ArrayNode ==> ProperItems(v.children) && Meaning(v) == Array(Meanings(v.children))
    ensures v.kind == ObjectNode ==> ProperMembers(v.children) && Meaning(v) == Object(Members(v.children))
    ensures v.kind != ArrayNode && v.kind != ObjectNode ==> !Meaning(v).Array? && !Meaning(v).Object?
  {
    if v.kind == ArrayNode {
      assert v.(children := v.children) == v;
      MeaningOfArray(v, v.children);
    }
  }

  lemma ChildMeaning(v: Node, tok: Bytes)
    requires Proper(v)
    ensures ChildValue(v, tok).Some? ==> Proper(ChildValue(v, tok).value)
    ensures match ChildValue(v, tok)
            case None => Child(Meaning(v), tok) == None
            case Some(c) => Child(Meaning(v), tok) == Some(Meaning(c))
  {
    hide ArrayIndex, Meaning, Proper;
    ItemsAreProper(v);
    if v.kind == ObjectNode {
      var r := Find(v.children, tok);
      if r.Some? {
        MembersAt(v.children, r.value);
        assert IsMember(v.children[r.value]);
      }
    }
  }

  /** Following a pointer and taking the meaning commute. */
  lemma {:induction false} GetMeaning(v: Node, ts: Tokens)
    requires Proper(v)
    ensures GetValue(v, ts).Some? ==> Proper(GetValue(v, ts).value)
    ensures match GetValue(v, ts)
            case None => Get(Meaning(v), ts) == None
            case Some(c) => Get(Meaning(v), ts) == Some(Meaning(c))
    decreases ts
  {
    hide ChildValue, Child, Proper, Meaning;
    if ts != [] {
      ChildMeaning(v, ts[0]);
      var c := ChildValue(v, ts[0]);
      if c.Some? {
        GetMeaning(c.value, ts[1..]);
      }
    }
  }

  /** A member with another value. */
  lemma MemberSet(items: seq<Node>, i: nat, c: Node)
    requires ProperMembers(items) && i < |items| && Proper(c)
    ensures var after := items[i := WithValue(items[i], c)];
            ProperMembers(after) && Members(after) == Members(items)[items[i].key := Meaning(c)]
  {
    hide Proper, Meaning;
    var after := items[i := WithValue(items[i], c)];
    assert forall j :: 0 <= j < |items| ==> after[j].key == items[j].key;
    assert Keys(after) == Keys(items);
    forall k | k in Keys(after)
      ensures Members(after)[k] == Members(items)[items[i].key := Meaning(c)][k]
    {
      var j := Find(items, k).value;
      FindUnique(after, j);
    }
  }

  lemma KeysAdded(items: seq<Node>, m: Node)
    ensures Keys(items + [m]) == Keys(items) + {m.key}
  {
    var after := items + [m];
    assert after[|items|] == m;
    forall k | k in Keys(items)
      ensures k in Keys(after)
    {
      var j := Find(items, k).value;
      assert after[j].key == k;
    }
  }

  lemma MemberAdded(items: seq<Node>, key: Bytes, c: Node)
    requires ProperMembers(items) && Find(items, key) == None && Proper(c)
    ensures var after := items + [NewMember(key, c)];
            ProperMembers(after) && Members(after) == Members(items)[key := Meaning(c)]
  {
    hide Proper, Meaning, Keys;
    var after := items + [NewMember(key, c)];
    assert forall j :: 0 <= j < |items| ==> after[j] == items[j];
    assert UniqueKeys(after);
    KeysAdded(items, NewMember(key, c));
    FindUnique(after, |items|);
    forall k | k in Keys(after)
      ensures Members(after)[k] == Members(items)[key := Meaning(c)][k]
    {
      if k != key {
        KeyFound(items, k);
        FindUnique(after, Find(items, k).value);
      }
    }
  }

  lemma KeyFound(items: seq<Node>, k: Bytes)
    ensures k in Keys(items) <==> Find(items, k).Some?
  {
  }

  function Behind(i: nat, j: nat): nat { if j < i then j else j + 1 }

  function Ahead(i: nat, j: nat): nat
    requires j != i
  {
    if j < i then j else j - 1
  }

  lemma Deleted<V>(items: seq<V>, i: nat)
    requires i < |items|
    ensures |Delete(items, i)| == |items| - 1
    ensures forall j :: 0 <= j < |items| - 1 ==> Delete(items, i)[j] == items[Behind(i, j)]
    ensures forall j :: 0 <= j < |items| && j != i ==> Delete(items, i)[Ahead(i, j)] == items[j]
  {
  }

  lemma KeysRemoved(items: seq<Node>, i: nat)
    requires UniqueKeys(items) && i < |items|
    ensures Keys(Delete(items, i)) == Keys(items) - {items[i].key}
  {
    hide Delete;
    Deleted(items, i);
    var after := Delete(items, i);
    forall k | k in Keys(items) && k != items[i].key
      ensures k in Keys(after)
    {
      var j := Find(items, k).value;
      assert after[Ahead(i, j)].key == k;
    }
  }

  lemma RemovedIsProper(items: seq<Node>, i: nat)
    requires ProperMembers(items) && i < |items|
    ensures ProperMembers(Delete(items, i))
  {
    hide Proper, Delete;
    Deleted(items, i);
    var after := Delete(items, i);
    forall j, k | 0 <= j < k < |after|
      ensures after[j].key != after[k].key
    {
      assert after[j] == items[Behind(i, j)] && after[k] == items[Behind(i, k)];
    }
    forall j | 0 <= j < |after|
      ensures IsMember(after[j]) && Proper(after[j].children[0])
    {
      assert after[j] == items[Behind(i, j)];
    }
  }

  lemma MemberRemoved(items: seq<Node>, i: nat)
    requires ProperMembers(items) && i < |items|
    ensures var after := Delete(items, i);
            ProperMembers(after) && Members(after) == Members(items) - {items[i].key}
  {
    hide Proper, Meaning, Delete, ProperMembers;
    var after := Delete(items, i);
    RemovedIsProper(items, i);
    Deleted(items, i);
    UniqueOf(items);
    KeysRemoved(items, i);
    forall k | k in Keys(after)
      ensures Members(after)[k] == (Members(items) - {items[i].key})[k]
    {
      FindUnique(items, Behind(i, Find(after, k).value));
    }
  }

  lemma UniqueOf(items: seq<Node>)
    requires ProperMembers(items)
    ensures UniqueKeys(items)
  {
  }

  lemma EditMembersMeaning(items: seq<Node>, tok: Bytes, e: Edit<Node>)
    requires ProperMembers(items) && ProperEdit(e)
    ensures match EditMembers(items, tok, e)
            case None => EditObject(Members(items), tok, MeaningOf(e)) == None
            case Some(after) => ProperMembers(after) && EditObject(Members(items), tok, MeaningOf(e)) == Some(Members(after))
  {
    hide Proper, Meaning;
    var r := Find(items, tok);
    if r == None {
      assert tok !in Members(items);
      if e.Add? {
        MemberAdded(items, tok, e.value);
      }
    } else {
      MembersAt(items, r.value);
      if e.Remove? {
        MemberRemoved(items, r.value);
      } else {
        MemberSet(items, r.value, e.value);
      }
    }
  }

  lemma EditArrayMeaning(items: seq<Node>, tok: Bytes, e: Edit<Node>)
    requires ProperItems(items) && ProperEdit(e)
    ensures match EditArray(items, tok, e)
            case None => EditArray(Meanings(items), tok, MeaningOf(e)) == None
            case Some(after) => ProperItems(after) && EditArray(Meanings(items), tok, MeaningOf(e)) == Some(Meanings(after))
  {
    hide Proper, Meaning, ArrayIndex;
    if EditArray(items, tok, e).Some? {
      var after := EditArray(items, tok, e).value;
      assert Meanings(after) == EditArray(Meanings(items), tok, MeaningOf(e)).value;
    }
  }

  lemma HandingMeans(items: seq<Node>, tok: Bytes, e: Edit<Node>)
    requires ProperEdit(e)
    ensures var h := Handing(items, tok, e); ProperEdit(h) && MeaningOf(h) == MeaningOf(e)
  {
    hide ArrayIndex;
    if e.Replace? && ArrayIndex(tok).Some? && ArrayIndex(tok).value < |items| {
      NotesMeanNothing(e.value, items[ArrayIndex(tok).value].notes);
    }
  }

  lemma NotesMeanNothing(v: Node, notes: Notes)
    requires Proper(v)
    ensures Proper(v.(notes := notes)) && Meaning(v.(notes := notes)) == Meaning(v)
  {
    var w := v.(notes := notes);
    if v.kind == ObjectNode {
      MeaningOfObject(v);
      MeaningOfObject(w);
    } else if v.kind == ArrayNode {
      assert v.(children := v.children) == v && w.(children := w.children) == w;
      MeaningOfArray(v, v.children);
      MeaningOfArray(w, w.children);
    }
  }

  /** Neither comments nor source forms matter to the meaning. */
  lemma {:induction false} MeaningOfValue(a: Node, b: Node)
    requires Proper(a) && ValueOf(a) == ValueOf(b)
    ensures Proper(b) && Meaning(a) == Meaning(b)
    decreases a
  {
    forall i | 0 <= i < |a.children|
      ensures ValueOf(a.children[i]) == ValueOf(b.children[i])
    {
      assert ValuesOf(a.children)[i] == ValuesOf(b.children)[i];
    }
    if a.kind == ObjectNode {
      MeaningOfObject(a);
      MembersOfValues(a, b);
      assert b.(children := b.children) == b;
      ProperObject(b, b.children);
    } else if a.kind == ArrayNode {
      forall i | 0 <= i < |a.children|
        ensures Proper(b.children[i]) && Meaning(a.children[i]) == Meaning(b.children[i])
      {
        MeaningOfValue(a.children[i], b.children[i]);
      }
      assert a.(children := a.children) == a && b.(children := b.children) == b;
      MeaningOfArray(a, a.children);
      MeaningOfArray(b, b.children);
      assert Meanings(a.children) == Meanings(b.children);
    }
  }

  lemma {:induction false} SameFind(a: seq<Node>, b: seq<Node>, key: Bytes)
    requires |a| == |b| && forall i :: 0 <= i < |a| ==> a[i].key == b[i].key
    ensures Find(a, key) == Find(b, key)
  {
    if a != [] {
      SameFind(a[1..], b[1..], key);
    }
  }

  lemma {:induction false} MembersOfValues(a: Node, b: Node)
    requires Proper(a) && a.kind == ObjectNode && |a.children| == |b.children|
    requires forall i :: 0 <= i < |a.children| ==> ValueOf(a.children[i]) == ValueOf(b.children[i])
    ensures ProperMembers(a.children) && ProperMembers(b.children) && Members(a.children) == Members(b.children)
    decreases a, 0
  {
    hide Proper, Meaning, Find, Keys;
    MeaningOfObject(a);
    var x, y := a.children, b.children;
    forall i | 0 <= i < |x|
      ensures x[i].key == y[i].key && IsMember(y[i]) && Proper(y[i].children[0])
      ensures Meaning(x[i].children[0]) == Meaning(y[i].children[0])
    {
      assert IsMember(x[i]);
      FirstValue(x[i], y[i]);
      MeaningOfValue(x[i].children[0], y[i].children[0]);
    }
    assert ProperMembers(y);
    assert Members(x).Keys == Members(y).Keys by {
      SameKeysOf(x, y);
    }
    forall k | k in Keys(x)
      ensures Members(x)[k] == Members(y)[k]
    {
      KeyFound(x, k);
      SameFind(x, y, k);
    }
  }

  lemma SameKeysOf(a: seq<Node>, b: seq<Node>)
    requires |a| == |b| && forall i :: 0 <= i < |a| ==> a[i].key == b[i].key
    ensures Keys(a) == Keys(b)
  {
    forall k
      ensures k in Keys(a) <==> k in Keys(b)
    {
      KeyFound(a, k);
      KeyFound(b, k);
      SameFind(a, b, k);
    }
  }

  lemma FirstValue(a: Node, b: Node)
    requires ValueOf(a) == ValueOf(b) && a.children != []
    ensures a.kind == b.kind && a.key == b.key && |a.children| == |b.children|
    ensures ValueOf(a.children[0]) == ValueOf(b.children[0])
  {
    assert ValuesOf(a.children)[0] == ValuesOf(b.children)[0];
  }

  lemma EditAtMeaning(v: Node, tok: Bytes, e: Edit<Node>)
    requires Proper(v) && ProperEdit(e)
    ensures match EditValueAt(v, tok, e)
            case None => EditAt(Meaning(v), tok, MeaningOf(e)) == None
            case Some(after) => Proper(after) && EditAt(Meaning(v), tok, MeaningOf(e)) == Some(Meaning(after))
  {
    hide EditMembers, EditArray, EditObject, Members, Meanings;
    if v.kind == ObjectNode {
      MeaningOfObject(v);
      EditMembersMeaning(v.children, tok, e);
      var r := EditMembers(v.children, tok, e);
      if r.Some? {
        ProperObject(v, r.value);
      }
    } else if v.kind == ArrayNode {
      assert v.(children := v.children) == v;
      MeaningOfArray(v, v.children);
      var h := Handing(v.children, tok, e);
      HandingMeans(v.children, tok, e);
      EditArrayMeaning(v.children, tok, h);
      var r := EditArray(v.children, tok, h);
      if r.Some? {
        MeaningOfArray(v, r.value);
      }
    }
  }

  lemma SetChildMeaning(v: Node, tok: Bytes, c: Node)
    requires Proper(v) && Proper(c) && ChildValue(v, tok).Some?
    ensures Proper(SetChildValue(v, tok, c)) && Meaning(SetChildValue(v, tok, c)) == SetChild(Meaning(v), tok, Meaning(c))
  {
    hide Members, Meanings, ArrayIndex;
    if v.kind == ObjectNode {
      MeaningOfObject(v);
      var i := Find(v.children, tok).value;
      MemberSet(v.children, i, c);
      ProperObject(v, v.children[i := WithValue(v.children[i], c)]);
    } else {
      assert v.(children := v.children) == v;
      MeaningOfArray(v, v.children);
      var i := ArrayIndex(tok).value;
      MeaningOfArray(v, v.children[i := c]);
      assert Meanings(v.children[i := c]) == Meanings(v.children)[i := Meaning(c)];
    }
  }

  /** Editing and taking the meaning commute, and an edited value is proper: its
      keys stay unique. */
  lemma {:induction false} EditMeaning(v: Node, ts: Tokens, e: Edit<Node>)
    requires ts != [] && Proper(v) && ProperEdit(e)
    ensures match EditValue(v, ts, e)
            case None => EditIn(Meaning(v), ts, MeaningOf(e)) == None
            case Some(after) => Proper(after) && EditIn(Meaning(v), ts, MeaningOf(e)) == Some(Meaning(after))
    decreases ts
  {
    hide Proper, Meaning, ChildValue, Child, EditValueAt, EditAt, SetChildValue, SetChild, MeaningOf;
    if |ts| == 1 {
      EditAtMeaning(v, ts[0], e);
    } else {
      ChildMeaning(v, ts[0]);
      var c := ChildValue(v, ts[0]);
      if c.Some? {
        EditMeaning(c.value, ts[1..], e);
        var d := EditValue(c.value, ts[1..], e);
        if d.Some? {
          SetChildMeaning(v, ts[0], d.value);
        }
      }
    }
  }

  /** The order of an object's members does not matter, nor do their comments and
      source forms. */
  lemma PermutedMembers(a: Node, b: Node)
    requires Proper(a) && Proper(b) && a.kind == b.kind == ObjectNode
    requires multiset(ValuesOf(a.children)) == multiset(ValuesOf(b.children))
    ensures Meaning(a) == Meaning(b)
  {
    hide Proper, Meaning, Members, ProperMembers, ValuesOf;
    MeaningOfObject(a);
    MeaningOfObject(b);
    SameMembers(a.children, b.children);
    SameMembers(b.children, a.children);
    SameMaps(Members(a.children), Members(b.children));
  }

  lemma SameMaps<K, V>(m: map<K, V>, n: map<K, V>)
    requires forall k :: k in m ==> k in n && n[k] == m[k]
    requires forall k :: k in n ==> k in m
    ensures m == n
  {
  }

  lemma SameMembers(a: seq<Node>, b: seq<Node>)
    requires ProperMembers(a) && ProperMembers(b) && multiset(ValuesOf(a)) == multiset(ValuesOf(b))
    ensures forall k :: k in Members(a) ==> k in Members(b) && Members(b)[k] == Members(a)[k]
  {
    hide Proper, Meaning, ValuesOf;
    forall k | k in Members(a)
      ensures k in Members(b) && Members(b)[k] == Members(a)[k]
    {
      var i := Find(a, k).value;
      assert ValuesOf(a)[i] in multiset(ValuesOf(b));
      var j :| 0 <= j < |b| && ValuesOf(b)[j] == ValueOf(a[i]);
      MembersAt(b, j);
      assert ValuesOf(a[i].children)[0] == ValuesOf(b[j].children)[0];
      MeaningOfValue(a[i].children[0], b[j].children[0]);
    }
  }

  /** The trees that the parser builds are proper. */
  lemma {:induction false} ParsedIsProper(n: Node)
    requires WfNode(n) && n.kind != KeyValueNode
    ensures Proper(n)
    decreases n
  {
    forall i | 0 <= i < |n.children|
      ensures n.kind == ArrayNode ==> Proper(n.children[i])
      ensures n.kind == ObjectNode ==> IsMember(n.children[i]) && Proper(n.children[i].children[0])
    {
      var m := n.children[i];
      if n.kind == ArrayNode {
        ParsedIsProper(m);
      } else if n.kind == ObjectNode {
        assert WfNode(m) && m.kind == KeyValueNode;
        assert WfKids(m.children, false);
        ParsedIsProper(m.children[0]);
      }
    }
  }

  // Values by position

  /** The indexes lead somewhere in v. */
  predicate Leads(v: Node, path: seq<nat>)
    decreases path
  {
    path == [] || (path[0] < |v.children| && Leads(v.children[path[0]], path[1..]))
  }

  function Part(v: Node, path: seq<nat>): Node
    requires Leads(v, path)
    decreases path
  {
    if path == [] then v else Part(v.children[path[0]], path[1..])
  }

  /** v with another part. */
  function PutPart(v: Node, path: seq<nat>, w: Node): Node
    requires Leads(v, path)
    decreases path
  {
    if path == [] then w
    else v.(children := v.children[path[0] := PutPart(v.children[path[0]], path[1..], w)])
  }

  lemma {:induction false} PartOfPart(v: Node, p: seq<nat>, q: seq<nat>)
    requires Leads(v, p) && Leads(Part(v, p), q)
    ensures Leads(v, p + q) && Part(v, p + q) == Part(Part(v, p), q)
    ensures forall w :: PutPart(v, p + q, w) == PutPart(v, p, PutPart(Part(v, p), q, w))
    decreases p
  {
    if p == [] {
      assert p + q == q;
    } else {
      assert (p + q)[0] == p[0] && (p + q)[1..] == p[1..] + q;
      PartOfPart(v.children[p[0]], p[1..], q);
    }
  }

  /** The position of the value that one token leads to. */
  function StepTo(v: Node, tok: Bytes): seq<nat> {
    if v.kind == ObjectNode then (if Find(v.children, tok) == None then [] else [Find(v.children, tok).value, 0])
    else if ArrayIndex(tok) == None then []
    else [ArrayIndex(tok).value]
  }

  function PathTo(v: Node, ts: Tokens): seq<nat>
    decreases ts
  {
    if ts == [] || ChildValue(v, ts[0]) == None then []
    else StepTo(v, ts[0]) + PathTo(ChildValue(v, ts[0]).value, ts[1..])
  }

  lemma OneStep(v: Node, i: nat, rest: seq<nat>)
    requires i < |v.children| && Leads(v.children[i], rest)
    ensures var path := [i] + rest;
            Leads(v, path) && Part(v, path) == Part(v.children[i], rest)
            && forall w :: PutPart(v, path, w) == v.(children := v.children[i := PutPart(v.children[i], rest, w)])
  {
    var path := [i] + rest;
    assert path[0] == i && path[1..] == rest;
  }

  lemma NoStep(v: Node)
    ensures Leads(v, []) && Part(v, []) == v && forall w :: PutPart(v, [], w) == w
  {
  }

  lemma MemberStep(m: Node)
    requires IsMember(m)
    ensures Leads(m, [0]) && Part(m, [0]) == m.children[0] && forall w :: PutPart(m, [0], w) == WithValue(m, w)
  {
    var none: seq<nat> := [];
    NoStep(m.children[0]);
    OneStep(m, 0, none);
    assert [0] + none == [0];
    forall w
      ensures m.children[0 := w] == [w]
    {
    }
  }

  lemma StepLeads(v: Node, tok: Bytes)
    requires Proper(v) && ChildValue(v, tok).Some?
    ensures var path := StepTo(v, tok);
            path != [] && Leads(v, path) && Part(v, path) == ChildValue(v, tok).value
            && forall w :: PutPart(v, path, w) == SetChildValue(v, tok, w)
  {
    hide ArrayIndex, Leads, Part, PutPart;
    var i := StepTo(v, tok)[0];
    if v.kind == ObjectNode {
      assert IsMember(v.children[i]);
      MemberStep(v.children[i]);
      OneStep(v, i, [0]);
      assert [i] + [0] == [i, 0];
    } else {
      var none: seq<nat> := [];
      NoStep(v.children[i]);
      OneStep(v, i, none);
      assert [i] + none == [i];
    }
  }

  lemma {:induction false} PathLeads(v: Node, ts: Tokens)
    requires Proper(v) && GetValue(v, ts).Some?
    ensures Leads(v, PathTo(v, ts)) && Part(v, PathTo(v, ts)) == GetValue(v, ts).value
    decreases ts
  {
    hide ChildValue, StepTo, Proper, Meaning;
    if ts != [] {
      var c := ChildValue(v, ts[0]).value;
      StepLeads(v, ts[0]);
      ChildMeaning(v, ts[0]);
      PathLeads(c, ts[1..]);
      PartOfPart(v, StepTo(v, ts[0]), PathTo(c, ts[1..]));
    }
  }

  function Front(ts: Tokens): Tokens
    requires ts != []
  {
    ts[..|ts| - 1]
  }

  function LastToken(ts: Tokens): Bytes
    requires ts != []
  {
    ts[|ts| - 1]
  }

  /** An edit at the end of a pointer is an edit of the part that the tokens
      before the last lead to. */
  lemma {:induction false} EditByPath(v: Node, ts: Tokens, e: Edit<Node>)
    requires ts != [] && Proper(v)
    ensures match GetValue(v, Front(ts))
            case None => EditValue(v, ts, e) == None
            case Some(p) =>
              Leads(v, PathTo(v, Front(ts)))
              && match EditValueAt(p, LastToken(ts), e)
                 case None => EditValue(v, ts, e) == None
                 case Some(q) => EditValue(v, ts, e) == Some(PutPart(v, PathTo(v, Front(ts)), q))
    decreases ts
  {
    hide ChildValue, StepTo, Proper, Meaning, SetChildValue, EditValueAt;
    if |ts| == 1 {
      assert Front(ts) == [];
    } else {
      ChildMeaning(v, ts[0]);
      assert Front(ts)[0] == ts[0] && Front(ts)[1..] == Front(ts[1..]);
      if ChildValue(v, ts[0]).Some? {
        var c := ChildValue(v, ts[0]).value;
        EditByPath(c, ts[1..], e);
        StepLeads(v, ts[0]);
        if GetValue(v, Front(ts)).Some? {
          PartOfPart(v, StepTo(v, ts[0]), PathTo(c, Front(ts[1..])));
        }
      }
    }
  }

  // Documents

  function EditDoc(doc: Option<Node>, ts: Tokens, e: Edit<Node>): Outcome<Node> {
    if ts == [] then (if e.Remove? then Failed else Done(Some(e.value)))
    else
      match doc
      case None => Failed
      case Some(v) => (match EditValue(v, ts, e) case None => Failed case Some(w) => Done(Some(w)))
  }

  ghost predicate ProperDoc(doc: Option<Node>) { doc.Some? ==> Proper(doc.value) }

  ghost function DocMeaning(doc: Option<Node>): Document
    requires ProperDoc(doc)
  {
    if doc == None then None else Some(Meaning(doc.value))
  }

  lemma EditDocMeaning(doc: Option<Node>, ts: Tokens, e: Edit<Node>)
    requires ProperDoc(doc) && ProperEdit(e)
    ensures match EditDoc(doc, ts, e)
            case Failed => EditDocument(DocMeaning(doc), ts, MeaningOf(e)) == Failed
            case Done(after) => ProperDoc(after) && EditDocument(DocMeaning(doc), ts, MeaningOf(e)) == Done(DocMeaning(after))
  {
    hide Proper, Meaning, EditValue, EditIn;
    if ts != [] && doc.Some? {
      EditMeaning(doc.value, ts, e);
    }
  }
}
