/** Moving and copying in trees, and what becomes of a member's comments. */
module PatchMoves {
  import opened Ascii
  import opened Tree
  import opened Pointers
  import opened JsonPatch
  import opened PatchValues

  // Members by pointer

  /** The member that tokens name, if it is one. */
  function MemberOf(v: Node, ts: Tokens): Option<Node> {
    if ts == [] then None
    else
      match GetValue(v, Front(ts))
      case None => None
      case Some(q) =>
        match Find(q.children, LastToken(ts))
        case None => None
        case Some(i) => if q.kind == ObjectNode then Some(q.children[i]) else None
  }

  function NotesOf(v: Node, ts: Tokens): Option<Notes> {
    match MemberOf(v, ts)
    case None => None
    case Some(m) => Some(m.notes)
  }

  /** Where that member is. */
  function MemberPath(v: Node, ts: Tokens): seq<nat>
    requires MemberOf(v, ts).Some?
  {
    PathTo(v, Front(ts)) + [Find(GetValue(v, Front(ts)).value.children, LastToken(ts)).value]
  }

  /** The comments of a member that has been moved here: its own, or else those
      of the member that it was. */
  function Carried(own: Notes, was: Notes): Notes {
    if HasComments(own) then own else own.(head := was.head, line := was.line, foot := was.foot)
  }

  /** v, where the member that tokens name takes these comments if it has none. */
  function Carry(v: Node, ts: Tokens, notes: Notes): Node {
    match MemberOf(v, ts)
    case None => v
    case Some(m) =>
      if Leads(v, MemberPath(v, ts)) then PutPart(v, MemberPath(v, ts), m.(notes := Carried(m.notes, notes))) else v
  }

  lemma {:induction false} MemberLeads(v: Node, ts: Tokens, m: Node)
    requires Proper(v) && MemberOf(v, ts).Some?
    ensures Leads(v, PathTo(v, Front(ts))) && Leads(v, MemberPath(v, ts))
    ensures Part(v, MemberPath(v, ts)) == MemberOf(v, ts).value
    ensures var q := GetValue(v, Front(ts)).value;
            var i := Find(q.children, LastToken(ts)).value;
            PutPart(v, MemberPath(v, ts), m) == PutPart(v, PathTo(v, Front(ts)), q.(children := q.children[i := m]))
  {
    hide Proper, Meaning, GetValue, PathTo, Leads, Part, PutPart;
    PathLeads(v, Front(ts));
    var q := GetValue(v, Front(ts)).value;
    var i := Find(q.children, LastToken(ts)).value;
    var none: seq<nat> := [];
    NoStep(q.children[i]);
    OneStep(q, i, none);
    assert [i] + none == [i];
    PartOfPart(v, PathTo(v, Front(ts)), [i]);
  }

  /** What is put where tokens lead is found there. */
  lemma {:induction false} PutIsThere(v: Node, ts: Tokens, w: Node)
    requires Proper(v) && GetValue(v, ts).Some?
    ensures Leads(v, PathTo(v, ts)) && GetValue(PutPart(v, PathTo(v, ts), w), ts) == Some(w)
    decreases ts
  {
    hide Proper, Meaning, ChildValue, StepTo, Leads, Part, PutPart, SetChildValue;
    PathLeads(v, ts);
    if ts == [] {
      NoStep(v);
    } else {
      var c := ChildValue(v, ts[0]).value;
      ChildMeaning(v, ts[0]);
      StepLeads(v, ts[0]);
      PathLeads(c, ts[1..]);
      PutIsThere(c, ts[1..], w);
      var d := PutPart(c, PathTo(c, ts[1..]), w);
      PartOfPart(v, StepTo(v, ts[0]), PathTo(c, ts[1..]));
      SetIsThere(v, ts[0], d);
    }
  }

  lemma SetIsThere(v: Node, tok: Bytes, c: Node)
    requires Proper(v) && ChildValue(v, tok).Some?
    ensures ChildValue(SetChildValue(v, tok, c), tok) == Some(c)
  {
    hide ArrayIndex, Meaning;
    if v.kind == ObjectNode {
      var i := Find(v.children, tok).value;
      var after := v.children[i := WithValue(v.children[i], c)];
      assert forall j :: 0 <= j < |after| ==> after[j].key == v.children[j].key;
      FindUnique(after, i);
    }
  }

  lemma ParentKeys(v: Node, ts: Tokens)
    requires Proper(v) && MemberOf(v, ts).Some?
    ensures UniqueKeys(GetValue(v, Front(ts)).value.children)
  {
    hide Meaning, GetValue;
    GetMeaning(v, Front(ts));
  }

  lemma FindPut(items: seq<Node>, i: nat, m: Node)
    requires UniqueKeys(items) && i < |items| && m.key == items[i].key
    ensures Find(items[i := m], m.key) == Some(i)
  {
    var after := items[i := m];
    assert forall j :: 0 <= j < |after| ==> after[j].key == items[j].key;
    FindUnique(after, i);
  }

  /** Another member of the same key takes the place of the one that tokens
      name. */
  lemma {:induction false} MemberPut(v: Node, ts: Tokens, m: Node)
    requires Proper(v) && MemberOf(v, ts).Some? && m.key == MemberOf(v, ts).value.key
    ensures Leads(v, MemberPath(v, ts)) && MemberOf(PutPart(v, MemberPath(v, ts), m), ts) == Some(m)
  {
    hide Proper, Meaning, GetValue, PathTo, Leads, Part, PutPart, Find, UniqueKeys;
    MemberLeads(v, ts, m);
    ParentKeys(v, ts);
    var q := GetValue(v, Front(ts)).value;
    var i := Find(q.children, LastToken(ts)).value;
    FindPut(q.children, i, m);
    PutIsThere(v, Front(ts), q.(children := q.children[i := m]));
  }

  lemma {:induction false} NotesPut(v: Node, path: seq<nat>, notes: Notes)
    requires Leads(v, path)
    ensures ValueOf(PutPart(v, path, Part(v, path).(notes := notes))) == ValueOf(v)
    decreases path
  {
    if path == [] {
      assert ValuesOf(v.(notes := notes).children) == ValuesOf(v.children);
    } else {
      var i := path[0];
      NotesPut(v.children[i], path[1..], notes);
      var w := PutPart(v, path, Part(v, path).(notes := notes));
      assert ValuesOf(w.children) == ValuesOf(v.children);
    }
  }

  /** Carrying comments changes the comments of that member and not the value. */
  lemma {:induction false} CarryKeeps(v: Node, ts: Tokens, notes: Notes)
    requires Proper(v)
    ensures Proper(Carry(v, ts, notes)) && Meaning(Carry(v, ts, notes)) == Meaning(v)
    ensures NotesOf(Carry(v, ts, notes), ts)
            == if NotesOf(v, ts) == None then None else Some(Carried(NotesOf(v, ts).value, notes))
  {
    hide Proper, Meaning, MemberOf, MemberPath, Leads, Part, PutPart, ValueOf;
    if MemberOf(v, ts).Some? {
      var m := MemberOf(v, ts).value;
      MemberLeads(v, ts, m);
      NotesPut(v, MemberPath(v, ts), Carried(m.notes, notes));
      MeaningOfValue(v, Carry(v, ts, notes));
      MemberPut(v, ts, m.(notes := Carried(m.notes, notes)));
    }
  }

  // Documents

  /** The part of a document that tokens lead to; a missing document has itself. */
  function GetDoc(doc: Option<Node>, ts: Tokens): Option<Option<Node>> {
    if ts == [] then Some(doc)
    else
      match doc
      case None => None
      case Some(v) => (match GetValue(v, ts) case None => None case Some(w) => Some(Some(w)))
  }

  function AddTo(doc: Option<Node>, ts: Tokens, value: Option<Node>): Outcome<Node> {
    match value
    case None => Failed
    case Some(x) => EditDoc(doc, ts, Add(x))
  }

  function CopyDoc(doc: Option<Node>, from: Tokens, to: Tokens): Outcome<Node> {
    match GetDoc(doc, from)
    case None => Failed
    case Some(value) => AddTo(doc, to, value)
  }

  function Carrying(doc: Option<Node>, ts: Tokens, notes: Option<Notes>): Option<Node> {
    match doc
    case None => None
    case Some(v) => Some(if notes == None then v else Carry(v, ts, notes.value))
  }

  function MemberNotesOf(doc: Option<Node>, ts: Tokens): Option<Notes> {
    match doc
    case None => None
    case Some(v) => NotesOf(v, ts)
  }

  function MoveApart(doc: Option<Node>, from: Tokens, to: Tokens, value: Option<Node>): Outcome<Node> {
    match EditDoc(doc, from, Remove)
    case Failed => Failed
    case Done(rest) =>
      match AddTo(rest, to, value)
      case Failed => Failed
      case Done(after) => Done(Carrying(after, to, MemberNotesOf(doc, from)))
  }

  function MoveDoc(doc: Option<Node>, from: Tokens, to: Tokens): Outcome<Node> {
    match GetDoc(doc, from)
    case None => Failed
    case Some(value) =>
      if from == to then Done(doc)
      else if ProperPrefix(from, to) then Failed
      else MoveApart(doc, from, to, value)
  }

  // What they mean

  /** r is what spec is, as a JSON document. */
  ghost predicate MeansAs(r: Outcome<Node>, spec: Outcome<Json>) {
    match r
    case Failed => spec == Failed
    case Done(doc) => ProperDoc(doc) && spec == Done(DocMeaning(doc))
  }

  lemma {:induction false} GetDocMeaning(doc: Option<Node>, ts: Tokens)
    requires ProperDoc(doc)
    ensures match GetDoc(doc, ts)
            case None => Resolve(DocMeaning(doc), ts) == Missing
            case Some(w) => ProperDoc(w) && Resolve(DocMeaning(doc), ts) == At(DocMeaning(w))
  {
    hide Proper, Meaning, GetValue, Get;
    if doc.Some? {
      GetMeaning(doc.value, ts);
    }
  }

  lemma {:induction false} AddToMeaning(doc: Option<Node>, ts: Tokens, value: Option<Node>)
    requires ProperDoc(doc) && ProperDoc(value)
    ensures MeansAs(AddTo(doc, ts, value), AddValue(DocMeaning(doc), ts, DocMeaning(value)))
  {
    hide Proper, Meaning, EditDoc, EditDocument;
    if value.Some? {
      EditDocMeaning(doc, ts, Add(value.value));
    }
  }

  lemma {:induction false} CopyMeaning(doc: Option<Node>, from: Tokens, to: Tokens)
    requires ProperDoc(doc)
    ensures MeansAs(CopyDoc(doc, from, to), CopyValue(DocMeaning(doc), from, to))
  {
    hide Proper, Meaning, GetDoc, Resolve, AddTo, AddValue;
    GetDocMeaning(doc, from);
    if GetDoc(doc, from).Some? {
      AddToMeaning(doc, to, GetDoc(doc, from).value);
    }
  }

  /** A move means a remove and then an add of what was there. */
  lemma {:induction false} MoveMeaning(doc: Option<Node>, from: Tokens, to: Tokens)
    requires ProperDoc(doc)
    ensures MeansAs(MoveDoc(doc, from, to), MoveValue(DocMeaning(doc), from, to))
  {
    hide Proper, Meaning, GetDoc, Resolve, AddTo, AddValue, EditDoc, EditDocument, ProperPrefix, Carry;
    GetDocMeaning(doc, from);
    EditDocMeaning(doc, from, Remove);
    if GetDoc(doc, from).Some? && EditDoc(doc, from, Remove).Done? {
      var rest := EditDoc(doc, from, Remove).doc;
      AddToMeaning(rest, to, GetDoc(doc, from).value);
      var r := AddTo(rest, to, GetDoc(doc, from).value);
      var notes := MemberNotesOf(doc, from);
      if r.Done? && r.doc.Some? && notes.Some? {
        CarryKeeps(r.doc.value, to, notes.value);
      }
    }
  }

  // Operations

  /** An operation, its operand a tree. */
  datatype TreeOp = TreeOp(op: string, path: Bytes, from: Bytes, value: Option<Node>)

  ghost function OpMeaning(e: TreeOp): Operation
    requires ProperDoc(e.value)
  {
    Operation(e.op, e.path, e.from, DocMeaning(e.value))
  }

  /** One operation on a tree. */
  ghost function PerformOn(doc: Option<Node>, e: TreeOp): Outcome<Node>
    requires ProperDoc(doc) && ProperDoc(e.value)
  {
    match PointerTokens(e.path)
    case None => Failed
    case Some(p) =>
      if e.op == "add" then AddTo(doc, p, e.value)
      else if e.op == "remove" then EditDoc(doc, p, Remove)
      else if e.op == "replace" then (if e.value == None then Failed else EditDoc(doc, p, Replace(e.value.value)))
      else if e.op == "test" then
        (if e.value == None || TestValue(DocMeaning(doc), p, Meaning(e.value.value)) == Failed then Failed else Done(doc))
      else
        match PointerTokens(e.from)
        case None => Failed
        case Some(f) =>
          if e.op == "move" then MoveDoc(doc, f, p) else if e.op == "copy" then CopyDoc(doc, f, p) else Failed
  }

  /** It means the operation of RFC 6902. */
  lemma {:induction false} PerformMeaning(doc: Option<Node>, e: TreeOp)
    requires ProperDoc(doc) && ProperDoc(e.value)
    ensures MeansAs(PerformOn(doc, e), Perform(DocMeaning(doc), OpMeaning(e)))
  {
    hide Proper, Meaning, PointerTokens, AddTo, AddValue, EditDoc, EditDocument, MoveDoc, MoveValue, CopyDoc, CopyValue;
    if PointerTokens(e.path).Some? {
      var p := PointerTokens(e.path).value;
      AddToMeaning(doc, p, e.value);
      EditDocMeaning(doc, p, Remove);
      if e.value.Some? {
        EditDocMeaning(doc, p, Replace(e.value.value));
      }
      if PointerTokens(e.from).Some? {
        MoveMeaning(doc, PointerTokens(e.from).value, p);
        CopyMeaning(doc, PointerTokens(e.from).value, p);
      }
    }
  }

  ghost predicate ProperOps(es: seq<TreeOp>) { forall i :: 0 <= i < |es| ==> ProperDoc(es[i].value) }

  ghost function OpMeanings(es: seq<TreeOp>): seq<Operation>
    requires ProperOps(es)
  {
    if es == [] then [] else [OpMeaning(es[0])] + OpMeanings(es[1..])
  }

  /** The operations in order, up to one that fails. */
  ghost function PerformAllOn(doc: Option<Node>, es: seq<TreeOp>): Outcome<Node>
    requires ProperDoc(doc) && ProperOps(es)
    decreases es
  {
    if es == [] then Done(doc)
    else
      PerformMeaning(doc, es[0]);
      match PerformOn(doc, es[0])
      case Failed => Failed
      case Done(next) => PerformAllOn(next, es[1..])
  }

  /** They mean the operations of RFC 6902, in order. */
  lemma {:induction false} PerformAllMeaning(doc: Option<Node>, es: seq<TreeOp>)
    requires ProperDoc(doc) && ProperOps(es)
    ensures MeansAs(PerformAllOn(doc, es), PerformAll(DocMeaning(doc), OpMeanings(es)))
    decreases es
  {
    hide Proper, Meaning, PerformOn, Perform;
    if es != [] {
      PerformMeaning(doc, es[0]);
      var rest := OpMeanings(es[1..]);
      assert ([OpMeaning(es[0])] + rest)[1..] == rest;
      var r := PerformOn(doc, es[0]);
      if r.Done? {
        PerformAllMeaning(r.doc, es[1..]);
      }
    }
  }

  // Comments

  /** Where an add leaves a member: one that was there keeps its comments, and a
      new one has none. */
  lemma {:induction false} AddedNotes(v: Node, ts: Tokens, x: Node)
    requires ts != [] && Proper(v) && EditValue(v, ts, Add(x)).Some?
    ensures GetValue(v, Front(ts)).Some?
    ensures NotesOf(EditValue(v, ts, Add(x)).value, ts)
            == if GetValue(v, Front(ts)).value.kind != ObjectNode then None
               else if NotesOf(v, ts) == None then Some(NO_NOTES) else NotesOf(v, ts)
  {
    hide Proper, Meaning, GetValue, PathTo, Leads, Part, PutPart, EditValue, EditArray;
    EditByPath(v, ts, Add(x));
    var p := GetValue(v, Front(ts)).value;
    var q := EditValueAt(p, LastToken(ts), Add(x)).value;
    PutIsThere(v, Front(ts), q);
    if p.kind == ObjectNode {
      GetMeaning(v, Front(ts));
      ItemsAreProper(p);
      UniqueOf(p.children);
      EditedMember(p.children, LastToken(ts), x);
    }
  }

  lemma EditedMember(items: seq<Node>, key: Bytes, x: Node)
    requires UniqueKeys(items)
    ensures var after := EditMembers(items, key, Add(x)).value;
            var i := Find(after, key);
            i.Some? && after[i.value].notes == if Find(items, key) == None then NO_NOTES else items[Find(items, key).value].notes
  {
    var after := EditMembers(items, key, Add(x)).value;
    if Find(items, key) == None {
      assert after[|items|] == NewMember(key, x);
      assert forall j :: 0 <= j < |items| ==> after[j] == items[j];
      FindUnique(after, |items|);
    } else {
      assert forall j :: 0 <= j < |items| ==> after[j].key == items[j].key;
      FindUnique(after, Find(items, key).value);
    }
  }

  /** The comments that a member has at its new place: those that a member there
      had once the moved one was taken out, or else those it brings along. */
  lemma {:induction false} MovedNotes(v: Node, from: Tokens, to: Tokens)
    requires Proper(v) && from != to && to != [] && MoveDoc(Some(v), from, to).Done? && NotesOf(v, from).Some?
    ensures var rest := EditDoc(Some(v), from, Remove);
            var after := MoveDoc(Some(v), from, to).doc;
            rest.Done? && rest.doc.Some? && after.Some? && GetValue(rest.doc.value, Front(to)).Some?
            && NotesOf(after.value, to)
               == if GetValue(rest.doc.value, Front(to)).value.kind != ObjectNode then None
                  else Some(Carried(if NotesOf(rest.doc.value, to) == None then NO_NOTES else NotesOf(rest.doc.value, to).value,
                                    NotesOf(v, from).value))
  {
    hide Proper, Meaning, GetValue, NotesOf, EditValue, Carry, ProperPrefix;
    EditDocMeaning(Some(v), from, Remove);
    var rest := EditDoc(Some(v), from, Remove).doc.value;
    var x := GetDoc(Some(v), from).value.value;
    GetDocMeaning(Some(v), from);
    EditDocMeaning(Some(rest), to, Add(x));
    AddedNotes(rest, to, x);
    CarryKeeps(EditValue(rest, to, Add(x)).value, to, NotesOf(v, from).value);
  }

  /** A member has these comments, those on later lines aside. */
  predicate Keeps(now: Notes, was: Notes) {
    now.head == was.head && now.line == was.line && now.foot == was.foot
  }

  /** A moved member keeps its comments exactly when the member it comes upon has
      none, or has the same. */
  lemma KeptExactly(own: Notes, was: Notes)
    ensures Keeps(Carried(own, was), was) <==> !HasComments(own) || Keeps(own, was)
  {
  }

  // A member moved upon one that has a comment

  const ONE: Bytes := [0x31]
  const A: Bytes := [0x61]
  const B: Bytes := [0x62]

  function Commented(key: Bytes, note: Bytes): Node {
    Node(KeyValueNode, key, [], [], [], Notes([], note, [], []), [Scalar(NumberNode, ONE, ONE)])
  }

  /** An object with the members a and b, with the comments ONE and A. */
  function TwoMembers(): Node {
    Node(ObjectNode, [], [], [], [], NO_NOTES, [Commented(A, ONE), Commented(B, A)])
  }

  /** The object that is left once a is taken out, its member b with value x. */
  function OneMember(x: Node): Node {
    TwoMembers().(children := [WithValue(Commented(B, A), x)])
  }

  lemma TheirPlaces()
    ensures Find(TwoMembers().children, A) == Some(0) && Find(TwoMembers().children, B) == Some(1)
    ensures forall x :: Find(OneMember(x).children, B) == Some(0)
    ensures Delete(TwoMembers().children, 0) == OneMember(Scalar(NumberNode, ONE, ONE)).children
  {
    var a, b := Commented(A, ONE), Commented(B, A);
    assert [a, b][1..] == [b] && [b][1..] == [] && [a, b][..0] == [];
    assert Find([b], B) == Some(0) && a.key != B;
  }

  lemma OnlyToken(v: Node, tok: Bytes)
    ensures GetValue(v, [tok]) == ChildValue(v, tok) && GetValue(v, []) == Some(v)
    ensures Front([tok]) == [] && LastToken([tok]) == tok
    ensures forall e :: EditValue(v, [tok], e) == EditValueAt(v, tok, e)
  {
    assert [tok][1..] == [];
  }

  /** Its member a, moved to b, does not keep its comment. */
  lemma CommentIsLost()
    ensures var after := MoveDoc(Some(TwoMembers()), [A], [B]);
            after.Done? && after.doc.Some? && NotesOf(TwoMembers(), [A]) == Some(Notes([], ONE, [], []))
            && NotesOf(after.doc.value, [B]) == Some(Notes([], A, [], []))
  {
    hide Carry, Find, GetValue, EditValue, Front, LastToken, Delete;
    var v, one := TwoMembers(), Scalar(NumberNode, ONE, ONE);
    TheirPlaces();
    OnlyToken(v, A);
    OnlyToken(OneMember(one), B);
    assert EditValue(v, [A], Remove) == Some(OneMember(one));
    assert [WithValue(Commented(B, A), one)][0 := WithValue(WithValue(Commented(B, A), one), one)] == OneMember(one).children;
    assert EditValue(OneMember(one), [B], Add(one)) == Some(OneMember(one));
    assert Proper(OneMember(one));
    CarryKeeps(OneMember(one), [B], Notes([], ONE, [], []));
  }
}
