/**
  What the operations of a patch change, seen place by place, and that nothing
  else does.
 */
module PatchLaws {
  import opened Ascii
  import opened Pointers
  import opened JsonPatch
  import opened Equality

  function Parent(ts: Tokens): Tokens
    requires ts != []
  {
    ts[..|ts| - 1]
  }

  function Name(ts: Tokens): Bytes
    requires ts != []
  {
    ts[|ts| - 1]
  }

  // One container

  predicate Inserted(vs: seq<Json>, us: seq<Json>, i: nat, v: Json) {
    && i <= |vs| && |us| == |vs| + 1 && us[i] == v
    && (forall k :: 0 <= k < i ==> us[k] == vs[k]) && forall k :: i < k < |us| ==> us[k] == vs[k - 1]
  }

  predicate Deleted(vs: seq<Json>, us: seq<Json>, i: nat) {
    && i < |vs| && |us| == |vs| - 1
    && (forall k :: 0 <= k < i ==> us[k] == vs[k]) && forall k :: i <= k < |us| ==> us[k] == vs[k + 1]
  }

  predicate Exchanged(vs: seq<Json>, us: seq<Json>, i: nat, v: Json) {
    && i < |vs| && |us| == |vs| && us[i] == v
    && forall k :: 0 <= k < |us| && k != i ==> us[k] == vs[k]
  }

  /** q is p after the edit e of its place tok. */
  ghost predicate Changes(p: Json, tok: Bytes, e: Edit<Json>, q: Json) {
    match (p, q)
    case (Object(ms), Object(ns)) =>
      && (forall k: Bytes :: k != tok ==> (k in ns <==> k in ms))
      && (forall k: Bytes :: k != tok && k in ms && k in ns ==> ns[k] == ms[k])
      && (match e
          case Add(v) => tok in ns && ns[tok] == v
          case Remove => tok in ms && tok !in ns
          case Replace(v) => tok in ms && tok in ns && ns[tok] == v)
    case (Array(vs), Array(us)) =>
      if e.Add? && tok == [MINUS] then Inserted(vs, us, |vs|, e.value)
      else
        && ArrayIndex(tok).Some?
        && (match e
            case Add(v) => Inserted(vs, us, ArrayIndex(tok).value, v)
            case Remove => Deleted(vs, us, ArrayIndex(tok).value)
            case Replace(v) => Exchanged(vs, us, ArrayIndex(tok).value, v))
    case _ => false
  }

  /** An edit of a container makes that change, if it can be made. */
  lemma EditChanges(p: Json, tok: Bytes, e: Edit<Json>)
    ensures match EditAt(p, tok, e)
            case Some(q) => Changes(p, tok, e, q)
            case None => forall q :: !Changes(p, tok, e, q)
  {
    hide ArrayIndex;
  }

  // The whole value

  /** q leaves the way to the parent of the place. */
  ghost predicate Leaves(q: Tokens, ts: Tokens)
    requires ts != []
  {
    exists n: nat :: n < |ts| - 1 && n < |q| && q[..n] == ts[..n] && q[n] != ts[n]
  }

  /** k is j with the container at the parent of ts changed, and nothing else. */
  ghost predicate Edited(j: Json, ts: Tokens, e: Edit<Json>, k: Json)
    requires ts != []
  {
    && Get(j, Parent(ts)).Some? && Get(k, Parent(ts)).Some?
    && Changes(Get(j, Parent(ts)).value, Name(ts), e, Get(k, Parent(ts)).value)
    && forall q: Tokens :: Leaves(q, ts) ==> Get(k, q) == Get(j, q)
  }

  lemma {:induction false} EditIsLocal(j: Json, ts: Tokens, e: Edit<Json>)
    requires ts != []
    ensures EditIn(j, ts, e).Some?
            <==> Get(j, Parent(ts)).Some? && EditAt(Get(j, Parent(ts)).value, Name(ts), e).Some?
    ensures EditIn(j, ts, e).Some? ==>
              Get(EditIn(j, ts, e).value, Parent(ts)) == EditAt(Get(j, Parent(ts)).value, Name(ts), e)
    decreases ts
  {
    hide EditAt;
    if |ts| == 1 {
      assert Parent(ts) == [];
      GetNothing(j);
      if EditAt(j, ts[0], e).Some? {
        GetNothing(EditAt(j, ts[0], e).value);
      }
    } else {
      var rest := ts[1..];
      assert Parent(ts)[0] == ts[0] && Parent(ts)[1..] == Parent(rest) && Name(rest) == Name(ts);
      var c := Child(j, ts[0]);
      if c.Some? {
        EditIsLocal(c.value, rest, e);
        if EditIn(c.value, rest, e).Some? {
          ChildAfterSet(j, ts[0], EditIn(c.value, rest, e).value);
        }
      }
    }
  }

  lemma GetNothing(j: Json)
    ensures Get(j, []) == Some(j)
  {
  }

  lemma {:induction false} ElsewhereStays(j: Json, ts: Tokens, e: Edit<Json>, q: Tokens, n: nat)
    requires ts != [] && EditIn(j, ts, e).Some? && n < |ts| - 1 && n < |q| && q[..n] == ts[..n] && q[n] != ts[n]
    ensures Get(EditIn(j, ts, e).value, q) == Get(j, q)
    decreases n
  {
    hide EditAt, Child, SetChild;
    var c := Child(j, ts[0]).value;
    var d := EditIn(c, ts[1..], e).value;
    ChildAfterSet(j, ts[0], d);
    if n > 0 {
      assert q[0] == q[..n][0] == ts[..n][0] == ts[0];
      assert q[1..][..n - 1] == q[..n][1..] == ts[..n][1..] == ts[1..][..n - 1];
      ElsewhereStays(c, ts[1..], e, q[1..], n - 1);
    } else {
      assert q[0] != ts[0];
    }
  }

  /** An edit is made exactly where it can be, and changes nothing else. */
  lemma EditDoes(j: Json, ts: Tokens, e: Edit<Json>)
    requires ts != []
    ensures match EditIn(j, ts, e)
            case Some(k) => Edited(j, ts, e, k)
            case None => forall k :: !Edited(j, ts, e, k)
  {
    hide EditIn, EditAt, Changes, Get;
    EditIsLocal(j, ts, e);
    var p := Get(j, Parent(ts));
    if p.Some? {
      EditChanges(p.value, Name(ts), e);
    }
    if EditIn(j, ts, e).Some? {
      var k := EditIn(j, ts, e).value;
      forall q: Tokens | Leaves(q, ts)
        ensures Get(k, q) == Get(j, q)
      {
        var n: nat :| n < |ts| - 1 && n < |q| && q[..n] == ts[..n] && q[n] != ts[n];
        ElsewhereStays(j, ts, e, q, n);
      }
    }
  }

  // Documents

  /** The whole document is put, or the place in it edited. */
  ghost predicate EditedDoc(doc: Document, ts: Tokens, e: Edit<Json>, d: Document) {
    if ts == [] then !e.Remove? && d == Some(e.value)
    else doc.Some? && d.Some? && Edited(doc.value, ts, e, d.value)
  }

  lemma EditDocDoes(doc: Document, ts: Tokens, e: Edit<Json>)
    ensures match EditDocument(doc, ts, e)
            case Done(d) => EditedDoc(doc, ts, e, d)
            case Failed => forall d :: !EditedDoc(doc, ts, e, d)
  {
    hide EditIn, Edited;
    if ts != [] && doc.Some? {
      EditDoes(doc.value, ts, e);
    }
  }

  /** What is at the place, where there is a value. */
  function Present(doc: Document, ts: Tokens): Option<Json> {
    match Resolve(doc, ts)
    case At(Some(v)) => Some(v)
    case _ => None
  }

  /** A value moves: it is taken out, and put where it goes, unless it would stay
      or go into itself. */
  ghost predicate Moved(doc: Document, from: Tokens, to: Tokens, d: Document) {
    if from == to then Resolve(doc, from).At? && d == doc
    else
      && !(|from| < |to| && to[..|from|] == from)
      && Present(doc, from).Some?
      && var rest := EditDocument(doc, from, Remove);
         rest.Done? && EditedDoc(doc, from, Remove, rest.doc) && EditedDoc(rest.doc, to, Add(Present(doc, from).value), d)
  }

  /** d is doc after the operation o, by its name. */
  ghost predicate Does(doc: Document, o: Operation, d: Document) {
    && PointerTokens(o.path).Some?
    && var path := PointerTokens(o.path).value;
       match o.op
       case "add" => o.value.Some? && EditedDoc(doc, path, Add(o.value.value), d)
       case "remove" => EditedDoc(doc, path, Remove, d)
       case "replace" => o.value.Some? && EditedDoc(doc, path, Replace(o.value.value), d)
       case "test" => d == doc && Matches(doc, Some(path), o.value)
       case "copy" =>
         PointerTokens(o.from).Some? && var from := PointerTokens(o.from).value;
         Present(doc, from).Some? && EditedDoc(doc, path, Add(Present(doc, from).value), d)
       case "move" => PointerTokens(o.from).Some? && Moved(doc, PointerTokens(o.from).value, path, d)
       case _ => false
  }

  lemma MoveDoes(doc: Document, from: Tokens, to: Tokens)
    ensures match MoveValue(doc, from, to)
            case Done(d) => Moved(doc, from, to, d)
            case Failed => forall d :: !Moved(doc, from, to, d)
  {
    hide EditDocument, EditedDoc, Resolve;
    EditDocDoes(doc, from, Remove);
    assert from <= to <==> |from| <= |to| && to[..|from|] == from;
    match Resolve(doc, from) {
      case At(Some(v)) =>
        if EditDocument(doc, from, Remove).Done? {
          EditDocDoes(EditDocument(doc, from, Remove).doc, to, Add(v));
        }
      case _ =>
    }
  }

  /** Every operation does what its name says, or fails where that cannot be done. */
  lemma OperationDoes(doc: Document, o: Operation)
    ensures match Perform(doc, o)
            case Done(d) => Does(doc, o, d)
            case Failed => forall d :: !Does(doc, o, d)
  {
    hide EditDocument, EditedDoc, Resolve, Moved, MoveValue, PointerTokens, TestValue, Matches;
    if PointerTokens(o.path).Some? {
      var path := PointerTokens(o.path).value;
      EditDocDoes(doc, path, Remove);
      if o.value.Some? {
        EditDocDoes(doc, path, Add(o.value.value));
        EditDocDoes(doc, path, Replace(o.value.value));
        TestIsEqual(doc, path, o.value.value);
      }
      assert o.value == None ==> !Matches(doc, Some(path), o.value) by { NothingMatches(doc, path); }
      if PointerTokens(o.from).Some? {
        var from := PointerTokens(o.from).value;
        MoveDoes(doc, from, path);
        if Present(doc, from).Some? {
          EditDocDoes(doc, path, Add(Present(doc, from).value));
        }
      }
    }
  }

  lemma NothingMatches(doc: Document, path: Tokens)
    ensures !Matches(doc, Some(path), None)
  {
  }

  // There and back

  lemma {:induction false} AddUndoesRemove(j: Json, ts: Tokens)
    requires ts != [] && Get(j, ts).Some?
    ensures EditIn(j, ts, Remove).Some? && EditIn(EditIn(j, ts, Remove).value, ts, Add(Get(j, ts).value)) == Some(j)
    decreases ts
  {
    hide ArrayIndex;
    var tok := ts[0];
    if |ts| == 1 {
      assert ts[1..] == [];
      match j {
        case Object(ms) => assert (ms - {tok})[tok := ms[tok]] == ms;
        case Array(vs) =>
          var i := ArrayIndex(tok).value;
          assert tok != END by { EndIsNoIndex(); }
          assert Insert(Delete(vs, i), i, vs[i]) == vs;
      }
    } else {
      var c := Child(j, tok).value;
      AddUndoesRemove(c, ts[1..]);
      ChildAfterSet(j, tok, EditIn(c, ts[1..], Remove).value);
    }
  }

  lemma EndIsNoIndex()
    ensures ArrayIndex(END) == None
  {
  }

  /** A place is new in a document: adding there replaces nothing. */
  predicate IsNew(doc: Document, ts: Tokens) { doc.Some? && ts != [] && IsNewPlace(doc.value, ts) }

  /** A value that was moved to a new place can be moved back, and then the document
      is what it was. */
  lemma MovingBackRestores(doc: Document, from: Tokens, to: Tokens)
    requires MoveValue(doc, from, to).Done? && from != to && !ProperPrefix(to, from)
    requires EditDocument(doc, from, Remove).Done? && IsNew(EditDocument(doc, from, Remove).doc, to)
    ensures MoveValue(MoveValue(doc, from, to).doc, to, from) == Done(doc)
  {
    hide EditIn, Get, IsNewPlace;
    var rest := EditDocument(doc, from, Remove).doc.value;
    var v := Get(doc.value, from).value;
    AddUndoesRemove(doc.value, from);
    RemoveUndoesAdd(rest, to, v);
    NewIsThere(rest, to, v);
  }

  lemma {:induction false} GetByParent(j: Json, ts: Tokens)
    requires ts != []
    ensures Get(j, ts) == match Get(j, Parent(ts)) case None => None case Some(p) => Child(p, Name(ts))
    decreases ts
  {
    hide Child;
    if |ts| == 1 {
      assert Parent(ts) == [] && ts[1..] == [];
      GetNothing(j);
    } else {
      var rest := ts[1..];
      assert Parent(ts)[0] == ts[0] && Parent(ts)[1..] == Parent(rest) && Name(rest) == Name(ts);
      if Child(j, ts[0]).Some? {
        GetByParent(Child(j, ts[0]).value, rest);
      }
    }
  }

  lemma NewIsThere(j: Json, ts: Tokens, v: Json)
    requires ts != [] && IsNewPlace(j, ts) && EditIn(j, ts, Add(v)).Some?
    ensures Get(EditIn(j, ts, Add(v)).value, ts) == Some(v)
  {
    hide EditIn, ArrayIndex;
    EditIsLocal(j, ts, Add(v));
    GetByParent(j, ts);
    GetByParent(EditIn(j, ts, Add(v)).value, ts);
  }
}
