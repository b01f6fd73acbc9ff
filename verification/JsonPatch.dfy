/**
  The operations of section 4 of RFC 6902 on JSON values: objects are maps, and
  arrays are sequences. A document may be missing.
 */
module JsonPatch {
  import opened Ascii
  import opened Numbers
  import opened Pointers

  datatype Json =
    | Null | Bool(text: Bytes) | Number(text: Bytes) | String(text: Bytes)
    | Array(items: seq<Json>) | Object(members: map<Bytes, Json>)

  /** The array index that appends. */
  const END: Bytes := [MINUS]

  // Section 4 of RFC 6901: evaluation

  /** The value that one token leads to. */
  function Child(j: Json, tok: Bytes): (c: Option<Json>)
    ensures c.Some? ==> c.value < j
  {
    match j
    case Object(ms) => if tok in ms then Some(ms[tok]) else None
    case Array(vs) =>
      (match ArrayIndex(tok)
       case Some(i) => if i < |vs| then Some(vs[i]) else None
       case None => None)
    case _ => None
  }

  function Get(j: Json, ts: Tokens): Option<Json>
    decreases ts
  {
    if ts == [] then Some(j)
    else
      match Child(j, ts[0])
      case None => None
      case Some(c) => Get(c, ts[1..])
  }

  /** j with another value where tok leads. */
  function SetChild(j: Json, tok: Bytes, c: Json): Json {
    match j
    case Object(ms) => Object(ms[tok := c])
    case Array(vs) => if ArrayIndex(tok).Some? && ArrayIndex(tok).value < |vs| then Array(vs[ArrayIndex(tok).value := c]) else j
    case _ => j
  }

  // Section 4 of RFC 6902: operations

  datatype Edit<V> = Add(value: V) | Remove | Replace(value: V)

  function Insert<V>(vs: seq<V>, i: nat, v: V): seq<V>
    requires i <= |vs|
  {
    vs[..i] + [v] + vs[i..]
  }

  function Delete<V>(vs: seq<V>, i: nat): seq<V>
    requires i < |vs|
  {
    vs[..i] + vs[i + 1..]
  }

  function EditArray<V>(vs: seq<V>, tok: Bytes, e: Edit<V>): Option<seq<V>> {
    if e.Add? && tok == END then Some(vs + [e.value])
    else
      match ArrayIndex(tok)
      case None => None
      case Some(i) =>
        if e.Add? then (if i <= |vs| then Some(Insert(vs, i, e.value)) else None)
        else if i >= |vs| then None
        else if e.Remove? then Some(Delete(vs, i))
        else Some(vs[i := e.value])
  }

  function EditObject(ms: map<Bytes, Json>, tok: Bytes, e: Edit<Json>): Option<map<Bytes, Json>> {
    if e.Add? then Some(ms[tok := e.value])
    else if tok !in ms then None
    else if e.Remove? then Some(ms - {tok})
    else Some(ms[tok := e.value])
  }

  /** The edit of a container at one of its own places. */
  function EditAt(j: Json, tok: Bytes, e: Edit<Json>): Option<Json> {
    match j
    case Object(ms) => (match EditObject(ms, tok, e) case None => None case Some(m) => Some(Object(m)))
    case Array(vs) => (match EditArray(vs, tok, e) case None => None case Some(s) => Some(Array(s)))
    case _ => None
  }

  /** The edit at the place that tokens lead to: everything else stays. */
  function EditIn(j: Json, ts: Tokens, e: Edit<Json>): Option<Json>
    requires ts != []
    decreases ts
  {
    if |ts| == 1 then EditAt(j, ts[0], e)
    else
      match Child(j, ts[0])
      case None => None
      case Some(c) =>
        match EditIn(c, ts[1..], e)
        case None => None
        case Some(d) => Some(SetChild(j, ts[0], d))
  }

  type Document = Option<Json>

  datatype Outcome<J> = Failed | Done(doc: Option<J>)

  /** The value at a place of the document; the whole document may be missing. */
  datatype Found = Missing | At(value: Document)

  function Resolve(doc: Document, ts: Tokens): Found {
    if ts == [] then At(doc)
    else
      match doc
      case None => Missing
      case Some(j) => (match Get(j, ts) case None => Missing case Some(v) => At(Some(v)))
  }

  function EditDocument(doc: Document, ts: Tokens, e: Edit<Json>): Outcome<Json> {
    if ts == [] then (if e.Remove? then Failed else Done(Some(e.value)))
    else
      match doc
      case None => Failed
      case Some(j) => (match EditIn(j, ts, e) case None => Failed case Some(k) => Done(Some(k)))
  }

  function AddValue(doc: Document, ts: Tokens, value: Document): Outcome<Json> {
    match value
    case None => Failed
    case Some(v) => EditDocument(doc, ts, Add(v))
  }

  /** Moving to the same place changes nothing, and moving into itself fails;
      otherwise a move removes and adds. */
  function MoveValue(doc: Document, from: Tokens, to: Tokens): Outcome<Json> {
    match Resolve(doc, from)
    case Missing => Failed
    case At(v) =>
      if from == to then Done(doc)
      else if ProperPrefix(from, to) then Failed
      else
        match EditDocument(doc, from, Remove)
        case Failed => Failed
        case Done(rest) => AddValue(rest, to, v)
  }

  function CopyValue(doc: Document, from: Tokens, to: Tokens): Outcome<Json> {
    match Resolve(doc, from)
    case Missing => Failed
    case At(v) => AddValue(doc, to, v)
  }

  function TestValue(doc: Document, ts: Tokens, value: Json): Outcome<Json> {
    match Resolve(doc, ts)
    case Missing => Failed
    case At(v) => if v.Some? && Same(v.value, value) then Done(doc) else Failed
  }

  // Section 4.6: equality

  predicate Same(a: Json, b: Json)
    decreases a
  {
    match (a, b)
    case (Null, Null) => true
    case (Bool(s), Bool(t)) => s == t
    case (Number(s), Number(t)) => NumbersEqual(s, t)
    case (String(s), String(t)) => s == t
    case (Array(vs), Array(us)) => |vs| == |us| && forall i :: 0 <= i < |vs| ==> Same(vs[i], us[i])
    case (Object(ms), Object(ns)) => ms.Keys == ns.Keys && forall k :: k in ms ==> Same(ms[k], ns[k])
    case _ => false
  }

  lemma {:induction false} SameReflexive(a: Json)
    ensures Same(a, a)
    decreases a
  {
    match a {
      case Array(vs) =>
        forall i | 0 <= i < |vs|
          ensures Same(vs[i], vs[i])
        {
          SameReflexive(vs[i]);
        }
      case Object(ms) =>
        forall k | k in ms
          ensures Same(ms[k], ms[k])
        {
          SameReflexive(ms[k]);
        }
      case _ =>
    }
  }

  lemma {:induction false} SameSymmetric(a: Json, b: Json)
    requires Same(a, b)
    ensures Same(b, a)
    decreases a
  {
    match (a, b) {
      case (Array(vs), Array(us)) =>
        forall i | 0 <= i < |us|
          ensures Same(us[i], vs[i])
        {
          SameSymmetric(vs[i], us[i]);
        }
      case (Object(ms), Object(ns)) =>
        forall k | k in ns
          ensures Same(ns[k], ms[k])
        {
          assert k in ms.Keys;
          SameSymmetric(ms[k], ns[k]);
        }
      case _ =>
    }
  }

  lemma {:induction false} SameTransitive(a: Json, b: Json, c: Json)
    requires Same(a, b) && Same(b, c)
    ensures Same(a, c)
    decreases a
  {
    match (a, b, c) {
      case (Array(vs), Array(us), Array(ws)) =>
        forall i | 0 <= i < |vs|
          ensures Same(vs[i], ws[i])
        {
          SameTransitive(vs[i], us[i], ws[i]);
        }
      case (Object(ms), Object(ns), Object(os)) =>
        forall k | k in ms
          ensures Same(ms[k], os[k])
        {
          assert k in ns.Keys;
          SameTransitive(ms[k], ns[k], os[k]);
        }
      case _ =>
    }
  }

  // Section 3: a patch

  datatype Operation = Operation(op: string, path: Bytes, from: Bytes, value: Document)

  /** One operation; an unknown one fails. */
  function Perform(doc: Document, o: Operation): Outcome<Json> {
    match PointerTokens(o.path)
    case None => Failed
    case Some(path) =>
      if o.op == "add" then AddValue(doc, path, o.value)
      else if o.op == "remove" then EditDocument(doc, path, Remove)
      else if o.op == "replace" then (if o.value == None then Failed else EditDocument(doc, path, Replace(o.value.value)))
      else if o.op == "test" then (if o.value == None then Failed else TestValue(doc, path, o.value.value))
      else
        match PointerTokens(o.from)
        case None => Failed
        case Some(from) =>
          if o.op == "move" then MoveValue(doc, from, path)
          else if o.op == "copy" then CopyValue(doc, from, path)
          else Failed
  }

  /** The operations in order, until one fails. */
  function PerformAll(doc: Document, ops: seq<Operation>): Outcome<Json>
    decreases ops
  {
    if ops == [] then Done(doc)
    else
      match Perform(doc, ops[0])
      case Failed => Failed
      case Done(next) => PerformAll(next, ops[1..])
  }

  // What the edits do, seen from the places they touch

  lemma ChildAfterSet(j: Json, tok: Bytes, c: Json)
    requires Child(j, tok).Some?
    ensures Child(SetChild(j, tok, c), tok) == Some(c)
    ensures SetChild(SetChild(j, tok, c), tok, Child(j, tok).value) == j
    ensures forall other :: other != tok ==> Child(SetChild(j, tok, c), other) == Child(j, other)
  {
    hide ArrayIndex;
    match j {
      case Array(vs) =>
        var i := ArrayIndex(tok).value;
        assert vs[i := c][i := vs[i]] == vs;
        forall other | other != tok
          ensures ArrayIndex(other) != ArrayIndex(tok)
        {
          ArrayIndexIsDecimal(tok, i);
          ArrayIndexIsDecimal(other, i);
        }
      case Object(ms) =>
        assert ms[tok := c][tok := ms[tok]] == ms;
    }
  }

  /** Adding puts the value at the place named. */
  lemma {:induction false} AddedValueIsThere(j: Json, ts: Tokens, v: Json)
    requires ts != [] && EditIn(j, ts, Add(v)).Some? && ts[|ts| - 1] != END
    ensures Get(EditIn(j, ts, Add(v)).value, ts) == Some(v)
    decreases ts
  {
    if |ts| == 1 {
      assert ts[1..] == [];
      assert Get(v, ts[1..]) == Some(v);
    } else {
      var c := Child(j, ts[0]).value;
      AddedValueIsThere(c, ts[1..], v);
      ChildAfterSet(j, ts[0], EditIn(c, ts[1..], Add(v)).value);
    }
  }

  /** The place named is new: no member of that name, or a place in an array. */
  predicate IsNewPlace(j: Json, ts: Tokens)
    requires ts != []
  {
    match Get(j, ts[..|ts| - 1])
    case Some(Object(ms)) => ts[|ts| - 1] !in ms
    case Some(Array(_)) => ts[|ts| - 1] != END
    case _ => false
  }

  /** Removing undoes adding at a new place. */
  lemma {:induction false} RemoveUndoesAdd(j: Json, ts: Tokens, v: Json)
    requires ts != [] && EditIn(j, ts, Add(v)).Some? && IsNewPlace(j, ts)
    ensures EditIn(EditIn(j, ts, Add(v)).value, ts, Remove) == Some(j)
    decreases ts
  {
    hide ArrayIndex;
    var tok := ts[0];
    if |ts| == 1 {
      assert ts[..0] == [] && Get(j, []) == Some(j);
      match j {
        case Object(ms) =>
          assert ms[tok := v] - {tok} == ms;
        case Array(vs) =>
          var i := ArrayIndex(tok).value;
          assert Delete(Insert(vs, i, v), i) == vs;
      }
    } else {
      var c := Child(j, tok).value;
      assert ts[..|ts| - 1][0] == tok && ts[..|ts| - 1][1..] == ts[1..][..|ts| - 2];
      assert Get(j, ts[..|ts| - 1]) == Get(c, ts[1..][..|ts| - 2]);
      RemoveUndoesAdd(c, ts[1..], v);
      var d := EditIn(c, ts[1..], Add(v)).value;
      ChildAfterSet(j, tok, d);
    }
  }

  lemma {:induction false} SetSame(j: Json, tok: Bytes, c: Json)
    requires Child(j, tok).Some? && Same(Child(j, tok).value, c)
    ensures Same(j, SetChild(j, tok, c))
  {
    hide ArrayIndex;
    match j {
      case Array(vs) =>
        forall k | 0 <= k < |vs|
          ensures Same(vs[k], vs[ArrayIndex(tok).value := c][k])
        {
          SameReflexive(vs[k]);
        }
      case Object(ms) =>
        assert ms[tok := c].Keys == ms.Keys;
        forall k | k in ms
          ensures Same(ms[k], ms[tok := c][k])
        {
          SameReflexive(ms[k]);
        }
    }
  }

  /** Replacing a part by an equal one, a number by another text of its value
      say, leaves an equal document. */
  lemma {:induction false} EqualPartIsSame(j: Json, ts: Tokens, d: Json)
    requires ts != [] && Get(j, ts).Some? && Same(Get(j, ts).value, d)
    ensures EditIn(j, ts, Replace(d)).Some? && Same(j, EditIn(j, ts, Replace(d)).value)
    decreases ts
  {
    hide ArrayIndex, Same;
    if |ts| == 1 {
      assert ts[1..] == [];
      assert Get(j, ts) == Child(j, ts[0]);
      SetSame(j, ts[0], d);
      ReplaceIsSet(j, ts[0], d);
    } else {
      var c := Child(j, ts[0]).value;
      EqualPartIsSame(c, ts[1..], d);
      SetSame(j, ts[0], EditIn(c, ts[1..], Replace(d)).value);
    }
  }

  lemma ReplaceIsSet(j: Json, tok: Bytes, d: Json)
    requires Child(j, tok).Some?
    ensures EditAt(j, tok, Replace(d)) == Some(SetChild(j, tok, d))
  {
    hide ArrayIndex;
  }
}
