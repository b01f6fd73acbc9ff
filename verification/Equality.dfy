/** Equality of JSON values, section 4.6 of RFC 6902, held against a normal form. */
module Equality {
  import opened Ascii
  import opened Numbers
  import opened JsonPatch
  import opened Pointers

  /** A JSON value with numbers for number texts: equal values have the same. */
  datatype Normal =
    | NullForm | BoolForm(text: Bytes) | NumberForm(quantity: Quantity) | StringForm(text: Bytes)
    | ArrayForm(items: seq<Normal>) | ObjectForm(members: map<Bytes, Normal>)

  ghost function NormalForm(j: Json): Normal
    decreases j
  {
    match j
    case Null => NullForm
    case Bool(t) => BoolForm(t)
    case Number(t) => NumberForm(QuantityOf(t))
    case String(t) => StringForm(t)
    case Array(vs) => ArrayForm(seq(|vs|, i requires 0 <= i < |vs| => NormalForm(vs[i])))
    case Object(ms) => ObjectForm(map k | k in ms :: NormalForm(ms[k]))
  }

  /** Values are found equal exactly when their normal forms are the same. */
  lemma {:induction false} SameIsEqual(a: Json, b: Json)
    ensures Same(a, b) <==> NormalForm(a) == NormalForm(b)
    decreases a
  {
    hide NumbersEqual, QuantityOf;
    match (a, b) {
      case (Number(s), Number(t)) => EqualQuantities(s, t);
      case (Array(vs), Array(us)) =>
        forall i | 0 <= i < |vs| && i < |us|
          ensures Same(vs[i], us[i]) <==> NormalForm(vs[i]) == NormalForm(us[i])
        {
          SameIsEqual(vs[i], us[i]);
        }
        EqualArrays(a, b);
      case (Object(ms), Object(ns)) =>
        forall k | k in ms && k in ns
          ensures Same(ms[k], ns[k]) <==> NormalForm(ms[k]) == NormalForm(ns[k])
        {
          SameIsEqual(ms[k], ns[k]);
        }
        EqualObjects(a, b);
      case _ =>
    }
  }

  lemma EqualArrays(a: Json, b: Json)
    requires a.Array? && b.Array?
    ensures NormalForm(a) == NormalForm(b)
            <==> |a.items| == |b.items| && forall i :: 0 <= i < |a.items| ==> NormalForm(a.items[i]) == NormalForm(b.items[i])
  {
    var x, y := NormalForm(a).items, NormalForm(b).items;
    assert forall i :: 0 <= i < |x| ==> x[i] == NormalForm(a.items[i]);
    assert forall i :: 0 <= i < |y| ==> y[i] == NormalForm(b.items[i]);
  }

  lemma EqualObjects(a: Json, b: Json)
    requires a.Object? && b.Object?
    ensures NormalForm(a) == NormalForm(b)
            <==> && a.members.Keys == b.members.Keys
                 && forall k :: k in a.members && k in b.members ==> NormalForm(a.members[k]) == NormalForm(b.members[k])
  {
    var x, y := NormalForm(a).members, NormalForm(b).members;
    assert x.Keys == a.members.Keys && y.Keys == b.members.Keys;
    assert forall k :: k in x ==> x[k] == NormalForm(a.members[k]);
    assert forall k :: k in y ==> y[k] == NormalForm(b.members[k]);
  }

  /** What a test asks: a value is there, and it is equal. */
  ghost predicate Matches(doc: Document, path: Option<Tokens>, value: Document) {
    && path.Some? && value.Some? && Resolve(doc, path.value).At? && Resolve(doc, path.value).value.Some?
    && NormalForm(Resolve(doc, path.value).value.value) == NormalForm(value.value)
  }

  /** A test succeeds exactly when its question holds, and leaves the document as
      it is. */
  lemma TestIsEqual(doc: Document, ts: Tokens, value: Json)
    ensures TestValue(doc, ts, value) == if Matches(doc, Some(ts), Some(value)) then Done(doc) else Failed
  {
    hide Same, NormalForm;
    match Resolve(doc, ts) {
      case At(Some(v)) => SameIsEqual(v, value);
      case _ =>
    }
  }
}
