/** The syntax tree that the parser builds and the printer reads. */
module Tree {
  import opened Ascii

  datatype NodeKind =
    | ObjectNode | ArrayNode | KeyValueNode
    | StringNode | NumberNode | BoolNode | NullNode

  /** The comments attached to a node. */
  datatype Notes = Notes(head: Bytes, line: Bytes, foot: Bytes, trail: Bytes)

  const NO_NOTES := Notes([], [], [], [])

  /** An object's children are KeyValue nodes, each with its value as only
      child; an array's children are its elements. */
  datatype Node = Node(
    kind: NodeKind, key: Bytes, rawKey: Bytes, value: Bytes, rawValue: Bytes,
    notes: Notes, children: seq<Node>)
  {
    predicate IsContainer() { kind == ObjectNode || kind == ArrayNode }

    function WithHead(text: Bytes): Node { this.(notes := notes.(head := text)) }

    function WithLine(text: Bytes): Node { this.(notes := notes.(line := text)) }

    function WithFoot(text: Bytes): Node { this.(notes := notes.(foot := text)) }

    function WithTrail(text: Bytes): Node { this.(notes := notes.(trail := text)) }
  }

  function Scalar(kind: NodeKind, value: Bytes, raw: Bytes): Node {
    Node(kind, [], [], value, raw, NO_NOTES, [])
  }

  function Container(kind: NodeKind, children: seq<Node>, foot: Bytes, line: Bytes): Node {
    Node(kind, [], [], [], [], Notes([], line, foot, []), children)
  }

  function KeyValue(key: Bytes, rawKey: Bytes, value: Node, head: Bytes): Node {
    Node(KeyValueNode, key, rawKey, [], [], Notes(head, [], [], []), [value])
  }

  /** What a document means: the tree without comments and source forms. */
  datatype Value = Value(kind: NodeKind, key: Bytes, text: Bytes, items: seq<Value>)

  function ValueOf(n: Node): Value
    decreases n, 1
  {
    Value(n.kind, n.key, n.value, ValuesOf(n.children))
  }

  function ValuesOf(ns: seq<Node>): (vs: seq<Value>)
    ensures |vs| == |ns|
    ensures forall i :: 0 <= i < |ns| ==> vs[i] == ValueOf(ns[i])
    decreases ns, 0
  {
    seq(|ns|, i requires 0 <= i < |ns| => ValueOf(ns[i]))
  }
}
