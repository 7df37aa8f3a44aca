/** `_normalize_document_mapping` over object graphs, and `_documents_equal` on what it returns. */

module Documents {
  import opened Outcomes
  import opened Text

  type Magnitude = m: real | 0.0 <= m witness 0.0

  datatype Float = Finite(negative: bool, magnitude: Magnitude) | Infinite(negative: bool) | NotANumber

  datatype Key = TextKey(text: Text) | OtherKey

  /** A Python object: containers refer to their items, so they can be shared and cyclic. */
  datatype Node =
    | NullNode
    | BoolNode(b: bool)
    | IntNode(n: int)
    | StringNode(s: Text)
    | FloatNode(f: Float)
    | MappingNode(keys: seq<Key>, items: seq<nat>)
    | ListNode(items: seq<nat>)
    | OtherNode

  type Graph = map<nat, Node>

  predicate Closed(g: Graph) {
    forall id :: id in g ==>
      && (g[id].MappingNode? ==> |g[id].keys| == |g[id].items|)
      && (g[id].MappingNode? || g[id].ListNode? ==> forall i :: 0 <= i < |g[id].items| ==> g[id].items[i] in g)
  }

  /** A plain JSON-safe document. */
  datatype Doc =
    | NullDoc
    | BoolDoc(b: bool)
    | IntDoc(n: int)
    | StringDoc(s: Text)
    | FloatDoc(negative: bool, magnitude: Magnitude)
    | ListDoc(items: seq<Doc>)
    | MapDoc(fields: map<Text, Doc>)

  const MAX_DEPTH := 64
  const MAX_NODES := 10000

  // ------------------------------------------------------------- normalizing

  function ScalarDoc(node: Node): Option<Doc> {
    match node
    case NullNode => Some(NullDoc)
    case BoolNode(b) => Some(BoolDoc(b))
    case IntNode(n) => Some(IntDoc(n))
    case StringNode(s) => Some(StringDoc(s))
    case FloatNode(Finite(negative, magnitude)) => Some(FloatDoc(negative, magnitude))
    case _ => None
  }

  function DepthLeft(depth: nat): nat { if depth <= MAX_DEPTH then MAX_DEPTH + 1 - depth else 0 }

  /** The document an object normalizes to and the node count afterwards; None when it is refused. */
  function Normal(g: Graph, id: nat, depth: nat, count: nat, active: set<nat>): Option<(Doc, nat)>
    requires Closed(g) && id in g
    decreases DepthLeft(depth), 1, 0
  {
    if count + 1 > MAX_NODES || depth > MAX_DEPTH then None
    else if g[id].MappingNode? then
      if id in active then None else
        match NormalMembers(g, g[id].keys, g[id].items, |g[id].items|, depth, count + 1, active + {id})
        case None => None
        case Some(r) => Some((MapDoc(r.0), r.1))
    else if g[id].ListNode? then
      if id in active then None else
        match NormalItems(g, g[id].items, |g[id].items|, depth, count + 1, active + {id})
        case None => None
        case Some(r) => Some((ListDoc(r.0), r.1))
    else
      match ScalarDoc(g[id])
      case None => None
      case Some(d) => Some((d, count + 1))
  }

  predicate AllIn(items: seq<nat>, g: Graph) { forall i :: 0 <= i < |items| ==> items[i] in g }

  /** The first n items, in order. */
  function NormalItems(g: Graph, items: seq<nat>, n: nat, depth: nat, count: nat, active: set<nat>)
    : Option<(seq<Doc>, nat)>
    requires Closed(g) && depth <= MAX_DEPTH && AllIn(items, g) && n <= |items|
    decreases DepthLeft(depth), 0, n
  {
    if n == 0 then Some(([], count)) else
      match NormalItems(g, items, n - 1, depth, count, active)
      case None => None
      case Some(front) =>
        match Normal(g, items[n - 1], depth + 1, front.1, active)
        case None => None
        case Some(last) => Some((front.0 + [last.0], last.1))
  }

  /** The first n members, in order; a key that is no string, or came before, is refused. */
  function NormalMembers(g: Graph, keys: seq<Key>, items: seq<nat>, n: nat, depth: nat, count: nat, active: set<nat>)
    : Option<(map<Text, Doc>, nat)>
    requires Closed(g) && depth <= MAX_DEPTH && AllIn(items, g) && n <= |items| == |keys|
    decreases DepthLeft(depth), 0, n
  {
    if n == 0 then Some((map[], count)) else
      match NormalMembers(g, keys, items, n - 1, depth, count, active)
      case None => None
      case Some(front) =>
        if keys[n - 1].OtherKey? || keys[n - 1].text in front.0 then None else
          match Normal(g, items[n - 1], depth + 1, front.1, active)
          case None => None
          case Some(last) => Some((front.0[keys[n - 1].text := last.0], last.1))
  }

  /** `_normalize_document_mapping` */
  function NormalDocument(g: Graph, id: nat): Option<Doc>
    requires Closed(g) && id in g
  {
    if !g[id].MappingNode? then None else
      match Normal(g, id, 0, 0, {})
      case None => None
      case Some(r) => Some(r.0)
  }

  // -------------------------------------------------------- the tree unfolding

  datatype Tree = Scalar(node: Node) | ListTree(items: seq<Tree>) | MapTree(keys: seq<Key>, items: seq<Tree>)

  /** t is what walking the graph from id spells out, sharing undone. */
  predicate Unfolds(g: Graph, id: nat, t: Tree)
    requires Closed(g) && id in g
    decreases t
  {
    match g[id]
    case MappingNode(keys, items) =>
      t.MapTree? && t.keys == keys && |t.items| == |items| && forall i :: 0 <= i < |items| ==> Unfolds(g, items[i], t.items[i])
    case ListNode(items) =>
      t.ListTree? && |t.items| == |items| && forall i :: 0 <= i < |items| ==> Unfolds(g, items[i], t.items[i])
    case node => t == Scalar(node)
  }

  function Size(t: Tree): nat
    decreases t, 1, 0
  {
    1 + if t.Scalar? then 0 else Sizes(t.items, |t.items|)
  }

  function Sizes(ts: seq<Tree>, n: nat): nat
    requires n <= |ts|
    decreases ts, 0, n
  {
    if n == 0 then 0 else Sizes(ts, n - 1) + Size(ts[n - 1])
  }

  /** No path from the root of t is longer than n. */
  predicate Shallow(t: Tree, n: int)
    decreases t
  {
    n >= 0 && (!t.Scalar? ==> forall i :: 0 <= i < |t.items| ==> Shallow(t.items[i], n - 1))
  }

  predicate DistinctTextKeys(keys: seq<Key>) {
    && (forall i :: 0 <= i < |keys| ==> keys[i].TextKey?)
    && (forall i, j :: 0 <= i < j < |keys| ==> keys[i] != keys[j])
  }

  /** JSON-safe scalars only, and mappings with distinct string keys. */
  predicate Safe(t: Tree)
    decreases t
  {
    match t
    case Scalar(node) => ScalarDoc(node).Some?
    case ListTree(items) => forall i :: 0 <= i < |items| ==> Safe(items[i])
    case MapTree(keys, items) =>
      |keys| == |items| && DistinctTextKeys(keys) && forall i :: 0 <= i < |items| ==> Safe(items[i])
  }

  predicate AllSafe(ts: seq<Tree>) { forall i :: 0 <= i < |ts| ==> Safe(ts[i]) }

  function DocOf(t: Tree): Doc
    requires Safe(t)
    decreases t, 1, 0
  {
    match t
    case Scalar(node) => ScalarDoc(node).value
    case ListTree(items) => ListDoc(DocsOf(items, |items|))
    case MapTree(keys, items) => MapDoc(FieldsOf(keys, items, |items|))
  }

  function DocsOf(ts: seq<Tree>, n: nat): seq<Doc>
    requires AllSafe(ts) && n <= |ts|
    decreases ts, 0, n
  {
    if n == 0 then [] else DocsOf(ts, n - 1) + [DocOf(ts[n - 1])]
  }

  function FieldsOf(keys: seq<Key>, ts: seq<Tree>, n: nat): map<Text, Doc>
    requires n <= |ts| == |keys| && AllSafe(ts) && forall i :: 0 <= i < n ==> keys[i].TextKey?
    decreases ts, 0, n
  {
    if n == 0 then map[] else FieldsOf(keys, ts, n - 1)[keys[n - 1].text := DocOf(ts[n - 1])]
  }

  /** The fields of a mapping are its keys, each with its own item. */
  lemma {:induction false} FieldsOfKeys(keys: seq<Key>, ts: seq<Tree>, n: nat)
    requires n <= |ts| == |keys| && AllSafe(ts) && forall i :: 0 <= i < n ==> keys[i].TextKey?
    ensures forall key :: key in FieldsOf(keys, ts, n) <==> exists i :: 0 <= i < n && keys[i] == TextKey(key)
    ensures DistinctTextKeys(keys) ==>
              forall i :: 0 <= i < n ==> FieldsOf(keys, ts, n)[keys[i].text] == DocOf(ts[i])
  {
    if n > 0 {
      FieldsOfKeys(keys, ts, n - 1);
      assert keys[n - 1] == TextKey(keys[n - 1].text);
    }
  }
}
