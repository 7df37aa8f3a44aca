/** Size and depth belong to the document, not to how it is spelled; so normalizing is idempotent. */

module DocumentShape {
  import opened Outcomes
  import opened Text
  import opened Documents
  import opened DocumentProofs

  /** The values of a document, itself included. */
  function DocSize(d: Doc): nat
    decreases d, 1, 0
  {
    match d
    case ListDoc(items) => 1 + ItemSizes(d, |items|)
    case MapDoc(fields) => 1 + FieldSizes(d, fields.Keys)
    case _ => 1
  }

  function ItemSizes(d: Doc, n: nat): nat
    requires d.ListDoc? && n <= |d.items|
    decreases d, 0, n
  {
    if n == 0 then 0 else ItemSizes(d, n - 1) + DocSize(d.items[n - 1])
  }

  function FieldSizes(d: Doc, keys: set<Text>): nat
    requires d.MapDoc? && keys <= d.fields.Keys
    decreases d, 0, |keys|
  {
    if keys == {} then 0 else
      var k := Least(keys);
      DocSize(d.fields[k]) + FieldSizes(d, keys - {k})
  }

  /** No path into the document is longer than n. */
  predicate DocShallow(d: Doc, n: int)
    decreases d
  {
    n >= 0 &&
    match d
    case ListDoc(items) => forall i :: 0 <= i < |items| ==> DocShallow(items[i], n - 1)
    case MapDoc(fields) => forall key :: key in fields ==> DocShallow(fields[key], n - 1)
    case _ => true
  }

  /** Any field can be counted first. */
  lemma {:induction false} FieldFirst(d: Doc, keys: set<Text>, k: Text)
    requires d.MapDoc? && keys <= d.fields.Keys && k in keys
    ensures FieldSizes(d, keys) == DocSize(d.fields[k]) + FieldSizes(d, keys - {k})
    decreases |keys|
  {
    var least := Least(keys);
    if k != least {
      FieldFirst(d, keys - {least}, k);
      FieldFirst(d, keys - {k}, least);
      assert keys - {least} - {k} == keys - {k} - {least};
    }
  }

  function KeySet(keys: seq<Key>, n: nat): set<Text>
    requires n <= |keys| && forall i :: 0 <= i < n ==> keys[i].TextKey?
  {
    set i | 0 <= i < n :: keys[i].text
  }

  lemma {:induction false} TreeSize(t: Tree)
    requires Safe(t)
    ensures Size(t) == DocSize(DocOf(t))
    decreases t, 1, 0
  {
    match t
    case Scalar(_) =>
    case ListTree(items) =>
      DocsAt(items, |items|);
      ItemsSize(t, |items|);
    case MapTree(keys, items) =>
      FieldsOfKeys(keys, items, |items|);
      var d := DocOf(t);
      forall i | 0 <= i < |items|
        ensures keys[i].text in d.fields && Size(items[i]) == DocSize(d.fields[keys[i].text])
      {
        assert keys[i] == TextKey(keys[i].text);
        TreeSize(items[i]);
      }
      MembersSize(keys, items, d, |items|);
      assert KeySet(keys, |items|) == d.fields.Keys;
  }

  lemma {:induction false} DocsAt(ts: seq<Tree>, n: nat)
    requires AllSafe(ts) && n <= |ts|
    ensures |DocsOf(ts, n)| == n && forall i :: 0 <= i < n ==> DocsOf(ts, n)[i] == DocOf(ts[i])
  {
    if n > 0 { DocsAt(ts, n - 1); }
  }

  lemma {:induction false} ItemsSize(t: Tree, n: nat)
    requires t.ListTree? && Safe(t) && n <= |t.items| && DocOf(t).ListDoc? && n <= |DocOf(t).items|
    ensures Sizes(t.items, n) == ItemSizes(DocOf(t), n)
    decreases t, 0, n
  {
    DocsAt(t.items, |t.items|);
    if n > 0 {
      ItemsSize(t, n - 1);
      TreeSize(t.items[n - 1]);
    }
  }

  /** d's fields under these keys have the sizes of these trees. */
  predicate SizesAre(keys: seq<Key>, ts: seq<Tree>, d: Doc)
    requires |keys| == |ts| && DistinctTextKeys(keys)
  {
    d.MapDoc? && forall i :: 0 <= i < |ts| ==> keys[i].text in d.fields && Size(ts[i]) == DocSize(d.fields[keys[i].text])
  }

  lemma {:induction false} MembersSize(keys: seq<Key>, ts: seq<Tree>, d: Doc, n: nat)
    requires n <= |keys| == |ts| && DistinctTextKeys(keys) && SizesAre(keys, ts, d)
    ensures KeySet(keys, n) <= d.fields.Keys
    ensures Sizes(ts, n) == FieldSizes(d, KeySet(keys, n))
    decreases n
  {
    if n > 0 {
      MembersSize(keys, ts, d, n - 1);
      KeysGrow(keys, n);
      KeysAreFields(keys, ts, d, n);
      FieldFirst(d, KeySet(keys, n), keys[n - 1].text);
    }
  }

  lemma KeysAreFields(keys: seq<Key>, ts: seq<Tree>, d: Doc, n: nat)
    requires 0 < n <= |keys| == |ts| && DistinctTextKeys(keys) && SizesAre(keys, ts, d)
    ensures KeySet(keys, n) <= d.fields.Keys && Size(ts[n - 1]) == DocSize(d.fields[keys[n - 1].text])
  {
  }

  lemma {:induction false} KeysGrow(keys: seq<Key>, n: nat)
    requires 0 < n <= |keys| && DistinctTextKeys(keys)
    ensures keys[n - 1].text in KeySet(keys, n) && KeySet(keys, n) - {keys[n - 1].text} == KeySet(keys, n - 1)
  {
    forall i | 0 <= i < n - 1 ensures keys[i].text != keys[n - 1].text {
      assert keys[i] != keys[n - 1] && keys[i] == TextKey(keys[i].text) && keys[n - 1] == TextKey(keys[n - 1].text);
    }
  }

  lemma {:induction false} TreeDepth(t: Tree, n: int)
    requires Safe(t)
    ensures Shallow(t, n) <==> DocShallow(DocOf(t), n)
    decreases t
  {
    match t
    case Scalar(_) =>
    case ListTree(items) =>
      DocsAt(items, |items|);
      forall i | 0 <= i < |items| ensures Shallow(items[i], n - 1) <==> DocShallow(DocOf(t).items[i], n - 1) {
        TreeDepth(items[i], n - 1);
      }
    case MapTree(keys, items) =>
      FieldsOfKeys(keys, items, |items|);
      forall i | 0 <= i < |items|
        ensures Shallow(items[i], n - 1) <==> DocShallow(DocOf(t).fields[keys[i].text], n - 1)
        ensures keys[i].text in DocOf(t).fields
      {
        assert keys[i] == TextKey(keys[i].text);
        TreeDepth(items[i], n - 1);
      }
  }

  /** A graph spells a document: it has a JSON-safe unfolding that is the document. */
  ghost predicate Spells(g: Graph, id: nat, d: Doc)
    requires Closed(g) && id in g
  {
    exists t :: Unfolds(g, id, t) && Safe(t) && DocOf(t) == d
  }

  /** What the normalizer returns is the mapping that the objects spell, whenever it is small and shallow enough. */
  lemma NormalizesWhatIsSpelled(g: Graph, id: nat, d: Doc)
    requires Closed(g) && id in g
    ensures NormalDocument(g, id) == Some(d) <==>
            Spells(g, id, d) && d.MapDoc? && DocSize(d) <= MAX_NODES && DocShallow(d, MAX_DEPTH)
  {
    NormalizesExactly(g, id, d);
    if t :| Acceptable(g, id, t) && DocOf(t) == d {
      TreeSize(t);
      TreeDepth(t, MAX_DEPTH);
    }
    if Spells(g, id, d) && d.MapDoc? && DocSize(d) <= MAX_NODES && DocShallow(d, MAX_DEPTH) {
      var t :| Unfolds(g, id, t) && Safe(t) && DocOf(t) == d;
      TreeSize(t);
      TreeDepth(t, MAX_DEPTH);
      assert Acceptable(g, id, t);
    }
  }

  /** A normalized document, held as objects in whatever way, normalizes to itself. */
  lemma NormalizingIsIdempotent(g: Graph, id: nat, g': Graph, id': nat, d: Doc)
    requires Closed(g) && id in g && Closed(g') && id' in g'
    requires NormalDocument(g, id) == Some(d) && Spells(g', id', d)
    ensures NormalDocument(g', id') == Some(d)
  {
    NormalizesWhatIsSpelled(g, id, d);
    NormalizesWhatIsSpelled(g', id', d);
  }
}
