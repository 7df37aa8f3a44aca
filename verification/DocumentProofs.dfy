/** The normalizer accepts exactly the graphs with a small, shallow, JSON-safe tree unfolding, and returns it. */

module DocumentProofs {
  import opened Outcomes
  import opened Documents

  /** A graph has one unfolding at most. */
  lemma {:induction false} UnfoldsOnce(g: Graph, id: nat, s: Tree, t: Tree)
    requires Closed(g) && id in g && Unfolds(g, id, s) && Unfolds(g, id, t)
    ensures s == t
    decreases s
  {
    if g[id].MappingNode? || g[id].ListNode? {
      forall i | 0 <= i < |g[id].items| ensures s.items[i] == t.items[i] {
        UnfoldsOnce(g, g[id].items[i], s.items[i], t.items[i]);
      }
      assert s.items == t.items;
    }
  }

  /** The first n objects in items unfold to ts, which are safe and leave no path longer than room. */
  predicate Fit(g: Graph, items: seq<nat>, ts: seq<Tree>, n: nat, room: int)
    requires Closed(g) && AllIn(items, g)
  {
    && n <= |items| && |ts| == n
    && forall i :: 0 <= i < n ==> Unfolds(g, items[i], ts[i]) && Safe(ts[i]) && Shallow(ts[i], room)
  }

  lemma {:induction false} PrefixesAgree(ts: seq<Tree>, ts': seq<Tree>, n: nat)
    requires n <= |ts| <= |ts'| && ts == ts'[..|ts|]
    ensures Sizes(ts, n) == Sizes(ts', n)
    ensures AllSafe(ts) && AllSafe(ts') ==> DocsOf(ts, n) == DocsOf(ts', n)
  {
    if n > 0 { PrefixesAgree(ts, ts', n - 1); }
  }

  lemma {:induction false} FieldPrefixesAgree(keys: seq<Key>, ts: seq<Tree>, keys': seq<Key>, ts': seq<Tree>, n: nat)
    requires n <= |ts| <= |ts'| && ts == ts'[..|ts|] && |keys| == |ts| && |keys'| == |ts'| && keys == keys'[..|ts|]
    requires AllSafe(ts) && AllSafe(ts') && forall i :: 0 <= i < n ==> keys'[i].TextKey?
    ensures FieldsOf(keys, ts, n) == FieldsOf(keys', ts', n)
  {
    if n > 0 { FieldPrefixesAgree(keys, ts, keys', ts', n - 1); }
  }

  // --------------------------------------------------- accepted means unfolded

  lemma {:induction false} AcceptedUnfolds(g: Graph, id: nat, depth: nat, count: nat, active: set<nat>) returns (t: Tree)
    requires Closed(g) && id in g && Normal(g, id, depth, count, active).Some?
    ensures Unfolds(g, id, t) && Safe(t) && Shallow(t, MAX_DEPTH - depth)
    ensures Normal(g, id, depth, count, active) == Some((DocOf(t), count + Size(t))) && count + Size(t) <= MAX_NODES
    decreases DepthLeft(depth), 1, 0
  {
    match g[id]
    case MappingNode(keys, items) =>
      var ts := MembersUnfold(g, keys, items, |items|, depth, count + 1, active + {id});
      assert keys[..|items|] == keys;
      t := MapTree(keys, ts);
    case ListNode(items) =>
      var ts := ItemsUnfold(g, items, |items|, depth, count + 1, active + {id});
      t := ListTree(ts);
    case node =>
      t := Scalar(node);
  }

  lemma {:induction false} ItemsUnfold(g: Graph, items: seq<nat>, n: nat, depth: nat, count: nat, active: set<nat>)
    returns (ts: seq<Tree>)
    requires Closed(g) && depth <= MAX_DEPTH && AllIn(items, g) && n <= |items|
    requires NormalItems(g, items, n, depth, count, active).Some? && count <= MAX_NODES
    ensures Fit(g, items, ts, n, MAX_DEPTH - depth - 1)
    ensures NormalItems(g, items, n, depth, count, active) == Some((DocsOf(ts, n), count + Sizes(ts, n)))
    ensures count + Sizes(ts, n) <= MAX_NODES
    decreases DepthLeft(depth), 0, n
  {
    if n == 0 {
      ts := [];
    } else {
      var front := ItemsUnfold(g, items, n - 1, depth, count, active);
      var last := AcceptedUnfolds(g, items[n - 1], depth + 1, count + Sizes(front, n - 1), active);
      ts := front + [last];
      OneMoreItem(front, last, n);
    }
  }

  /** What one more item adds to the list and the size. */
  lemma OneMoreItem(front: seq<Tree>, last: Tree, n: nat)
    requires 0 < n && |front| == n - 1 && AllSafe(front) && Safe(last)
    ensures AllSafe(front + [last]) && Sizes(front + [last], n) == Sizes(front, n - 1) + Size(last)
    ensures DocsOf(front + [last], n) == DocsOf(front, n - 1) + [DocOf(last)]
  {
    PrefixesAgree(front, front + [last], n - 1);
  }

  lemma {:induction false} MembersUnfold(g: Graph, keys: seq<Key>, items: seq<nat>, n: nat, depth: nat, count: nat,
                                         active: set<nat>)
    returns (ts: seq<Tree>)
    requires Closed(g) && depth <= MAX_DEPTH && AllIn(items, g) && n <= |items| == |keys|
    requires NormalMembers(g, keys, items, n, depth, count, active).Some? && count <= MAX_NODES
    ensures DistinctTextKeys(keys[..n]) && Fit(g, items, ts, n, MAX_DEPTH - depth - 1)
    ensures NormalMembers(g, keys, items, n, depth, count, active)
         == Some((FieldsOf(keys[..n], ts, n), count + Sizes(ts, n)))
    ensures count + Sizes(ts, n) <= MAX_NODES
    decreases DepthLeft(depth), 0, n
  {
    if n == 0 {
      ts := [];
    } else {
      var front := MembersUnfold(g, keys, items, n - 1, depth, count, active);
      var last := AcceptedUnfolds(g, items[n - 1], depth + 1, count + Sizes(front, n - 1), active);
      ts := front + [last];
      OneMoreMember(keys, front, last, n);
    }
  }

  /** What one more member adds to the fields and the size. */
  lemma OneMoreMember(keys: seq<Key>, front: seq<Tree>, last: Tree, n: nat)
    requires 0 < n <= |keys| && |front| == n - 1 && AllSafe(front) && Safe(last) && DistinctTextKeys(keys[..n - 1])
    requires keys[n - 1].TextKey? && keys[n - 1].text !in FieldsOf(keys[..n - 1], front, n - 1)
    ensures AllSafe(front + [last]) && DistinctTextKeys(keys[..n])
    ensures Sizes(front + [last], n) == Sizes(front, n - 1) + Size(last)
    ensures FieldsOf(keys[..n], front + [last], n) == FieldsOf(keys[..n - 1], front, n - 1)[keys[n - 1].text := DocOf(last)]
  {
    var ts := front + [last];
    PrefixesAgree(front, ts, n - 1);
    KeysStayDistinct(keys, front, n - 1);
    FieldPrefixesAgree(keys[..n - 1], front, keys[..n], ts, n - 1);
  }

  lemma KeysStayDistinct(keys: seq<Key>, front: seq<Tree>, n: nat)
    requires n == |front| < |keys| && DistinctTextKeys(keys[..n]) && AllSafe(front)
    requires keys[n].TextKey? && keys[n].text !in FieldsOf(keys[..n], front, n)
    ensures DistinctTextKeys(keys[..n + 1])
  {
    FieldsOfKeys(keys[..n], front, n);
    forall i | 0 <= i < n ensures keys[i].TextKey? && keys[i] != keys[n] {
      assert keys[..n][i] == keys[i] == TextKey(keys[i].text);
    }
    var ks := keys[..n + 1];
    forall i, j | 0 <= i < j < |ks| ensures ks[i] != ks[j] {
      if j < n { assert keys[..n][i] != keys[..n][j]; }
    }
  }

  // --------------------------------------------------- unfolded means accepted

  /** Every object being walked has a larger unfolding than n, if it has one at all. */
  ghost predicate Above(g: Graph, active: set<nat>, n: nat)
    requires Closed(g)
  {
    forall a, s :: a in active && a in g && Unfolds(g, a, s) ==> Size(s) > n
  }

  lemma AboveLess(g: Graph, active: set<nat>, n: nat, m: nat)
    requires Closed(g) && Above(g, active, n) && m <= n
    ensures Above(g, active, m)
  {
  }

  /** An unfolding is larger than its parts, so no object on the way to a part can occur in it again. */
  lemma PartsAreSmaller(g: Graph, id: nat, t: Tree, active: set<nat>)
    requires Closed(g) && id in g && Unfolds(g, id, t) && !t.Scalar? && Above(g, active, Size(t))
    ensures id !in active && Above(g, active + {id}, Sizes(t.items, |t.items|))
  {
    forall a, s | a in active + {id} && a in g && Unfolds(g, a, s) ensures Size(s) > Sizes(t.items, |t.items|) {
      if a == id { UnfoldsOnce(g, id, s, t); }
    }
  }

  lemma {:induction false} UnfoldedAccepted(g: Graph, id: nat, t: Tree, depth: nat, count: nat, active: set<nat>)
    requires Closed(g) && id in g && Unfolds(g, id, t) && Safe(t) && Shallow(t, MAX_DEPTH - depth)
    requires count + Size(t) <= MAX_NODES && Above(g, active, Size(t))
    ensures Normal(g, id, depth, count, active) == Some((DocOf(t), count + Size(t)))
    decreases t, 1, 0
  {
    if g[id].MappingNode? {
      PartsAreSmaller(g, id, t, active);
      MembersAccepted(g, g[id].keys, g[id].items, t.items, |t.items|, depth, count + 1, active + {id});
    } else if g[id].ListNode? {
      PartsAreSmaller(g, id, t, active);
      ItemsAccepted(g, g[id].items, t.items, |t.items|, depth, count + 1, active + {id});
    }
  }

  lemma {:induction false} SizesGrow(ts: seq<Tree>, n: nat, m: nat)
    requires n <= m <= |ts|
    ensures Sizes(ts, n) <= Sizes(ts, m)
    decreases m - n
  {
    if n < m { SizesGrow(ts, n, m - 1); }
  }

  /** One fitting item, accepted after the ones before it. */
  lemma {:induction false} NextAccepted(g: Graph, items: seq<nat>, ts: seq<Tree>, n: nat, depth: nat, count: nat,
                                        active: set<nat>)
    requires Closed(g) && AllIn(items, g) && n < |items| && Fit(g, items, ts, |items|, MAX_DEPTH - depth - 1)
    requires count + Sizes(ts, |ts|) <= MAX_NODES && Above(g, active, Sizes(ts, |ts|))
    ensures Normal(g, items[n], depth + 1, count + Sizes(ts, n), active)
         == Some((DocOf(ts[n]), count + Sizes(ts, n + 1)))
    decreases ts, 0, 0
  {
    SizesGrow(ts, n + 1, |ts|);
    AboveLess(g, active, Sizes(ts, |ts|), Size(ts[n]));
    UnfoldedAccepted(g, items[n], ts[n], depth + 1, count + Sizes(ts, n), active);
  }

  lemma {:induction false} ItemsAccepted(g: Graph, items: seq<nat>, ts: seq<Tree>, n: nat, depth: nat, count: nat,
                                         active: set<nat>)
    requires Closed(g) && AllIn(items, g) && depth <= MAX_DEPTH && n <= |items|
    requires Fit(g, items, ts, |items|, MAX_DEPTH - depth - 1)
    requires count + Sizes(ts, |ts|) <= MAX_NODES && Above(g, active, Sizes(ts, |ts|))
    ensures NormalItems(g, items, n, depth, count, active) == Some((DocsOf(ts, n), count + Sizes(ts, n)))
    decreases ts, 0, n + 1
  {
    if n > 0 {
      ItemsAccepted(g, items, ts, n - 1, depth, count, active);
      NextAccepted(g, items, ts, n - 1, depth, count, active);
    }
  }

  lemma {:induction false} MembersAccepted(g: Graph, keys: seq<Key>, items: seq<nat>, ts: seq<Tree>, n: nat, depth: nat,
                                           count: nat, active: set<nat>)
    requires Closed(g) && AllIn(items, g) && depth <= MAX_DEPTH && n <= |items| == |keys| && DistinctTextKeys(keys)
    requires Fit(g, items, ts, |items|, MAX_DEPTH - depth - 1)
    requires count + Sizes(ts, |ts|) <= MAX_NODES && Above(g, active, Sizes(ts, |ts|))
    ensures NormalMembers(g, keys, items, n, depth, count, active)
         == Some((FieldsOf(keys, ts, n), count + Sizes(ts, n)))
    decreases ts, 0, n + 1
  {
    if n > 0 {
      MembersAccepted(g, keys, items, ts, n - 1, depth, count, active);
      NextAccepted(g, items, ts, n - 1, depth, count, active);
      NextKeyIsNew(keys, ts, n - 1);
    }
  }

  lemma NextKeyIsNew(keys: seq<Key>, ts: seq<Tree>, n: nat)
    requires n < |keys| == |ts| && DistinctTextKeys(keys) && AllSafe(ts)
    ensures keys[n].TextKey? && keys[n].text !in FieldsOf(keys, ts, n)
  {
    FieldsOfKeys(keys, ts, n);
    assert keys[n] == TextKey(keys[n].text);
  }

  // ------------------------------------------------------------ main results

  /** The unfolding of an acceptable document. */
  predicate Acceptable(g: Graph, id: nat, t: Tree)
    requires Closed(g) && id in g
  {
    t.MapTree? && Unfolds(g, id, t) && Safe(t) && Size(t) <= MAX_NODES && Shallow(t, MAX_DEPTH)
  }

  /** A document is accepted exactly if it has an acceptable unfolding; the result is that unfolding. */
  lemma NormalizesExactly(g: Graph, id: nat, d: Doc)
    requires Closed(g) && id in g
    ensures NormalDocument(g, id) == Some(d) <==> exists t :: Acceptable(g, id, t) && DocOf(t) == d
  {
    if NormalDocument(g, id) == Some(d) {
      var t := AcceptedUnfolds(g, id, 0, 0, {});
      assert Acceptable(g, id, t) && DocOf(t) == d;
    }
    if exists t :: Acceptable(g, id, t) && DocOf(t) == d {
      var t :| Acceptable(g, id, t) && DocOf(t) == d;
      UnfoldedAccepted(g, id, t, 0, 0, {});
    }
  }

  /** Sharing, identity and layout do not matter: graphs with one unfolding normalize alike. */
  lemma OnlyTheUnfoldingMatters(g: Graph, id: nat, g': Graph, id': nat, t: Tree)
    requires Closed(g) && id in g && Closed(g') && id' in g' && Unfolds(g, id, t) && Unfolds(g', id', t)
    ensures NormalDocument(g, id) == NormalDocument(g', id')
  {
    SameFromUnfolding(g, id, g', id', t);
    SameFromUnfolding(g', id', g, id, t);
  }

  lemma SameFromUnfolding(g: Graph, id: nat, g': Graph, id': nat, t: Tree)
    requires Closed(g) && id in g && Closed(g') && id' in g' && Unfolds(g, id, t) && Unfolds(g', id', t)
    ensures NormalDocument(g, id).Some? ==> NormalDocument(g', id') == NormalDocument(g, id)
  {
    if NormalDocument(g, id).Some? {
      var d := NormalDocument(g, id).value;
      NormalizesExactly(g, id, d);
      var s :| Acceptable(g, id, s) && DocOf(s) == d;
      UnfoldsOnce(g, id, s, t);
      assert Acceptable(g', id', t);
      NormalizesExactly(g', id', d);
    }
  }

  /** An object that contains itself is refused. */
  lemma CyclesAreRefused(g: Graph, path: seq<nat>)
    requires Closed(g) && |path| >= 2 && path[0] == path[|path| - 1] && path[0] in g && Links(g, path)
    ensures NormalDocument(g, path[0]) == None
  {
    if NormalDocument(g, path[0]).Some? {
      var d := NormalDocument(g, path[0]).value;
      NormalizesExactly(g, path[0], d);
      var t :| Acceptable(g, path[0], t) && DocOf(t) == d;
      var s := Descend(g, path, t);
      UnfoldsOnce(g, path[0], s, t);
    }
  }

  /** Each object in path is an item of the one before it. */
  predicate Links(g: Graph, path: seq<nat>) {
    forall i :: 0 <= i < |path| - 1 ==>
      && path[i] in g && (g[path[i]].MappingNode? || g[path[i]].ListNode?) && path[i + 1] in g[path[i]].items
  }

  lemma {:induction false} Descend(g: Graph, path: seq<nat>, t: Tree) returns (s: Tree)
    requires Closed(g) && |path| >= 2 && Links(g, path) && Unfolds(g, path[0], t)
    ensures path[|path| - 1] in g && Unfolds(g, path[|path| - 1], s) && Size(s) < Size(t)
    decreases |path|
  {
    var i :| 0 <= i < |g[path[0]].items| && g[path[0]].items[i] == path[1];
    var child := t.items[i];
    SizesGrow(t.items, i + 1, |t.items|);
    if |path| == 2 {
      s := child;
    } else {
      s := Descend(g, path[1..], child);
    }
  }

  // ----------------------------------------------------------------- equality

  function Value(d: Doc): real
    requires d.FloatDoc?
  {
    var m: real := d.magnitude;
    if d.negative then -m else m
  }

  /** `type(left) is type(right)` */
  predicate SameType(l: Doc, r: Doc) {
    match l
    case NullDoc => r.NullDoc?
    case BoolDoc(_) => r.BoolDoc?
    case IntDoc(_) => r.IntDoc?
    case StringDoc(_) => r.StringDoc?
    case FloatDoc(_, _) => r.FloatDoc?
    case ListDoc(_) => r.ListDoc?
    case MapDoc(_) => r.MapDoc?
  }

  /** `_documents_equal`: floats compare as numbers, zeros by their sign as well. */
  predicate DocumentsEqual(l: Doc, r: Doc)
    decreases l
  {
    SameType(l, r) &&
    match l
    case MapDoc(fields) =>
      fields.Keys == r.fields.Keys && forall key :: key in fields ==> DocumentsEqual(fields[key], r.fields[key])
    case ListDoc(items) => |items| == |r.items| && forall i :: 0 <= i < |items| ==> DocumentsEqual(items[i], r.items[i])
    case FloatDoc(_, _) => if Value(l) == 0.0 && Value(r) == 0.0 then l.negative == r.negative else Value(l) == Value(r)
    case NullDoc => true
    case BoolDoc(b) => b == r.b
    case IntDoc(n) => n == r.n
    case StringDoc(s) => s == r.s
  }

  /** Equality of documents is tagged structural equality: no coercion, and 0.0 differs from -0.0. */
  lemma {:induction false} EqualExactly(l: Doc, r: Doc)
    ensures DocumentsEqual(l, r) <==> l == r
    decreases l
  {
    match l
    case MapDoc(fields) =>
      if r.MapDoc? && fields.Keys == r.fields.Keys {
        forall key | key in fields ensures DocumentsEqual(fields[key], r.fields[key]) <==> fields[key] == r.fields[key] {
          EqualExactly(fields[key], r.fields[key]);
        }
        if DocumentsEqual(l, r) { assert fields == r.fields; }
      }
    case ListDoc(items) =>
      if r.ListDoc? && |items| == |r.items| {
        forall i | 0 <= i < |items| ensures DocumentsEqual(items[i], r.items[i]) <==> items[i] == r.items[i] {
          EqualExactly(items[i], r.items[i]);
        }
        if DocumentsEqual(l, r) { assert items == r.items; }
      }
    case _ =>
  }
}
