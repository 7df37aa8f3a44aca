/** The normalizer as it runs: one shared node counter, and the set of containers on the way. */

module Normalizer {
  import opened Outcomes
  import opened Text
  import opened Documents

  class Normalizer {
    var nodeCount: nat
    var active: set<nat>

    constructor ()
      ensures nodeCount == 0 && active == {}
    {
      nodeCount := 0;
      active := {};
    }

    /** The nested `normalize`: a container is active exactly while its items are visited. */
    method Normalize(g: Graph, id: nat, depth: nat) returns (r: Option<Doc>)
      requires Closed(g) && id in g
      modifies this
      ensures active == old(active)
      ensures match Normal(g, id, depth, old(nodeCount), old(active))
              case None => r == None
              case Some(result) => r == Some(result.0) && nodeCount == result.1
      decreases DepthLeft(depth), 1
    {
      nodeCount := nodeCount + 1;
      if nodeCount > MAX_NODES { return None; }
      if depth > MAX_DEPTH { return None; }
      match g[id] {
        case MappingNode(keys, items) =>
          if id in active { return None; }
          active := active + {id};
          var fields := NormalizeMembers(g, keys, items, depth);
          active := active - {id};
          if fields.None? { return None; }
          return Some(MapDoc(fields.value));
        case ListNode(items) =>
          if id in active { return None; }
          active := active + {id};
          var docs := NormalizeItems(g, items, depth);
          active := active - {id};
          if docs.None? { return None; }
          return Some(ListDoc(docs.value));
        case node =>
          return ScalarDoc(node);
      }
    }

    method NormalizeItems(g: Graph, items: seq<nat>, depth: nat) returns (r: Option<seq<Doc>>)
      requires Closed(g) && AllIn(items, g) && depth <= MAX_DEPTH
      modifies this
      ensures active == old(active)
      ensures match NormalItems(g, items, |items|, depth, old(nodeCount), old(active))
              case None => r == None
              case Some(result) => r == Some(result.0) && nodeCount == result.1
      decreases DepthLeft(depth), 0
    {
      var docs := [];
      for i := 0 to |items|
        invariant active == old(active)
        invariant NormalItems(g, items, i, depth, old(nodeCount), old(active)) == Some((docs, nodeCount))
      {
        var doc := Normalize(g, items[i], depth + 1);
        if doc.None? {
          ItemsStopEarly(g, items, i + 1, depth, old(nodeCount), active);
          return None;
        }
        docs := docs + [doc.value];
      }
      return Some(docs);
    }

    method NormalizeMembers(g: Graph, keys: seq<Key>, items: seq<nat>, depth: nat) returns (r: Option<map<Text, Doc>>)
      requires Closed(g) && AllIn(items, g) && depth <= MAX_DEPTH && |keys| == |items|
      modifies this
      ensures active == old(active)
      ensures match NormalMembers(g, keys, items, |items|, depth, old(nodeCount), old(active))
              case None => r == None
              case Some(result) => r == Some(result.0) && nodeCount == result.1
      decreases DepthLeft(depth), 0
    {
      var fields := map[];
      for i := 0 to |items|
        invariant active == old(active)
        invariant NormalMembers(g, keys, items, i, depth, old(nodeCount), old(active)) == Some((fields, nodeCount))
      {
        if keys[i].OtherKey? || keys[i].text in fields {
          MembersStopEarly(g, keys, items, i + 1, depth, old(nodeCount), active);
          return None;
        }
        var doc := Normalize(g, items[i], depth + 1);
        if doc.None? {
          MembersStopEarly(g, keys, items, i + 1, depth, old(nodeCount), active);
          return None;
        }
        fields := fields[keys[i].text := doc.value];
      }
      return Some(fields);
    }
  }

  lemma {:induction false} ItemsStopEarly(g: Graph, items: seq<nat>, n: nat, depth: nat, count: nat, active: set<nat>)
    requires Closed(g) && depth <= MAX_DEPTH && AllIn(items, g) && n <= |items|
    requires NormalItems(g, items, n, depth, count, active) == None
    ensures NormalItems(g, items, |items|, depth, count, active) == None
    decreases |items| - n
  {
    if n < |items| { ItemsStopEarly(g, items, n + 1, depth, count, active); }
  }

  lemma {:induction false} MembersStopEarly(g: Graph, keys: seq<Key>, items: seq<nat>, n: nat, depth: nat, count: nat,
                                            active: set<nat>)
    requires Closed(g) && depth <= MAX_DEPTH && AllIn(items, g) && n <= |items| == |keys|
    requires NormalMembers(g, keys, items, n, depth, count, active) == None
    ensures NormalMembers(g, keys, items, |items|, depth, count, active) == None
    decreases |items| - n
  {
    if n < |items| { MembersStopEarly(g, keys, items, n + 1, depth, count, active); }
  }

  /** `_normalize_document_mapping`: a mapping at the top, fresh counters. */
  method NormalizeDocument(g: Graph, id: nat) returns (r: Option<Doc>)
    requires Closed(g) && id in g
    ensures r == NormalDocument(g, id)
  {
    if !g[id].MappingNode? { return None; }
    var normalizer := new Normalizer();
    r := normalizer.Normalize(g, id, 0);
  }
}
