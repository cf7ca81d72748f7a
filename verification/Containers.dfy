/** Merging whole graphs, on values: model/container.go. */
module Consolidation {
  import opened KeyedFold
  import opened EdgeKinds
  import opened Nodes
  import opened Views
  import opened Graphs
  import opened Renaming

  /** One graph after another is merged into it: records of one identity fold, kinds of one edge merge. */
  ghost function MergedWith(p: Plain, q: Plain): Plain
  {
    Plain(Combine(FoldContent, p.contents, q.contents), Combine(MergeEdgeKind, p.edges, q.edges))
  }

  ghost function Tables(list: seq<Plain>): seq<map<string, Content>>
  {
    Flat((p: Plain) => [p.contents], list)
  }

  ghost function EdgeMaps(list: seq<Plain>): seq<EdgeMap>
  {
    Flat((p: Plain) => [p.edges], list)
  }

  /** A list of graphs merged one after another into an empty one. */
  ghost function Consolidated(list: seq<Plain>): Plain
  {
    Plain(MergedRecords(Tables(list)), CombineAll(MergeEdgeKind, EdgeMaps(list)))
  }

  lemma ConsolidatedSnoc(front: seq<Plain>, last: Plain)
    ensures Consolidated(front + [last]) == MergedWith(Consolidated(front), last)
    ensures Consolidated([]) == Plain(map[], map[])
  {
    assert (front + [last])[..|front|] == front;
    RecordsSnoc(Tables(front), last.contents);
    assert (EdgeMaps(front) + [last.edges])[..|EdgeMaps(front)|] == EdgeMaps(front);
  }

  ghost predicate AllStated(list: seq<Plain>)
  {
    forall p :: p in list ==> Stated(p.edges)
  }

  // ----- The kind of a merged edge

  /** The first kind stated stands unless some graph claims a dependency. */
  lemma {:induction false} FirstStands(kinds: seq<EdgeKind>)
    requires kinds != [] && Unstated !in kinds
    ensures FoldSeq(MergeEdgeKind, kinds) == if DependsOn in kinds then DependsOn else kinds[0]
    decreases |kinds|
  {
    if |kinds| > 1 {
      var front, last := kinds[..|kinds| - 1], kinds[|kinds| - 1];
      assert kinds == front + [last] && last in kinds && front[0] in front;
      FirstStands(front);
    }
  }

  /** The kinds a list of graphs states for one edge. */
  ghost function KindsOf(list: seq<Plain>, e: (string, string)): seq<EdgeKind>
  {
    At(EdgeMaps(list), e)
  }

  lemma MergedEdge(list: seq<Plain>, e: (string, string))
    requires AllStated(list)
    ensures e in Consolidated(list).edges <==> KindsOf(list, e) != []
    ensures e in Consolidated(list).edges ==>
              Consolidated(list).edges[e] == if DependsOn in KindsOf(list, e) then DependsOn else KindsOf(list, e)[0]
    ensures forall k :: k in KindsOf(list, e) <==> exists p :: p in list && States(p, e, k)
  {
    CombineAllAt(MergeEdgeKind, EdgeMaps(list), e);
    KindMembers(list, e);
    if e in Consolidated(list).edges {
      FirstStands(KindsOf(list, e));
    }
  }

  ghost predicate States(p: Plain, e: (string, string), k: EdgeKind)
  {
    e in p.edges && p.edges[e] == k
  }

  lemma KindMembers(list: seq<Plain>, e: (string, string))
    ensures forall k :: k in KindsOf(list, e) <==> exists p :: p in list && States(p, e, k)
  {
    AtMembers(EdgeMaps(list), e);
    FlatMembers((p: Plain) => [p.edges], list);
    forall k ensures k in KindsOf(list, e) <==> exists p :: p in list && States(p, e, k) {
      if k in KindsOf(list, e) {
        var m :| m in EdgeMaps(list) && e in m && m[e] == k;
        var p :| p in list && m in [p.edges];
        assert States(p, e, k);
      }
      if p :| p in list && States(p, e, k) {
        assert p.edges in [p.edges];
      }
    }
  }

  // ----- Order of the graphs

  /** On every edge some graph claims a dependency, or all graphs that have it agree. */
  ghost predicate GraphsSettle(list: seq<Plain>)
  {
    forall p, q, e, k, l {:trigger States(p, e, k), States(q, e, l)} ::
      p in list && q in list && States(p, e, k) && States(q, e, l) ==>
        k == l || exists r :: r in list && States(r, e, DependsOn)
  }

  /** The same identities, kinds and edges, and the same about every dependency. */
  ghost predicate SameGraph(p: Plain, q: Plain)
  {
    && p.contents.Keys == q.contents.Keys && p.edges == q.edges
    && forall id :: id in p.contents && id in q.contents ==> SameRecord(p.contents[id], q.contents[id])
  }

  ghost predicate OrderFree(list: seq<Plain>)
  {
    forall other :: multiset(other) == multiset(list) ==> SameGraph(Consolidated(list), Consolidated(other))
  }

  /** In whatever order graphs are merged the result has the same nodes, kinds, scopes, relationships, sites and
      metadata keys; and it has the same edges exactly when the kinds stated settle. */
  lemma ConsolidationIgnoresOrderIff(list: seq<Plain>)
    requires KindsAgree(Tables(list)) && AllStated(list)
    ensures OrderFree(list) <==> GraphsSettle(list)
  {
    if GraphsSettle(list) {
      forall other | multiset(other) == multiset(list) ensures SameGraph(Consolidated(list), Consolidated(other)) {
        SettledEdges(list, other);
        SameNodes(list, other);
      }
    } else {
      var p, q, e, k, l :| p in list && q in list && States(p, e, k) && States(q, e, l)
                           && k != l && forall r :: r in list ==> !States(r, e, DependsOn);
      var a := BroughtForward(list, p);
      var b := BroughtForward(list, q);
      FirstGraphDecides(list, a, e, k);
      FirstGraphDecides(list, b, e, l);
    }
  }

  lemma SettledEdges(a: seq<Plain>, b: seq<Plain>)
    requires multiset(a) == multiset(b) && AllStated(a) && GraphsSettle(a)
    ensures Consolidated(a).edges == Consolidated(b).edges
  {
    SameMembers(a, b);
    var x, y := Consolidated(a).edges, Consolidated(b).edges;
    forall e ensures (e in x <==> e in y) && (e in x ==> x[e] == y[e]) {
      MergedEdge(a, e);
      MergedEdge(b, e);
      hide Consolidated, KindsOf;
      var s, t := KindsOf(a, e), KindsOf(b, e);
      assert forall k :: k in s <==> k in t;
      if s != [] {
        assert s[0] in s && s[0] in t;
      }
      if t != [] {
        assert t[0] in t && t[0] in s;
      }
      if s != [] && t != [] {
        var p :| p in a && States(p, e, s[0]);
        var q :| q in a && States(q, e, t[0]);
      }
    }
  }

  lemma SameNodes(a: seq<Plain>, b: seq<Plain>)
    requires multiset(a) == multiset(b) && KindsAgree(Tables(a))
    ensures var x, y := Consolidated(a).contents, Consolidated(b).contents;
            x.Keys == y.Keys && forall id :: id in x && id in y ==> SameRecord(x[id], y[id])
  {
    FlatPermuted((p: Plain) => [p.contents], a, b);
    var x, y := Consolidated(a).contents, Consolidated(b).contents;
    forall id ensures (id in x <==> id in y) && (id in x ==> SameRecord(x[id], y[id])) {
      TablesAlike(Tables(a), Tables(b), id);
    }
  }

  lemma FirstGraphDecides(list: seq<Plain>, a: seq<Plain>, e: (string, string), k: EdgeKind)
    requires multiset(a) == multiset(list) && AllStated(list) && a != [] && States(a[0], e, k)
    requires forall r :: r in list ==> !States(r, e, DependsOn)
    ensures e in Consolidated(a).edges && Consolidated(a).edges[e] == k
  {
    SameMembers(a, list);
    MergedEdge(a, e);
    assert a == [a[0]] + a[1..];
    FlatConcat((p: Plain) => [p.edges], [a[0]], a[1..]);
    FlatOne((p: Plain) => [p.edges], a[0]);
    var value := (m: EdgeMap) => if e in m then [m[e]] else [];
    FlatConcat(value, [a[0].edges], EdgeMaps(a[1..]));
    FlatOne(value, a[0].edges);
    assert KindsOf(a, e) == [k] + At(EdgeMaps(a[1..]), e);
  }

  // ----- Copying without a rename

  function Same(id: string): string
  {
    id
  }

  /** Copying every edge under its own name merges the two edge maps. */
  lemma CopiedUnchanged(layout: Layout, into: EdgeMap, v: View, order: seq<(string, string)>)
    requires WellFormed(v) && "" !in v.ids && Stated(into) && Walks(layout, order, v.edges)
    ensures Copied(into, v.edges, Same, order) == Combine(MergeEdgeKind, into, v.edges)
  {
    var got, want := Copied(into, v.edges, Same, order), Combine(MergeEdgeKind, into, v.edges);
    forall p ensures (p in got <==> p in want) && (p in got ==> got[p] == want[p]) {
      CopyMeaning(into, v.edges, Same, order, p);
      OntoItself(v, p);
      if p in got && p !in into && DependsOn != got[p] {
        LeaderBrings(v.edges, Same, order, p, got[p]);
      }
    }
  }

  lemma OntoItself(v: View, p: (string, string))
    requires WellFormed(v) && "" !in v.ids
    ensures forall e :: e in v.edges ==> (Onto(Same, e, p) <==> e == p)
  {
    forall e | e in v.edges ensures Onto(Same, e, p) <==> e == p {
      assert e == (e.0, e.1);
    }
  }
}

/** MergeGraph and ConsolidatedGraph over the slot table. */
module Containers {
  import opened KeyedFold
  import opened Nodes
  import opened EdgeKinds
  import opened Views
  import opened SlotTables
  import opened Graphs
  import opened Renaming
  import opened Promotion
  import opened Consolidation

  /** The records of the slots below `bound`. */
  ghost function Visited(contents: map<string, Content>, index: map<string, nat>, bound: nat): map<string, Content>
  {
    map id | id in contents && id in index && index[id] < bound :: contents[id]
  }

  lemma VisitedNone(contents: map<string, Content>, index: map<string, nat>, before: map<string, Content>)
    ensures Visited(contents, index, 0).Keys == {} && Combine(FoldContent, before, Visited(contents, index, 0)) == before
  {
  }

  lemma VisitedDead(contents: map<string, Content>, index: map<string, nat>, i: nat)
    requires forall id :: id in index ==> index[id] != i
    ensures Visited(contents, index, i + 1) == Visited(contents, index, i)
  {
  }

  lemma VisitedLive(contents: map<string, Content>, index: map<string, nat>, i: nat, id: string, before: map<string, Content>)
    requires id in index && index[id] == i && id in contents && contents[id].id == id
    requires forall x, y :: x in index && y in index && index[x] == index[y] ==> x == y
    ensures Visited(contents, index, i + 1).Keys == Visited(contents, index, i).Keys + {id}
    ensures Combine(FoldContent, before, Visited(contents, index, i + 1)) ==
            Folded(Combine(FoldContent, before, Visited(contents, index, i)), contents[id])
  {
    hide FoldContent;
    var small, large := Visited(contents, index, i), Visited(contents, index, i + 1);
    assert large == small[id := contents[id]] && id !in small;
  }

  lemma VisitedAll(contents: map<string, Content>, index: map<string, nat>, bound: nat)
    requires contents.Keys == index.Keys && forall id :: id in index ==> index[id] < bound
    ensures Visited(contents, index, bound) == contents
  {
  }

  lemma FoldedElsewhere(contents: map<string, Content>, c: Content)
    ensures forall id :: id in contents && id != c.id ==> Folded(contents, c)[id] == contents[id]
  {
  }

  /** The nodes that were there stay, and any other is one of those added. */
  ghost predicate Extends(now: map<string, Node>, was: map<string, Node>, ids: set<string>, added: set<Node>)
  {
    && now.Keys == was.Keys + ids
    && forall id :: id in now ==> if id in was then now[id] == was[id] else now[id] in added
  }

  lemma ExtendsMore(later: map<string, Node>, now: map<string, Node>, was: map<string, Node>, ids: set<string>, more: set<string>,
                    added: set<Node>, new': set<Node>)
    requires Extends(now, was, ids, added) && Extends(later, now, more, new')
    ensures Extends(later, was, ids + more, added + new')
  {
  }

  /** Inserts a copy of a node; nodes of other identities keep what they hold. */
  method InsertCopy(dst: Graph, node: Node) returns (ghost added: set<Node>)
    requires dst.Valid() && node.id != ""
    modifies dst, dst.NodeMap().Values
    ensures dst.Valid() && dst.Edges() == old(dst.Edges())
    ensures dst.ContentMap() == Folded(old(dst.ContentMap()), old(node.Contents()))
    ensures fresh(added) && Extends(dst.NodeMap(), old(dst.NodeMap()), {node.id}, added)
    ensures forall id :: id in old(dst.NodeMap()) && id != node.id ==> old(dst.NodeMap())[id].Contents() == old(dst.ContentMap())[id]
  {
    hide *;
    dst.NodesFiled();
    dst.ContentsFiled();
    var clone := node.CloneNode();
    added := {clone};
    ghost var table := dst.NodeMap();
    FoldedElsewhere(dst.ContentMap(), node.Contents());
    var r := dst.InsertNode(clone);
    OneMore(dst.NodeMap(), table, clone);
    dst.ContentsFiled();
  }

  lemma OneMore(now: map<string, Node>, was: map<string, Node>, clone: Node)
    requires now == if clone.id !in was then was[clone.id := clone] else was
    ensures Extends(now, was, {clone.id}, {clone})
  {
  }

  /** Slots from `bound` on hold what they held at the start. */
  ghost predicate Untouched(nodes: seq<Node?>, table: map<string, Content>, bound: nat)
    reads nodes
  {
    forall i :: bound <= i < |nodes| && nodes[i] != null && nodes[i].id in table ==> nodes[i].Contents() == table[nodes[i].id]
  }

  /** The identity a slot holds, if it is live. */
  ghost function Held(nodes: seq<Node?>, i: nat): set<string>
  {
    if i < |nodes| && nodes[i] != null then {nodes[i].id} else {}
  }

  /** One slot of the source. */
  method InsertSlot(dst: Graph, src: Graph, i: nat, ghost table: map<string, Content>) returns (ghost added: set<Node>)
    requires dst.Valid() && src.Valid() && dst != src && i < |src.nodes|
    requires table.Keys == src.indexByID.Keys && Untouched(src.nodes, table, i)
    modifies dst, dst.NodeMap().Values
    ensures dst.Valid() && dst.Edges() == old(dst.Edges())
    ensures dst.ContentMap() == if src.nodes[i] == null then old(dst.ContentMap()) else Folded(old(dst.ContentMap()), table[src.nodes[i].id])
    ensures fresh(added) && Untouched(src.nodes, table, i + 1)
    ensures Extends(dst.NodeMap(), old(dst.NodeMap()), Held(src.nodes, i), added)
  {
    hide *;
    LiveOrDead(src, i);
    UntouchedHere(src.nodes, table, i);
    IsHeld(src.nodes, i);
    if src.alive[i] {
      SlotIsFirst(src.indexByID, src.nodes, i);
      added := InsertLive(dst, src.nodes[i], src.nodes, i, table);
    } else {
      NothingExtended(dst.NodeMap());
      added := {};
    }
  }

  method InsertLive(dst: Graph, node: Node, ghost nodes: seq<Node?>, ghost i: nat, ghost table: map<string, Content>)
    returns (ghost added: set<Node>)
    requires dst.Valid() && node.id != "" && i < |nodes| && nodes[i] == node && Untouched(nodes, table, i)
    requires forall j :: i < j < |nodes| && nodes[j] != null ==> nodes[j].id != node.id
    modifies dst, dst.NodeMap().Values
    ensures dst.Valid() && dst.Edges() == old(dst.Edges())
    ensures dst.ContentMap() == Folded(old(dst.ContentMap()), old(node.Contents()))
    ensures fresh(added) && Untouched(nodes, table, i + 1)
    ensures Extends(dst.NodeMap(), old(dst.NodeMap()), {node.id}, added)
  {
    hide *;
    dst.NodesFiled();
    dst.ContentsFiled();
    UntouchedMeans(nodes, table, i);
    ghost var was := dst.NodeMap();
    added := InsertCopy(dst, node);
    forall j | i < j < |nodes| && nodes[j] != null && nodes[j].id in table ensures nodes[j].Contents() == table[nodes[j].id] {
      if nodes[j] in was.Values {
        assert was[nodes[j].id] == nodes[j];
      }
    }
    UntouchedMeans(nodes, table, i + 1);
  }

  lemma IsHeld(nodes: seq<Node?>, i: nat)
    requires i < |nodes|
    ensures Held(nodes, i) == if nodes[i] != null then {nodes[i].id} else {}
  {
  }

  lemma SlotIsFirst(index: map<string, nat>, nodes: seq<Node?>, i: nat)
    requires IndexOk(index, nodes) && Live(nodes, i)
    ensures nodes[i].id in index && index[nodes[i].id] == i && nodes[i].id != ""
    ensures forall j :: i < j < |nodes| && nodes[j] != null ==> nodes[j].id != nodes[i].id
  {
  }

  /** What one slot does to the records visited. */
  lemma VisitedSlot(src: Graph, table: map<string, Content>, i: nat, before: map<string, Content>)
    requires src.Valid() && i < |src.nodes| && table.Keys == src.indexByID.Keys && forall id :: id in table ==> table[id].id == id
    ensures var index, now := src.indexByID, Combine(FoldContent, before, Visited(table, src.indexByID, i));
            && Combine(FoldContent, before, Visited(table, index, i + 1)) ==
               (if src.nodes[i] == null then now else Folded(now, table[src.nodes[i].id]))
            && Visited(table, index, i + 1).Keys == Visited(table, index, i).Keys + Held(src.nodes, i)
  {
    LiveOrDead(src, i);
    if src.nodes[i] != null {
      SlotIsFirst(src.indexByID, src.nodes, i);
      VisitedLive(table, src.indexByID, i, src.nodes[i].id, before);
    } else {
      VisitedDead(table, src.indexByID, i);
    }
  }

  lemma LiveOrDead(src: Graph, i: nat)
    requires src.Valid() && i < |src.nodes|
    ensures forall x, y :: x in src.indexByID && y in src.indexByID && src.indexByID[x] == src.indexByID[y] ==> x == y
    ensures |src.alive| == |src.nodes| && IndexOk(src.indexByID, src.nodes) && (src.alive[i] <==> Live(src.nodes, i)) && (src.alive[i] <==> src.nodes[i] != null)
    ensures !src.alive[i] ==> forall id :: id in src.indexByID ==> src.indexByID[id] != i
  {
  }

  lemma UntouchedMeans(nodes: seq<Node?>, table: map<string, Content>, bound: nat)
    ensures Untouched(nodes, table, bound) <==>
            forall i :: bound <= i < |nodes| && nodes[i] != null && nodes[i].id in table ==> nodes[i].Contents() == table[nodes[i].id]
  {
  }

  lemma UntouchedHere(nodes: seq<Node?>, table: map<string, Content>, i: nat)
    requires i < |nodes| && Untouched(nodes, table, i)
    ensures Untouched(nodes, table, i + 1)
    ensures nodes[i] != null && nodes[i].id in table ==> nodes[i].Contents() == table[nodes[i].id]
  {
  }

  lemma NothingExtended(was: map<string, Node>)
    ensures Extends(was, was, {}, {})
  {
  }

  lemma Owned(now: map<string, Node>, was: map<string, Node>, ids: set<string>, added: set<Node>)
    requires Extends(now, was, ids, added)
    ensures now.Values <= was.Values + added
  {
  }

  /** Every node of the source, slot by slot, is copied into the target; the source may share nodes with it. */
  method InsertAll(dst: Graph, src: Graph) returns (ghost added: set<Node>)
    requires dst.Valid() && src.Valid() && dst != src
    modifies dst, dst.NodeMap().Values
    ensures dst.Valid() && dst.Edges() == old(dst.Edges())
    ensures dst.ContentMap() == Combine(FoldContent, old(dst.ContentMap()), old(src.ContentMap()))
    ensures fresh(added) && Extends(dst.NodeMap(), old(dst.NodeMap()), src.indexByID.Keys, added)
  {
    hide *;
    ghost var table, index, before, was := src.ContentMap(), src.indexByID, dst.ContentMap(), dst.NodeMap();
    Starting(src);
    VisitedNone(table, index, before);
    NothingExtended(was);
    added := {};
    for i := 0 to |src.nodes|
      invariant dst.Valid() && dst.Edges() == old(dst.Edges())
      invariant dst.ContentMap() == Combine(FoldContent, before, Visited(table, index, i))
      invariant fresh(added) && Extends(dst.NodeMap(), was, Visited(table, index, i).Keys, added)
      invariant Untouched(src.nodes, table, i)
    {
      ghost var now := dst.NodeMap();
      Owned(now, was, Visited(table, index, i).Keys, added);
      VisitedSlot(src, table, i, before);
      ghost var more := InsertSlot(dst, src, i, table);
      ExtendsMore(dst.NodeMap(), now, was, Visited(table, index, i).Keys, Held(src.nodes, i), added, more);
      added := added + more;
    }
    VisitedAll(table, index, |src.nodes|);
  }

  lemma Starting(src: Graph)
    requires src.Valid()
    ensures src.ContentMap().Keys == src.indexByID.Keys && (forall id :: id in src.ContentMap() ==> src.ContentMap()[id].id == id)
    ensures (forall id :: id in src.indexByID ==> src.indexByID[id] < |src.nodes|)
    ensures Untouched(src.nodes, src.ContentMap(), 0)
  {
    src.Unfolded();
    src.ContentsFiled();
    src.NodesFiled();
  }

  lemma InIds(now: map<string, Node>, was: map<string, Node>, ids: set<string>, added: set<Node>)
    requires Extends(now, was, ids, added)
    ensures ids <= now.Keys
  {
  }

  lemma SourceEdges(dst: Graph, src: Graph)
    requires dst.Valid() && src.Valid()
    ensures Stated(dst.Edges()) && WellFormed(src.Abs()) && "" !in src.Abs().ids
    ensures src.Abs().ids == src.indexByID.Keys && src.Abs().edges == src.Edges()
  {
    dst.AbsWellFormed();
    src.AbsWellFormed();
    src.NodesFiled();
  }

  lemma AllCovered(ids: set<string>, v: View)
    requires WellFormed(v) && v.ids <= ids
    ensures Covered(ids, v.edges, Same)
  {
  }

  lemma Together(a: map<string, Content>, x: EdgeMap, b: map<string, Content>, y: EdgeMap)
    ensures MergedWith(Plain(a, x), Plain(b, y)) == Plain(Combine(FoldContent, a, b), Combine(MergeEdgeKind, x, y))
  {
  }

  /** Adds every node and edge of the source to the target, which never fails: records of one identity fold, kinds of
      one edge merge, and the source's slots do not matter. */
  method MergeGraph(dst: Graph, src: Graph) returns (r: Outcome, ghost added: set<Node>)
    requires dst.Valid() && src.Valid() && dst != src
    modifies dst, dst.NodeMap().Values
    ensures dst.Valid() && r == Ok
    ensures Plain(dst.ContentMap(), dst.Edges()) ==
            MergedWith(Plain(old(dst.ContentMap()), old(dst.Edges())), Plain(old(src.ContentMap()), old(src.Edges())))
    ensures fresh(added) && Extends(dst.NodeMap(), old(dst.NodeMap()), src.indexByID.Keys, added)
  {
    hide *;
    ghost var into := dst.Edges();
    SourceEdges(dst, src);
    added := InsertAll(dst, src);
    InIds(dst.NodeMap(), old(dst.NodeMap()), src.indexByID.Keys, added);
    AllCovered(dst.NodeMap().Keys, src.Abs());
    ghost var order, stuck;
    r, order, stuck := CopyEdgesInto(dst, src, Same);
    CopiedUnchanged(SlotsOf(src.indexByID), into, src.Abs(), order);
    Together(old(dst.ContentMap()), into, old(src.ContentMap()), src.Edges());
  }

  // ----- Containers

  /** What an entry's graph says; an absent graph says nothing. */
  ghost predicate Says(g: Graph?, p: Plain)
    reads g, if g == null then [] else g.nodes
  {
    if g == null then p == Plain(map[], map[]) else g.Valid() && p == Plain(g.ContentMap(), g.Edges())
  }

  /** No entries give no graph, one entry its own graph, several a new graph of everything merged in turn. */
  method ConsolidatedGraph(entries: seq<Graph?>, ghost list: seq<Plain>) returns (merged: Graph?)
    requires |entries| == |list| && forall i :: 0 <= i < |entries| ==> Says(entries[i], list[i])
    ensures |entries| == 0 ==> merged == null
    ensures |entries| == 1 ==> merged == entries[0]
    ensures |entries| > 1 ==> merged != null && fresh(merged)
    ensures merged != null ==> Says(merged, Consolidated(list))
  {
    if |entries| == 0 {
      return null;
    }
    if |entries| == 1 {
      OneGraph(list);
      return entries[0];
    }
    merged := JoinAll(entries, list);
  }

  method JoinAll(entries: seq<Graph?>, ghost list: seq<Plain>) returns (out: Graph)
    requires |entries| == |list| && forall i :: 0 <= i < |entries| ==> Says(entries[i], list[i])
    ensures fresh(out) && Says(out, Consolidated(list))
  {
    hide *;
    out := new Graph();
    ghost var mine: set<Node> := {};
    Empty(out, list);
    for i := 0 to |entries|
      invariant fresh(out) && out.Valid() && fresh(mine) && out.NodeMap().Values <= mine
      invariant Says(out, Consolidated(list[..i]))
      invariant forall j :: 0 <= j < |entries| ==> Says(entries[j], list[j])
    {
      NextGraph(list, i);
      ghost var added := JoinEntry(out, entries[i], Consolidated(list[..i]), list[i]);
      mine := mine + added;
    }
    assert list[..|entries|] == list;
  }

  method JoinEntry(out: Graph, g: Graph?, ghost was: Plain, ghost p: Plain) returns (ghost added: set<Node>)
    requires out.Valid() && Says(out, was) && Says(g, p) && g != out
    modifies out, out.NodeMap().Values
    ensures out.Valid() && Says(out, MergedWith(was, p))
    ensures fresh(added) && out.NodeMap().Values <= old(out.NodeMap().Values) + added
  {
    hide *;
    SaysWhat(out, was);
    SaysWhat(g, p);
    added := {};
    if g == null {
      MergedWithNothing(was);
    } else {
      ghost var nodes := out.NodeMap();
      var r;
      r, added := MergeGraph(out, g);
      Owned(out.NodeMap(), nodes, g.indexByID.Keys, added);
      SaysSo(out);
    }
  }

  lemma SaysWhat(g: Graph?, p: Plain)
    requires Says(g, p)
    ensures if g == null then p == Plain(map[], map[]) else g.Valid() && p == Plain(g.ContentMap(), g.Edges())
  {
  }

  lemma MergedWithNothing(p: Plain)
    ensures MergedWith(p, Plain(map[], map[])) == p
  {
    hide FoldContent;
    assert Combine(FoldContent, p.contents, map[]) == p.contents;
    assert Combine(MergeEdgeKind, p.edges, map[]) == p.edges;
  }

  lemma MergedIntoNothing(p: Plain)
    ensures MergedWith(Plain(map[], map[]), p) == p
  {
    hide FoldContent;
    assert Combine(FoldContent, map[], p.contents) == p.contents;
    assert Combine(MergeEdgeKind, map[], p.edges) == p.edges;
  }

  lemma SaysSo(g: Graph)
    requires g.Valid()
    ensures Says(g, Plain(g.ContentMap(), g.Edges()))
  {
  }

  lemma Empty(g: Graph, list: seq<Plain>)
    requires g.Valid() && g.NodeMap() == map[] && g.Edges() == map[]
    ensures Says(g, Consolidated(list[..0])) && g.NodeMap().Values == {}
  {
    ConsolidatedSnoc([], Plain(map[], map[]));
    g.ContentsFiled();
    assert g.ContentMap() == map[];
  }

  lemma OneGraph(list: seq<Plain>)
    requires |list| == 1
    ensures Consolidated(list) == list[0]
  {
    hide *;
    ConsolidatedSnoc([], list[0]);
    MergedIntoNothing(list[0]);
    assert list == [] + [list[0]];
  }

  lemma NextGraph(list: seq<Plain>, i: nat)
    requires i < |list|
    ensures Consolidated(list[..i + 1]) == MergedWith(Consolidated(list[..i]), list[i])
  {
    assert list[..i + 1] == list[..i] + [list[i]];
    ConsolidatedSnoc(list[..i], list[i]);
  }

  /** The edges of an entry's graph all state a kind, so the order law holds of every container. */
  lemma EntriesAreStated(entries: seq<Graph?>, list: seq<Plain>)
    requires |entries| == |list| && forall i :: 0 <= i < |entries| ==> Says(entries[i], list[i])
    ensures AllStated(list)
  {
    forall p | p in list ensures Stated(p.edges) {
      var i :| 0 <= i < |list| && list[i] == p;
      if entries[i] != null {
        entries[i].AbsWellFormed();
      }
    }
  }
}
