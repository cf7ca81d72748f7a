/** What the reachability walks below must return. */
module WalkTheory {
  import opened Orders
  import opened EdgeKinds
  import opened Views
  import opened Reachability

  /** A path with at least one edge whose interior nodes are all absent from the document. */
  ghost predicate Hop(v: View, present: set<string>, a: string, x: string, p: seq<string>)
  {
    PathFromTo(v, a, x, p) && |p| > 1 && forall i :: 0 < i < |p| - 1 ==> p[i] !in present
  }

  ghost predicate Linked(v: View, present: set<string>, a: string, x: string)
  {
    exists p :: Hop(v, present, a, x, p)
  }

  lemma LinkedByEdge(v: View, present: set<string>, a: string, y: string)
    requires Edge(v, a, y) && a in v.ids && y in v.ids
    ensures Linked(v, present, a, y)
  {
    assert Hop(v, present, a, y, [a, y]);
  }

  lemma LinkedThenEdge(v: View, present: set<string>, a: string, x: string, y: string)
    requires Linked(v, present, a, x) && x !in present && Edge(v, x, y) && y in v.ids
    ensures Linked(v, present, a, y)
  {
    var p :| Hop(v, present, a, x, p);
    assert IsPath(v, [y]);
    JoinPaths(v, p, [y]);
    assert Hop(v, present, a, y, p + [y]);
  }

  /** What a depth-first walk has stepped through, and the children it has found, in order. */
  datatype Trail = Trail(visited: set<string>, found: seq<string>)

  /** The walk over some children in turn: a present one is recorded once, an absent one is stepped through once. */
  ghost function WalkAll(v: View, present: set<string>, kids: seq<string>, t: Trail): (r: Trail)
    ensures t.visited <= r.visited
    decreases v.ids - t.visited, |kids|
  {
    if kids == [] then t else WalkAll(v, present, kids[1..], WalkOne(v, present, kids[0], t))
  }

  ghost function WalkOne(v: View, present: set<string>, child: string, t: Trail): (r: Trail)
    ensures t.visited <= r.visited
    decreases v.ids - t.visited, 0
  {
    if child in present then (if child in t.found then t else t.(found := t.found + [child]))
    else if child in t.visited || child !in v.ids then t
    else WalkAll(v, present, ChildIds(v.edges, child), t.(visited := t.visited + {child}))
  }

  /** The order children are found in: depth first, children by ID. */
  ghost function DepthFirst(v: View, present: set<string>, id: string): seq<string>
  {
    WalkAll(v, present, ChildIds(v.edges, id), Trail({id}, [])).found
  }

  lemma WalkNext(v: View, present: set<string>, kids: seq<string>, i: nat, t: Trail)
    requires i < |kids|
    ensures WalkAll(v, present, kids[i..], t) == WalkAll(v, present, kids[i + 1..], WalkOne(v, present, kids[i], t))
  {
    assert kids[i..][1..] == kids[i + 1..];
  }

  lemma WalkOneIs(v: View, present: set<string>, child: string, t: Trail)
    requires child in v.ids
    ensures child in present && child in t.found ==> WalkOne(v, present, child, t) == t
    ensures child in present && child !in t.found ==> WalkOne(v, present, child, t) == Trail(t.visited, t.found + [child])
    ensures child !in present && child in t.visited ==> WalkOne(v, present, child, t) == t
    ensures child !in present && child !in t.visited ==>
              WalkOne(v, present, child, t) == WalkAll(v, present, ChildIds(v.edges, child), Trail(t.visited + {child}, t.found))
  {
  }

  ghost predicate Handled(present: set<string>, visited: set<string>, resolved: seq<string>, y: string)
  {
    if y in present then y in resolved else y in visited
  }

  /** Where the walk stands: nodes stepped through, children found, and the nodes whose children are all handled. */
  ghost predicate Explored(v: View, present: set<string>, root: string, visited: set<string>, resolved: seq<string>, done: set<string>)
  {
    && WellFormed(v) && root in visited && visited <= v.ids && done <= visited && Distinct(resolved)
    && (forall x :: x in visited && x != root ==> x !in present && Linked(v, present, root, x))
    && (forall x :: x in resolved ==> x in present && Linked(v, present, root, x))
    && (forall x, y :: x in done && Edge(v, x, y) ==> Handled(present, visited, resolved, y))
  }

  lemma ChildLinked(v: View, present: set<string>, root: string, visited: set<string>, resolved: seq<string>,
                                       done: set<string>, id: string, y: string)
    requires Explored(v, present, root, visited, resolved, done) && id in visited && Edge(v, id, y)
    ensures Linked(v, present, root, y) && y in v.ids
  {
    assert (id, y) in v.edges;
    if id == root {
      LinkedByEdge(v, present, root, y);
    } else {
      LinkedThenEdge(v, present, root, id, y);
    }
  }

  lemma RecordChild(v: View, present: set<string>, root: string, visited: set<string>, resolved: seq<string>,
                                       done: set<string>, id: string, y: string)
    requires Explored(v, present, root, visited, resolved, done) && id in visited && Edge(v, id, y) && y in present && y !in resolved
    ensures Explored(v, present, root, visited, resolved + [y], done)
  {
    ChildLinked(v, present, root, visited, resolved, done, id, y);
  }

  lemma VisitChild(v: View, present: set<string>, root: string, visited: set<string>, resolved: seq<string>,
                                      done: set<string>, id: string, y: string)
    requires Explored(v, present, root, visited, resolved, done) && id in visited && Edge(v, id, y) && y !in present && y !in visited
    ensures Explored(v, present, root, visited + {y}, resolved, done)
    ensures v.ids - (visited + {y}) < v.ids - visited
  {
    ChildLinked(v, present, root, visited, resolved, done, id, y);
    assert y in v.ids - visited;
  }

  lemma Finish(v: View, present: set<string>, root: string, visited: set<string>, resolved: seq<string>,
                                  done: set<string>, id: string)
    requires Explored(v, present, root, visited, resolved, done) && id in visited
    requires forall y :: Edge(v, id, y) ==> Handled(present, visited, resolved, y)
    ensures Explored(v, present, root, visited, resolved, done + {id})
  {
  }

  /** When every visited node is done, what was found is exactly what is linked. */
  lemma ExploredAll(v: View, present: set<string>, root: string, visited: set<string>, resolved: seq<string>)
    requires Explored(v, present, root, visited, resolved, visited)
    ensures forall x :: x in resolved <==> x in present && Linked(v, present, root, x)
  {
    forall x | x in present && Linked(v, present, root, x) ensures x in resolved {
      var p :| Hop(v, present, root, x, p);
      StaysVisited(v, present, root, visited, resolved, p, |p| - 2);
      assert Edge(v, p[|p| - 2], p[|p| - 1]);
    }
  }

  lemma {:induction false} StaysVisited(v: View, present: set<string>, root: string, visited: set<string>, resolved: seq<string>, p: seq<string>, i: nat)
    requires Explored(v, present, root, visited, resolved, visited)
    requires IsPath(v, p) && p[0] == root && i < |p| - 1 && forall j :: 0 < j < |p| - 1 ==> p[j] !in present
    ensures p[i] in visited
  {
    if i > 0 {
      StaysVisited(v, present, root, visited, resolved, p, i - 1);
      assert Edge(v, p[i - 1], p[i]);
    }
  }

  // ----- The order children are found in

  lemma SortedChildren(edges: EdgeMap, id: string, ids: seq<string>)
    requires Increasing(Less, ids)
    requires (forall i :: 0 <= i < |ids| ==> (id, ids[i]) in edges) && forall e :: e in edges && e.0 == id ==> e.1 in ids
    ensures ids == ChildIds(edges, id)
  {
    LessIsStrictTotal();
    var targets := set e | e in edges && e.0 == id :: e.1;
    forall y ensures y in ids <==> y in targets {
      if y in ids {
        var i :| 0 <= i < |ids| && ids[i] == y;
        assert (id, y) in edges;
      }
    }
    OnlySort(Less, targets, ids);
  }

  lemma HandledIs(present: set<string>, visited: set<string>, resolved: seq<string>, y: string)
    ensures Handled(present, visited, resolved, y) <==> if y in present then y in resolved else y in visited
  {
  }

  lemma HandledGrows(present: set<string>, visited: set<string>, resolved: seq<string>, visited': set<string>, resolved': seq<string>)
    requires visited <= visited' && forall x :: x in resolved ==> x in resolved'
    ensures forall y :: Handled(present, visited, resolved, y) ==> Handled(present, visited', resolved', y)
  {
  }

  /** Stepping through some children of a visited node handles them all, and finishes whatever it newly visits. */
  lemma {:induction false} WalkExplores(v: View, present: set<string>, root: string, id: string, kids: seq<string>, t: Trail, done: set<string>)
    requires Explored(v, present, root, t.visited, t.found, done) && id in t.visited && forall c :: c in kids ==> Edge(v, id, c)
    ensures var r := WalkAll(v, present, kids, t);
            && Explored(v, present, root, r.visited, r.found, done + (r.visited - t.visited)) && t.found <= r.found
            && forall c :: c in kids ==> Handled(present, r.visited, r.found, c)
    decreases v.ids - t.visited, |kids|
  {
    if kids != [] {
      var c, r := kids[0], WalkAll(v, present, kids, t);
      OneExplores(v, present, root, id, c, t, done);
      var t1 := WalkOne(v, present, c, t);
      assert kids == [c] + kids[1..];
      WalkExplores(v, present, root, id, kids[1..], t1, done + (t1.visited - t.visited));
      assert done + (t1.visited - t.visited) + (r.visited - t1.visited) == done + (r.visited - t.visited);
      HandledGrows(present, t1.visited, t1.found, r.visited, r.found);
    }
  }

  lemma {:induction false} OneExplores(v: View, present: set<string>, root: string, id: string, c: string, t: Trail, done: set<string>)
    requires Explored(v, present, root, t.visited, t.found, done) && id in t.visited && Edge(v, id, c)
    ensures var r := WalkOne(v, present, c, t);
            && Explored(v, present, root, r.visited, r.found, done + (r.visited - t.visited)) && t.found <= r.found
            && Handled(present, r.visited, r.found, c)
    decreases v.ids - t.visited, 0
  {
    var r := WalkOne(v, present, c, t);
    ChildLinked(v, present, root, t.visited, t.found, done, id, c);
    WalkOneIs(v, present, c, t);
    assert done + {} == done;
    hide WalkAll, WalkOne, Explored, Linked;
    if c in present {
      if c !in t.found {
        RecordChild(v, present, root, t.visited, t.found, done, id, c);
      }
    } else if c !in t.visited {
      VisitChild(v, present, root, t.visited, t.found, done, id, c);
      var into := Trail(t.visited + {c}, t.found);
      KidsAreChildren(v, c);
      WalkExplores(v, present, root, c, ChildIds(v.edges, c), into, done);
      StepFinishes(v, present, root, c, t, into, r, done);
    }
  }

  /** An absent child whose own children are all handled is finished. */
  lemma StepFinishes(v: View, present: set<string>, root: string, c: string, t: Trail, into: Trail, r: Trail, done: set<string>)
    requires into.visited == t.visited + {c} && into.visited <= r.visited && c !in t.visited && c !in present
    requires Explored(v, present, root, r.visited, r.found, done + (r.visited - into.visited))
    requires forall y :: Edge(v, c, y) ==> Handled(present, r.visited, r.found, y)
    ensures Explored(v, present, root, r.visited, r.found, done + (r.visited - t.visited)) && Handled(present, r.visited, r.found, c)
  {
    Finish(v, present, root, r.visited, r.found, done + (r.visited - into.visited), c);
    assert done + (r.visited - into.visited) + {c} == done + (r.visited - t.visited);
  }

  lemma KidsAreChildren(v: View, id: string)
    ensures forall c :: c in ChildIds(v.edges, id) <==> Edge(v, id, c)
    ensures Increasing(Less, ChildIds(v.edges, id))
  {
    LessIsStrictTotal();
    var targets := set e | e in v.edges && e.0 == id :: e.1;
    SortedSeqIncreases(Less, targets);
    forall c ensures c in targets <==> Edge(v, id, c) {
      if Edge(v, id, c) {
        assert (id, c).1 in targets;
      }
    }
    assert forall c :: c in ChildIds(v.edges, id) <==> c in Elems(ChildIds(v.edges, id));
  }

  lemma {:induction false} WalkSplits(v: View, present: set<string>, a: seq<string>, b: seq<string>, t: Trail)
    ensures WalkAll(v, present, a + b, t) == WalkAll(v, present, b, WalkAll(v, present, a, t))
    decreases |a|
  {
    if a == [] {
      assert a + b == b;
    } else {
      assert (a + b)[1..] == a[1..] + b;
      WalkSplits(v, present, a[1..], b, WalkOne(v, present, a[0], t));
    }
  }

  /** The graph in which one node points only at those of its children that come before an ID. */
  ghost function Before(v: View, root: string, c: string): View
  {
    View(v.ids, map e | e in v.edges && (e.0 == root ==> Less(e.1, c)) :: v.edges[e])
  }

  lemma {:induction false} SameWalk(v: View, present: set<string>, root: string, c: string, kids: seq<string>, t: Trail)
    requires root in t.visited
    ensures WalkAll(Before(v, root, c), present, kids, t) == WalkAll(v, present, kids, t)
    decreases v.ids - t.visited, |kids|
  {
    if kids != [] {
      SameStep(v, present, root, c, kids[0], t);
      SameWalk(v, present, root, c, kids[1..], WalkOne(v, present, kids[0], t));
    }
  }

  lemma {:induction false} SameStep(v: View, present: set<string>, root: string, c: string, child: string, t: Trail)
    requires root in t.visited
    ensures WalkOne(Before(v, root, c), present, child, t) == WalkOne(v, present, child, t)
    decreases v.ids - t.visited, 0
  {
    if child !in present && child !in t.visited && child in v.ids {
      SameChildren(v, root, c, child);
      SameWalk(v, present, root, c, ChildIds(v.edges, child), Trail(t.visited + {child}, t.found));
    }
  }

  lemma SameChildren(v: View, root: string, c: string, id: string)
    requires id != root
    ensures ChildIds(Before(v, root, c).edges, id) == ChildIds(v.edges, id)
  {
    var w := Before(v, root, c);
    assert (set e | e in w.edges && e.0 == id :: e.1) == (set e | e in v.edges && e.0 == id :: e.1);
  }

  /** The children of the cut node are the first of its children. */
  lemma FirstChildren(v: View, root: string, c: string) returns (k: nat)
    ensures k <= |ChildIds(v.edges, root)| && ChildIds(Before(v, root, c).edges, root) == ChildIds(v.edges, root)[..k]
  {
    var kids, w := ChildIds(v.edges, root), Before(v, root, c);
    KidsAreChildren(v, root);
    hide ChildIds;
    k := CountBefore(kids, c);
    forall e | e in w.edges && e.0 == root ensures e.1 in kids[..k] {
      assert e == (e.0, e.1) && Edge(v, root, e.1);
      var i :| 0 <= i < |kids| && kids[i] == e.1;
      assert kids[..k][i] == e.1;
    }
    forall i | 0 <= i < k ensures (root, kids[..k][i]) in w.edges {
      assert kids[i] in kids;
    }
    hide Before;
    SortedChildren(w.edges, root, kids[..k]);
  }

  lemma CountBefore(kids: seq<string>, c: string) returns (k: nat)
    requires Increasing(Less, kids)
    ensures k <= |kids| && (forall i :: 0 <= i < k ==> Less(kids[i], c)) && (forall i :: k <= i < |kids| ==> !Less(kids[i], c))
  {
    LessIsStrictTotal();
    k := 0;
    while k < |kids| && Less(kids[k], c)
      invariant k <= |kids| && forall i :: 0 <= i < k ==> Less(kids[i], c)
    {
      k := k + 1;
    }
    forall i | k <= i < |kids| ensures !Less(kids[i], c) {
      assert i == k || Less(kids[k], kids[i]);
    }
  }

  /** The walk finds exactly the present nodes it is linked to. */
  lemma DepthFirstFinds(v: View, present: set<string>, root: string)
    requires WellFormed(v) && root in v.ids
    ensures forall x :: x in DepthFirst(v, present, root) <==> x in present && Linked(v, present, root, x)
  {
    var kids, start := ChildIds(v.edges, root), Trail({root}, []);
    var t := WalkAll(v, present, kids, start);
    KidsAreChildren(v, root);
    StartExplored(v, present, root);
    hide *;
    WalkExplores(v, present, root, root, kids, start, {});
    assert t.found == DepthFirst(v, present, root);
    RootFinishes(v, present, root, kids, t);
  }

  lemma StartExplored(v: View, present: set<string>, root: string)
    requires WellFormed(v) && root in v.ids
    ensures Explored(v, present, root, {root}, [], {})
    ensures DepthFirst(v, present, root) == WalkAll(v, present, ChildIds(v.edges, root), Trail({root}, [])).found
  {
  }

  lemma RootFinishes(v: View, present: set<string>, root: string, kids: seq<string>, t: Trail)
    requires Explored(v, present, root, t.visited, t.found, {} + (t.visited - {root}))
    requires forall y :: y in kids <==> Edge(v, root, y)
    requires forall y :: y in kids ==> Handled(present, t.visited, t.found, y)
    ensures forall x :: x in t.found <==> x in present && Linked(v, present, root, x)
  {
    assert root in t.visited;
    hide Explored, Linked, Edge, Handled;
    var done := {} + (t.visited - {root});
    Finish(v, present, root, t.visited, t.found, done, root);
    assert done + {root} == t.visited;
    ExploredAll(v, present, root, t.visited, t.found);
  }

  lemma CutIsWellFormed(v: View, root: string, c: string)
    requires WellFormed(v)
    ensures WellFormed(Before(v, root, c))
  {
  }

  /** For every ID, what is found through the children that come before it is found first: the walk finishes one child,
      with everything below it, before it turns to the next in ID order. */
  lemma SmallerChildrenFirst(v: View, present: set<string>, root: string, c: string) returns (n: nat)
    requires WellFormed(v) && root in v.ids
    ensures n <= |DepthFirst(v, present, root)|
    ensures forall x :: x in DepthFirst(v, present, root)[..n] <==> x in present && Linked(Before(v, root, c), present, root, x)
  {
    var kids, w, start := ChildIds(v.edges, root), Before(v, root, c), Trail({root}, []);
    var k := FirstChildren(v, root, c);
    CutIsWellFormed(v, root, c);
    DepthFirstFinds(w, present, root);
    var t := WalkAll(v, present, kids[..k], start);
    SameWalk(v, present, root, c, kids[..k], start);
    WalkSplits(v, present, kids[..k], kids[k..], start);
    assert kids == kids[..k] + kids[k..];
    hide WalkAll, ChildIds, Before, Linked;
    FoundGrows(v, present, kids[k..], t);
    n := |t.found|;
  }

  lemma {:induction false} FoundGrows(v: View, present: set<string>, kids: seq<string>, t: Trail)
    ensures t.found <= WalkAll(v, present, kids, t).found
    decreases v.ids - t.visited, |kids|
  {
    if kids != [] {
      StepGrows(v, present, kids[0], t);
      FoundGrows(v, present, kids[1..], WalkOne(v, present, kids[0], t));
    }
  }

  lemma {:induction false} StepGrows(v: View, present: set<string>, child: string, t: Trail)
    ensures t.found <= WalkOne(v, present, child, t).found
    decreases v.ids - t.visited, 0
  {
    if child !in present && child !in t.visited && child in v.ids {
      FoundGrows(v, present, ChildIds(v.edges, child), Trail(t.visited + {child}, t.found));
    }
  }

  // ----- The part of a graph below one node

  ghost function Below(v: View, root: string): set<string>
  {
    set x | x in v.ids && Reaches(v, root, x)
  }

  ghost function OutOf(edges: EdgeMap, from: set<string>): set<(string, string)>
  {
    set e | e in edges && e.0 in from
  }

  /** Every edge between two nodes below the root, with its kind. */
  ghost function EdgesBelow(v: View, root: string): EdgeMap
  {
    map e | e in v.edges && e.0 in Below(v, root) && e.1 in Below(v, root) :: v.edges[e]
  }

  /** An edge that starts below the root also ends there. */
  lemma BelowIsClosed(v: View, root: string)
    requires WellFormed(v)
    ensures Only(v.edges, {} + OutOf(v.edges, Below(v, root))) == EdgesBelow(v, root)
  {
    forall e | e in v.edges && e.0 in Below(v, root) ensures e.1 in Below(v, root) {
      assert e == (e.0, e.1);
      ReachesThenEdge(v, root, e.0, e.1);
    }
  }

  /** Every visited node is reachable, and the children of the finished ones are visited. */
  ghost predicate Descended(v: View, root: string, visited: set<string>, done: set<string>)
  {
    && WellFormed(v) && done <= visited <= v.ids
    && (forall x :: x in visited ==> Reaches(v, root, x))
    && (forall x, y :: x in done && Edge(v, x, y) ==> y in visited)
  }

  lemma DescendedAll(v: View, root: string, visited: set<string>)
    requires Descended(v, root, visited, visited) && root in visited
    ensures visited == Below(v, root)
  {
    forall x | x in Below(v, root) ensures x in visited {
      var p :| PathFromTo(v, root, x, p);
      ChildClosed(v, visited, p);
    }
  }

  lemma DescendInto(v: View, root: string, visited: set<string>, done: set<string>, id: string)
    requires Descended(v, root, visited, done) && id !in visited && id in v.ids && Reaches(v, root, id)
    ensures Descended(v, root, visited + {id}, done) && v.ids - (visited + {id}) < v.ids - visited
  {
    assert id in v.ids - visited;
  }

  lemma DescendDone(v: View, root: string, visited: set<string>, done: set<string>, id: string)
    requires Descended(v, root, visited, done) && id in visited && forall y :: Edge(v, id, y) ==> y in visited
    ensures Descended(v, root, visited, done + {id})
  {
  }

  lemma CopyOneMore(v: View, keys: set<(string, string)>, a: string, b: string)
    requires WellFormed(v) && (a, b) in v.edges && (a, b) !in keys
    ensures WithEdge(Only(v.edges, keys), a, b, v.edges[(a, b)]) == Only(v.edges, keys + {(a, b)})
    ensures a != b && v.edges[(a, b)] != Unstated
  {
  }
}

/** The walks of graphview/graphview.go and detectorkit/subgraph.go. */
module Walks {
  import opened Orders
  import opened EdgeKinds
  import opened Nodes
  import opened Views
  import opened SlotTables
  import opened Graphs
  import opened Reachability
  import opened WalkTheory

  lemma KidsAreListed(g: Graph, id: string, kids: seq<Node>, v: View)
    requires g.Valid() && v == g.Abs() && Listed(kids, g.NodeMap(), g.Children(id))
    ensures forall i :: 0 <= i < |kids| ==> Edge(v, id, kids[i].id)
    ensures forall y :: Edge(v, id, y) ==> exists i :: 0 <= i < |kids| && kids[i].id == y
    ensures forall e :: e in v.edges && e.0 == id ==> exists i :: 0 <= i < |kids| && kids[i].id == e.1
    ensures forall i, j :: 0 <= i < j < |kids| ==> kids[i].id != kids[j].id
    ensures forall i :: 0 <= i < |kids| ==> kids[i].id in g.NodeMap() && g.NodeMap()[kids[i].id] == kids[i]
  {
    g.AbsWellFormed();
    LessIsStrictTotal();
    hide TableOk;
    forall y | Edge(v, id, y) ensures exists i :: 0 <= i < |kids| && kids[i].id == y {
      assert (id, y) in v.edges;
      assert y in g.Children(id);
    }
    forall e | e in v.edges && e.0 == id ensures exists i :: 0 <= i < |kids| && kids[i].id == e.1 {
      assert e == (e.0, e.1) && Edge(v, id, e.1);
    }
  }

  method WalkChildren(g: Graph, id: string, present: set<string>, visited0: set<string>, resolved0: seq<string>,
                      ghost v: View, ghost root: string, ghost done0: set<string>)
    returns (visited: set<string>, resolved: seq<string>, ghost done: set<string>)
    requires g.Valid() && v == g.Abs() && id in v.ids
    requires Explored(v, present, root, visited0, resolved0, done0) && id in visited0
    ensures Explored(v, present, root, visited, resolved, done) && visited0 <= visited
    ensures (forall x :: x in resolved0 ==> x in resolved) && done == done0 + {id} + (visited - visited0)
    ensures Trail(visited, resolved) == WalkAll(v, present, ChildIds(v.edges, id), Trail(visited0, resolved0))
    decreases v.ids - visited0
  {
    hide *;
    IdsAre(g, v);
    var r := g.DirectDependencies(id);
    var kids := r.value;
    KidsAreListed(g, id, kids, v);
    visited, resolved, done := visited0, resolved0, done0;
    ghost var ids := KidIds(g, id, kids, v);
    assert ids[0..] == ids;
    for i := 0 to |kids|
      invariant WalkAll(v, present, ids[i..], Trail(visited, resolved)) == WalkAll(v, present, ids, Trail(visited0, resolved0))
      invariant Explored(v, present, root, visited, resolved, done) && visited0 <= visited
      invariant (forall x :: x in resolved0 ==> x in resolved) && done == done0 + (visited - visited0)
      invariant forall j :: 0 <= j < i ==> Handled(present, visited, resolved, kids[j].id)
    {
      var child := kids[i].id;
      WalkNext(v, present, ids, i, Trail(visited, resolved));
      WalkOneIs(v, present, child, Trail(visited, resolved));
      if child in present {
        if child !in resolved {
          RecordChild(v, present, root, visited, resolved, done, id, child);
          HandledGrows(present, visited, resolved, visited, resolved + [child]);
          resolved := resolved + [child];
        }
        HandledIs(present, visited, resolved, child);
      } else {
        if child !in visited {
          VisitChild(v, present, root, visited, resolved, done, id, child);
          ghost var visited1, resolved1 := visited, resolved;
          assert v.ids - (visited + {child}) < v.ids - visited0;
          visited, resolved, done := WalkChildren(g, child, present, visited + {child}, resolved, v, root, done);
          HandledGrows(present, visited1, resolved1, visited, resolved);
        }
        HandledIs(present, visited, resolved, child);
      }
    }
    WalkedAll(v, present, ids[|kids|..], Trail(visited, resolved));
    Finish(v, present, root, visited, resolved, done, id);
    done := done + {id};
  }

  lemma WalkedAll(v: View, present: set<string>, kids: seq<string>, t: Trail)
    requires kids == []
    ensures WalkAll(v, present, kids, t) == t
  {
  }

  lemma KidIds(g: Graph, id: string, kids: seq<Node>, v: View) returns (ids: seq<string>)
    requires g.Valid() && v == g.Abs() && Listed(kids, g.NodeMap(), g.Children(id))
    ensures ids == ChildIds(v.edges, id) && |ids| == |kids| && forall i :: 0 <= i < |kids| ==> ids[i] == kids[i].id && ids[i] in v.ids
  {
    ListedKids(g, id, kids, v);
    g.AbsWellFormed();
    hide SlotTables.TableOk;
    hide ChildIds;
    ids := IdsOf(kids);
    SortedKids(v, g.NodeMap(), id, kids);
  }

  lemma SortedKids(v: View, table: map<string, Node>, id: string, kids: seq<Node>)
    requires KidList(v, table, id, kids) && WellFormed(v) && forall i, j :: 0 <= i < j < |kids| ==> Less(kids[i].id, kids[j].id)
    ensures IdsOf(kids) == ChildIds(v.edges, id) && forall i :: 0 <= i < |kids| ==> kids[i].id in v.ids
  {
    var ids := IdsOf(kids);
    forall e | e in v.edges && e.0 == id ensures e.1 in ids {
      var i :| 0 <= i < |kids| && kids[i].id == e.1;
      assert ids[i] == e.1;
    }
    SortedChildren(v.edges, id, ids);
  }

  /** Listing a node's targets in order leaves one list. */
  lemma IdsAre(g: Graph, v: View)
    requires g.Valid() && v == g.Abs()
    ensures v.ids == g.indexByID.Keys && v.edges == g.Edges()
  {
  }

  /** The present IDs a node leads to, stepping through the absent ones; cycles of absent nodes end the walk. */
  method ChildrenAmong(g: Graph, nodeID: string, present: set<string>) returns (resolved: seq<string>)
    requires g.Valid()
    ensures Distinct(resolved)
    ensures forall x :: x in resolved <==> x in present && Linked(g.Abs(), present, nodeID, x)
    ensures resolved == if nodeID in g.indexByID then DepthFirst(g.Abs(), present, nodeID) else []
  {
    g.AbsWellFormed();
    if nodeID !in g.indexByID {
      assert forall x :: !Linked(g.Abs(), present, nodeID, x);
      return [];
    }
    ghost var v := g.Abs();
    ghost var visited, done;
    assert Explored(v, present, nodeID, {nodeID}, [], {});
    visited, resolved, done := WalkChildren(g, nodeID, present, {nodeID}, [], v, nodeID, {});
    assert done == visited;
    ExploredAll(v, present, nodeID, visited, resolved);
  }

  // ----- Subgraphs

  ghost function Restricted(table: map<string, Node>, ids: set<string>): map<string, Node>
  {
    map x | x in table && x in ids :: table[x]
  }

  /** `out` holds the visited nodes and the edges of `copied`. */
  ghost predicate Built(table: map<string, Node>, edges: EdgeMap, visited: set<string>, copied: set<(string, string)>,
                        nodes': map<string, Node>, edges': EdgeMap)
  {
    && visited <= table.Keys && nodes' == Restricted(table, visited) && edges' == Only(edges, copied)
    && (forall e :: e in copied ==> e in edges && e.0 in visited)
  }

  lemma BuiltNode(table: map<string, Node>, edges: EdgeMap, visited: set<string>, copied: set<(string, string)>,
                                     nodes': map<string, Node>, edges': EdgeMap, id: string)
    requires Built(table, edges, visited, copied, nodes', edges') && id in table && id !in visited
    ensures id !in nodes' && Built(table, edges, visited + {id}, copied, nodes'[id := table[id]], edges')
  {
    assert Restricted(table, visited + {id}) == Restricted(table, visited)[id := table[id]];
  }

  /** The nodes of `table` that `id` points at, each once. */
  ghost predicate KidList(v: View, table: map<string, Node>, id: string, kids: seq<Node>)
  {
    && (forall e :: e in v.edges && e.0 == id ==> exists i :: 0 <= i < |kids| && kids[i].id == e.1)
    && (forall i, j :: 0 <= i < j < |kids| ==> kids[i].id != kids[j].id)
    && (forall i :: 0 <= i < |kids| ==> (id, kids[i].id) in v.edges && kids[i].id in table && table[kids[i].id] == kids[i])
  }

  lemma ListedKids(g: Graph, id: string, kids: seq<Node>, v: View)
    requires g.Valid() && v == g.Abs() && Listed(kids, g.NodeMap(), g.Children(id))
    ensures KidList(v, g.NodeMap(), id, kids)
  {
    KidsAreListed(g, id, kids, v);
    hide SlotTables.TableOk;
    forall i | 0 <= i < |kids| ensures (id, kids[i].id) in v.edges {
      assert Edge(v, id, kids[i].id);
    }
  }

  lemma KidAt(v: View, table: map<string, Node>, id: string, kids: seq<Node>, i: nat)
    requires KidList(v, table, id, kids) && i < |kids|
    ensures Edge(v, id, kids[i].id) && kids[i].id in table && table[kids[i].id] == kids[i]
  {
  }

  /** The edges copied while node `id` is open: those of the nodes finished meanwhile, and its own first `i`. */
  ghost predicate RowOpen(edges: EdgeMap, copied0: set<(string, string)>, copied: set<(string, string)>, fresh': set<string>,
                          id: string, kids: seq<Node>, i: nat)
    requires i <= |kids|
  {
    forall e :: e in copied <==> e in copied0 || (e in edges && e.0 in fresh')
                                 || (e in edges && e.0 == id && exists j :: 0 <= j < i && kids[j].id == e.1)
  }

  lemma RowRecursed(edges: EdgeMap, copied0: set<(string, string)>, copied: set<(string, string)>, fresh': set<string>,
                                       id: string, kids: seq<Node>, i: nat, more: set<string>)
    requires i <= |kids| && RowOpen(edges, copied0, copied, fresh', id, kids, i)
    ensures RowOpen(edges, copied0, copied + OutOf(edges, more), fresh' + more, id, kids, i)
  {
  }

  lemma RowNext(edges: EdgeMap, copied0: set<(string, string)>, copied: set<(string, string)>, fresh': set<string>,
                                   id: string, kids: seq<Node>, i: nat, v: View, table: map<string, Node>)
    requires i < |kids| && RowOpen(edges, copied0, copied, fresh', id, kids, i)
    requires v.edges == edges && KidList(v, table, id, kids) && id !in fresh' && forall e :: e in copied0 ==> e.0 != id
    ensures (id, kids[i].id) !in copied
    ensures RowOpen(edges, copied0, copied + {(id, kids[i].id)}, fresh', id, kids, i + 1)
  {
    forall e | e in edges && e.0 == id && e.1 == kids[i].id ensures e == (id, kids[i].id) {
      assert e == (e.0, e.1);
    }
  }

  lemma RowClosed(edges: EdgeMap, copied0: set<(string, string)>, copied: set<(string, string)>, fresh': set<string>,
                                     id: string, kids: seq<Node>, v: View, table: map<string, Node>)
    requires RowOpen(edges, copied0, copied, fresh', id, kids, |kids|) && v.edges == edges && KidList(v, table, id, kids)
    ensures copied == copied0 + OutOf(edges, fresh' + {id})
  {
  }

  lemma RowStart(edges: EdgeMap, copied0: set<(string, string)>, id: string, kids: seq<Node>)
    ensures RowOpen(edges, copied0, copied0, {}, id, kids, 0)
  {
  }

  lemma BuiltEdge(table: map<string, Node>, v: View, visited: set<string>, copied: set<(string, string)>,
                                     nodes': map<string, Node>, edges': EdgeMap, a: string, b: string)
    requires Built(table, v.edges, visited, copied, nodes', edges') && WellFormed(v)
    requires (a, b) in v.edges && (a, b) !in copied && a in visited && b in visited
    ensures a != b && v.edges[(a, b)] != Unstated && a in nodes' && b in nodes'
    ensures Built(table, v.edges, visited, copied + {(a, b)}, nodes', WithEdge(edges', a, b, v.edges[(a, b)]))
  {
    CopyOneMore(v, copied, a, b);
  }

  lemma FreshSets(visited0: set<string>, visited: set<string>, visited2: set<string>, id: string, done0: set<string>)
    requires visited0 + {id} <= visited <= visited2 && id !in visited0
    ensures (visited - visited0 - {id}) + (visited2 - visited) == visited2 - visited0 - {id}
    ensures done0 + (visited - visited0 - {id}) + (visited2 - visited) == done0 + (visited2 - visited0 - {id})
    ensures done0 + (visited - visited0 - {id}) + {id} == done0 + (visited - visited0)
    ensures (visited - visited0 - {id}) + {id} == visited - visited0
  {
  }

  lemma ChildIsReached(v: View, table: map<string, Node>, edges: EdgeMap, root: string, id: string, child: string)
    requires WellFormed(v) && v.edges == edges && Edge(v, id, child) && Reaches(v, root, id)
    ensures (id, child) in edges && child in v.ids && Reaches(v, root, child)
  {
    assert (id, child) in v.edges;
    ReachesThenEdge(v, root, id, child);
  }

  method WalkSubgraph(g: Graph, node: Node, out: Graph, visited0: set<string>,
                      ghost v: View, ghost root: string, ghost done0: set<string>, ghost copied0: set<(string, string)>)
    returns (visited: set<string>, ghost done: set<string>, ghost copied: set<(string, string)>)
    requires g.Valid() && v == g.Abs() && out.Valid() && out != g && node.id != ""
    requires node.id in g.NodeMap() && g.NodeMap()[node.id] == node && Reaches(v, root, node.id)
    requires Descended(v, root, visited0, done0) && Built(g.NodeMap(), v.edges, visited0, copied0, out.NodeMap(), out.Edges())
    modifies out
    ensures out.Valid()
    ensures Descended(v, root, visited, done) && visited0 <= visited && node.id in visited && done == done0 + (visited - visited0)
    ensures copied == copied0 + OutOf(v.edges, visited - visited0)
    ensures Built(g.NodeMap(), v.edges, visited, copied, out.NodeMap(), out.Edges())
    decreases v.ids - visited0
  {
    hide *;
    var id := node.id;
    ghost var table := g.NodeMap();
    IdsAre(g, v);
    g.NodesFiled();
    if id in visited0 {
      visited, done, copied := visited0, done0, copied0;
      NothingNew(v.edges, visited0, done0, copied0);
      return;
    }
    DescendInto(v, root, visited0, done0, id);
    CopiedBefore(table, v.edges, visited0, copied0, out.NodeMap(), out.Edges(), id);
    BuiltNode(table, v.edges, visited0, copied0, out.NodeMap(), out.Edges(), id);
    visited, done, copied := visited0 + {id}, done0, copied0;
    var added := out.AddNode(node);
    var r := g.DirectDependencies(id);
    var kids := r.value;
    ListedKids(g, id, kids, v);
    RowStart(v.edges, copied0, id, kids);
    assert visited - visited0 - {id} == {} && done0 + {} == done0;
    for i := 0 to |kids|
      invariant out.Valid() && Descended(v, root, visited, done) && visited0 + {id} <= visited && done == done0 + (visited - visited0 - {id})
      invariant RowOpen(v.edges, copied0, copied, visited - visited0 - {id}, id, kids, i)
      invariant Built(table, v.edges, visited, copied, out.NodeMap(), out.Edges())
      invariant forall j :: 0 <= j < i ==> kids[j].id in visited
    {
      ghost var visited1 := visited;
      KidAt(v, table, id, kids, i);
      ChildIsReached(v, table, v.edges, root, id, kids[i].id);
      ghost var copied1 := copied;
      visited, done, copied := WalkSubgraph(g, kids[i], out, visited, v, root, done, copied);
      RowRecursed(v.edges, copied0, copied1, visited1 - visited0 - {id}, id, kids, i, visited - visited1);
      FreshSets(visited0, visited1, visited, id, done0);
      RowNext(v.edges, copied0, copied, visited - visited0 - {id}, id, kids, i, v, table);
      BuiltEdge(table, v, visited, copied, out.NodeMap(), out.Edges(), id, kids[i].id);
      out.NodesFiled();
      var kind := g.EdgeKindOf(id, kids[i].id);
      var joined := out.AddTypedEdge(id, kids[i].id, kind);
      copied := copied + {(id, kids[i].id)};
    }
    RowClosed(v.edges, copied0, copied, visited - visited0 - {id}, id, kids, v, table);
    FreshSets(visited0, visited, visited, id, done0);
    ChildrenVisited(v, table, id, kids, visited);
    DescendDone(v, root, visited, done, id);
    done := done + {id};
  }

  lemma ChildrenVisited(v: View, table: map<string, Node>, id: string, kids: seq<Node>, visited: set<string>)
    requires KidList(v, table, id, kids) && forall j :: 0 <= j < |kids| ==> kids[j].id in visited
    ensures forall y :: Edge(v, id, y) ==> y in visited
  {
    forall y | Edge(v, id, y) ensures y in visited {
      assert (id, y) in v.edges;
    }
  }

  lemma NothingNew(edges: EdgeMap, visited: set<string>, done: set<string>, copied: set<(string, string)>)
    ensures done == done + (visited - visited) && copied == copied + OutOf(edges, visited - visited)
  {
  }

  lemma CopiedBefore(table: map<string, Node>, edges: EdgeMap, visited: set<string>, copied: set<(string, string)>,
                                        nodes': map<string, Node>, edges': EdgeMap, id: string)
    requires Built(table, edges, visited, copied, nodes', edges') 
    ensures id !in visited ==> forall e :: e in copied ==> e.0 != id
  {
  }

  /** A new graph over the same nodes: what the root reaches, and every edge between those. */
  method SubgraphFrom(g: Graph, rootID: string) returns (r: Result<Graph>)
    requires g.Valid()
    ensures r.Failure? <==> rootID !in g.NodeMap()
    ensures r.Success? ==> fresh(r.value) && r.value.Valid()
    ensures r.Success? ==> r.value.NodeMap() == Restricted(g.NodeMap(), Below(g.Abs(), rootID))
    ensures r.Success? ==> r.value.Edges() == EdgesBelow(g.Abs(), rootID)
  {
    hide *;
    g.NodesFiled();
    g.AbsWellFormed();
    ghost var v := g.Abs();
    IdsAre(g, v);
    var root := g.Lookup(rootID);
    if root == null {
      return Failure(NodeNotFound);
    }
    var out := new Graph();
    StartBelow(v, rootID, g.NodeMap());
    var visited;
    ghost var done, copied;
    visited, done, copied := WalkSubgraph(g, root, out, {}, v, rootID, {}, {});
    EndBelow(v, rootID, g.NodeMap(), visited, copied, out.NodeMap(), out.Edges());
    return Success(out);
  }

  lemma StartBelow(v: View, root: string, table: map<string, Node>)
    requires WellFormed(v) && root in v.ids
    ensures Reaches(v, root, root) && Descended(v, root, {}, {}) && Built(table, v.edges, {}, {}, map[], map[])
  {
    ReachesItself(v, root);
  }

  lemma EndBelow(v: View, root: string, table: map<string, Node>, visited: set<string>, copied: set<(string, string)>,
                                    nodes': map<string, Node>, edges': EdgeMap)
    requires Descended(v, root, visited, {} + (visited - {})) && root in visited && copied == {} + OutOf(v.edges, visited - {})
    requires Built(table, v.edges, visited, copied, nodes', edges')
    ensures nodes' == Restricted(table, Below(v, root)) && edges' == EdgesBelow(v, root)
  {
    assert {} + (visited - {}) == visited && visited - {} == visited;
    DescendedAll(v, root, visited);
    BelowIsClosed(v, root);
  }
}
