/** The order Kahn's algorithm emits, as a function of graph content only, and what it means. */
module KahnTheory {
  import opened Orders
  import opened Views
  import opened Reachability

  /** Not yet emitted, and every parent has been. */
  ghost predicate Ready(v: View, done: set<string>, x: string)
  {
    x in v.ids && x !in done && forall p :: Edge(v, p, x) ==> p in done
  }

  ghost function ReadySet(v: View, done: set<string>): set<string>
  {
    set x | x in v.ids && Ready(v, done, x)
  }

  ghost function Smallest(ids: set<string>): (m: string)
    requires ids != {}
    ensures m in ids && forall x :: x in ids && x != m ==> Less(m, x)
  {
    LessIsStrictTotal();
    Least(Less, ids)
  }

  /** Each step emits the smallest ready ID. */
  ghost function Kahn(v: View, done: set<string>): seq<string>
    decreases v.ids - done
  {
    var ready := ReadySet(v, done);
    if ready == {} then []
    else [Smallest(ready)] + Kahn(v, done + {Smallest(ready)})
  }

  lemma KahnStep(v: View, done: set<string>, m: string)
    requires m in ReadySet(v, done) && forall x :: x in ReadySet(v, done) && x != m ==> Less(m, x)
    ensures Kahn(v, done) == [m] + Kahn(v, done + {m})
  {
    var s := Smallest(ReadySet(v, done));
    if s != m {
      LessTransitive(m, s, m);
      LessIrreflexive(m);
    }
  }

  /** `m` is the smallest node whose parents are all out. */
  ghost predicate SmallestReady(v: View, done: set<string>, m: string)
  {
    Ready(v, done, m) && forall x :: Ready(v, done, x) && x != m ==> Less(m, x)
  }

  lemma SmallestIsReady(v: View, done: set<string>)
    requires ReadySet(v, done) != {}
    ensures SmallestReady(v, done, Smallest(ReadySet(v, done)))
  {
    assert forall x :: Ready(v, done, x) ==> x in ReadySet(v, done);
  }

  /** Every step takes the smallest ready node. */
  lemma {:induction false} KahnIsGreedy(v: View, done: set<string>, i: nat)
    requires i < |Kahn(v, done)|
    ensures SmallestReady(v, done + Elems(Kahn(v, done)[..i]), Kahn(v, done)[i])
    decreases i
  {
    var m := Smallest(ReadySet(v, done));
    if i == 0 {
      SmallestIsReady(v, done);
      assert done + Elems(Kahn(v, done)[..0]) == done;
    } else {
      KahnIsGreedy(v, done + {m}, i - 1);
      PrefixElems(done, m, Kahn(v, done + {m}), i);
    }
  }

  lemma PrefixElems(done: set<string>, m: string, rest: seq<string>, i: nat)
    requires 0 < i <= |rest| + 1
    ensures done + Elems(([m] + rest)[..i]) == done + {m} + Elems(rest[..i - 1])
  {
    assert ([m] + rest)[..i] == [m] + rest[..i - 1];
  }

  /** The order stops only when no node is ready. */
  lemma {:induction false} KahnStops(v: View, done: set<string>)
    ensures ReadySet(v, done + Elems(Kahn(v, done))) == {}
    decreases v.ids - done
  {
    var k := Kahn(v, done);
    if ReadySet(v, done) == {} {
      assert done + Elems(k) == done;
    } else {
      var m := Smallest(ReadySet(v, done));
      KahnStops(v, done + {m});
      assert done + Elems(k) == done + {m} + Elems(Kahn(v, done + {m}));
    }
  }

  /** No node twice, and only nodes of the graph. */
  lemma KahnDistinct(v: View)
    ensures Distinct(Kahn(v, {})) && Elems(Kahn(v, {})) <= v.ids
  {
    var k := Kahn(v, {});
    forall i, j | 0 <= i < j < |k| ensures k[i] != k[j] {
      KahnIsGreedy(v, {}, j);
      assert k[..j][i] == k[i];
    }
    forall x | x in k ensures x in v.ids {
      var i :| 0 <= i < |k| && k[i] == x;
      KahnIsGreedy(v, {}, i);
    }
  }

  /** Every parent of an emitted node was emitted before it. */
  lemma ParentsFirst(v: View, j: nat, a: string)
    requires j < |Kahn(v, {})| && Edge(v, a, Kahn(v, {})[j])
    ensures exists i :: 0 <= i < j && Kahn(v, {})[i] == a
  {
    var k := Kahn(v, {});
    KahnIsGreedy(v, {}, j);
    assert a in k[..j];
    var i :| 0 <= i < j && k[..j][i] == a;
    assert k[i] == a;
  }

  lemma {:induction false} AncestorsFirst(v: View, p: seq<string>, j: nat)
    requires IsPath(v, p) && j < |Kahn(v, {})| && p[|p| - 1] == Kahn(v, {})[j]
    ensures exists i :: 0 <= i <= j && Kahn(v, {})[i] == p[0]
    decreases |p|
  {
    if |p| > 1 {
      SubPath(v, p, 1, |p|);
      AncestorsFirst(v, p[1..], j);
      var i :| 0 <= i <= j && Kahn(v, {})[i] == p[1];
      assert Edge(v, p[0], p[1]);
      ParentsFirst(v, i, p[0]);
    }
  }

  ghost predicate OnCycle(v: View, c: string)
  {
    exists y :: Edge(v, c, y) && Reaches(v, y, c)
  }

  ghost predicate BehindCycle(v: View, x: string)
  {
    exists c :: OnCycle(v, c) && Reaches(v, c, x)
  }

  lemma CycleComesBefore(v: View, c: string, i: nat)
    requires OnCycle(v, c) && i < |Kahn(v, {})| && Kahn(v, {})[i] == c
    ensures exists e :: 0 <= e < i && Kahn(v, {})[e] == c
  {
    var y :| Edge(v, c, y) && Reaches(v, y, c);
    var q :| PathFromTo(v, y, c, q);
    AncestorsFirst(v, q, i);
    var l :| 0 <= l <= i && Kahn(v, {})[l] == y;
    ParentsFirst(v, l, c);
  }

  lemma CycleLeftOut(v: View, c: string)
    requires OnCycle(v, c)
    ensures c !in Kahn(v, {})
  {
    var k := Kahn(v, {});
    forall i | 0 <= i < |k| ensures k[i] != c {
      if k[i] == c {
        CycleComesBefore(v, c, i);
        var e :| 0 <= e < i && k[e] == c;
        KahnDistinct(v);
      }
    }
  }

  /** Nothing on a cycle, or reachable from one, is ever emitted. */
  lemma BehindCycleLeftOut(v: View, x: string)
    requires BehindCycle(v, x)
    ensures x !in Kahn(v, {})
  {
    var k := Kahn(v, {});
    var c :| OnCycle(v, c) && Reaches(v, c, x);
    var p :| PathFromTo(v, c, x, p);
    CycleLeftOut(v, c);
    forall j | 0 <= j < |k| ensures k[j] != x {
      if k[j] == x {
        AncestorsFirst(v, p, j);
      }
    }
  }

  ghost predicate HasParentIn(v: View, left: set<string>, x: string)
  {
    exists y :: y in left && Edge(v, y, x)
  }

  /** A node left out sits behind a cycle: its left-out ancestors can be followed back only so far. */
  lemma {:induction false} LeftOutBehindCycle(v: View, left: set<string>, p: seq<string>)
    requires IsPath(v, p) && Distinct(p) && (forall i :: 0 <= i < |p| ==> p[i] in left) && left <= v.ids
    requires forall x {:trigger HasParentIn(v, left, x)} :: x in left ==> HasParentIn(v, left, x)
    ensures BehindCycle(v, p[|p| - 1])
    decreases |left| - |p|
  {
    var x := p[|p| - 1];
    assert HasParentIn(v, left, p[0]);
    var y :| y in left && Edge(v, y, p[0]);
    if y in p {
      var i :| 0 <= i < |p| && p[i] == y;
      PathReaches(v, p, 0, i);
      PathReaches(v, p, i, |p| - 1);
      assert OnCycle(v, y) && Reaches(v, y, x);
    } else {
      assert IsPath(v, [y]);
      JoinPaths(v, [y], p);
      DistinctSize([y] + p, left);
      LeftOutBehindCycle(v, left, [y] + p);
    }
  }

  /** The nodes left out are exactly those reachable from a cycle. */
  lemma LeftOut(v: View, x: string)
    requires x in v.ids && WellFormed(v)
    ensures x !in Kahn(v, {}) <==> BehindCycle(v, x)
  {
    var k := Kahn(v, {});
    if BehindCycle(v, x) {
      BehindCycleLeftOut(v, x);
    }
    if x !in k {
      KahnStops(v, {});
      var left := v.ids - Elems(k);
      forall z | z in left ensures HasParentIn(v, left, z) {
        assert z !in ReadySet(v, {} + Elems(k));
        var y :| Edge(v, y, z) && y !in Elems(k);
        assert y in left;
      }
      LeftOutBehindCycle(v, left, [x]);
    }
  }

  /** The order holds every node exactly when the graph has no cycle. */
  lemma CompleteIffAcyclic(v: View)
    requires WellFormed(v)
    ensures |Kahn(v, {})| == |v.ids| <==> forall c :: c in v.ids ==> !OnCycle(v, c)
  {
    var k := Kahn(v, {});
    KahnDistinct(v);
    DistinctLength(k);
    if forall c :: c in v.ids ==> !OnCycle(v, c) {
      assert forall c :: OnCycle(v, c) ==> c in v.ids;
      forall x | x in v.ids ensures x in k {
        LeftOut(v, x);
      }
      assert Elems(k) == v.ids;
    } else {
      var c :| c in v.ids && OnCycle(v, c);
      ReachesItself(v, c);
      assert BehindCycle(v, c);
      BehindCycleLeftOut(v, c);
      DistinctSize(k, v.ids - {c});
    }
  }

  lemma {:induction false} DistinctLength(k: seq<string>)
    requires Distinct(k)
    ensures |Elems(k)| == |k|
    decreases |k|
  {
    if k == [] {
      assert Elems(k) == {};
    } else {
      var front, last := k[..|k| - 1], k[|k| - 1];
      DistinctLength(front);
      assert forall i :: 0 <= i < |front| ==> front[i] != last;
      assert Elems(k) == Elems(front) + {last};
    }
  }
}

/** Kahn's algorithm on the slot table: model/graph.go. */
module Toposort {
  import opened Orders
  import opened EdgeKinds
  import opened Nodes
  import opened Views
  import opened SlotTables
  import opened Graphs
  import opened KahnTheory

  /** How many parents are still to come. */
  ghost function Pending(parents: set<nat>, done: set<nat>): nat
  {
    |parents - done|
  }

  /** Counters and ready heap agree with the slots emitted so far. */
  ghost predicate Counting(nodes: seq<Node?>, incoming: Adjacency, inDeg: seq<int>, ready: set<nat>, done: set<nat>)
  {
    && |inDeg| == |incoming| == |nodes|
    && (forall s :: s in done ==> Live(nodes, s) && incoming[s].Keys <= done)
    && (forall s: nat :: Live(nodes, s) && s !in done ==> inDeg[s] == Pending(incoming[s].Keys, done))
    && (forall s: nat :: s in ready <==> Live(nodes, s) && s !in done && inDeg[s] == 0)
  }

  lemma ReadyMeans(nodes: seq<Node?>, incoming: Adjacency, inDeg: seq<int>, ready: set<nat>, done: set<nat>, s: nat)
    requires Counting(nodes, incoming, inDeg, ready, done)
    ensures s in ready <==> Live(nodes, s) && s !in done && incoming[s].Keys <= done
  {
    if Live(nodes, s) && s !in done {
      var left := incoming[s].Keys - done;
      assert inDeg[s] == |left|;
      if left == {} {
        assert forall i :: i in incoming[s].Keys && i !in done ==> i in left;
      } else {
        assert exists i :: i in left;
      }
    }
  }

  /** `ids` are the IDs held by the slots of `done`. */
  ghost predicate SameNodes(nodes: seq<Node?>, done: set<nat>, ids: set<string>)
  {
    && (forall s: nat :: Live(nodes, s) ==> (s in done <==> IdAt(nodes, s) in ids))
    && (forall s :: s in done ==> Live(nodes, s))
  }

  /** Slots and their incoming entries stand for nodes and their parents. */
  ghost predicate Faithful(nodes: seq<Node?>, incoming: Adjacency, v: View)
  {
    && |incoming| == |nodes| && WellFormed(v)
    && (forall i: nat, j: nat :: Live(nodes, i) && Live(nodes, j) && IdAt(nodes, i) == IdAt(nodes, j) ==> i == j)
    && (forall x :: x in v.ids ==> Held(nodes, x))
    && (forall s: nat :: Live(nodes, s) ==> IdAt(nodes, s) in v.ids)
    && (forall s: nat :: Live(nodes, s) ==> ParentsOf(nodes, incoming, v, s))
  }

  ghost predicate ParentsOf(nodes: seq<Node?>, incoming: Adjacency, v: View, s: nat)
    requires s < |incoming|
  {
    forall i: nat :: i in incoming[s] <==> Live(nodes, i) && Edge(v, IdAt(nodes, i), IdAt(nodes, s))
  }

  ghost predicate Held(nodes: seq<Node?>, x: string)
  {
    exists s: nat :: Live(nodes, s) && IdAt(nodes, s) == x
  }

  lemma GraphIsFaithful(g: Graph)
    requires g.Valid()
    ensures Faithful(g.nodes, g.incoming, g.Abs())
  {
    hide SlotTables.TableOk;
    g.AbsWellFormed();
    g.TableLengths();
    forall x | x in g.Abs().ids ensures Held(g.nodes, x) {
      g.SlotOfIndex(x);
    }
    forall s: nat | Live(g.nodes, s) ensures IdAt(g.nodes, s) in g.indexByID && g.indexByID[IdAt(g.nodes, s)] == s {
      g.SlotOfId(s);
    }
    forall s: nat | Live(g.nodes, s) ensures ParentsOf(g.nodes, g.incoming, g.Abs(), s) {
      g.ParentSlots(s);
    }
  }

  /** A ready slot is a ready node. */
  lemma ReadySlot(nodes: seq<Node?>, incoming: Adjacency, v: View, done: set<nat>, ids: set<string>, s: nat)
    requires Faithful(nodes, incoming, v) && SameNodes(nodes, done, ids) && Live(nodes, s)
    ensures Ready(v, ids, IdAt(nodes, s)) <==> s !in done && incoming[s].Keys <= done
  {
    var x := IdAt(nodes, s);
    assert ParentsOf(nodes, incoming, v, s);
    if incoming[s].Keys <= done {
      forall p | Edge(v, p, x) ensures p in ids {
        assert Held(nodes, p);
        var i: nat :| Live(nodes, i) && IdAt(nodes, i) == p;
        assert i in incoming[s];
      }
    }
    if Ready(v, ids, x) {
      forall i | i in incoming[s] ensures i in done {
        assert Edge(v, IdAt(nodes, i), x);
      }
    }
  }

  lemma ReadyNodes(nodes: seq<Node?>, incoming: Adjacency, v: View, inDeg: seq<int>,
                                      ready: set<nat>, done: set<nat>, ids: set<string>, s: nat)
    requires Faithful(nodes, incoming, v) && Counting(nodes, incoming, inDeg, ready, done) && SameNodes(nodes, done, ids)
    requires Live(nodes, s)
    ensures s in ready <==> IdAt(nodes, s) in ReadySet(v, ids)
  {
    ReadySlot(nodes, incoming, v, done, ids, s);
    ReadyMeans(nodes, incoming, inDeg, ready, done, s);
  }

  lemma MarkNode(nodes: seq<Node?>, incoming: Adjacency, v: View, done: set<nat>, ids: set<string>, idx: nat)
    requires Faithful(nodes, incoming, v) && SameNodes(nodes, done, ids) && Live(nodes, idx)
    ensures SameNodes(nodes, done + {idx}, ids + {IdAt(nodes, idx)})
  {
  }

  /** The smallest ready slot holds the smallest ready node. */
  lemma SmallestSlot(nodes: seq<Node?>, incoming: Adjacency, v: View, inDeg: seq<int>,
                                        ready: set<nat>, done: set<nat>, ids: set<string>, idx: nat)
    requires Faithful(nodes, incoming, v) && Counting(nodes, incoming, inDeg, ready, done) && SameNodes(nodes, done, ids)
    requires idx in ready && forall s :: s in ready && s != idx ==> Less(IdAt(nodes, idx), IdAt(nodes, s))
    ensures Kahn(v, ids) == [IdAt(nodes, idx)] + Kahn(v, ids + {IdAt(nodes, idx)})
    ensures SameNodes(nodes, done + {idx}, ids + {IdAt(nodes, idx)})
  {
    var m := IdAt(nodes, idx);
    ReadyNodes(nodes, incoming, v, inDeg, ready, done, ids, idx);
    forall x | x in ReadySet(v, ids) && x != m ensures Less(m, x) {
      assert Held(nodes, x);
      var s: nat :| Live(nodes, s) && IdAt(nodes, s) == x;
      ReadyNodes(nodes, incoming, v, inDeg, ready, done, ids, s);
    }
    KahnStep(v, ids, m);
    MarkNode(nodes, incoming, v, done, ids, idx);
  }

  lemma NoneReady(nodes: seq<Node?>, incoming: Adjacency, v: View, inDeg: seq<int>, done: set<nat>, ids: set<string>)
    requires Faithful(nodes, incoming, v) && Counting(nodes, incoming, inDeg, {}, done) && SameNodes(nodes, done, ids)
    ensures Kahn(v, ids) == []
  {
    forall x ensures x !in ReadySet(v, ids) {
      if x in v.ids {
        assert Held(nodes, x);
        var s: nat :| Live(nodes, s) && IdAt(nodes, s) == x;
        ReadyNodes(nodes, incoming, v, inDeg, {}, done, ids, s);
      }
    }
  }

  method CountParents(nodes: seq<Node?>, incoming: Adjacency) returns (inDeg: seq<int>, ready: set<nat>)
    requires |incoming| == |nodes|
    ensures Counting(nodes, incoming, inDeg, ready, {})
  {
    inDeg, ready := [], {};
    for idx := 0 to |nodes|
      invariant |inDeg| == idx
      invariant forall s: nat :: s < idx && Live(nodes, s) ==> inDeg[s] == |incoming[s]|
      invariant forall s: nat :: s in ready <==> s < idx && Live(nodes, s) && inDeg[s] == 0
    {
      var degree := if nodes[idx] == null then 0 else |incoming[idx]|;
      inDeg := inDeg + [degree];
      if nodes[idx] != null && degree == 0 {
        ready := ready + {idx};
      }
    }
    forall s: nat | Live(nodes, s) ensures inDeg[s] == Pending(incoming[s].Keys, {}) {
      assert incoming[s].Keys - {} == incoming[s].Keys;
    }
  }

  /** Emitting a slot lowers each child's counter; a counter that reaches zero makes its slot ready. */
  method Emit(nodes: seq<Node?>, outgoing: Adjacency, incoming: Adjacency, inDeg0: seq<int>, ready0: set<nat>, idx: nat,
              ghost done: set<nat>)
    returns (inDeg: seq<int>, ready: set<nat>)
    requires EdgesOk(nodes, outgoing, incoming) && Counting(nodes, incoming, inDeg0, ready0, done) && idx in ready0
    ensures Counting(nodes, incoming, inDeg, ready, done + {idx})
  {
    hide EdgesOk;
    hide Pending;
    inDeg, ready := inDeg0, ready0 - {idx};
    RowIsLive(nodes, outgoing, incoming, inDeg0, ready0, idx, done);
    var row: map<nat, EdgeKind> := outgoing[idx];
    var todo := row.Keys;
    while todo != {}
      invariant todo <= row.Keys && |inDeg| == |nodes|
      invariant forall s: nat :: s < |nodes| ==> inDeg[s] == inDeg0[s] - if s in row && s !in todo then 1 else 0
      invariant forall s: nat :: s in ready <==> Live(nodes, s) && s !in done && s != idx && inDeg[s] == 0
      decreases todo
    {
      var child :| child in todo;
      todo := todo - {child};
      inDeg := inDeg[child := inDeg[child] - 1];
      if inDeg[child] == 0 {
        ready := ready + {child};
      }
    }
    Recounted(nodes, outgoing, incoming, inDeg0, ready0, idx, done, inDeg, ready);
  }

  /** The children of a ready slot are live, not yet emitted, and still waiting for a parent. */
  lemma RowIsLive(nodes: seq<Node?>, outgoing: Adjacency, incoming: Adjacency, inDeg: seq<int>,
                                     ready: set<nat>, idx: nat, done: set<nat>)
    requires EdgesOk(nodes, outgoing, incoming) && Counting(nodes, incoming, inDeg, ready, done) && idx in ready
    ensures idx < |outgoing|
    ensures forall c :: c in outgoing[idx] ==> Live(nodes, c) && c !in done && c != idx && inDeg[c] > 0
  {
    forall c | c in outgoing[idx] ensures Live(nodes, c) && c !in done && c != idx && inDeg[c] > 0 {
      assert Arc(outgoing, idx, c);
      assert Arc(incoming, c, idx);
      assert idx in incoming[c].Keys - done;
    }
  }

  /** Counters lowered for exactly the children of `idx` count the parents left once `idx` is out. */
  lemma Recounted(nodes: seq<Node?>, outgoing: Adjacency, incoming: Adjacency, inDeg0: seq<int>, ready0: set<nat>,
                                     idx: nat, done: set<nat>, inDeg: seq<int>, ready: set<nat>)
    requires EdgesOk(nodes, outgoing, incoming) && Counting(nodes, incoming, inDeg0, ready0, done) && idx in ready0
    requires |inDeg| == |nodes|
    requires forall s: nat :: s < |nodes| ==> inDeg[s] == inDeg0[s] - if s in outgoing[idx] then 1 else 0
    requires forall s: nat :: s in ready <==> Live(nodes, s) && s !in done && s != idx && inDeg[s] == 0
    ensures Counting(nodes, incoming, inDeg, ready, done + {idx})
  {
    ReadyMeans(nodes, incoming, inDeg0, ready0, done, idx);
    forall s: nat | Live(nodes, s) && s !in done + {idx}
      ensures inDeg[s] == Pending(incoming[s].Keys, done + {idx})
    {
      assert Arc(outgoing, idx, s) <==> Arc(incoming, s, idx);
      OneLess(incoming[s].Keys, done, idx);
    }
  }

  lemma OneLess(parents: set<nat>, done: set<nat>, idx: nat)
    requires idx !in done
    ensures Pending(parents, done + {idx}) == Pending(parents, done) - if idx in parents then 1 else 0
  {
    assert parents - (done + {idx}) == (parents - done) - {idx};
  }

  lemma EmittedSnoc(ordered: seq<Node>, node: Node, before: seq<string>, rest: seq<string>, all: seq<string>)
    requires IdsOf(ordered) + before == all && before == [node.id] + rest
    ensures IdsOf(ordered + [node]) + rest == all
  {
    assert IdsOf(ordered + [node]) == IdsOf(ordered) + [node.id];
  }

  /** The smallest-ID ready node first, until none is ready; an incomplete order is a cycle. */
  method TopologicalSort(g: Graph) returns (ordered: seq<Node>, r: Outcome)
    requires g.Valid()
    ensures IdsOf(ordered) == Kahn(g.Abs(), {})
    ensures Drawn(ordered, g.nodes)
    ensures r == if |ordered| == |g.Abs().ids| then Ok else Fail(CycleDetected)
  {
    hide SlotTables.TableOk;
    GraphIsFaithful(g);
    g.TableLengths();
    g.EdgeTables();
    ordered := Emitted(g.nodes, g.outgoing, g.incoming, g.Abs());
    r := if |ordered| != g.size then Fail(CycleDetected) else Ok;
  }

  method Emitted(nodes: seq<Node?>, outgoing: Adjacency, incoming: Adjacency, ghost v: View) returns (ordered: seq<Node>)
    requires Faithful(nodes, incoming, v) && EdgesOk(nodes, outgoing, incoming)
    ensures IdsOf(ordered) == Kahn(v, {})
    ensures Drawn(ordered, nodes)
  {
    hide *;
    LiveSlotsHold(nodes, incoming, v);
    NothingEmitted(nodes, v);
    var inDeg, ready := CountParents(nodes, incoming);
    ghost var done: set<nat>, ids: set<string> := {}, {};
    ordered := [];
    while ready != {}
      invariant Counting(nodes, incoming, inDeg, ready, done) && SameNodes(nodes, done, ids)
      invariant IdsOf(ordered) + Kahn(v, ids) == Kahn(v, {})
      invariant Drawn(ordered, nodes)
      decreases LiveSlots(nodes) - done
    {
      ReadyAreLive(nodes, incoming, inDeg, ready, done);
      var idx := MinSlot(nodes, ready);
      SmallestSlot(nodes, incoming, v, inDeg, ready, done, ids, idx);
      DrawnSnoc(ordered, nodes, idx);
      EmittedSnoc(ordered, nodes[idx], Kahn(v, ids), Kahn(v, ids + {IdAt(nodes, idx)}), Kahn(v, {}));
      ordered := ordered + [nodes[idx]];
      inDeg, ready := Emit(nodes, outgoing, incoming, inDeg, ready, idx, done);
      done, ids := done + {idx}, ids + {IdAt(nodes, idx)};
    }
    NoneReady(nodes, incoming, v, inDeg, done, ids);
    assert IdsOf(ordered) + [] == IdsOf(ordered);
  }

  ghost predicate Drawn(ordered: seq<Node>, nodes: seq<Node?>)
  {
    forall n :: n in ordered ==> n in nodes
  }

  lemma DrawnSnoc(ordered: seq<Node>, nodes: seq<Node?>, idx: nat)
    requires Drawn(ordered, nodes) && Live(nodes, idx)
    ensures idx < |nodes| && nodes[idx] != null && nodes[idx].id == IdAt(nodes, idx)
    ensures Drawn(ordered + [nodes[idx]], nodes)
  {
  }

  lemma NothingEmitted(nodes: seq<Node?>, v: View)
    ensures SameNodes(nodes, {}, {}) && Drawn([], nodes) && IdsOf([]) + Kahn(v, {}) == Kahn(v, {})
  {
  }

  lemma LiveSlotsHold(nodes: seq<Node?>, incoming: Adjacency, v: View)
    requires Faithful(nodes, incoming, v)
    ensures |incoming| == |nodes|
    ensures forall s: nat, t: nat :: Live(nodes, s) && Live(nodes, t) && s != t ==> IdAt(nodes, s) != IdAt(nodes, t)
  {
  }

  lemma ReadyAreLive(nodes: seq<Node?>, incoming: Adjacency, inDeg: seq<int>, ready: set<nat>, done: set<nat>)
    requires Counting(nodes, incoming, inDeg, ready, done)
    ensures forall s :: s in ready ==> Live(nodes, s) && s !in done && s in LiveSlots(nodes)
  {
  }
}
