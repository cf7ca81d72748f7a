/** Direct and transitive, read off single paths and off the whole graph, and where the two readings meet. */
module DirectnessTheory {
  import opened Relationships
  import opened Views
  import opened Reachability
  import opened WalkTheory

  ghost predicate HasParent(v: View, x: string)
  {
    exists y :: Edge(v, y, x)
  }

  ghost predicate Root(v: View, x: string)
  {
    x in v.ids && !HasParent(v, x)
  }

  /** Some root leads to the node with no dependency strictly between. */
  ghost predicate FromRoot(v: View, deps: set<string>, x: string)
  {
    exists r :: Root(v, r) && Linked(v, deps, r, x)
  }

  /** The graph has a root, and a node that is not one. */
  ghost predicate Usable(v: View)
  {
    (exists r :: Root(v, r)) && exists x :: x in v.ids && HasParent(v, x)
  }

  /** What the graph as a whole says of a dependency. */
  ghost function GraphDirectness(v: View, deps: set<string>, stated: Relationship, id: string): Relationship
  {
    if stated != Unset then stated
    else if !Usable(v) || !HasParent(v, id) then Unrecovered
    else if FromRoot(v, deps, id) then Direct
    else Transitive
  }

  /** What one path says of its last node: only dependencies strictly between its ends are hops. */
  ghost function PathDirectness(deps: set<string>, stated: Relationship, p: seq<string>): Relationship
  {
    if p == [] then Unset
    else if stated != Unset then stated
    else if exists i :: 0 < i < |p| - 1 && p[i] in deps then Transitive
    else Direct
  }

  ghost predicate RootPath(v: View, p: seq<string>, id: string)
  {
    IsPath(v, p) && Root(v, p[0]) && p[|p| - 1] == id
  }

  lemma LongRootPath(v: View, p: seq<string>, id: string)
    requires RootPath(v, p, id) && HasParent(v, id)
    ensures |p| > 1
  {
  }

  /** For a dependency that states nothing and has a parent, the graph says direct exactly when
      some root-to-it path does, and transitive otherwise. */
  lemma GraphAgreesWithPaths(v: View, deps: set<string>, id: string)
    requires Usable(v) && id in v.ids && HasParent(v, id)
    ensures GraphDirectness(v, deps, Unset, id) == Direct <==>
            exists p :: RootPath(v, p, id) && PathDirectness(deps, Unset, p) == Direct
    ensures GraphDirectness(v, deps, Unset, id) in {Direct, Transitive}
  {
    if FromRoot(v, deps, id) {
      var r :| Root(v, r) && Linked(v, deps, r, id);
      var p :| Hop(v, deps, r, id, p);
      assert RootPath(v, p, id);
    }
    if exists p :: RootPath(v, p, id) && PathDirectness(deps, Unset, p) == Direct {
      var p :| RootPath(v, p, id) && PathDirectness(deps, Unset, p) == Direct;
      LongRootPath(v, p, id);
      assert Hop(v, deps, p[0], id, p);
      assert Linked(v, deps, p[0], id);
    }
  }

  /** Some path of two or more nodes leads from a node nothing points at to this one, with no dependency between. */
  ghost predicate OwnedDirectly(v: View, deps: set<string>, id: string)
  {
    exists p :: IsPath(v, p) && |p| > 1 && p[|p| - 1] == id && Parentless(v, p[0]) && forall i :: 0 < i < |p| - 1 ==> p[i] !in deps
  }

  ghost predicate Parentless(v: View, x: string)
  {
    x in v.ids && forall y :: !Edge(v, y, x)
  }

  /** What is stated stands. Otherwise a node nothing points at is unrecovered, as is every node where each is pointed
      at; any other is direct when it is owned directly and transitive when it is not. */
  lemma GraphDirectnessMeans(v: View, deps: set<string>, stated: Relationship, id: string)
    requires id in v.ids
    ensures GraphDirectness(v, deps, stated, id) ==
            if stated != Unset then stated
            else if Parentless(v, id) || (forall x :: x in v.ids ==> !Parentless(v, x)) then Unrecovered
            else if OwnedDirectly(v, deps, id) then Direct
            else Transitive
  {
    forall x ensures Root(v, x) <==> Parentless(v, x) {
    }
    if FromRoot(v, deps, id) {
      var r :| Root(v, r) && Linked(v, deps, r, id);
      var p :| Hop(v, deps, r, id, p);
      assert IsPath(v, p) && Parentless(v, p[0]);
    }
    if p :| IsPath(v, p) && |p| > 1 && p[|p| - 1] == id && Parentless(v, p[0]) && forall i :: 0 < i < |p| - 1 ==> p[i] !in deps {
      assert Hop(v, deps, p[0], id, p);
      assert Linked(v, deps, p[0], id);
    }
  }

  /** On a path that starts at a root the readings differ about recovery only when the path is the root alone. */
  lemma PartWaysAtRoots(v: View, deps: set<string>, id: string, p: seq<string>)
    requires WellFormed(v) && Usable(v) && RootPath(v, p, id)
    ensures GraphDirectness(v, deps, Unset, id) == Unrecovered <==> |p| == 1
    ensures |p| == 1 ==> PathDirectness(deps, Unset, p) == Direct
  {
    if |p| > 1 {
      assert Edge(v, p[|p| - 2], p[|p| - 1]);
    }
  }

  // ----- The worklist

  /** Owners are roots, and structural nodes a root leads to without crossing a dependency. */
  ghost predicate Owning(v: View, deps: set<string>, seen: set<string>, direct: set<string>, expanded: set<string>)
  {
    && WellFormed(v) && seen <= v.ids && (forall x :: Root(v, x) ==> x in seen)
    && (forall x :: x in seen && !Root(v, x) ==> x !in deps && FromRoot(v, deps, x))
    && (forall x :: x in direct ==> x in v.ids && FromRoot(v, deps, x))
    && (forall x, y :: x in expanded && Edge(v, x, y) ==> y in direct && (y in deps || y in seen))
  }

  lemma OwnChild(v: View, deps: set<string>, seen: set<string>, direct: set<string>, expanded: set<string>, x: string, y: string)
    requires Owning(v, deps, seen, direct, expanded) && x in seen && Edge(v, x, y)
    ensures Owning(v, deps, seen, direct + {y}, expanded)
    ensures y !in deps ==> Owning(v, deps, seen + {y}, direct + {y}, expanded)
  {
    assert (x, y) in v.edges;
    if Root(v, x) {
      LinkedByEdge(v, deps, x, y);
    } else {
      var r :| Root(v, r) && Linked(v, deps, r, x);
      LinkedThenEdge(v, deps, r, x, y);
    }
    assert FromRoot(v, deps, y);
  }

  lemma OwnDone(v: View, deps: set<string>, seen: set<string>, direct: set<string>, expanded: set<string>, x: string)
    requires Owning(v, deps, seen, direct, expanded)
    requires forall y :: Edge(v, x, y) ==> y in direct && (y in deps || y in seen)
    ensures Owning(v, deps, seen, direct, expanded + {x})
  {
  }

  /** When every owner has been expanded, the marked nodes are exactly those a root leads to. */
  lemma OwnedAll(v: View, deps: set<string>, seen: set<string>, direct: set<string>, x: string)
    requires Owning(v, deps, seen, direct, seen)
    ensures x in direct <==> FromRoot(v, deps, x)
  {
    if FromRoot(v, deps, x) {
      var r :| Root(v, r) && Linked(v, deps, r, x);
      var p :| Hop(v, deps, r, x, p);
      OwnersAlong(v, deps, seen, direct, p, |p| - 2);
      assert Edge(v, p[|p| - 2], p[|p| - 1]);
    }
  }

  lemma {:induction false} OwnersAlong(v: View, deps: set<string>, seen: set<string>, direct: set<string>, p: seq<string>, i: nat)
    requires Owning(v, deps, seen, direct, seen) && IsPath(v, p) && Root(v, p[0]) && i < |p| - 1
    requires forall j :: 0 < j < |p| - 1 ==> p[j] !in deps
    ensures p[i] in seen
  {
    if i > 0 {
      OwnersAlong(v, deps, seen, direct, p, i - 1);
      assert Edge(v, p[i - 1], p[i]);
    }
  }

  lemma OwnRoots(v: View, deps: set<string>, roots: set<string>)
    requires WellFormed(v) && forall x :: x in roots <==> Root(v, x)
    ensures Owning(v, deps, roots, {}, {})
  {
  }
}

/** The two readings over the paths a search returns, which need not start at a root. */
module SearchedDirectness {
  import opened Orders
  import opened EdgeKinds
  import opened Relationships
  import opened Views
  import opened Reachability
  import opened WalkTheory
  import opened PathTheory
  import opened DirectnessTheory

  /** Some path the search lists for a dependency that states nothing is direct. */
  ghost predicate SearchSaysDirect(v: View, deps: set<string>, id: string)
  {
    exists h :: Wanted(v, id, h) && PathDirectness(deps, Unset, h.ids) == Direct
  }

  /** The same over the paths that do not run back into the target. */
  ghost predicate StraightSaysDirect(v: View, deps: set<string>, id: string)
  {
    exists h :: Wanted(v, id, h) && !h.cyclic && PathDirectness(deps, Unset, h.ids) == Direct
  }

  /** Something points at the node, and some node nothing points at leads to it. */
  ghost predicate Rooted(v: View, id: string)
  {
    HasParent(v, id) && exists r :: Root(v, r) && Reaches(v, r, id)
  }

  lemma RelevantRootIsRoot(v: View, t: string, x: string)
    requires WellFormed(v) && t in v.ids
    ensures RelevantRoot(v, t, x) <==> Root(v, x) && Reaches(v, x, t)
  {
    if RelevantRoot(v, t, x) {
      forall y ensures !Edge(v, y, x) {
        if Edge(v, y, x) {
          assert (y, x) in v.edges;
          EdgeThenReaches(v, y, x, t);
        }
      }
    }
  }

  /** Cutting out what lies between two visits of a node leaves a path between the same ends that visits nothing new. */
  lemma Shortcut(v: View, p: seq<string>, i: nat, j: nat) returns (q: seq<string>)
    requires IsPath(v, p) && i < j < |p| && p[i] == p[j]
    ensures IsPath(v, q) && |q| < |p| && q[0] == p[0] && q[|q| - 1] == p[|p| - 1]
    ensures q == p[..i] + p[j..]
  {
    q := p[..i] + p[j..];
    forall k, l | 0 <= k < l < |q| && l == k + 1 ensures Edge(v, q[k], q[l]) {
      if l < i {
        assert Edge(v, p[k], p[l]);
      } else if l == i {
        assert Edge(v, p[k], p[i]);
      } else {
        assert q[k] == p[k - i + j] && q[l] == p[l - i + j];
        assert Edge(v, p[k - i + j], p[l - i + j]);
      }
    }
  }

  /** A hop can be made simple. */
  lemma {:induction false} SimpleHop(v: View, deps: set<string>, a: string, b: string, p: seq<string>) returns (q: seq<string>)
    requires Hop(v, deps, a, b, p) && a != b
    ensures Hop(v, deps, a, b, q) && Distinct(q)
    decreases |p|
  {
    if Distinct(p) {
      q := p;
    } else {
      var i, j :| 0 <= i < j < |p| && p[i] == p[j];
      var r := Shortcut(v, p, i, j);
      assert |r| > 1;
      forall k | 0 < k < |r| - 1 ensures r[k] !in deps {
        assert r[k] == p[if k < i then k else k - i + j];
      }
      q := SimpleHop(v, deps, a, b, r);
    }
  }

  /** A node the search can start at lists itself, and that path is direct. */
  lemma StartIsListed(v: View, deps: set<string>, id: string)
    requires id in v.ids && Start(v, id, id)
    ensures StraightSaysDirect(v, deps, id)
  {
    var h := Hit([id], false, "");
    assert IsPath(v, [id]) && Spine(h) == [id];
    assert Wanted(v, id, h);
  }

  /** Where no root leads, every node that reaches the target is a start, the target among them. */
  lemma UnrootedIsStart(v: View, id: string)
    requires WellFormed(v) && id in v.ids && !Rooted(v, id)
    ensures Start(v, id, id)
  {
    ReachesItself(v, id);
    RelevantRootIsRoot(v, id, id);
    if r :| RelevantRoot(v, id, r) {
      RelevantRootIsRoot(v, id, r);
    }
  }

  lemma RootedStart(v: View, id: string, x: string)
    requires WellFormed(v) && id in v.ids && Rooted(v, id)
    ensures Start(v, id, x) <==> Root(v, x) && Reaches(v, x, id)
  {
    var r :| Root(v, r) && Reaches(v, r, id);
    RelevantRootIsRoot(v, id, r);
    RelevantRootIsRoot(v, id, x);
  }

  /** A path that runs back into the target adds no direct reading: the target lies strictly inside it, or starts it. */
  lemma CyclicAddsNothing(v: View, deps: set<string>, id: string)
    requires id in v.ids && id in deps
    ensures SearchSaysDirect(v, deps, id) <==> StraightSaysDirect(v, deps, id)
  {
    if h :| Wanted(v, id, h) && h.cyclic && PathDirectness(deps, Unset, h.ids) == Direct {
      var p := Spine(h);
      var i :| 0 <= i < |p| && p[i] == id;
      assert h.ids[i] == id && i == 0;
      StartIsListed(v, deps, id);
    }
  }

  lemma RootedAgrees(v: View, deps: set<string>, id: string)
    requires WellFormed(v) && id in v.ids && Rooted(v, id)
    ensures GraphDirectness(v, deps, Unset, id) == Direct <==> StraightSaysDirect(v, deps, id)
  {
    GraphAgreesWithPaths(v, deps, id);
    if FromRoot(v, deps, id) {
      var r :| Root(v, r) && Linked(v, deps, r, id);
      var p :| Hop(v, deps, r, id, p);
      var q := SimpleHop(v, deps, r, id, p);
      var h := Hit(q, false, "");
      assert PathFromTo(v, r, id, q);
      RootedStart(v, id, r);
      assert Wanted(v, id, h);
    }
    if h :| Wanted(v, id, h) && !h.cyclic && PathDirectness(deps, Unset, h.ids) == Direct {
      RootedStart(v, id, Spine(h)[0]);
      assert RootPath(v, h.ids, id);
    }
  }

  /** For a dependency that states nothing, the graph-wide reading and the paths a search returns agree on direct
      exactly when something points at it and some root leads to it. */
  lemma AgreeIffRooted(v: View, deps: set<string>, id: string)
    requires WellFormed(v) && id in v.ids && id in deps
    ensures (GraphDirectness(v, deps, Unset, id) == Direct <==> StraightSaysDirect(v, deps, id)) <==> Rooted(v, id)
    ensures (GraphDirectness(v, deps, Unset, id) == Direct <==> SearchSaysDirect(v, deps, id)) <==> Rooted(v, id)
  {
    CyclicAddsNothing(v, deps, id);
    if Rooted(v, id) {
      RootedAgrees(v, deps, id);
    } else {
      UnrootedIsStart(v, id);
      StartIsListed(v, deps, id);
      if FromRoot(v, deps, id) {
        LinkedIsReached(v, deps, id);
      }
    }
  }

  lemma LinkedIsReached(v: View, deps: set<string>, id: string)
    requires FromRoot(v, deps, id)
    ensures exists r :: Root(v, r) && Reaches(v, r, id)
  {
    var r :| Root(v, r) && Linked(v, deps, r, id);
    var p :| Hop(v, deps, r, id, p);
    assert PathFromTo(v, r, id, p);
  }

  /** A root with one child, and apart from them two dependencies in a cycle with a third behind it. */
  function Island(): View
  {
    View({"r", "x", "a", "b", "t"},
         map[("r", "x") := DependsOn, ("a", "b") := DependsOn, ("b", "a") := DependsOn, ("b", "t") := DependsOn])
  }

  lemma IslandIsUnrooted()
    ensures !Rooted(Island(), "t")
  {
    var v := Island();
    assert Edge(v, "b", "t") && Edge(v, "a", "b") && Edge(v, "b", "a");
    forall r | Reaches(v, r, "t") ensures !Root(v, r) {
      var p :| PathFromTo(v, r, "t", p);
      ParentClosed(v, {"a", "b", "t"}, p);
    }
  }

  /** No root leads to the third, so the search starts inside and finds it direct, while the graph calls it transitive. */
  lemma UnrootedDisagrees()
    ensures WellFormed(Island()) && Usable(Island()) && GraphDirectness(Island(), Island().ids, Unset, "t") == Transitive
    ensures Wanted(Island(), "t", Hit(["b", "t"], false, "")) && PathDirectness(Island().ids, Unset, ["b", "t"]) == Direct
  {
    var v := Island();
    assert Edge(v, "r", "x") && Edge(v, "b", "t") && Root(v, "r");
    IslandIsUnrooted();
    if FromRoot(v, v.ids, "t") {
      LinkedIsReached(v, v.ids, "t");
    }
    forall r ensures !RelevantRoot(v, "t", r) {
      RelevantRootIsRoot(v, "t", r);
    }
    assert Spine(Hit(["b", "t"], false, "")) == ["b", "t"];
    assert PathFromTo(v, "b", "t", ["b", "t"]);
  }
}

/** The directness code of model/graph.go and model/relationship.go. */
module Directness {
  import opened Orders
  import opened EdgeKinds
  import opened Relationships
  import opened Nodes
  import opened Views
  import opened SlotTables
  import opened Graphs
  import opened DirectnessTheory
  import opened KahnTheory

  function StatedBy(node: Node): Relationship
    reads node
  {
    if node.kind == DependencyKind then node.relationship else Unset
  }

  method RelationshipForPath(path: seq<Node>, ghost deps: set<string>) returns (r: Relationship)
    requires forall n :: n in path ==> (n.id in deps <==> n.kind == DependencyKind)
    ensures r == PathDirectness(deps, if path == [] then Unset else StatedBy(path[|path| - 1]), IdsOf(path))
  {
    if |path| == 0 {
      return Unset;
    }
    var depth := 1;
    ghost var ids := IdsOf(path);
    if |path| > 2 {
      for i := 1 to |path| - 1
        invariant depth >= 1
        invariant depth > 1 <==> exists j :: 0 < j < i && ids[j] in deps
      {
        assert path[i] in path && ids[i] == path[i].id;
        if path[i].kind == DependencyKind {
          depth := depth + 1;
        }
      }
    }
    r := RelationshipForDepth(StatedBy(path[|path| - 1]), depth);
  }

  // ----- Slots and the identities they hold

  /** `ids` are the IDs held by the live slots of `slots`. */
  ghost predicate Hold(index: map<string, nat>, nodes: seq<Node?>, slots: set<nat>, ids: set<string>)
  {
    && (forall x :: x in ids ==> x in index && index[x] in slots)
    && (forall s :: s in slots ==> Live(nodes, s) && IdAt(nodes, s) in ids)
  }

  lemma HoldMore(index: map<string, nat>, nodes: seq<Node?>, slots: set<nat>, ids: set<string>, s: nat)
    requires IndexOk(index, nodes) && Hold(index, nodes, slots, ids) && Live(nodes, s)
    ensures Hold(index, nodes, slots + {s}, ids + {IdAt(nodes, s)})
  {
  }

  lemma HoldMember(index: map<string, nat>, nodes: seq<Node?>, slots: set<nat>, ids: set<string>, s: nat)
    requires IndexOk(index, nodes) && Hold(index, nodes, slots, ids) && Live(nodes, s)
    ensures s in slots <==> IdAt(nodes, s) in ids
  {
  }

  /** The dependency nodes of a graph. */
  ghost predicate Deps(nodes: seq<Node?>, deps: set<string>)
  {
    forall s: nat :: Live(nodes, s) ==> (IdAt(nodes, s) in deps <==> nodes[s].kind == DependencyKind)
  }

  /** What the adjacency row of a slot says in terms of identities. */
  ghost predicate ChildRow(nodes: seq<Node?>, v: View, at: nat, row: set<nat>)
  {
    && (forall s :: s in row ==> Live(nodes, s) && Edge(v, IdAt(nodes, at), IdAt(nodes, s)))
    && (forall y :: Edge(v, IdAt(nodes, at), y) ==> exists s :: s in row && IdAt(nodes, s) == y)
  }

  lemma RowIsChildren(g: Graph, at: nat, v: View)
    requires g.Valid() && v == g.Abs() && Live(g.nodes, at)
    ensures at < |g.outgoing| && ChildRow(g.nodes, v, at, g.outgoing[at].Keys)
  {
    g.TableLengths();
    g.AbsWellFormed();
    var row := g.outgoing[at].Keys;
    forall s | s in row ensures Live(g.nodes, s) && Edge(v, IdAt(g.nodes, at), IdAt(g.nodes, s)) {
      assert Arc(g.outgoing, at, s);
      g.ArcIsEdge(at, s);
    }
    forall y | Edge(v, IdAt(g.nodes, at), y) ensures exists s :: s in row && IdAt(g.nodes, s) == y {
      assert (IdAt(g.nodes, at), y) in v.edges;
      g.SlotOfIndex(y);
      g.ArcIsEdge(at, g.indexByID[y]);
      assert g.indexByID[y] in row;
    }
  }

  /** The nodes nothing points at, in ID order. */
  method RootSlots(g: Graph) returns (roots: seq<nat>)
    requires g.Valid()
    ensures SlotsInOrder(g.nodes, roots)
    ensures forall s: nat :: s in roots <==> Live(g.nodes, s) && Root(g.Abs(), IdAt(g.nodes, s))
  {
    hide *;
    ghost var v := g.Abs();
    var slots := g.SortedIndices();
    roots := [];
    NoSlots(g.nodes);
    for i := 0 to |slots|
      invariant SlotsInOrder(g.nodes, roots)
      invariant forall s: nat :: s in roots <==> s in slots[..i] && Root(v, IdAt(g.nodes, s))
    {
      TakeSnoc(slots, i);
      assert slots[i] in slots;
      RootBySlot(g, slots[i]);
      if |g.incoming[slots[i]]| == 0 {
        NextInOrder(g.nodes, slots, i, roots);
        roots := roots + [slots[i]];
      }
    }
    TakeAll(slots);
  }

  lemma NextInOrder(nodes: seq<Node?>, slots: seq<nat>, i: nat, out: seq<nat>)
    requires SlotsInOrder(nodes, slots) && SlotsInOrder(nodes, out) && i < |slots| && forall s :: s in out ==> s in slots[..i]
    ensures SlotsInOrder(nodes, out + [slots[i]])
  {
    forall s | s in out ensures Less(IdAt(nodes, s), IdAt(nodes, slots[i])) {
      var j :| 0 <= j < i && slots[j] == s;
    }
    AppendInOrder(nodes, out, slots[i]);
  }

  lemma RootBySlot(g: Graph, at: nat)
    requires g.Valid() && Live(g.nodes, at)
    ensures at < |g.incoming| && (|g.incoming[at]| == 0 <==> Root(g.Abs(), IdAt(g.nodes, at)))
    ensures |g.incoming[at]| > 0 <==> HasParent(g.Abs(), IdAt(g.nodes, at))
  {
    g.TableLengths();
    g.SlotOfId(at);
    g.ParentSlots(at);
    g.AbsWellFormed();
    hide SlotTables.TableOk;
    var v, x := g.Abs(), IdAt(g.nodes, at);
    if HasParent(v, x) {
      var y :| Edge(v, y, x);
      assert (y, x) in v.edges;
      g.SlotOfIndex(y);
      assert g.indexByID[y] in g.incoming[at];
    }
    if |g.incoming[at]| > 0 {
      var i :| i in g.incoming[at];
      assert Edge(v, IdAt(g.nodes, i), x);
    }
  }

  // ----- The worklist

  ghost predicate Working(index: map<string, nat>, nodes: seq<Node?>, v: View, deps: set<string>, owners: seq<nat>, seen: set<nat>,
                          seenIds: set<string>, direct: set<nat>, directIds: set<string>, expanded: set<string>)
  {
    && IndexOk(index, nodes) && Deps(nodes, deps) && Elems(owners) == seen && Distinct(owners)
    && Hold(index, nodes, seen, seenIds) && Hold(index, nodes, direct, directIds)
    && Owning(v, deps, seenIds, directIds, expanded)
  }

  /** A child has been marked, and queued unless it is a dependency. */
  ghost predicate Taken(nodes: seq<Node?>, seen: set<nat>, direct: set<nat>, s: nat)
  {
    s in direct && Live(nodes, s) && (nodes[s].kind == DependencyKind || s in seen)
  }

  lemma TakeChild(index: map<string, nat>, nodes: seq<Node?>, v: View, deps: set<string>, owners: seq<nat>, seen: set<nat>,
                                     seenIds: set<string>, direct: set<nat>, directIds: set<string>, expanded: set<string>, at: nat, s: nat)
    requires Working(index, nodes, v, deps, owners, seen, seenIds, direct, directIds, expanded)
    requires at in seen && Live(nodes, s) && Edge(v, IdAt(nodes, at), IdAt(nodes, s))
    ensures Working(index, nodes, v, deps, owners, seen, seenIds, direct + {s}, directIds + {IdAt(nodes, s)}, expanded)
    ensures nodes[s].kind != DependencyKind && s !in seen ==>
              Working(index, nodes, v, deps, owners + [s], seen + {s}, seenIds + {IdAt(nodes, s)}, direct + {s}, directIds + {IdAt(nodes, s)}, expanded)
  {
    HoldMore(index, nodes, seen, seenIds, s);
    HoldMore(index, nodes, direct, directIds, s);
    hide Owning;
    OwnChild(v, deps, seenIds, directIds, expanded, IdAt(nodes, at), IdAt(nodes, s));
    assert Elems(owners + [s]) == Elems(owners) + {s};
    assert forall i :: 0 <= i < |owners| ==> owners[i] in Elems(owners);
  }

  lemma RowTaken(index: map<string, nat>, nodes: seq<Node?>, v: View, deps: set<string>, owners: seq<nat>, seen: set<nat>,
                                    seenIds: set<string>, direct: set<nat>, directIds: set<string>, expanded: set<string>, at: nat, row: set<nat>)
    requires Working(index, nodes, v, deps, owners, seen, seenIds, direct, directIds, expanded) && ChildRow(nodes, v, at, row)
    requires forall s :: s in row ==> Taken(nodes, seen, direct, s)
    ensures Working(index, nodes, v, deps, owners, seen, seenIds, direct, directIds, expanded + {IdAt(nodes, at)})
  {
    forall y | Edge(v, IdAt(nodes, at), y) ensures y in directIds && (y in deps || y in seenIds) {
      var s :| s in row && IdAt(nodes, s) == y;
      assert Taken(nodes, seen, direct, s);
    }
    OwnDone(v, deps, seenIds, directIds, expanded, IdAt(nodes, at));
  }

  lemma TakenGrows(nodes: seq<Node?>, seen: set<nat>, direct: set<nat>, seen': set<nat>, direct': set<nat>)
    requires seen <= seen' && direct <= direct'
    ensures forall s :: Taken(nodes, seen, direct, s) ==> Taken(nodes, seen', direct', s)
  {
  }

  lemma TakenNow(nodes: seq<Node?>, seen: set<nat>, direct: set<nat>, s: nat)
    requires Live(nodes, s) && s in direct && (nodes[s].kind == DependencyKind || s in seen)
    ensures Taken(nodes, seen, direct, s)
  {
  }

  lemma RowLive(nodes: seq<Node?>, v: View, at: nat, row: set<nat>)
    requires ChildRow(nodes, v, at, row)
    ensures forall s :: s in row ==> Live(nodes, s) && s < |nodes| && nodes[s] != null && Edge(v, IdAt(nodes, at), IdAt(nodes, s))
  {
  }

  method ExpandOwner(nodes: seq<Node?>, row: set<nat>, at: nat, owners0: seq<nat>, seen0: set<nat>, direct0: set<nat>,
                     ghost index: map<string, nat>, ghost v: View, ghost deps: set<string>,
                     ghost seenIds0: set<string>, ghost directIds0: set<string>, ghost expanded: set<string>)
    returns (owners: seq<nat>, seen: set<nat>, direct: set<nat>, ghost seenIds: set<string>, ghost directIds: set<string>)
    requires Working(index, nodes, v, deps, owners0, seen0, seenIds0, direct0, directIds0, expanded)
    requires at in seen0 && ChildRow(nodes, v, at, row)
    ensures owners0 <= owners
    ensures Working(index, nodes, v, deps, owners, seen, seenIds, direct, directIds, expanded + {IdAt(nodes, at)})
  {
    hide *;
    RowLive(nodes, v, at, row);
    owners, seen, direct := owners0, seen0, direct0;
    seenIds, directIds := seenIds0, directIds0;
    var todo := row;
    while todo != {}
      invariant todo <= row && owners0 <= owners && at in seen
      invariant Working(index, nodes, v, deps, owners, seen, seenIds, direct, directIds, expanded)
      invariant forall s :: s in row && s !in todo ==> Taken(nodes, seen, direct, s)
      decreases todo
    {
      var child :| child in todo;
      todo := todo - {child};
      TakeChild(index, nodes, v, deps, owners, seen, seenIds, direct, directIds, expanded, at, child);
      ghost var seen1, direct1 := seen, direct;
      direct, directIds := direct + {child}, directIds + {IdAt(nodes, child)};
      if nodes[child].kind != DependencyKind && child !in seen {
        seen, seenIds, owners := seen + {child}, seenIds + {IdAt(nodes, child)}, owners + [child];
      }
      TakenGrows(nodes, seen1, direct1, seen, direct);
      TakenNow(nodes, seen, direct, child);
    }
    RowTaken(index, nodes, v, deps, owners, seen, seenIds, direct, directIds, expanded, at, row);
  }

  /** The owners before the cursor are the expanded ones. */
  ghost predicate Cursor(index: map<string, nat>, nodes: seq<Node?>, owners: seq<nat>, cursor: nat, expanded: set<string>)
  {
    cursor <= |owners| && Hold(index, nodes, Elems(owners[..cursor]), expanded)
  }

  lemma AtCursor(index: map<string, nat>, nodes: seq<Node?>, v: View, deps: set<string>, owners: seq<nat>, seen: set<nat>,
                                    seenIds: set<string>, direct: set<nat>, directIds: set<string>, expanded: set<string>, cursor: nat)
    requires Working(index, nodes, v, deps, owners, seen, seenIds, direct, directIds, expanded) && cursor < |owners|
    ensures IndexOk(index, nodes) && owners[cursor] in seen && Live(nodes, owners[cursor]) && owners[cursor] < |nodes| && nodes[owners[cursor]] != null
    ensures LiveSlots(nodes) - Elems(owners[..cursor + 1]) < LiveSlots(nodes) - Elems(owners[..cursor])
  {
    TakeSnoc(owners, cursor);
    var s := owners[cursor];
    assert s in Elems(owners);
    assert Elems(owners[..cursor + 1]) == Elems(owners[..cursor]) + {s};
    assert s !in owners[..cursor];
    assert s in LiveSlots(nodes) - Elems(owners[..cursor]);
  }

  lemma CursorMoves(index: map<string, nat>, nodes: seq<Node?>, owners: seq<nat>, owners': seq<nat>, cursor: nat, expanded: set<string>)
    requires Cursor(index, nodes, owners, cursor, expanded) && owners <= owners' && cursor < |owners|
    requires IndexOk(index, nodes) && Live(nodes, owners[cursor])
    ensures cursor < |owners'| && owners'[..cursor + 1] == owners[..cursor + 1]
    ensures Cursor(index, nodes, owners', cursor + 1, expanded + {IdAt(nodes, owners[cursor])})
  {
    TakeSnoc(owners, cursor);
    assert owners'[..cursor + 1] == owners[..cursor + 1];
    assert Elems(owners'[..cursor + 1]) == Elems(owners[..cursor]) + {owners[cursor]};
    HoldMore(index, nodes, Elems(owners[..cursor]), expanded, owners[cursor]);
  }

  lemma CursorEnds(index: map<string, nat>, nodes: seq<Node?>, v: View, deps: set<string>, owners: seq<nat>, seen: set<nat>,
                                      seenIds: set<string>, direct: set<nat>, directIds: set<string>, expanded: set<string>)
    requires Working(index, nodes, v, deps, owners, seen, seenIds, direct, directIds, expanded)
    requires Cursor(index, nodes, owners, |owners|, expanded)
    ensures forall s: nat :: Live(nodes, s) ==> (s in direct <==> FromRoot(v, deps, IdAt(nodes, s)))
  {
    TakeAll(owners);
    forall x ensures x in expanded <==> x in seenIds {
    }
    assert expanded == seenIds;
    forall s: nat | Live(nodes, s) ensures s in direct <==> FromRoot(v, deps, IdAt(nodes, s)) {
      HoldMember(index, nodes, direct, directIds, s);
      OwnedAll(v, deps, seenIds, directIds, IdAt(nodes, s));
    }
  }

  lemma RootsHold(index: map<string, nat>, nodes: seq<Node?>, v: View, deps: set<string>, roots: seq<nat>) returns (ids: set<string>)
    requires IndexOk(index, nodes) && Deps(nodes, deps) && WellFormed(v) && v.ids == index.Keys && SlotsInOrder(nodes, roots)
    requires forall s: nat :: s in roots <==> Live(nodes, s) && Root(v, IdAt(nodes, s))
    ensures Working(index, nodes, v, deps, roots, Elems(roots), ids, {}, {}, {}) && Cursor(index, nodes, roots, 0, {})
  {
    ids := set x | x in v.ids && Root(v, x);
    OwnRoots(v, deps, ids);
    LessIsStrictTotal();
    forall x | x in ids ensures index[x] in Elems(roots) {
      assert Live(nodes, index[x]);
    }
  }

  method RunWorklist(g: Graph, owners0: seq<nat>, seen0: set<nat>, ghost v: View, ghost deps: set<string>, ghost index: map<string, nat>, ghost seenIds0: set<string>)
    returns (direct: set<nat>)
    requires g.Valid() && v == g.Abs()
    requires Working(index, g.nodes, v, deps, owners0, seen0, seenIds0, {}, {}, {}) && Cursor(index, g.nodes, owners0, 0, {})
    ensures forall s: nat :: Live(g.nodes, s) ==> (s in direct <==> FromRoot(v, deps, IdAt(g.nodes, s)))
  {
    hide *;
    ghost var directIds: set<string>, expanded: set<string>, seenIds := {}, {}, seenIds0;
    var owners, seen := owners0, seen0;
    direct := {};
    var cursor := 0;
    while cursor < |owners|
      invariant Working(index, g.nodes, v, deps, owners, seen, seenIds, direct, directIds, expanded)
      invariant cursor <= |owners| && Cursor(index, g.nodes, owners, cursor, expanded)
      decreases LiveSlots(g.nodes) - Elems(owners[..cursor])
    {
      var at := owners[cursor];
      AtCursor(index, g.nodes, v, deps, owners, seen, seenIds, direct, directIds, expanded, cursor);
      RowIsChildren(g, at, v);
      ghost var owners1 := owners;
      owners, seen, direct, seenIds, directIds :=
        ExpandOwner(g.nodes, g.outgoing[at].Keys, at, owners, seen, direct, index, v, deps, seenIds, directIds, expanded);
      CursorMoves(index, g.nodes, owners1, owners, cursor, expanded);
      expanded := expanded + {IdAt(g.nodes, at)};
      cursor := cursor + 1;
    }
    CursorEnds(index, g.nodes, v, deps, owners, seen, seenIds, direct, directIds, expanded);
  }

  /** The slots a root leads to with no dependency between. */
  method DirectSlots(g: Graph, roots: seq<nat>, ghost v: View, ghost deps: set<string>) returns (direct: set<nat>)
    requires g.Valid() && v == g.Abs() && Deps(g.nodes, deps) && SlotsInOrder(g.nodes, roots)
    requires forall s: nat :: s in roots <==> Live(g.nodes, s) && Root(v, IdAt(g.nodes, s))
    ensures forall s: nat :: Live(g.nodes, s) ==> (s in direct <==> FromRoot(v, deps, IdAt(g.nodes, s)))
  {
    g.Unfolded();
    g.AbsWellFormed();
    ghost var seenIds := RootsHold(g.indexByID, g.nodes, v, deps, roots);
    var seen := set s | s in roots;
    assert seen == Elems(roots);
    direct := RunWorklist(g, roots, seen, v, deps, g.indexByID, seenIds);
  }

  // ----- The whole derivation

  /** Counting roots decides whether the edges say anything. */
  lemma UsableByCount(g: Graph, roots: seq<nat>, v: View)
    requires g.Valid() && v == g.Abs() && SlotsInOrder(g.nodes, roots)
    requires forall s: nat :: s in roots <==> Live(g.nodes, s) && Root(v, IdAt(g.nodes, s))
    ensures |roots| > 0 && |roots| != g.size <==> Usable(v)
  {
    g.TableLengths();
    g.IndexTable();
    hide SlotTables.TableOk;
    hide Root;
    UsableMeans(v);
    var rootIds := set x | x in v.ids && Root(v, x);
    CountRoots(g.indexByID, g.nodes, v, roots, rootIds);
    if rootIds == v.ids {
      assert |roots| == g.size;
    } else {
      if |rootIds| == |v.ids| {
        SubsetSameSize(rootIds, v.ids);
      }
      var x :| x in v.ids && x !in rootIds;
    }
  }

  lemma UsableMeans(v: View)
    ensures Usable(v) <==> (exists r :: Root(v, r)) && exists x :: x in v.ids && !Root(v, x)
  {
  }

  lemma SubsetSameSize(a: set<string>, b: set<string>)
    requires a <= b && |a| == |b|
    ensures a == b
  {
    assert |b - a| == |b| - |a|;
  }

  lemma CountRoots(index: map<string, nat>, nodes: seq<Node?>, v: View, roots: seq<nat>, rootIds: set<string>)
    requires IndexOk(index, nodes) && v.ids == index.Keys && SlotsInOrder(nodes, roots)
    requires forall s: nat :: s in roots <==> Live(nodes, s) && Root(v, IdAt(nodes, s))
    requires rootIds == set x | x in v.ids && Root(v, x)
    ensures |roots| == |rootIds| && (|roots| > 0 <==> exists r :: Root(v, r))
  {
    hide Root;
    LessIsStrictTotal();
    var ids := IdsAt(nodes, roots);
    forall x | x in rootIds ensures x in ids {
      assert Live(nodes, index[x]) && IdAt(nodes, index[x]) == x;
      assert index[x] in roots;
      var i :| 0 <= i < |roots| && roots[i] == index[x];
      assert ids[i] == x;
    }
    forall x | x in ids ensures x in rootIds {
      var i :| 0 <= i < |ids| && ids[i] == x;
      assert roots[i] in roots;
    }
    assert Elems(ids) == rootIds;
    DistinctLength(ids);
    if |roots| > 0 {
      assert roots[0] in roots;
    }
    if r :| Root(v, r) {
      RootIsNode(v, r);
      assert r in rootIds;
      assert |rootIds| > 0;
    }
  }

  lemma RootIsNode(v: View, r: string)
    requires Root(v, r)
    ensures r in v.ids
  {
  }

  lemma GraphDeps(g: Graph)
    requires g.Valid()
    ensures Deps(g.nodes, g.IdsOfKind(DependencyKind))
  {
    forall s: nat | Live(g.nodes, s) ensures IdAt(g.nodes, s) in g.IdsOfKind(DependencyKind) <==> g.nodes[s].kind == DependencyKind {
      g.SlotOfId(s);
    }
  }

  /** What the graph says of one of its nodes. */
  ghost function Expected(g: Graph, id: string): Relationship
    reads g, g.nodes
    requires g.Valid() && id in g.NodeMap()
  {
    GraphDirectness(g.Abs(), g.IdsOfKind(DependencyKind), g.NodeMap()[id].relationship, id)
  }

  /** One relationship for every dependency of the slots below `i`. */
  ghost predicate Related(g: Graph, i: nat, rels: map<string, Relationship>)
    reads g, g.nodes
    requires g.Valid() && i <= |g.nodes|
  {
    && (forall id :: id in rels ==>
          id in g.indexByID && g.indexByID[id] < i && g.NodeMap()[id].kind == DependencyKind && rels[id] == Expected(g, id))
    && (forall s: nat :: s < i && Live(g.nodes, s) && g.nodes[s].kind == DependencyKind ==> IdAt(g.nodes, s) in rels)
  }

  lemma RelateSlot(g: Graph, s: nat, rels: map<string, Relationship>, r: Relationship)
    requires g.Valid() && s < |g.nodes| && Related(g, s, rels)
    requires Live(g.nodes, s) && g.nodes[s].kind == DependencyKind
    requires IdAt(g.nodes, s) in g.NodeMap() && r == Expected(g, IdAt(g.nodes, s))
    ensures Related(g, s + 1, rels[g.nodes[s].id := r])
  {
    hide SlotTables.TableOk;
    hide Expected;
    g.SlotOfId(s);
  }

  lemma SkipSlot(g: Graph, s: nat, rels: map<string, Relationship>)
    requires g.Valid() && s < |g.nodes| && Related(g, s, rels) && (Live(g.nodes, s) ==> g.nodes[s].kind != DependencyKind)
    ensures Related(g, s + 1, rels)
  {
    hide SlotTables.TableOk;
    hide Expected;
  }

  /** Every dependency's relationship as the graph's own edges imply it. */
  method DependencyRelationshipsForGraph(g: Graph) returns (rels: map<string, Relationship>)
    requires g.Valid()
    ensures rels.Keys == g.IdsOfKind(DependencyKind)
    ensures forall id :: id in rels ==>
              id in g.NodeMap() && rels[id] == GraphDirectness(g.Abs(), g.IdsOfKind(DependencyKind), g.NodeMap()[id].relationship, id)
  {
    hide *;
    ghost var v, deps := g.Abs(), g.IdsOfKind(DependencyKind);
    var roots := RootSlots(g);
    UsableByCount(g, roots, v);
    GraphDeps(g);
    var usable := |roots| > 0 && |roots| != g.size;
    var direct: set<nat> := {};
    if usable {
      direct := DirectSlots(g, roots, v, deps);
    }
    rels := map[];
    StartRelated(g);
    for s := 0 to |g.nodes|
      invariant Related(g, s, rels)
    {
      if g.nodes[s] != null && g.nodes[s].kind == DependencyKind {
        SlotRelationship(g, s, usable, direct, v, deps);
        var depth := if usable && |g.incoming[s]| > 0 then (if s in direct then 1 else 2) else 0;
        var r := RelationshipForDepth(g.nodes[s].relationship, depth);
        ExpectedAt(g, s, v, deps);
        RelateSlot(g, s, rels, r);
        rels := rels[g.nodes[s].id := r];
      } else {
        SkipDead(g, s, rels);
      }
    }
    AllRelated(g, rels);
    ExpectedIs(g);
  }

  lemma ExpectedIs(g: Graph)
    requires g.Valid()
    ensures forall id :: id in g.NodeMap() ==>
              Expected(g, id) == GraphDirectness(g.Abs(), g.IdsOfKind(DependencyKind), g.NodeMap()[id].relationship, id)
  {
    hide SlotTables.TableOk;
    hide GraphDirectness;
  }

  lemma ExpectedAt(g: Graph, s: nat, v: View, deps: set<string>)
    requires g.Valid() && Live(g.nodes, s) && v == g.Abs() && deps == g.IdsOfKind(DependencyKind)
    ensures IdAt(g.nodes, s) in g.NodeMap()
    ensures Expected(g, IdAt(g.nodes, s)) == GraphDirectness(v, deps, g.nodes[s].relationship, IdAt(g.nodes, s))
  {
    g.SlotOfId(s);
    hide SlotTables.TableOk;
    hide GraphDirectness;
  }

  lemma StartRelated(g: Graph)
    requires g.Valid()
    ensures Related(g, 0, map[])
  {
  }

  lemma SkipDead(g: Graph, s: nat, rels: map<string, Relationship>)
    requires g.Valid() && s < |g.nodes| && Related(g, s, rels) && (g.nodes[s] != null ==> g.nodes[s].kind != DependencyKind)
    ensures Related(g, s + 1, rels)
  {
    SkipSlot(g, s, rels);
  }

  lemma AllRelated(g: Graph, rels: map<string, Relationship>)
    requires g.Valid() && Related(g, |g.nodes|, rels)
    ensures rels.Keys == g.IdsOfKind(DependencyKind)
    ensures forall id :: id in rels ==> id in g.NodeMap() && rels[id] == Expected(g, id)
  {
    g.NodesFiled();
    NoneMissed(g, rels);
    hide Expected;
    hide SlotTables.TableOk;
  }

  lemma NoneMissed(g: Graph, rels: map<string, Relationship>)
    requires g.Valid() && Related(g, |g.nodes|, rels)
    ensures g.IdsOfKind(DependencyKind) <= rels.Keys
  {
    hide Expected;
    hide SlotTables.TableOk;
    forall id | id in g.IdsOfKind(DependencyKind) ensures id in rels {
      g.SlotOfIndex(id);
      g.SlotOfId(g.indexByID[id]);
    }
  }

  lemma SlotRelationship(g: Graph, s: nat, usable: bool, direct: set<nat>, v: View, deps: set<string>)
    requires g.Valid() && v == g.Abs() && s < |g.nodes| && g.nodes[s] != null && (usable <==> Usable(v))
    requires usable ==> forall t: nat :: Live(g.nodes, t) ==> (t in direct <==> FromRoot(v, deps, IdAt(g.nodes, t)))
    ensures Live(g.nodes, s) && s < |g.incoming|
    ensures RelationshipForDepth(g.nodes[s].relationship, if usable && |g.incoming[s]| > 0 then (if s in direct then 1 else 2) else 0)
            == GraphDirectness(v, deps, g.nodes[s].relationship, IdAt(g.nodes, s))
  {
    RootBySlot(g, s);
    hide SlotTables.TableOk;
    hide Usable;
    hide HasParent;
    hide FromRoot;
  }
}
