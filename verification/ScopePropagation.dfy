/** What scope propagation must compute, on values: joins over walks, and the least fixpoint. */
module ScopeWalks {
  import opened Scopes
  import opened Views

  /** A graph seen by the pass: its dependency nodes, where it starts, the seed of each direct
      dependency and the scopes each node carried before. */
  datatype Scene = Scene(v: View, deps: set<string>, root: string, seed: string -> Scope, lists: map<string, seq<Scope>>) {
    ghost function original(x: string): Scope
    {
      if x in lists then Strongest(lists[x]) else Unknown
    }
  }

  /** A walk from a direct dependency of the root, through dependency nodes that avoid the root. */
  ghost predicate Walk(sc: Scene, w: seq<string>)
  {
    && |w| > 0
    && Edge(sc.v, sc.root, w[0])
    && (forall i :: 0 <= i < |w| ==> w[i] in sc.deps && w[i] != sc.root)
    && (forall i :: 0 <= i < |w| - 1 ==> Edge(sc.v, w[i], w[i + 1]))
  }

  ghost predicate WalkTo(sc: Scene, x: string, w: seq<string>)
  {
    Walk(sc, w) && w[|w| - 1] == x
  }

  ghost predicate Reached(sc: Scene, x: string)
  {
    exists w :: WalkTo(sc, x, w)
  }

  /** An unknown seed reads as runtime. */
  function SeedScope(sc: Scene, x: string): Scope
  {
    if sc.seed(x) == Unknown then Runtime else sc.seed(x)
  }

  /** The join of the seed and of every scope already carried along the walk. */
  ghost function WalkScope(sc: Scene, w: seq<string>): Scope
    requires |w| > 0
  {
    var last := w[|w| - 1];
    MergeScope(if |w| == 1 then SeedScope(sc, last) else WalkScope(sc, w[..|w| - 1]), sc.original(last))
  }

  /** `s` is the least scope above every walk that ends in `x`. */
  ghost predicate IsJoin(sc: Scene, x: string, s: Scope)
  {
    && (forall w :: WalkTo(sc, x, w) ==> Rank(WalkScope(sc, w)) <= Rank(s))
    && Witnessed(sc, x, s)
  }

  type Marks = map<string, Scope>

  function MarkOf(marks: Marks, x: string): Scope
  {
    if x in marks then marks[x] else Unknown
  }

  /** The constraints the pass solves: direct dependencies start at their seed, and a marked node
      passes its mark to its dependency children. */
  ghost predicate Starts(sc: Scene, marks: Marks)
  {
    forall d :: d in sc.deps && d != sc.root && Edge(sc.v, sc.root, d) ==>
      d in marks && Rank(WalkScope(sc, [d])) <= Rank(marks[d])
  }

  ghost predicate Passes(sc: Scene, marks: Marks, y: string, x: string)
  {
    y in marks && x in sc.deps && x != sc.root && Edge(sc.v, y, x) ==>
      x in marks && Rank(MergeScope(marks[y], sc.original(x))) <= Rank(marks[x])
  }

  ghost predicate Closed(sc: Scene, marks: Marks)
  {
    Starts(sc, marks) && forall y, x {:trigger Passes(sc, marks, y, x)} :: Passes(sc, marks, y, x)
  }

  /** Every mark is the scope of some walk. */
  ghost predicate Attained(sc: Scene, marks: Marks)
  {
    forall x {:trigger Witnessed(sc, x, marks[x])} :: x in marks ==> Witnessed(sc, x, marks[x])
  }

  ghost predicate Witnessed(sc: Scene, x: string, s: Scope)
  {
    exists w :: WalkTo(sc, x, w) && WalkScope(sc, w) == s
  }

  /** Any solution of the constraints is above every walk: the joins are the least solution. */
  lemma {:induction false} ClosedDominates(sc: Scene, marks: Marks, w: seq<string>)
    requires Closed(sc, marks) && Walk(sc, w)
    ensures w[|w| - 1] in marks && Rank(WalkScope(sc, w)) <= Rank(marks[w[|w| - 1]])
    decreases |w|
  {
    if |w| == 1 {
      assert w == [w[0]];
    } else {
      var front, x := w[..|w| - 1], w[|w| - 1];
      ClosedDominates(sc, marks, front);
      var y := front[|front| - 1];
      assert Edge(sc.v, w[|w| - 2], w[|w| - 2 + 1]);
      assert Passes(sc, marks, y, x);
      MergeScopeIsJoin(WalkScope(sc, front), sc.original(x));
      MergeScopeIsJoin(marks[y], sc.original(x));
    }
  }

  lemma AboveEveryWalk(sc: Scene, marks: Marks, x: string)
    requires Closed(sc, marks)
    ensures forall w :: WalkTo(sc, x, w) ==> x in marks && Rank(WalkScope(sc, w)) <= Rank(marks[x])
  {
    forall w | WalkTo(sc, x, w) ensures x in marks && Rank(WalkScope(sc, w)) <= Rank(marks[x]) {
      ClosedDominates(sc, marks, w);
    }
  }

  /** Closed and attained marks are exactly the joins over walks, on exactly the reached nodes. */
  lemma MarkIsJoin(sc: Scene, marks: Marks, x: string)
    requires Closed(sc, marks) && Attained(sc, marks) && x in marks
    ensures Reached(sc, x) && IsJoin(sc, x, marks[x])
  {
    AboveEveryWalk(sc, marks, x);
    assert Witnessed(sc, x, marks[x]);
  }

  lemma ReachedIsMarked(sc: Scene, marks: Marks, x: string)
    requires Closed(sc, marks) && Reached(sc, x)
    ensures x in marks
  {
    var w :| WalkTo(sc, x, w);
    ClosedDominates(sc, marks, w);
  }

  lemma {:induction false} WalkScopeKnown(sc: Scene, w: seq<string>)
    requires |w| > 0
    ensures WalkScope(sc, w) != Unknown && Rank(sc.original(w[|w| - 1])) <= Rank(WalkScope(sc, w))
    decreases |w|
  {
    if |w| > 1 {
      WalkScopeKnown(sc, w[..|w| - 1]);
    }
  }

  // ----- Joins without the arithmetic

  /** The walk starts at a node seeded runtime or not at all, or passes a node that carries runtime. */
  ghost predicate Runs(sc: Scene, w: seq<string>)
    requires |w| > 0
  {
    || sc.seed(w[0]) == Unknown || sc.seed(w[0]) == Runtime
    || exists i :: 0 <= i < |w| && w[i] in sc.lists && Runtime in sc.lists[w[i]]
  }

  /** A walk carries runtime exactly when it starts or passes there, and development otherwise. */
  lemma {:induction false} WalkRuns(sc: Scene, w: seq<string>)
    requires |w| > 0
    ensures WalkScope(sc, w) == if Runs(sc, w) then Runtime else Development
    decreases |w|
  {
    if |w| == 1 {
      assert w == [w[0]];
    } else {
      var front := w[..|w| - 1];
      WalkRuns(sc, front);
      assert w == front + [w[|w| - 1]];
      if i :| 0 <= i < |w| && w[i] in sc.lists && Runtime in sc.lists[w[i]] && i < |front| {
        assert front[i] == w[i];
      }
    }
  }

  lemma JoinRuns(sc: Scene, x: string, s: Scope)
    requires IsJoin(sc, x, s)
    ensures s == if exists w :: WalkTo(sc, x, w) && Runs(sc, w) then Runtime else Development
  {
    var u :| WalkTo(sc, x, u) && WalkScope(sc, u) == s;
    WalkRuns(sc, u);
    if w :| WalkTo(sc, x, w) && Runs(sc, w) {
      WalkRuns(sc, w);
    }
  }

  /** The join is one value, so what the pass computes does not depend on its visiting order. */
  lemma JoinIsUnique(sc: Scene, x: string, s: Scope, t: Scope)
    requires IsJoin(sc, x, s) && IsJoin(sc, x, t)
    ensures s == t
  {
    var w :| WalkTo(sc, x, w) && WalkScope(sc, w) == s;
    var u :| WalkTo(sc, x, u) && WalkScope(sc, u) == t;
    assert Rank(s) == Rank(t);
  }

  /** A walk extends along an edge to a dependency other than the root. */
  lemma WalkExtends(sc: Scene, y: string, x: string, w: seq<string>)
    requires WalkTo(sc, y, w) && x in sc.deps && x != sc.root && Edge(sc.v, y, x)
    ensures WalkTo(sc, x, w + [x])
    ensures WalkScope(sc, w + [x]) == MergeScope(WalkScope(sc, w), sc.original(x))
  {
    assert (w + [x])[..|w|] == w;
  }

  /** What is still to gain: it shrinks whenever a mark rises, which is why the pass ends. */
  ghost function Headroom(sc: Scene, marks: Marks): set<(string, int)>
  {
    set x, r | x in sc.deps && r in {1, 2} && r > Rank(MarkOf(marks, x)) :: (x, r)
  }

  lemma HeadroomShrinks(sc: Scene, marks: Marks, x: string, s: Scope)
    requires x in sc.deps && Rank(s) > Rank(MarkOf(marks, x))
    ensures Headroom(sc, marks[x := s]) < Headroom(sc, marks)
  {
    var r := Rank(s);
    assert (x, r) in Headroom(sc, marks) && (x, r) !in Headroom(sc, marks[x := s]);
    forall p | p in Headroom(sc, marks[x := s]) ensures p in Headroom(sc, marks) {
    }
  }

  /** Raising one mark to the scope of an extended walk keeps every mark attained. */
  lemma RaiseKeepsAttained(sc: Scene, marks: Marks, y: string, x: string, s: Scope)
    requires Attained(sc, marks) && y in marks && x in sc.deps && x != sc.root && Edge(sc.v, y, x)
    requires s == MergeScope(marks[y], sc.original(x))
    ensures Attained(sc, marks[x := s])
  {
    assert Witnessed(sc, y, marks[y]);
    var w :| WalkTo(sc, y, w) && WalkScope(sc, w) == marks[y];
    WalkExtends(sc, y, x, w);
    assert Witnessed(sc, x, s);
    assert forall z :: z in marks ==> Witnessed(sc, z, marks[z]);
  }

  lemma StartAttained(sc: Scene, marks: Marks, d: string)
    requires Attained(sc, marks) && d in sc.deps && d != sc.root && Edge(sc.v, sc.root, d)
    ensures Attained(sc, marks[d := WalkScope(sc, [d])])
  {
    assert WalkTo(sc, d, [d]);
    assert Witnessed(sc, d, WalkScope(sc, [d]));
    assert forall z :: z in marks ==> Witnessed(sc, z, marks[z]);
  }
}

/** The pass itself: detectorkit/nodes.go. */
module ScopePropagation {
  import opened Orders
  import opened MergeClasses
  import opened Scopes
  import opened EdgeKinds
  import opened Nodes
  import opened Views
  import opened Graphs
  import opened ScopeWalks

  type NodeTable = map<string, Node>

  ghost function PrimaryIn(table: NodeTable, x: string): Scope
    reads table.Values
  {
    if x in table then Strongest(table[x].scopes) else Unknown
  }

  ghost function DependencyIds(table: NodeTable): set<string>
  {
    set x | x in table && table[x].kind == DependencyKind
  }

  /** The scene a call works on: the graph as it stands, with each node's primary scope. */
  ghost function SceneOf(v: View, table: NodeTable, root: string, seed: Option<string -> Scope>): Scene
    reads table.Values
  {
    var lists := ListsOf(table);
    var primary := (x: string) => if x in lists then Strongest(lists[x]) else Unknown;
    Scene(v, DependencyIds(table), root, if seed.Some? then seed.value else primary, lists)
  }

  /** What a node's primary scope must be when the pass ends. */
  ghost predicate Settled(sc: Scene, x: string, final: Scope)
  {
    if Reached(sc, x) then IsJoin(sc, x, final)
    else final == if sc.original(x) == Unknown then Runtime else sc.original(x)
  }

  /** What a scope list must hold when the pass ends, scope by scope: a reached node holds runtime when some walk to it
      starts at a node seeded runtime or unknown, or passes a node that carries runtime, and development otherwise; an
      unreached one keeps a list that says something and holds runtime when it said nothing. The nodes' own lists seed
      the pass when no seed is given. */
  ghost predicate Ends(sc: Scene, seed: Option<string -> Scope>, x: string, after: seq<Scope>)
    requires x in sc.lists
  {
    if Reached(sc, x) then
      && (Runtime in after <==> exists w :: WalkTo(sc, x, w) && StartsOrPassesRuntime(sc, seed, w))
      && (Runtime in after || Development in after)
    else if Runtime in sc.lists[x] || Development in sc.lists[x] then
      after == sc.lists[x]
    else
      Runtime in after
  }

  ghost predicate StartsOrPassesRuntime(sc: Scene, seed: Option<string -> Scope>, w: seq<string>)
    requires |w| > 0
  {
    || (seed.Some? && seed.value(w[0]) != Development)
    || (seed.None? && !(w[0] in sc.lists && Development in sc.lists[w[0]]))
    || exists i :: 0 <= i < |w| && w[i] in sc.lists && Runtime in sc.lists[w[i]]
  }

  lemma SettledEnds(sc: Scene, seed: Option<string -> Scope>, x: string, before: seq<Scope>, after: seq<Scope>)
    requires Seeded(sc, seed) && x in sc.lists && before == sc.lists[x] && Settled(sc, x, Strongest(after))
    requires !Reached(sc, x) && Strongest(before) != Unknown ==> after == before
    ensures Ends(sc, seed, x, after)
  {
    if Reached(sc, x) {
      JoinRuns(sc, x, Strongest(after));
      forall w | WalkTo(sc, x, w) ensures Runs(sc, w) <==> StartsOrPassesRuntime(sc, seed, w) {
      }
    }
  }

  /** A scope list keeps what it has. */
  ghost predicate Grows(before: seq<Scope>, after: seq<Scope>)
  {
    (Development in before ==> Development in after) && (Runtime in before ==> Runtime in after)
  }

  lemma AddScopeMerges(scopes: seq<Scope>, s: Scope)
    ensures Strongest(WithScope(scopes, s)) == MergeScope(Strongest(scopes), s)
    ensures Grows(scopes, WithScope(scopes, s))
  {
    assert forall t :: t != Unknown ==> (t in WithScope(scopes, s) <==> t in Known(WithScope(scopes, s)));
    assert forall t :: t != Unknown ==> (t in scopes <==> t in Known(scopes));
  }

  lemma MarkKeepsTracks(sc: Scene, marks: Marks, lists: Lists, x: string, s: Scope)
    requires Tracks(sc, marks, lists) && x in sc.deps && x != sc.root
    requires s != Unknown && Rank(MarkOf(marks, x)) <= Rank(s) && Rank(sc.original(x)) <= Rank(s)
    ensures Tracks(sc, marks[x := s], lists[x := WithScope(lists[x], s)])
  {
    RaisedMore(sc.lists[x], lists[x], MarkOf(marks, x), s);
    RaisedTracks(sc, marks, lists, x, s, WithScope(lists[x], s));
  }

  lemma RaisedTracks(sc: Scene, marks: Marks, lists: Lists, x: string, s: Scope, grown: seq<Scope>)
    requires Tracks(sc, marks, lists) && x in sc.deps && x != sc.root
    requires s != Unknown && Rank(sc.original(x)) <= Rank(s) && Raised(sc.lists[x], grown, s)
    ensures Tracks(sc, marks[x := s], lists[x := grown])
  {
    hide Raised, Rank;
  }

  lemma RaisedMore(before: seq<Scope>, list: seq<Scope>, mark: Scope, s: Scope)
    requires Raised(before, list, mark) || (list == before && mark == Unknown)
    requires Rank(mark) <= Rank(s) && Rank(Strongest(before)) <= Rank(s)
    ensures Raised(before, WithScope(list, s), s)
  {
    AddScopeMerges(list, s);
  }

  /** A raised mark breaks no constraint but those out of the raised node itself. */
  lemma RaiseKeepsPasses(sc: Scene, marks: Marks, x0: string, s: Scope, y: string, x: string)
    requires Passes(sc, marks, y, x) && y != x0 && Rank(MarkOf(marks, x0)) <= Rank(s)
    ensures Passes(sc, marks[x0 := s], y, x)
  {
  }

  /** The new mark of a child is what the extended walk carries, or no change at all. */
  lemma NextMark(mark: Scope, scope: Scope, original: Scope)
    requires scope != Unknown && (mark == Unknown || Rank(original) <= Rank(mark))
    ensures var next := MergeScope(MergeScope(mark, scope), MergeScope(original, mark));
            && (next == mark ==> mark != Unknown && Rank(MergeScope(scope, original)) <= Rank(mark))
            && (next != mark ==> next == MergeScope(scope, original) && Rank(next) > Rank(mark))
            && Rank(original) <= Rank(next) && next != Unknown
  {
  }

  type Lists = map<string, seq<Scope>>

  /** The scope list each node carries now. */
  ghost function ListsOf(table: NodeTable): Lists
    reads table.Values
  {
    map x | x in table :: table[x].scopes
  }

  ghost predicate Filing(table: NodeTable)
  {
    forall x :: x in table ==> table[x].id == x
  }

  /** The scope lists agree with the marks made so far; an unmarked node's list is untouched. */
  ghost predicate Tracks(sc: Scene, marks: Marks, lists: Lists)
  {
    && sc.lists.Keys == lists.Keys && sc.deps <= lists.Keys
    && (forall x :: x in marks ==> x in sc.deps && x != sc.root && marks[x] != Unknown && Rank(sc.original(x)) <= Rank(marks[x]))
    && (forall x :: x in lists ==> if x in marks then Raised(sc.lists[x], lists[x], marks[x]) else lists[x] == sc.lists[x])
  }

  ghost predicate Raised(before: seq<Scope>, after: seq<Scope>, mark: Scope)
  {
    Strongest(after) == MergeScope(Strongest(before), mark) && Grows(before, after)
  }

  /** Scope lists only grew, and a node that is not a dependency, or is the root, kept its own. */
  ghost predicate Kept(sc: Scene, lists: Lists)
  {
    && sc.lists.Keys == lists.Keys
    && (forall x :: x in lists ==> Grows(sc.lists[x], lists[x]))
    && (forall x :: x in lists && (x !in sc.deps || x == sc.root) ==> lists[x] == sc.lists[x])
  }

  ghost predicate Apart(sc: Scene, x: string)
  {
    x in sc.deps && x != sc.root && !Reached(sc, x)
  }

  /** A dependency that no walk reaches keeps a list that says something. */
  ghost predicate Unswayed(sc: Scene, lists: Lists)
  {
    forall x :: x in sc.lists && x in lists && Apart(sc, x) && Strongest(sc.lists[x]) != Unknown ==> lists[x] == sc.lists[x]
  }

  ghost predicate InQueue(queue: seq<Node>, x: string)
  {
    exists q :: q in queue && q.id == x
  }

  ghost predicate Filed(table: NodeTable, list: seq<Node>)
  {
    forall n :: n in list ==> n.id in table && table[n.id] == n
  }

  /** Every marked node outside the queue has passed its mark on. */
  ghost predicate Pending(sc: Scene, marks: Marks, queue: seq<Node>)
  {
    forall y, x {:trigger Passes(sc, marks, y, x)} :: y in marks && !InQueue(queue, y) ==> Passes(sc, marks, y, x)
  }

  /** What raising a child's mark keeps, and what it gains. */
  lemma Raise(sc: Scene, marks: Marks, y: string, x: string, next: Scope)
    requires Starts(sc, marks) && Attained(sc, marks) && y in marks && x in sc.deps && x != sc.root && x != y && Edge(sc.v, y, x)
    requires next == MergeScope(marks[y], sc.original(x)) && Rank(next) > Rank(MarkOf(marks, x))
    ensures Starts(sc, marks[x := next]) && Attained(sc, marks[x := next])
    ensures Headroom(sc, marks[x := next]) < Headroom(sc, marks)
    ensures Passes(sc, marks[x := next], y, x)
    ensures forall z {:trigger Passes(sc, marks[x := next], y, z)} :: Passes(sc, marks, y, z) ==> Passes(sc, marks[x := next], y, z)
  {
    RaiseKeepsAttained(sc, marks, y, x, next);
    HeadroomShrinks(sc, marks, x, next);
    forall z | Passes(sc, marks, y, z) ensures Passes(sc, marks[x := next], y, z) {
      RaiseKeepsPasses(sc, marks, x, next, y, z);
    }
  }

  lemma RaiseKeepsPending(sc: Scene, marks: Marks, queue: seq<Node>, current: string, child: Node, next: Scope)
    requires PendingExcept(sc, marks, queue, current)
    requires Rank(MarkOf(marks, child.id)) <= Rank(next)
    ensures PendingExcept(sc, marks[child.id := next], queue + [child], current)
  {
    forall y, x {:trigger Passes(sc, marks[child.id := next], y, x)}
      | y in marks[child.id := next] && y != current && !InQueue(queue + [child], y)
      ensures Passes(sc, marks[child.id := next], y, x)
    {
      assert child in queue + [child];
      assert y != child.id;
      assert forall q :: q in queue ==> q in queue + [child];
      RaiseKeepsPasses(sc, marks, child.id, next, y, x);
    }
  }

  method DependencyNodesOf(list: seq<Node>) returns (out: seq<Node>)
    requires forall i, j :: 0 <= i < j < |list| ==> list[i].id != list[j].id
    ensures forall n :: n in out <==> n in list && n.kind == DependencyKind
    ensures forall i, j :: 0 <= i < j < |out| ==> out[i].id != out[j].id
  {
    out := [];
    for i := 0 to |list|
      invariant forall n :: n in out <==> n in list[..i] && n.kind == DependencyKind
      invariant forall i, j :: 0 <= i < j < |out| ==> out[i].id != out[j].id
    {
      assert list[..i + 1] == list[..i] + [list[i]];
      assert forall k :: 0 <= k < |out| ==> out[k] in list[..i];
      if list[i].kind == DependencyKind {
        out := out + [list[i]];
      }
    }
    assert list[..|list|] == list;
  }

  /** Raises one mark: the node takes the scope, every other node is untouched. */
  method Mark(node: Node, s: Scope, ghost table: NodeTable, ghost sc: Scene, ghost marks: Marks)
    requires Filing(table) && Tracks(sc, marks, ListsOf(table))
    requires node.id in sc.deps && node.id != sc.root && node.id in table && table[node.id] == node
    requires s != Unknown && Rank(MarkOf(marks, node.id)) <= Rank(s) && Rank(sc.original(node.id)) <= Rank(s)
    modifies node`scopes
    ensures Tracks(sc, marks[node.id := s], ListsOf(table))
  {
    ghost var lists := ListsOf(table);
    MarkKeepsTracks(sc, marks, lists, node.id, s);
    node.AddScope(s);
    assert ListsOf(table) == lists[node.id := WithScope(lists[node.id], s)];
  }

  /** Marks one direct dependency with its seed joined to what it already carries. */
  method SeedOne(dep: Node, seed: Option<string -> Scope>, marks0: Marks, ghost table: NodeTable, ghost sc: Scene)
    returns (marks: Marks)
    requires Filing(table) && Tracks(sc, marks0, ListsOf(table)) && Attained(sc, marks0) && Seeded(sc, seed)
    requires dep.id in sc.deps && dep.id != sc.root && Edge(sc.v, sc.root, dep.id) && table[dep.id] == dep && dep.id !in marks0
    modifies dep`scopes
    ensures Tracks(sc, marks, ListsOf(table)) && Attained(sc, marks)
    ensures marks == marks0[dep.id := WalkScope(sc, [dep.id])]
  {
    var own := PrimaryScope(dep.scopes);
    var scope := if seed.Some? then seed.value(dep.id) else own;
    if scope == Unknown {
      scope := Runtime;
    }
    scope := MergeScope(scope, own);
    assert [dep.id][|[dep.id]| - 1] == dep.id && scope == WalkScope(sc, [dep.id]);
    WalkScopeKnown(sc, [dep.id]);
    StartAttained(sc, marks0, dep.id);
    var next := MergeScope(MarkOf(marks0, dep.id), scope);
    Mark(dep, next, table, sc, marks0);
    marks := marks0[dep.id := next];
  }

  ghost predicate Seeded(sc: Scene, seed: Option<string -> Scope>)
  {
    && (seed.Some? ==> sc.seed == seed.value)
    && (seed.None? ==> forall x :: sc.seed(x) == sc.original(x))
  }

  /** Marks and queues every direct dependency. */
  method SeedDirect(direct: seq<Node>, seed: Option<string -> Scope>, ghost table: NodeTable, ghost sc: Scene)
    returns (marks: Marks, queue: seq<Node>)
    requires Filing(table) && Tracks(sc, map[], ListsOf(table)) && Seeded(sc, seed)
    requires forall n :: n in direct ==> n.id in sc.deps && table[n.id] == n && n.id != sc.root && Edge(sc.v, sc.root, n.id)
    requires forall i, j :: 0 <= i < j < |direct| ==> direct[i].id != direct[j].id
    modifies direct`scopes
    ensures Tracks(sc, marks, ListsOf(table)) && Attained(sc, marks)
    ensures queue == direct && SameIds(queue, marks) && forall x :: x in marks ==> marks[x] == WalkScope(sc, [x])
  {
    marks := map[];
    queue := [];
    for i := 0 to |direct|
      invariant queue == direct[..i] && SameIds(queue, marks)
      invariant forall x :: x in marks ==> marks[x] == WalkScope(sc, [x])
      invariant Tracks(sc, marks, ListsOf(table)) && Attained(sc, marks)
    {
      NotYetQueued(direct, i, marks);
      QueueSnoc(queue, marks, direct[i], WalkScope(sc, [direct[i].id]));
      marks := SeedOne(direct[i], seed, marks, table, sc);
      queue := queue + [direct[i]];
      TakeSnoc(direct, i);
    }
    TakeAll(direct);
  }

  /** The marked nodes are exactly the queued ones. */
  ghost predicate SameIds(queue: seq<Node>, marks: Marks)
  {
    (forall q :: q in queue ==> q.id in marks) && forall x :: x in marks ==> InQueue(queue, x)
  }

  lemma QueueSnoc(queue: seq<Node>, marks: Marks, dep: Node, s: Scope)
    requires SameIds(queue, marks)
    ensures SameIds(queue + [dep], marks[dep.id := s])
  {
    assert forall q :: q in queue + [dep] <==> q in queue || q == dep;
  }

  lemma NotYetQueued(direct: seq<Node>, i: nat, marks: Marks)
    requires i < |direct| && SameIds(direct[..i], marks)
    requires forall a, b :: 0 <= a < b < |direct| ==> direct[a].id != direct[b].id
    ensures direct[i].id !in marks
  {
    forall q | q in direct[..i] ensures q.id != direct[i].id {
      var k :| 0 <= k < i && direct[k] == q;
    }
    assert !InQueue(direct[..i], direct[i].id);
  }

  /** The state of the pass while `current` passes its mark on: everyone else outside the queue has. */
  ghost predicate Passing(table: NodeTable, sc: Scene, marks: Marks, queue: seq<Node>, current: string)
    reads table.Values
  {
    && Filing(table) && sc.deps == DependencyIds(table) && Tracks(sc, marks, ListsOf(table)) && Starts(sc, marks) && Attained(sc, marks) && Filed(table, queue)
    && current in marks && (forall q :: q in queue ==> q.id in marks)
    && PendingExcept(sc, marks, queue, current)
  }

  ghost predicate PendingExcept(sc: Scene, marks: Marks, queue: seq<Node>, current: string)
  {
    forall y, x {:trigger Passes(sc, marks, y, x)} :: y in marks && y != current && !InQueue(queue, y) ==> Passes(sc, marks, y, x)
  }

  ghost predicate PassedTo(sc: Scene, marks: Marks, current: string, children: seq<Node>, count: nat)
    requires count <= |children|
  {
    forall k :: 0 <= k < count ==> Passes(sc, marks, current, children[k].id)
  }

  lemma PassedStep(sc: Scene, marks0: Marks, marks: Marks, current: string, children: seq<Node>, i: nat)
    requires i < |children| && PassedTo(sc, marks0, current, children, i) && Passes(sc, marks, current, children[i].id)
    requires forall z {:trigger Passes(sc, marks, current, z)} :: Passes(sc, marks0, current, z) ==> Passes(sc, marks, current, z)
    ensures PassedTo(sc, marks, current, children, i + 1)
  {
  }

  lemma PassedAll(sc: Scene, marks: Marks, queue: seq<Node>, current: string, children: seq<Node>)
    requires PendingExcept(sc, marks, queue, current) && PassedTo(sc, marks, current, children, |children|)
    requires forall x :: x in sc.deps && Edge(sc.v, current, x) ==> InQueue(children, x)
    ensures Pending(sc, marks, queue)
  {
    forall x ensures Passes(sc, marks, current, x) {
      if x in sc.deps && Edge(sc.v, current, x) {
        assert InQueue(children, x);
        var k :| 0 <= k < |children| && children[k].id == x;
      }
    }
  }

  /** Either nothing moved, or some mark rose. */
  ghost predicate Progress(sc: Scene, marks0: Marks, queue0: seq<Node>, marks: Marks, queue: seq<Node>)
  {
    Headroom(sc, marks) < Headroom(sc, marks0) || (marks == marks0 && queue == queue0)
  }

  /** One child of `current`: its mark rises to what the longer walk carries, or nothing changes. */
  method VisitChild(current: string, scope: Scope, child: Node, marks0: Marks, queue0: seq<Node>, rootID: string,
                    ghost table: NodeTable, ghost sc: Scene)
    returns (marks: Marks, queue: seq<Node>)
    requires rootID == sc.root && Passing(table, sc, marks0, queue0, current) && scope == marks0[current]
    requires child.id in sc.deps && table[child.id] == child && Edge(sc.v, current, child.id) && child.id != current
    modifies child`scopes
    ensures Passing(table, sc, marks, queue, current) && marks[current] == scope
    ensures Passes(sc, marks, current, child.id)
    ensures forall z {:trigger Passes(sc, marks, current, z)} :: Passes(sc, marks0, current, z) ==> Passes(sc, marks, current, z)
    ensures marks0.Keys <= marks.Keys && Progress(sc, marks0, queue0, marks, queue)
  {
    marks, queue := marks0, queue0;
    if child.id == rootID {
      return;
    }
    var own := PrimaryScope(child.scopes);
    var next := MergeScope(MergeScope(MarkOf(marks, child.id), scope), own);
    NextMark(MarkOf(marks, child.id), scope, sc.original(child.id));
    if next == MarkOf(marks, child.id) {
      return;
    }
    Raise(sc, marks, current, child.id, next);
    RaiseKeepsPending(sc, marks, queue, current, child, next);
    Mark(child, next, table, sc, marks);
    marks := marks[child.id := next];
    queue := queue + [child];
  }

  /** Passes one queued node's mark to its dependency children; a child whose mark rises is queued. */
  method PassOn(current: string, children: seq<Node>, marks0: Marks, queue0: seq<Node>, rootID: string,
                ghost table: NodeTable, ghost sc: Scene)
    returns (marks: Marks, queue: seq<Node>)
    requires rootID == sc.root && Passing(table, sc, marks0, queue0, current)
    requires forall n :: n in children ==> n.id in sc.deps && table[n.id] == n && Edge(sc.v, current, n.id) && n.id != current
    requires forall x :: x in sc.deps && Edge(sc.v, current, x) ==> InQueue(children, x)
    modifies children`scopes
    ensures Passing(table, sc, marks, queue, current) && Pending(sc, marks, queue)
    ensures marks0.Keys <= marks.Keys && Progress(sc, marks0, queue0, marks, queue)
  {
    marks, queue := marks0, queue0;
    var scope := marks[current];
    for i := 0 to |children|
      invariant Passing(table, sc, marks, queue, current) && marks[current] == scope
      invariant marks0.Keys <= marks.Keys && Progress(sc, marks0, queue0, marks, queue)
      invariant PassedTo(sc, marks, current, children, i)
    {
      ghost var before := marks;
      marks, queue := VisitChild(current, scope, children[i], marks, queue, rootID, table, sc);
      PassedStep(sc, before, marks, current, children, i);
    }
    PassedAll(sc, marks, queue, current, children);
  }

  /** The dependency children of a node of the graph. */
  method DependencyChildren(g: Graph, id: string, ghost table: NodeTable, ghost sc: Scene) returns (children: seq<Node>)
    requires g.Valid() && g.NodeMap() == table && id in g.indexByID && sc.v == g.Abs() && sc.deps == DependencyIds(table)
    ensures forall n :: n in children ==>
              n.id in sc.deps && n in table.Values && table[n.id] == n && Edge(sc.v, id, n.id) && n.id != id
    ensures forall x :: x in sc.deps && Edge(sc.v, id, x) ==> InQueue(children, x)
    ensures forall i, j :: 0 <= i < j < |children| ==> children[i].id != children[j].id
  {
    hide SlotTables.TableOk;
    NoSelfEdge(g);
    g.NodesFiled();
    var r := g.DirectDependencies(id);
    DistinctIds(r.value);
    children := DependencyNodesOf(r.value);
    forall n | n in children ensures n in table.Values && n.id in g.Children(id) {
      var i :| 0 <= i < |r.value| && r.value[i] == n;
      assert table[n.id] == n;
    }
    forall x | x in sc.deps && Edge(sc.v, id, x) ensures InQueue(children, x) {
      assert x in g.Children(id);
      var i :| 0 <= i < |r.value| && r.value[i].id == x;
      assert r.value[i] in r.value;
    }
  }

  lemma DistinctIds(list: seq<Node>)
    requires forall i, j :: 0 <= i < j < |list| ==> Less(list[i].id, list[j].id)
    ensures forall i, j :: 0 <= i < j < |list| ==> list[i].id != list[j].id
  {
    forall i, j | 0 <= i < j < |list| ensures list[i].id != list[j].id {
      LessIrreflexive(list[i].id);
    }
  }

  /** The state of the pass between two visits. */
  ghost predicate Working(table: NodeTable, sc: Scene, marks: Marks, queue: seq<Node>)
    reads table.Values
  {
    && Filing(table) && sc.deps == DependencyIds(table) && Tracks(sc, marks, ListsOf(table)) && Starts(sc, marks) && Attained(sc, marks) && Filed(table, queue)
    && (forall q :: q in queue ==> q.id in marks) && Pending(sc, marks, queue)
  }

  /** One visit: the front of the queue passes its mark on. */
  method Visit(g: Graph, marks0: Marks, queue0: seq<Node>, rootID: string, ghost table: NodeTable, ghost sc: Scene)
    returns (marks: Marks, queue: seq<Node>)
    requires g.Valid() && g.NodeMap() == table && sc.v == g.Abs() && rootID == sc.root
    requires queue0 != [] && Working(table, sc, marks0, queue0)
    modifies table.Values`scopes
    ensures Working(table, sc, marks, queue)
    ensures marks0.Keys <= marks.Keys
    ensures Headroom(sc, marks) < Headroom(sc, marks0) || (marks == marks0 && queue == queue0[1..])
  {
    hide SlotTables.TableOk;
    var current := queue0[0];
    PopKeepsPending(sc, marks0, queue0);
    var children := DependencyChildren(g, current.id, table, sc);
    marks, queue := PassOn(current.id, children, marks0, queue0[1..], rootID, table, sc);
  }

  /** Works the queue off: a node is visited again only after its mark rose, so cycles end. */
  method Spread(g: Graph, marks0: Marks, queue0: seq<Node>, rootID: string, ghost table: NodeTable, ghost sc: Scene)
    returns (marks: Marks)
    requires g.Valid() && g.NodeMap() == table && sc.v == g.Abs() && rootID == sc.root
    requires Working(table, sc, marks0, queue0)
    modifies table.Values`scopes
    ensures Tracks(sc, marks, ListsOf(table)) && Closed(sc, marks) && Attained(sc, marks)
    ensures marks0.Keys <= marks.Keys
  {
    marks := marks0;
    var queue := queue0;
    while |queue| > 0
      invariant Working(table, sc, marks, queue)
      invariant marks0.Keys <= marks.Keys
      decreases Headroom(sc, marks), |queue|
    {
      marks, queue := Visit(g, marks, queue, rootID, table, sc);
    }
    EmptyQueueCloses(sc, marks, queue);
  }

  lemma PopKeepsPending(sc: Scene, marks: Marks, queue: seq<Node>)
    requires queue != [] && Pending(sc, marks, queue)
    ensures PendingExcept(sc, marks, queue[1..], queue[0].id)
  {
    forall y | y != queue[0].id && InQueue(queue, y) ensures InQueue(queue[1..], y) {
      var q :| q in queue && q.id == y;
      assert q in queue[1..];
    }
  }

  lemma EmptyQueueCloses(sc: Scene, marks: Marks, queue: seq<Node>)
    requires queue == [] && Pending(sc, marks, queue) && Starts(sc, marks)
    ensures Closed(sc, marks)
  {
    forall y, x ensures Passes(sc, marks, y, x) {
      assert !InQueue(queue, y);
    }
  }

  /** Right after seeding, every marked node is queued. */
  lemma SeedsPending(sc: Scene, marks: Marks, queue: seq<Node>)
    requires SameIds(queue, marks) && forall x :: x in marks ==> marks[x] == WalkScope(sc, [x])
    requires forall d :: d in sc.deps && Edge(sc.v, sc.root, d) ==> InQueue(queue, d)
    ensures Pending(sc, marks, queue) && Starts(sc, marks)
  {
  }

  lemma NoSelfEdge(g: Graph)
    requires g.Valid()
    ensures forall a :: (a, a) !in g.Edges()
  {
    g.AbsWellFormed();
  }

  /** Dependency nodes still unscoped at the end default to runtime, the root apart. */
  method ApplyDefault(list: seq<Node>, rootID: string)
    requires forall i, j :: 0 <= i < j < |list| ==> list[i] != list[j]
    modifies list`scopes
    ensures forall k :: 0 <= k < |list| ==> Defaulted(old(list[k].scopes), list[k].scopes, list[k].id == rootID)
  {
    for i := 0 to |list|
      invariant forall k :: 0 <= k < i ==> Defaulted(old(list[k].scopes), list[k].scopes, list[k].id == rootID)
      invariant forall k :: i <= k < |list| ==> list[k].scopes == old(list[k].scopes)
    {
      DefaultOne(list[i], rootID);
    }
  }

  method DefaultOne(pkg: Node, rootID: string)
    modifies pkg`scopes
    ensures Defaulted(old(pkg.scopes), pkg.scopes, pkg.id == rootID)
  {
    var primary := PrimaryScope(pkg.scopes);
    if pkg.id != rootID && primary == Unknown {
      AddScopeMerges(pkg.scopes, Runtime);
      pkg.AddScope(Runtime);
    }
  }

  ghost predicate Defaulted(before: seq<Scope>, after: seq<Scope>, root: bool)
  {
    && Grows(before, after)
    && if root || Strongest(before) != Unknown then after == before else Strongest(after) == Runtime
  }

  /** Propagation computes, on every graph, the join over walks from the root's direct dependencies:
      cycles, shared nodes and visiting order do not matter. An absent root changes nothing. */
  method PropagateScopes(g: Graph, rootID: string, seed: Option<string -> Scope>)
    requires g.Valid()
    modifies g.NodeMap().Values`scopes
    ensures rootID !in g.indexByID ==> unchanged(g.NodeMap().Values)
    ensures rootID in g.indexByID ==> forall x :: x in DependencyIds(g.NodeMap()) && x != rootID ==>
              Settled(old(SceneOf(g.Abs(), g.NodeMap(), rootID, seed)), x, PrimaryIn(g.NodeMap(), x))
    ensures rootID in g.indexByID ==> forall x :: x in DependencyIds(g.NodeMap()) && x != rootID ==>
              Ends(old(SceneOf(g.Abs(), g.NodeMap(), rootID, seed)), seed, x, g.NodeMap()[x].scopes)
    ensures Kept(old(SceneOf(g.Abs(), g.NodeMap(), rootID, seed)), ListsOf(g.NodeMap()))
  {
    hide SlotTables.TableOk;
    if rootID !in g.indexByID {
      return;
    }
    g.NodesFiled();
    ghost var table, sc := g.NodeMap(), SceneOf(g.Abs(), g.NodeMap(), rootID, seed);
    Run(g, rootID, seed, table, sc);
    AllEnd(sc, seed, rootID, table);
  }

  lemma AllEnd(sc: Scene, seed: Option<string -> Scope>, rootID: string, table: NodeTable)
    requires Seeded(sc, seed) && sc.deps == DependencyIds(table) && sc.root == rootID
    requires sc.lists.Keys == table.Keys && Unswayed(sc, ListsOf(table))
    requires forall x :: x in sc.deps && x != rootID ==> Settled(sc, x, PrimaryIn(table, x))
    ensures forall x :: x in sc.deps && x != rootID ==> Ends(sc, seed, x, table[x].scopes)
  {
    forall x | x in sc.deps && x != rootID ensures Ends(sc, seed, x, table[x].scopes) {
      assert ListsOf(table)[x] == table[x].scopes;
      hide Settled;
      SettledEnds(sc, seed, x, sc.lists[x], table[x].scopes);
    }
  }

  lemma SceneTracks(v: View, table: NodeTable, root: string, seed: Option<string -> Scope>)
    ensures Tracks(SceneOf(v, table, root, seed), map[], ListsOf(table)) && Seeded(SceneOf(v, table, root, seed), seed)
  {
  }

  method Run(g: Graph, rootID: string, seed: Option<string -> Scope>, ghost table: NodeTable, ghost sc: Scene)
    requires g.Valid() && g.NodeMap() == table && rootID in g.indexByID
    requires Filing(table) && sc == SceneOf(g.Abs(), table, rootID, seed)
    modifies table.Values`scopes
    ensures forall x :: x in sc.deps && x != rootID ==> Settled(sc, x, PrimaryIn(table, x))
    ensures Kept(sc, ListsOf(table)) && Unswayed(sc, ListsOf(table))
  {
    hide SlotTables.TableOk;
    SceneTracks(g.Abs(), table, rootID, seed);
    var direct := DependencyChildren(g, rootID, table, sc);
    var marks, queue := SeedDirect(direct, seed, table, sc);
    SeedsPending(sc, marks, queue);
    marks := Spread(g, marks, queue, rootID, table, sc);
    Finish(g, rootID, table, sc, marks);
  }

  /** The closing default, and what it leaves behind. */
  method Finish(g: Graph, rootID: string, ghost table: NodeTable, ghost sc: Scene, ghost marks: Marks)
    requires g.Valid() && g.NodeMap() == table && rootID == sc.root
    requires sc.deps == DependencyIds(table) && Tracks(sc, marks, ListsOf(table)) && Closed(sc, marks) && Attained(sc, marks)
    modifies table.Values`scopes
    ensures forall x :: x in sc.deps && x != rootID ==> Settled(sc, x, PrimaryIn(table, x))
    ensures Kept(sc, ListsOf(table)) && Unswayed(sc, ListsOf(table))
  {
    hide SlotTables.TableOk;
    ghost var lists := ListsOf(table);
    var deps := g.DependencyNodes();
    DistinctIds(deps);
    forall n | n in deps ensures n in table.Values && n.id in sc.deps {
      assert table[n.id] == n;
    }
    ApplyDefault(deps, rootID);
    forall x | x in table ensures if x in sc.deps then Defaulted(lists[x], ListsOf(table)[x], x == rootID) else ListsOf(table)[x] == lists[x] {
      if x in sc.deps {
        assert x in g.IdsOfKind(DependencyKind);
        var k :| 0 <= k < |deps| && deps[k].id == x;
      }
    }
    DefaultSettles(sc, marks, lists, ListsOf(table));
  }

  lemma ApartKeep(sc: Scene, marks: Marks, lists: Lists, after: Lists)
    requires Tracks(sc, marks, lists) && Closed(sc, marks) && Attained(sc, marks) && after.Keys == lists.Keys
    requires forall x :: x in lists ==> if x in sc.deps then Defaulted(lists[x], after[x], x == sc.root) else after[x] == lists[x]
    ensures Unswayed(sc, after)
  {
    hide Closed, Attained, Reached, Grows;
    forall x | x in sc.lists && x in after && Apart(sc, x) && Strongest(sc.lists[x]) != Unknown ensures after[x] == sc.lists[x] {
      if x in marks {
        MarkIsJoin(sc, marks, x);
      }
    }
  }

  lemma DefaultSettles(sc: Scene, marks: Marks, lists: Lists, after: Lists)
    requires Tracks(sc, marks, lists) && Closed(sc, marks) && Attained(sc, marks) && after.Keys == lists.Keys
    requires forall x :: x in lists ==> if x in sc.deps then Defaulted(lists[x], after[x], x == sc.root) else after[x] == lists[x]
    ensures sc.deps <= after.Keys && forall x :: x in sc.deps && x != sc.root ==> Settled(sc, x, Strongest(after[x]))
    ensures Kept(sc, after) && Unswayed(sc, after)
  {
    ApartKeep(sc, marks, lists, after);
    AllKept(sc, marks, lists, after);
    TracksDeps(sc, marks, lists);
    hide *;
    forall x | x in sc.deps && x != sc.root ensures Settled(sc, x, Strongest(after[x])) {
      TracksAt(sc, marks, lists, x);
      MarkedSettles(sc, marks, x, lists[x], after[x]);
    }
  }

  lemma TracksDeps(sc: Scene, marks: Marks, lists: Lists)
    requires Tracks(sc, marks, lists)
    ensures sc.deps <= lists.Keys
  {
  }

  lemma AllKept(sc: Scene, marks: Marks, lists: Lists, after: Lists)
    requires Tracks(sc, marks, lists) && after.Keys == lists.Keys
    requires forall x :: x in lists ==> if x in sc.deps then Defaulted(lists[x], after[x], x == sc.root) else after[x] == lists[x]
    ensures Kept(sc, after)
  {
    hide Strongest;
    hide MergeScope;
    forall x | x in lists ensures Grows(sc.lists[x], after[x]) {
      assert x in marks ==> Raised(sc.lists[x], lists[x], marks[x]);
    }
  }

  lemma TracksAt(sc: Scene, marks: Marks, lists: Lists, x: string)
    requires Tracks(sc, marks, lists) && x in sc.deps && x != sc.root
    ensures x in lists && Strongest(lists[x]) == MergeScope(sc.original(x), MarkOf(marks, x))
    ensures x in marks ==> marks[x] != Unknown && Rank(sc.original(x)) <= Rank(marks[x])
  {
  }

  lemma MarkedSettles(sc: Scene, marks: Marks, x: string, before: seq<Scope>, after: seq<Scope>)
    requires Closed(sc, marks) && Attained(sc, marks)
    requires x in marks ==> marks[x] != Unknown && Rank(sc.original(x)) <= Rank(marks[x])
    requires Strongest(before) == MergeScope(sc.original(x), MarkOf(marks, x)) && Defaulted(before, after, false)
    ensures Settled(sc, x, Strongest(after))
  {
    if x in marks {
      MarkIsJoin(sc, marks, x);
    } else if Reached(sc, x) {
      ReachedIsMarked(sc, marks, x);
    }
  }
}
