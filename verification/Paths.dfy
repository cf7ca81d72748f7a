/** Which paths a search for a target must list, and how they split by the next node taken. */
module PathTheory {
  import opened Orders
  import opened Views
  import opened Reachability

  /** A listed path by its IDs; a cyclic one repeats the target at its end. */
  datatype Hit = Hit(ids: seq<string>, cyclic: bool, cycleTo: string)

  ghost function Spine(h: Hit): seq<string>
  {
    if h.cyclic && |h.ids| > 0 then h.ids[..|h.ids| - 1] else h.ids
  }

  /** A simple path that ends at the target, or a simple path through the target whose last node
      has an edge back to it. */
  ghost predicate IsHit(v: View, t: string, h: Hit)
  {
    var p := Spine(h);
    && IsPath(v, p) && Distinct(p)
    && if h.cyclic then h.ids == p + [t] && t in p && Edge(v, p[|p| - 1], t) && h.cycleTo == t
       else p[|p| - 1] == t && h.cycleTo == ""
  }

  ghost predicate Under(prefix: seq<string>, h: Hit)
  {
    prefix <= Spine(h)
  }

  ghost function HitsUnder(v: View, t: string, prefix: seq<string>): iset<Hit>
  {
    iset h | IsHit(v, t, h) && Under(prefix, h)
  }

  /** Every node on a listed path reaches the target, so pruning the rest loses nothing. */
  lemma SpineReaches(v: View, t: string, h: Hit, i: nat)
    requires IsHit(v, t, h) && i < |Spine(h)| && t in v.ids
    ensures Reaches(v, Spine(h)[i], t)
  {
    var p := Spine(h);
    PathReaches(v, p, i, |p| - 1);
    if h.cyclic {
      ReachesThenEdge(v, p[i], p[|p| - 1], t);
    }
  }

  /** What child `c` of the last node of `prefix` contributes. */
  ghost predicate Via(prefix: seq<string>, c: string, t: string, h: Hit)
  {
    if c in prefix then c == t && h.cyclic && Spine(h) == prefix
    else Under(prefix + [c], h)
  }

  ghost predicate Ended(prefix: seq<string>, h: Hit)
  {
    !h.cyclic && Spine(h) == prefix
  }

  ghost function ViaSet(v: View, t: string, prefix: seq<string>, c: string): iset<Hit>
  {
    iset h | IsHit(v, t, h) && Via(prefix, c, t, h)
  }

  ghost function Visited(v: View, t: string, prefix: seq<string>, kids: seq<string>, count: nat): iset<Hit>
    requires count <= |kids|
  {
    iset h | IsHit(v, t, h) && (Ended(prefix, h) || exists k :: 0 <= k < count && Via(prefix, kids[k], t, h))
  }

  lemma VisitedStep(v: View, t: string, prefix: seq<string>, kids: seq<string>, i: nat)
    requires i < |kids| && Distinct(kids)
    ensures Visited(v, t, prefix, kids, i + 1) == Visited(v, t, prefix, kids, i) + ViaSet(v, t, prefix, kids[i])
    ensures Visited(v, t, prefix, kids, i) !! ViaSet(v, t, prefix, kids[i])
  {
    forall h | h in Visited(v, t, prefix, kids, i) ensures h !in ViaSet(v, t, prefix, kids[i]) {
      if !Ended(prefix, h) {
        var k :| 0 <= k < i && Via(prefix, kids[k], t, h);
        ViaDisjoint(prefix, kids[k], kids[i], t, h);
      }
    }
  }

  lemma ViaDisjoint(prefix: seq<string>, c: string, d: string, t: string, h: Hit)
    requires c != d && Via(prefix, c, t, h)
    ensures !Via(prefix, d, t, h)
  {
    NextAfter(prefix, c, Spine(h));
    NextAfter(prefix, d, Spine(h));
  }

  lemma NextAfter(prefix: seq<string>, c: string, p: seq<string>)
    ensures prefix + [c] <= p ==> |prefix| < |p| && p[|prefix|] == c && p != prefix
  {
    if prefix + [c] <= p {
      assert (prefix + [c])[|prefix|] == c;
    }
  }

  lemma ViaPruned(v: View, t: string, prefix: seq<string>, c: string)
    requires t in v.ids && !Reaches(v, c, t)
    ensures ViaSet(v, t, prefix, c) == iset{}
  {
    ReachesItself(v, t);
    forall h | Via(prefix, c, t, h) ensures !IsHit(v, t, h) {
      if c !in prefix {
        assert Spine(h)[|prefix|] == (prefix + [c])[|prefix|] == c;
        if IsHit(v, t, h) {
          SpineReaches(v, t, h, |prefix|);
        }
      }
    }
  }

  /** Splitting by the next node covers every listed path under a prefix. */
  lemma VisitedAll(v: View, t: string, prefix: seq<string>, kids: seq<string>)
    requires |prefix| > 0 && forall c :: c in kids <==> Edge(v, prefix[|prefix| - 1], c)
    ensures Visited(v, t, prefix, kids, |kids|) == HitsUnder(v, t, prefix)
  {
    forall h ensures h in Visited(v, t, prefix, kids, |kids|) <==> h in HitsUnder(v, t, prefix) {
      if IsHit(v, t, h) && Under(prefix, h) {
        UnderSplits(v, t, prefix, kids, h);
      }
    }
  }

  lemma UnderSplits(v: View, t: string, prefix: seq<string>, kids: seq<string>, h: Hit)
    requires |prefix| > 0 && forall c :: c in kids <==> Edge(v, prefix[|prefix| - 1], c)
    requires IsHit(v, t, h) && Under(prefix, h)
    ensures Ended(prefix, h) || exists k :: 0 <= k < |kids| && Via(prefix, kids[k], t, h)
  {
    var p, n := Spine(h), |prefix|;
    if |p| == n {
      assert p == prefix;
      if h.cyclic {
        assert t in kids;
        var k :| 0 <= k < |kids| && kids[k] == t;
        assert Via(prefix, kids[k], t, h);
      }
    } else {
      var c := p[n];
      assert p[n - 1] == prefix[n - 1];
      assert Edge(v, p[n - 1], c);
      assert c in kids;
      var k :| 0 <= k < |kids| && kids[k] == c;
      assert p[..n] == prefix && p[..n + 1] == prefix + [c];
      assert forall i :: 0 <= i < n ==> prefix[i] == p[i];
      assert Via(prefix, kids[k], t, h);
    }
  }

  /** A list holds exactly a set of hits, each once. */
  ghost predicate Exactly(hits: seq<Hit>, s: iset<Hit>)
  {
    (forall i, j :: 0 <= i < j < |hits| ==> hits[i] != hits[j]) && forall h :: h in hits <==> h in s
  }

  lemma ExactlyConcat(a: seq<Hit>, s: iset<Hit>, b: seq<Hit>, r: iset<Hit>)
    requires Exactly(a, s) && Exactly(b, r) && s !! r
    ensures Exactly(a + b, s + r)
  {
    var c := a + b;
    forall i, j | 0 <= i < j < |c| ensures c[i] != c[j] {
      if i < |a| <= j {
        assert a[i] in s && b[j - |a|] in r;
      }
    }
  }

  /** Before any child is taken, only the prefix itself can be listed. */
  lemma VisitedNone(v: View, t: string, prefix: seq<string>, kids: seq<string>)
    requires IsPath(v, prefix) && Distinct(prefix)
    ensures Exactly(if prefix[|prefix| - 1] == t then [Hit(prefix, false, "")] else [], Visited(v, t, prefix, kids, 0))
  {
    var h0 := Hit(prefix, false, "");
    forall h ensures h in Visited(v, t, prefix, kids, 0) <==> prefix[|prefix| - 1] == t && h == h0 {
    }
  }

  /** A child already on the path contributes only the cycle back to the target. */
  lemma ViaActive(v: View, t: string, prefix: seq<string>, c: string)
    requires IsPath(v, prefix) && Distinct(prefix) && c in prefix && Edge(v, prefix[|prefix| - 1], c)
    ensures Exactly(if c == t then [Hit(prefix + [t], true, t)] else [], ViaSet(v, t, prefix, c))
  {
    var h0 := Hit(prefix + [t], true, t);
    assert Spine(h0) == prefix;
    forall h ensures h in ViaSet(v, t, prefix, c) <==> c == t && h == h0 {
    }
  }

  lemma ViaFresh(v: View, t: string, prefix: seq<string>, c: string)
    requires c !in prefix
    ensures ViaSet(v, t, prefix, c) == HitsUnder(v, t, prefix + [c])
  {
  }

  /** Where the search starts: the sources among the nodes that reach the target, or all of them. */
  ghost predicate Relevant(v: View, t: string, x: string)
  {
    x in v.ids && Reaches(v, x, t)
  }

  ghost predicate RelevantRoot(v: View, t: string, x: string)
  {
    Relevant(v, t, x) && forall y :: Edge(v, y, x) ==> !Relevant(v, t, y)
  }

  ghost predicate Start(v: View, t: string, x: string)
  {
    if exists r :: RelevantRoot(v, t, r) then RelevantRoot(v, t, x) else Relevant(v, t, x)
  }

  /** Everything a search must list, and nothing else. */
  ghost predicate Wanted(v: View, t: string, h: Hit)
  {
    IsHit(v, t, h) && Start(v, t, Spine(h)[0])
  }

  ghost function From(v: View, t: string, starts: seq<string>, count: nat): iset<Hit>
    requires count <= |starts|
  {
    iset h | IsHit(v, t, h) && exists k :: 0 <= k < count && Spine(h)[0] == starts[k]
  }

  lemma FromStep(v: View, t: string, starts: seq<string>, i: nat)
    requires i < |starts| && Distinct(starts)
    ensures From(v, t, starts, i + 1) == From(v, t, starts, i) + HitsUnder(v, t, [starts[i]])
    ensures From(v, t, starts, i) !! HitsUnder(v, t, [starts[i]])
  {
    forall h | IsHit(v, t, h) ensures Under([starts[i]], h) <==> Spine(h)[0] == starts[i] {
      assert Spine(h)[..1] == [Spine(h)[0]];
    }
  }

  lemma FromAll(v: View, t: string, starts: seq<string>)
    requires forall x :: x in starts <==> Start(v, t, x)
    ensures forall h :: h in From(v, t, starts, |starts|) <==> Wanted(v, t, h)
  {
    forall h | Wanted(v, t, h) ensures h in From(v, t, starts, |starts|) {
      var k :| 0 <= k < |starts| && starts[k] == Spine(h)[0];
    }
  }
}

/** The search itself: model/graph.go. */
module PathSearch {
  import opened Orders
  import KeyedFold
  import opened Nodes
  import opened Views
  import opened SlotTables
  import opened Graphs
  import opened Reachability
  import opened PathTheory

  datatype Path = Path(nodes: seq<Node>, cyclic: bool, cycleTo: string)

  ghost function HitOf(p: Path): Hit
  {
    Hit(seq(|p.nodes|, i requires 0 <= i < |p.nodes| => p.nodes[i].id), p.cyclic, p.cycleTo)
  }

  ghost function HitsOf(paths: seq<Path>): seq<Hit>
  {
    seq(|paths|, i requires 0 <= i < |paths| => HitOf(paths[i]))
  }

  /** Every node on every path is the graph's own. */
  ghost predicate Own(paths: seq<Path>, nodes: seq<Node?>)
  {
    forall p, n :: p in paths && n in p.nodes ==> n in nodes
  }

  ghost predicate AllLive(nodes: seq<Node?>, slots: seq<nat>)
  {
    forall i :: 0 <= i < |slots| ==> Live(nodes, slots[i])
  }

  ghost predicate RelevantSlots(nodes: seq<Node?>, v: View, t: string, relevant: set<nat>)
  {
    forall s: nat :: s in relevant <==> Live(nodes, s) && Relevant(v, t, IdAt(nodes, s))
  }

  /** IDs tell live slots apart. */
  ghost predicate Injective(nodes: seq<Node?>)
  {
    forall i: nat, j: nat :: Live(nodes, i) && Live(nodes, j) && IdAt(nodes, i) == IdAt(nodes, j) ==> i == j
  }

  lemma LiveSlotsDiffer(g: Graph)
    requires g.Valid()
    ensures Injective(g.nodes)
    ensures forall i: nat :: Live(g.nodes, i) ==> IdAt(g.nodes, i) in g.Abs().ids
  {
    forall i: nat | Live(g.nodes, i) ensures IdAt(g.nodes, i) in g.indexByID && g.indexByID[IdAt(g.nodes, i)] == i {
      g.SlotOfId(i);
    }
  }

  method BuildPath(nodes: seq<Node?>, slots: seq<nat>, cyclic: bool, cycleTo: string) returns (p: Path)
    requires AllLive(nodes, slots)
    ensures HitOf(p) == Hit(IdsAt(nodes, slots), cyclic, cycleTo) && Own([p], nodes)
  {
    var list: seq<Node> := [];
    for i := 0 to |slots|
      invariant |list| == i && forall k :: 0 <= k < i ==> list[k] == nodes[slots[k]]
    {
      list := list + [nodes[slots[i]]];
    }
    p := Path(list, cyclic, cycleTo);
  }

  lemma HitsConcat(a: seq<Path>, b: seq<Path>)
    ensures HitsOf(a + b) == HitsOf(a) + HitsOf(b)
  {
  }

  lemma IdSeqSnoc(nodes: seq<Node?>, slots: seq<nat>, s: nat)
    ensures IdsAt(nodes, slots + [s]) == IdsAt(nodes, slots) + [IdAt(nodes, s)]
  {
  }

  lemma InIdSeq(nodes: seq<Node?>, slots: seq<nat>, s: nat)
    requires Injective(nodes) && AllLive(nodes, slots) && Live(nodes, s)
    ensures s in slots <==> IdAt(nodes, s) in IdsAt(nodes, slots)
  {
    if s in slots {
      var i :| 0 <= i < |slots| && slots[i] == s;
      assert IdsAt(nodes, slots)[i] == IdAt(nodes, s);
    }
  }

  /** Nothing can be listed under a prefix that repeats a node or cannot reach the target. */
  lemma DeadEnd(v: View, t: string, prefix: seq<string>, x: string)
    requires t in v.ids && x in v.ids && (x in prefix || !Relevant(v, t, x))
    ensures HitsUnder(v, t, prefix + [x]) == iset{}
  {
    if x !in prefix {
      ViaFresh(v, t, prefix, x);
      ViaPruned(v, t, prefix, x);
    } else {
      var i :| 0 <= i < |prefix| && prefix[i] == x;
      forall h | Under(prefix + [x], h) ensures !IsHit(v, t, h) {
        assert Spine(h)[i] == (prefix + [x])[i] && Spine(h)[|prefix|] == (prefix + [x])[|prefix|];
        assert !Distinct(Spine(h));
      }
    }
  }

  lemma HitsOne(p: Path)
    ensures HitsOf([p]) == [HitOf(p)] && HitsOf([]) == []
  {
  }

  /** A child already on the stack closes a cycle only when it is the target. */
  method CloseCycle(nodes: seq<Node?>, child: nat, target: nat, stack: seq<nat>) returns (found: seq<Path>)
    requires Injective(nodes) && AllLive(nodes, stack) && Live(nodes, child) && Live(nodes, target)
    ensures HitsOf(found) == if IdAt(nodes, child) == IdAt(nodes, target)
                             then [Hit(IdsAt(nodes, stack) + [IdAt(nodes, target)], true, IdAt(nodes, target))] else []
    ensures Own(found, nodes)
  {
    found := [];
    if child == target {
      IdSeqSnoc(nodes, stack, child);
      var p := BuildPath(nodes, stack + [child], true, IdAt(nodes, child));
      HitsOne(p);
      found := [p];
    }
  }

  /** What the search of one child adds to the list. */
  method CollectChild(g: Graph, child: nat, target: nat, relevant: set<nat>, stack: seq<nat>, active: set<nat>,
                      ghost v: View, ghost t: string)
    returns (found: seq<Path>)
    requires g.Valid() && v == g.Abs() && Injective(g.nodes) && RelevantSlots(g.nodes, v, t, relevant)
    requires Live(g.nodes, target) && t == IdAt(g.nodes, target) && t in v.ids
    requires Live(g.nodes, child) && IdAt(g.nodes, child) in v.ids
    requires AllLive(g.nodes, stack) && |stack| > 0 && (forall s :: s in active <==> s in stack)
    requires IsPath(v, IdsAt(g.nodes, stack)) && Distinct(IdsAt(g.nodes, stack))
    requires Edge(v, IdAt(g.nodes, stack[|stack| - 1]), IdAt(g.nodes, child))
    ensures Exactly(HitsOf(found), ViaSet(v, t, IdsAt(g.nodes, stack), IdAt(g.nodes, child))) && Own(found, g.nodes)
    decreases relevant - active, 1
  {
    hide SlotTables.TableOk, IsPath, HitsUnder, Spine;
    ghost var prefix, c := IdsAt(g.nodes, stack), IdAt(g.nodes, child);
    InIdSeq(g.nodes, stack, child);
    if child !in relevant {
      ViaPruned(v, t, prefix, c);
      return [];
    }
    if child in active {
      found := CloseCycle(g.nodes, child, target, stack);
      ViaActive(v, t, prefix, c);
      return;
    }
    ViaFresh(v, t, prefix, c);
    IdSeqSnoc(g.nodes, stack, child);
    ExtendPath(v, prefix, c);
    found := CollectFrom(g, child, target, relevant, stack, active, v, t);
  }

  lemma IsDistinctSnoc(p: seq<string>, x: string)
    requires Distinct(p) && x !in p
    ensures Distinct(p + [x])
  {
  }

  lemma ExtendPath(v: View, prefix: seq<string>, c: string)
    requires IsPath(v, prefix) && c in v.ids && Edge(v, prefix[|prefix| - 1], c)
    ensures IsPath(v, prefix + [c])
  {
    assert IsPath(v, [c]);
    JoinPaths(v, prefix, [c]);
  }

  /** Lists everything under the current stack and node, children in ID order. */
  method CollectFrom(g: Graph, current: nat, target: nat, relevant: set<nat>, stack: seq<nat>, active: set<nat>,
                     ghost v: View, ghost t: string)
    returns (found: seq<Path>)
    requires g.Valid() && v == g.Abs() && Injective(g.nodes) && RelevantSlots(g.nodes, v, t, relevant)
    requires Live(g.nodes, target) && t == IdAt(g.nodes, target) && t in v.ids
    requires Live(g.nodes, current) && IdAt(g.nodes, current) in v.ids
    requires AllLive(g.nodes, stack) && (forall s :: s in active <==> s in stack) && Distinct(IdsAt(g.nodes, stack))
    requires IsPath(v, IdsAt(g.nodes, stack + [current]))
    ensures Exactly(HitsOf(found), HitsUnder(v, t, IdsAt(g.nodes, stack + [current]))) && Own(found, g.nodes)
    decreases relevant - active, 0
  {
    hide SlotTables.TableOk;
    ghost var before, x := IdsAt(g.nodes, stack), IdAt(g.nodes, current);
    IdSeqSnoc(g.nodes, stack, current);
    InIdSeq(g.nodes, stack, current);
    if current !in relevant || current in active {
      DeadEnd(v, t, before, x);
      return [];
    }
    ghost var prefix := before + [x];
    IsDistinctSnoc(before, x);
    var own := EndHere(g.nodes, current, target, stack + [current]);
    found := CollectChildren(g, own, current, target, relevant, stack + [current], active + {current}, v, t);
  }

  /** The path that ends at the target, when the stack does. */
  method EndHere(nodes: seq<Node?>, current: nat, target: nat, stack: seq<nat>) returns (found: seq<Path>)
    requires Injective(nodes) && AllLive(nodes, stack) && Live(nodes, current) && Live(nodes, target)
    ensures HitsOf(found) == if IdAt(nodes, current) == IdAt(nodes, target) then [Hit(IdsAt(nodes, stack), false, "")] else []
    ensures Own(found, nodes)
  {
    found := [];
    if current == target {
      var p := BuildPath(nodes, stack, false, "");
      HitsOne(p);
      found := [p];
    }
  }

  method CollectChildren(g: Graph, own: seq<Path>, current: nat, target: nat, relevant: set<nat>, stack: seq<nat>, active: set<nat>,
                         ghost v: View, ghost t: string)
    returns (found: seq<Path>)
    requires g.Valid() && v == g.Abs() && Injective(g.nodes) && RelevantSlots(g.nodes, v, t, relevant)
    requires Live(g.nodes, target) && t == IdAt(g.nodes, target) && t in v.ids
    requires Live(g.nodes, current) && AllLive(g.nodes, stack) && (forall s :: s in active <==> s in stack)
    requires IsPath(v, IdsAt(g.nodes, stack)) && Distinct(IdsAt(g.nodes, stack))
    requires |stack| > 0 && stack[|stack| - 1] == current
    requires Own(own, g.nodes)
    requires HitsOf(own) == if IdAt(g.nodes, current) == t then [Hit(IdsAt(g.nodes, stack), false, "")] else []
    ensures Exactly(HitsOf(found), HitsUnder(v, t, IdsAt(g.nodes, stack))) && Own(found, g.nodes)
    decreases relevant - active, 2
  {
    hide SlotTables.TableOk;
    found := own;
    ghost var prefix := IdsAt(g.nodes, stack);
    var children := g.ChildSlots(current);
    ghost var kids := IdsAt(g.nodes, children);
    KidsAreChildren(g, current, children, v);
    VisitedNone(v, t, prefix, kids);
    for i := 0 to |children|
      invariant Exactly(HitsOf(found), Visited(v, t, prefix, kids, i)) && Own(found, g.nodes)
    {
      var more := CollectChild(g, children[i], target, relevant, stack, active, v, t);
      VisitedStep(v, t, prefix, kids, i);
      ExactlyConcat(HitsOf(found), Visited(v, t, prefix, kids, i), HitsOf(more), ViaSet(v, t, prefix, kids[i]));
      HitsConcat(found, more);
      found := found + more;
    }
    VisitedAll(v, t, prefix, kids);
  }

  lemma KidsAreChildren(g: Graph, at: nat, children: seq<nat>, v: View)
    requires g.Valid() && v == g.Abs() && Live(g.nodes, at) && SlotsInOrder(g.nodes, children)
    requires forall j: nat :: j in children <==> Live(g.nodes, j) && Edge(v, IdAt(g.nodes, at), IdAt(g.nodes, j))
    ensures Distinct(IdsAt(g.nodes, children))
    ensures forall c :: c in IdsAt(g.nodes, children) <==> Edge(v, IdAt(g.nodes, at), c)
    ensures forall i :: 0 <= i < |children| ==> Live(g.nodes, children[i]) && IdAt(g.nodes, children[i]) in v.ids
  {
    var kids := IdsAt(g.nodes, children);
    OrderedIdsDiffer(g.nodes, children);
    forall c | Edge(v, IdAt(g.nodes, at), c) ensures c in kids {
      assert c in g.indexByID;
      g.SlotOfIndex(c);
      var i :| 0 <= i < |children| && children[i] == g.indexByID[c];
      assert kids[i] == c;
    }
    forall i | 0 <= i < |children| ensures Edge(v, IdAt(g.nodes, at), kids[i]) && kids[i] in v.ids {
      assert children[i] in children;
      g.SlotOfId(children[i]);
    }
  }

  // ----- Pruning and starting points

  /** The slots found so far all reach the target, and the parents of those already popped are found. */
  ghost predicate Backtracked(nodes: seq<Node?>, v: View, t: string, found: set<nat>, stack: seq<nat>)
  {
    && (forall s :: s in found ==> Live(nodes, s) && Relevant(v, t, IdAt(nodes, s)))
    && (forall s :: s in stack ==> s in found)
    && (forall s, i: nat :: s in found && s !in stack && Live(nodes, i) && Edge(v, IdAt(nodes, i), IdAt(nodes, s)) ==> i in found)
  }

  /** The slots that reach the target, by walking incoming edges backwards. */
  method ReverseReachable(g: Graph, start: nat, ghost v: View, ghost t: string) returns (reachable: set<nat>)
    requires g.Valid() && v == g.Abs() && Live(g.nodes, start) && t == IdAt(g.nodes, start)
    ensures RelevantSlots(g.nodes, v, t, reachable)
  {
    LiveSlotsDiffer(g);
    ReachesItself(v, t);
    reachable := {start};
    var stack := [start];
    while |stack| > 0
      invariant Backtracked(g.nodes, v, t, reachable, stack) && start in reachable
      decreases LiveSlots(g.nodes) - reachable, |stack|
    {
      var idx := stack[|stack| - 1];
      g.ParentSlots(idx);
      reachable, stack := PushParents(g.nodes, g.incoming[idx].Keys, idx, reachable, stack[..|stack| - 1], v, t);
    }
    BacktrackedAll(g, v, t, start, reachable);
  }

  method PushParents(nodes: seq<Node?>, parents: set<nat>, idx: nat, found0: set<nat>, stack0: seq<nat>, ghost v: View, ghost t: string)
    returns (found: set<nat>, stack: seq<nat>)
    requires Backtracked(nodes, v, t, found0, stack0 + [idx])
    requires forall i: nat :: i in parents <==> Live(nodes, i) && Edge(v, IdAt(nodes, i), IdAt(nodes, idx))
    requires forall i: nat :: Live(nodes, i) ==> IdAt(nodes, i) in v.ids
    ensures Backtracked(nodes, v, t, found, stack) && found0 <= found
    ensures LiveSlots(nodes) - found < LiveSlots(nodes) - found0 || (found == found0 && stack == stack0)
  {
    assert forall s :: s in stack0 + [idx] <==> s in stack0 || s == idx;
    found, stack := found0, stack0;
    var todo := parents;
    while todo != {}
      invariant todo <= parents && found0 <= found
      invariant forall i :: i in parents && i !in todo ==> i in found
      invariant forall s :: s in found ==> Live(nodes, s) && Relevant(v, t, IdAt(nodes, s))
      invariant forall s :: s in stack ==> s in found
      invariant forall s, i: nat :: s in found && s !in stack && s != idx && Live(nodes, i) && Edge(v, IdAt(nodes, i), IdAt(nodes, s)) ==> i in found
      invariant LiveSlots(nodes) - found < LiveSlots(nodes) - found0 || (found == found0 && stack == stack0)
      decreases todo
    {
      var i :| i in todo;
      todo := todo - {i};
      if i !in found {
        EdgeThenReaches(v, IdAt(nodes, i), IdAt(nodes, idx), t);
        assert i in LiveSlots(nodes) - found0;
        found := found + {i};
        assert forall s :: s in stack + [i] <==> s in stack || s == i;
        stack := stack + [i];
      }
    }
  }

  lemma BacktrackedAll(g: Graph, v: View, t: string, start: nat, found: set<nat>)
    requires g.Valid() && v == g.Abs() && Backtracked(g.nodes, v, t, found, [])
    requires start in found && t == IdAt(g.nodes, start)
    ensures RelevantSlots(g.nodes, v, t, found)
  {
    g.AbsWellFormed();
    var ids := set x | x in g.indexByID && g.indexByID[x] in found;
    g.SlotOfId(start);
    forall a, b | Edge(v, a, b) && b in ids ensures a in ids {
      g.SlotOfIndex(a);
      g.SlotOfIndex(b);
    }
    forall s: nat | Live(g.nodes, s) && Relevant(v, t, IdAt(g.nodes, s)) ensures s in found {
      g.SlotOfId(s);
      var p :| PathFromTo(v, IdAt(g.nodes, s), t, p);
      ParentClosed(v, ids, p);
    }
  }

  /** The relevant slots no other relevant slot points at, in ID order. */
  method RelevantRoots(g: Graph, relevant: set<nat>, ghost v: View, ghost t: string) returns (roots: seq<nat>)
    requires g.Valid() && v == g.Abs() && RelevantSlots(g.nodes, v, t, relevant)
    ensures SlotsInOrder(g.nodes, roots)
    ensures forall s: nat :: s in roots <==> Live(g.nodes, s) && RelevantRoot(v, t, IdAt(g.nodes, s))
  {
    LiveSlotsDiffer(g);
    hide SlotTables.TableOk;
    var kept: set<nat> := {};
    var todo := relevant;
    while todo != {}
      invariant todo <= relevant && kept <= relevant
      invariant forall s: nat :: s in relevant && s !in todo ==> (s in kept <==> RelevantRoot(v, t, IdAt(g.nodes, s)))
      invariant forall s :: s in kept ==> s !in todo
      decreases todo
    {
      var idx :| idx in todo;
      todo := todo - {idx};
      g.ParentSlots(idx);
      RootBySlots(g, relevant, idx, v, t);
      if g.incoming[idx].Keys * relevant == {} {
        kept := kept + {idx};
      }
    }
    roots := SortedSlots(g.nodes, kept);
  }

  lemma RootBySlots(g: Graph, relevant: set<nat>, idx: nat, v: View, t: string)
    requires g.Valid() && v == g.Abs() && RelevantSlots(g.nodes, v, t, relevant) && idx in relevant
    ensures RelevantRoot(v, t, IdAt(g.nodes, idx)) <==> g.incoming[idx].Keys * relevant == {}
  {
    g.ParentSlots(idx);
    g.AbsWellFormed();
    if g.incoming[idx].Keys * relevant == {} {
      forall y | Edge(v, y, IdAt(g.nodes, idx)) ensures !Relevant(v, t, y) {
        g.SlotOfIndex(y);
        assert g.indexByID[y] in g.incoming[idx];
        assert g.indexByID[y] !in g.incoming[idx].Keys * relevant;
      }
    } else {
      var i :| i in g.incoming[idx].Keys * relevant;
      assert Edge(v, IdAt(g.nodes, i), IdAt(g.nodes, idx));
    }
  }

  // ----- The published order

  /** The IDs of a path joined with slashes: the key the result is sorted by. */
  function PathKey(nodes: seq<Node>): string
  {
    if |nodes| == 0 then "" else if |nodes| == 1 then nodes[0].id else nodes[0].id + "/" + PathKey(nodes[1..])
  }

  /** The text stands at this place in the key. */
  ghost predicate StandsAt(key: string, text: string, at: nat)
  {
    at + |text| <= |key| && key[at..at + |text|] == text
  }

  /** Each ID stands at its own place in the key, with a slash before every one but the first, and nothing else. */
  ghost predicate JoinedAt(ids: seq<string>, key: string, places: seq<nat>)
  {
    && |places| == |ids| > 0 && places[0] == 0 && |key| == places[|places| - 1] + |ids[|ids| - 1]|
    && (forall i :: 0 <= i < |places| ==> StandsAt(key, ids[i], places[i]))
    && (forall i, j :: 0 <= i < j < |places| && j == i + 1 ==> Follows(key, places[i] + |ids[i]|, places[j]))
  }

  ghost predicate Follows(key: string, end: nat, next: nat)
  {
    next == end + 1 && end < |key| && key[end] == '/'
  }

  lemma {:induction false} PathKeyJoins(nodes: seq<Node>) returns (places: seq<nat>)
    requires nodes != []
    ensures JoinedAt(IdsOf(nodes), PathKey(nodes), places)
    decreases |nodes|
  {
    if |nodes| == 1 {
      places := [0];
    } else {
      var rest := PathKeyJoins(nodes[1..]);
      var shift := |nodes[0].id| + 1;
      places := [0] + seq(|rest|, i requires 0 <= i < |rest| => rest[i] + shift);
      assert IdsOf(nodes) == [nodes[0].id] + IdsOf(nodes[1..]);
      JoinOne(nodes[0].id, IdsOf(nodes[1..]), PathKey(nodes[1..]), rest, places);
    }
  }

  lemma JoinOne(first: string, ids: seq<string>, tail: string, rest: seq<nat>, places: seq<nat>)
    requires JoinedAt(ids, tail, rest) && |places| == |rest| + 1 && places[0] == 0
    requires forall i, j :: 0 <= i < |rest| && j == i + 1 ==> places[j] == rest[i] + |first| + 1
    ensures JoinedAt([first] + ids, first + "/" + tail, places)
  {
    var key, all := first + "/" + tail, [first] + ids;
    hide StandsAt, Follows;
    forall i | 0 <= i < |places| ensures StandsAt(key, all[i], places[i]) {
      if i == 0 {
        FirstStands(first, tail);
      } else {
        LaterStands(first, tail, ids[i - 1], rest[i - 1]);
      }
    }
    forall i, j | 0 <= i < j < |places| && j == i + 1 ensures Follows(key, places[i] + |all[i]|, places[j]) {
      if i == 0 {
        FirstStands(first, tail);
      } else {
        var k := i - 1;
        assert Follows(tail, rest[k] + |ids[k]|, rest[i]);
        LaterFollows(first, tail, rest[k] + |ids[k]|, rest[i]);
      }
    }
  }

  lemma FirstStands(first: string, tail: string)
    ensures StandsAt(first + "/" + tail, first, 0) && Follows(first + "/" + tail, |first|, |first| + 1)
  {
    assert (first + "/" + tail)[0..|first|] == first;
  }

  lemma LaterStands(first: string, tail: string, id: string, place: nat)
    requires StandsAt(tail, id, place)
    ensures StandsAt(first + "/" + tail, id, place + |first| + 1)
  {
    var key, shift := first + "/" + tail, |first| + 1;
    assert key[shift..] == tail && key[place + shift..place + shift + |id|] == key[shift..][place..place + |id|];
  }

  lemma LaterFollows(first: string, tail: string, end: nat, next: nat)
    requires Follows(tail, end, next)
    ensures Follows(first + "/" + tail, end + |first| + 1, next + |first| + 1)
  {
  }

  /** No later key is below an earlier one; paths with equal keys may stand in either order. */
  ghost predicate KeySorted(paths: seq<Path>)
  {
    forall i, j :: 0 <= i < j < |paths| ==> !Less(PathKey(paths[j].nodes), PathKey(paths[i].nodes))
  }

  method InsertPath(sorted: seq<Path>, p: Path) returns (out: seq<Path>)
    requires KeySorted(sorted)
    ensures KeySorted(out) && multiset(out) == multiset(sorted) + multiset{p}
  {
    var k := 0;
    while k < |sorted| && !Less(PathKey(p.nodes), PathKey(sorted[k].nodes))
      invariant k <= |sorted| && forall i :: 0 <= i < k ==> !Less(PathKey(p.nodes), PathKey(sorted[i].nodes))
    {
      k := k + 1;
    }
    InsertKeepsKeys(sorted, k, p);
    assert sorted == sorted[..k] + sorted[k..];
    out := sorted[..k] + [p] + sorted[k..];
  }

  lemma InsertKeepsKeys(sorted: seq<Path>, k: nat, p: Path)
    requires KeySorted(sorted) && k <= |sorted|
    requires forall i :: 0 <= i < k ==> !Less(PathKey(p.nodes), PathKey(sorted[i].nodes))
    requires k < |sorted| ==> Less(PathKey(p.nodes), PathKey(sorted[k].nodes))
    ensures KeySorted(sorted[..k] + [p] + sorted[k..])
  {
    var out, key := sorted[..k] + [p] + sorted[k..], PathKey(p.nodes);
    forall i, j | 0 <= i < j < |out| ensures !Less(PathKey(out[j].nodes), PathKey(out[i].nodes)) {
      var a, b := PathKey(out[i].nodes), PathKey(out[j].nodes);
      if i == k {
        assert out[j] == sorted[j - 1];
        NotBelow(key, PathKey(sorted[k].nodes), b);
      } else if j == k {
        assert out[i] == sorted[i];
      } else {
        assert out[i] == sorted[if i < k then i else i - 1] && out[j] == sorted[if j < k then j else j - 1];
      }
    }
  }

  lemma NotBelow(a: string, b: string, c: string)
    requires Less(a, b) && (b == c || !Less(c, b))
    ensures !Less(c, a)
  {
    if Less(c, a) {
      LessTransitive(c, a, b);
      LessIrreflexive(b);
    }
  }

  method SortPaths(paths: seq<Path>) returns (out: seq<Path>)
    ensures KeySorted(out) && multiset(out) == multiset(paths)
  {
    out := [];
    for i := 0 to |paths|
      invariant KeySorted(out) && multiset(out) == multiset(paths[..i])
    {
      out := InsertPath(out, paths[i]);
      TakeSnoc(paths, i);
    }
    TakeAll(paths);
  }

  lemma SortKeepsHits(a: seq<Path>, b: seq<Path>, s: iset<Hit>, nodes: seq<Node?>)
    requires multiset(a) == multiset(b) && Exactly(HitsOf(a), s) && Own(a, nodes)
    ensures Exactly(HitsOf(b), s) && Own(b, nodes)
  {
    HitsPermuted(a, b);
    DistinctPermuted(HitsOf(a), HitsOf(b));
    forall h ensures h in HitsOf(b) <==> h in s {
      assert h in multiset(HitsOf(a)) <==> h in multiset(HitsOf(b));
    }
    forall p | p in b ensures p in a {
      assert p in multiset(b);
    }
  }

  lemma {:induction false} HitsPermuted(a: seq<Path>, b: seq<Path>)
    requires multiset(a) == multiset(b)
    ensures multiset(HitsOf(a)) == multiset(HitsOf(b))
    decreases |b|
  {
    if b == [] {
      assert |multiset(a)| == |multiset(b)|;
    } else {
      var pre, post := KeyedFold.TakeOut(a, b);
      var front, last := b[..|b| - 1], b[|b| - 1];
      HitsPermuted(pre + post, front);
      HitsConcat(pre + [last], post);
      HitsConcat(pre, [last]);
      HitsConcat(pre, post);
      assert b == front + [last];
      HitsConcat(front, [last]);
    }
  }

  // ----- The whole search

  method CollectStarts(g: Graph, relevant: set<nat>, ghost v: View, ghost t: string) returns (starts: seq<nat>)
    requires g.Valid() && v == g.Abs() && RelevantSlots(g.nodes, v, t, relevant)
    ensures SlotsInOrder(g.nodes, starts)
    ensures forall s: nat :: s in starts <==> Live(g.nodes, s) && Start(v, t, IdAt(g.nodes, s))
  {
    LiveSlotsDiffer(g);
    starts := RelevantRoots(g, relevant, v, t);
    ghost var roots := starts;
    if |starts| == 0 {
      starts := SortedSlots(g.nodes, relevant);
    } else {
      assert roots[0] in roots;
      assert RelevantRoot(v, t, IdAt(g.nodes, roots[0]));
    }
    if r :| RelevantRoot(v, t, r) {
      g.SlotOfIndex(r);
      assert g.indexByID[r] in roots;
    }
  }

  lemma StartIds(g: Graph, starts: seq<nat>, v: View, t: string)
    requires g.Valid() && v == g.Abs() && SlotsInOrder(g.nodes, starts)
    requires forall s: nat :: s in starts <==> Live(g.nodes, s) && Start(v, t, IdAt(g.nodes, s))
    ensures Distinct(IdsAt(g.nodes, starts))
    ensures forall x :: x in IdsAt(g.nodes, starts) <==> Start(v, t, x)
  {
    OrderedIdsDiffer(g.nodes, starts);
    var ids := IdsAt(g.nodes, starts);
    forall x | x in ids ensures Start(v, t, x) {
      var i :| 0 <= i < |ids| && ids[i] == x;
      assert starts[i] in starts;
    }
    forall x | Start(v, t, x) ensures x in ids {
      g.SlotOfIndex(x);
      var i :| 0 <= i < |starts| && starts[i] == g.indexByID[x];
      assert ids[i] == x;
    }
  }

  lemma OrderedIdsDiffer(nodes: seq<Node?>, slots: seq<nat>)
    requires SlotsInOrder(nodes, slots)
    ensures Distinct(IdsAt(nodes, slots)) && AllLive(nodes, slots)
  {
    var ids := IdsAt(nodes, slots);
    forall i, j | 0 <= i < j < |ids| ensures ids[i] != ids[j] {
      LessIrreflexive(ids[i]);
    }
  }

  method CollectFromStarts(g: Graph, starts: seq<nat>, target: nat, relevant: set<nat>, ghost v: View, ghost t: string)
    returns (paths: seq<Path>)
    requires g.Valid() && v == g.Abs() && RelevantSlots(g.nodes, v, t, relevant)
    requires Live(g.nodes, target) && t == IdAt(g.nodes, target)
    requires AllLive(g.nodes, starts) && Distinct(IdsAt(g.nodes, starts))
    ensures Exactly(HitsOf(paths), From(v, t, IdsAt(g.nodes, starts), |starts|)) && Own(paths, g.nodes)
  {
    hide SlotTables.TableOk;
    LiveSlotsDiffer(g);
    ghost var ids := IdsAt(g.nodes, starts);
    paths := [];
    for i := 0 to |starts|
      invariant Exactly(HitsOf(paths), From(v, t, ids, i)) && Own(paths, g.nodes)
    {
      assert IdsAt(g.nodes, [] + [starts[i]]) == [ids[i]];
      var found := CollectFrom(g, starts[i], target, relevant, [], {}, v, t);
      FromStep(v, t, ids, i);
      ExactlyConcat(HitsOf(paths), From(v, t, ids, i), HitsOf(found), HitsUnder(v, t, [ids[i]]));
      HitsConcat(paths, found);
      paths := paths + found;
    }
  }

  /** Every simple path from a start to the target, every way back into the target from a simple
      path through it, each once, and nothing else. */
  method CollectPathsTo(g: Graph, targetID: string) returns (r: Result<seq<Path>>)
    requires g.Valid()
    ensures targetID !in g.indexByID <==> r == Failure(NodeNotFound)
    ensures r.Success? <==> targetID in g.indexByID
    ensures r.Success? ==> Distinct(HitsOf(r.value)) && KeySorted(r.value) && Own(r.value, g.nodes)
    ensures r.Success? ==> forall h :: h in HitsOf(r.value) <==> Wanted(g.Abs(), targetID, h)
  {
    hide SlotTables.TableOk;
    if targetID !in g.indexByID {
      return Failure(NodeNotFound);
    }
    var target := g.indexByID[targetID];
    g.SlotOfIndex(targetID);
    ghost var v := g.Abs();
    var relevant := ReverseReachable(g, target, v, targetID);
    var starts := CollectStarts(g, relevant, v, targetID);
    StartIds(g, starts, v, targetID);
    var paths := CollectFromStarts(g, starts, target, relevant, v, targetID);
    ghost var ids := IdsAt(g.nodes, starts);
    FromAll(v, targetID, ids);
    var sorted := SortPaths(paths);
    SortKeepsHits(paths, sorted, From(v, targetID, ids, |starts|), g.nodes);
    return Success(sorted);
  }
}
