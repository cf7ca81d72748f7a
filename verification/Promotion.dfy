/** Renaming a node in an edge map, and what copying edges through a rename builds. */
module Renaming {
  import opened Orders
  import opened EdgeKinds
  import opened Views

  /** Where an edge between `p.0` and `p.1` comes from when `a` is renamed to `b`, if it touches `b`. */
  function Source(a: string, b: string, p: (string, string)): (string, string)
  {
    if p.0 == b then (a, p.1) else if p.1 == b then (p.0, a) else p
  }

  ghost predicate Arrives(edges: EdgeMap, a: string, b: string, moved: set<(string, string)>, p: (string, string))
  {
    (p.0 == b || p.1 == b) && Source(a, b, p) in edges && Source(a, b, p) in moved
  }

  /** The edges once node `a` is gone and those of its edges in `moved` are re-pointed to `b`. */
  ghost function Moved(edges: EdgeMap, a: string, b: string, moved: set<(string, string)>): EdgeMap
  {
    map p | p in edges.Keys + (set e | e in edges && e.0 == a :: (b, e.1)) + (set e | e in edges && e.1 == a :: (e.0, b))
            && p.0 != a && p.1 != a && p.0 != p.1 && (p in edges || Arrives(edges, a, b, moved, p)) ::
      if !Arrives(edges, a, b, moved, p) then edges[p]
      else if p in edges then MergeEdgeKind(edges[p], edges[Source(a, b, p)])
      else edges[Source(a, b, p)]
  }

  /** Every edge with `a` renamed to `b`: colliding edges merge kinds, collapsed ones are gone. */
  ghost function Renamed(edges: EdgeMap, a: string, b: string): EdgeMap
  {
    Moved(edges, a, b, edges.Keys)
  }

  /** Membership without the bounds the comprehension needs. */
  lemma InMoved(edges: EdgeMap, a: string, b: string, moved: set<(string, string)>, p: (string, string))
    ensures p in Moved(edges, a, b, moved) <==>
            p.0 != a && p.1 != a && p.0 != p.1 && (p in edges || Arrives(edges, a, b, moved, p))
  {
    if Arrives(edges, a, b, moved, p) {
      var e := Source(a, b, p);
      assert p == if p.0 == b then (b, e.1) else (e.0, b);
    }
  }

  lemma NothingMoved(v: View, a: string, b: string)
    requires WellFormed(v)
    ensures Moved(v.edges, a, b, {}) == WithoutNode(v.edges, a)
  {
    forall p ensures p in Moved(v.edges, a, b, {}) <==> p in WithoutNode(v.edges, a) {
      InMoved(v.edges, a, b, {}, p);
    }
  }

  lemma MoveParent(v: View, a: string, b: string, moved: set<(string, string)>, x: string)
    requires WellFormed(v) && a != b && (x, a) in v.edges && (x, a) !in moved
    ensures Moved(v.edges, a, b, moved + {(x, a)}) ==
            if x == b then Moved(v.edges, a, b, moved) else WithEdge(Moved(v.edges, a, b, moved), x, b, v.edges[(x, a)])
  {
    MoveOne(v, a, b, moved, (x, a), (x, b));
  }

  lemma MoveChild(v: View, a: string, b: string, moved: set<(string, string)>, y: string)
    requires WellFormed(v) && a != b && (a, y) in v.edges && (a, y) !in moved
    ensures Moved(v.edges, a, b, moved + {(a, y)}) ==
            if y == b then Moved(v.edges, a, b, moved) else WithEdge(Moved(v.edges, a, b, moved), b, y, v.edges[(a, y)])
  {
    MoveOne(v, a, b, moved, (a, y), (b, y));
  }

  lemma MoveOne(v: View, a: string, b: string, moved: set<(string, string)>, e: (string, string), q: (string, string))
    requires WellFormed(v) && a != b && e in v.edges && e !in moved
    requires (e.1 == a && q == (e.0, b)) || (e.0 == a && q == (b, e.1))
    ensures Moved(v.edges, a, b, moved + {e}) ==
            if q.0 == q.1 then Moved(v.edges, a, b, moved) else WithEdge(Moved(v.edges, a, b, moved), q.0, q.1, v.edges[e])
  {
    var before, after := Moved(v.edges, a, b, moved), Moved(v.edges, a, b, moved + {e});
    var want := if q.0 == q.1 then before else WithEdge(before, q.0, q.1, v.edges[e]);
    forall p ensures (p in after <==> p in want) && (p in after ==> after[p] == want[p]) {
      MoveAt(v, a, b, moved, e, q, p);
    }
  }

  lemma MoveAt(v: View, a: string, b: string, moved: set<(string, string)>, e: (string, string), q: (string, string), p: (string, string))
    requires WellFormed(v) && a != b && e in v.edges && e !in moved
    requires (e.1 == a && q == (e.0, b)) || (e.0 == a && q == (b, e.1))
    ensures var before, after := Moved(v.edges, a, b, moved), Moved(v.edges, a, b, moved + {e});
            var want := if q.0 == q.1 then before else WithEdge(before, q.0, q.1, v.edges[e]);
            (p in after <==> p in want) && (p in after ==> after[p] == want[p])
  {
    InMoved(v.edges, a, b, moved, p);
    InMoved(v.edges, a, b, moved + {e}, p);
    assert q == (q.0, q.1) && p == (p.0, p.1);
  }

  /** Edges that touch neither node keep their kinds, and none appears. */
  lemma OthersUnchanged(v: View, a: string, b: string, p: (string, string))
    requires WellFormed(v) && p.0 != a && p.1 != a && p.0 != b && p.1 != b
    ensures p in Renamed(v.edges, a, b) <==> p in v.edges
    ensures p in v.edges ==> Renamed(v.edges, a, b)[p] == v.edges[p]
  {
    InMoved(v.edges, a, b, v.edges.Keys, p);
  }

  /** The edge, its ends at `a` sent to `b`, joins the pair. */
  ghost predicate SentTo(a: string, b: string, e: (string, string), p: (string, string))
  {
    p.0 != p.1 && p.0 == (if e.0 == a then b else e.0) && p.1 == (if e.1 == a then b else e.1)
  }

  /** Every edge lands where its ends are sent, one that collapses is gone, and where several land a dependency claim
      wins, or else the edge that was there already, or else the one that arrives. */
  lemma RenamedMeans(v: View, a: string, b: string, p: (string, string))
    requires WellFormed(v) && a != b
    ensures var after := Renamed(v.edges, a, b);
            && (p in after <==> exists e :: e in v.edges && SentTo(a, b, e, p))
            && (p in after ==>
                  if exists e :: e in v.edges && SentTo(a, b, e, p) && v.edges[e] == DependsOn then after[p] == DependsOn
                  else if p in v.edges then after[p] == v.edges[p]
                  else exists e :: e in v.edges && SentTo(a, b, e, p) && after[p] == v.edges[e])
  {
    InMoved(v.edges, a, b, v.edges.Keys, p);
    SentSources(v, a, b, p);
  }

  /** Only the pair itself and its one source are sent to a pair. */
  lemma SentSources(v: View, a: string, b: string, p: (string, string))
    requires WellFormed(v) && a != b
    ensures forall e :: e in v.edges && SentTo(a, b, e, p) ==>
              p.0 != a && p.1 != a && (e == p || (e == Source(a, b, p) && Arrives(v.edges, a, b, v.edges.Keys, p)))
    ensures p.0 != a && p.1 != a && p.0 != p.1 && p in v.edges ==> SentTo(a, b, p, p)
    ensures p.0 != a && p.1 != a && p.0 != p.1 && Arrives(v.edges, a, b, v.edges.Keys, p) ==> SentTo(a, b, Source(a, b, p), p)
  {
    forall e | e in v.edges && SentTo(a, b, e, p)
      ensures p.0 != a && p.1 != a && (e == p || (e == Source(a, b, p) && Arrives(v.edges, a, b, v.edges.Keys, p)))
    {
      assert e == (e.0, e.1) && p == (p.0, p.1);
    }
  }

  /** A rename that answers "" drops the edge. */
  type Rename = string -> string

  ghost predicate Kept(rename: Rename, e: (string, string))
  {
    rename(e.0) != "" && rename(e.1) != "" && rename(e.0) != rename(e.1)
  }

  ghost function CopyOne(into: EdgeMap, edges: EdgeMap, rename: Rename, e: (string, string)): EdgeMap
    requires e in edges
  {
    if Kept(rename, e) then WithEdge(into, rename(e.0), rename(e.1), edges[e]) else into
  }

  /** The edges after copying those of `order`, in that order. */
  ghost function Copied(into: EdgeMap, edges: EdgeMap, rename: Rename, order: seq<(string, string)>): EdgeMap
    requires forall e :: e in order ==> e in edges
  {
    if order == [] then into
    else CopyOne(Copied(into, edges, rename, order[..|order| - 1]), edges, rename, order[|order| - 1])
  }

  ghost predicate Onto(rename: Rename, e: (string, string), p: (string, string))
  {
    Kept(rename, e) && p == (rename(e.0), rename(e.1))
  }

  /** Some edge puts kind `k` on `p`. */
  ghost predicate Brings(edges: EdgeMap, rename: Rename, order: seq<(string, string)>, p: (string, string), k: EdgeKind)
  {
    exists e :: e in order && e in edges && Onto(rename, e, p) && edges[e] == k
  }

  /** The first edge of the walk that lands on `p` has kind `k`. */
  ghost predicate Leads(edges: EdgeMap, rename: Rename, order: seq<(string, string)>, p: (string, string), k: EdgeKind)
  {
    exists i :: 0 <= i < |order| && order[i] in edges && Onto(rename, order[i], p) && edges[order[i]] == k
             && forall j :: 0 <= j < i ==> !Onto(rename, order[j], p)
  }

  /** A pair is there when it was, or when some edge landed on it. A dependency claim wins; otherwise what was there
      stays, and on a new pair the first edge of the walk decides. */
  ghost predicate CopyMeans(into: EdgeMap, edges: EdgeMap, rename: Rename, order: seq<(string, string)>, after: EdgeMap, p: (string, string))
  {
    && (p in after <==> p in into || exists e :: e in order && Onto(rename, e, p))
    && (p in after ==>
          if (p in into && into[p] == DependsOn) || Brings(edges, rename, order, p, DependsOn) then after[p] == DependsOn
          else if p in into then after[p] == into[p]
          else Leads(edges, rename, order, p, after[p]))
  }

  ghost predicate Stated(edges: EdgeMap)
  {
    forall e :: e in edges ==> edges[e] != Unstated
  }

  lemma {:induction false} CopyMeaning(into: EdgeMap, edges: EdgeMap, rename: Rename, order: seq<(string, string)>, p: (string, string))
    requires (forall e :: e in order ==> e in edges) && Stated(edges) && Stated(into)
    ensures CopyMeans(into, edges, rename, order, Copied(into, edges, rename, order), p)
    decreases |order|
  {
    if order != [] {
      var front, last := order[..|order| - 1], order[|order| - 1];
      assert order == front + [last];
      CopyMeaning(into, edges, rename, front, p);
      CopyMeansGrows(into, edges, rename, front, last, Copied(into, edges, rename, front), p);
    }
  }

  lemma CopyMeansGrows(into: EdgeMap, edges: EdgeMap, rename: Rename, front: seq<(string, string)>, last: (string, string),
                                          before: EdgeMap, p: (string, string))
    requires last in edges && Stated(edges) && Stated(into) && CopyMeans(into, edges, rename, front, before, p)
    ensures CopyMeans(into, edges, rename, front + [last], CopyOne(before, edges, rename, last), p)
  {
    var order, after := front + [last], CopyOne(before, edges, rename, last);
    assert last in order && forall e :: e in order <==> e in front || e == last;
    BringsGrows(edges, rename, front, last, p, DependsOn);
    assert p == (p.0, p.1);
    if p in before {
      LeadsStays(edges, rename, front, last, p, before[p]);
      if Leads(edges, rename, front, p, before[p]) {
        LeaderBrings(edges, rename, front, p, before[p]);
      }
    } else if Onto(rename, last, p) {
      LeadsNew(edges, rename, front, last, p);
    }
  }

  lemma BringsGrows(edges: EdgeMap, rename: Rename, front: seq<(string, string)>, last: (string, string), p: (string, string), k: EdgeKind)
    requires last in edges
    ensures Brings(edges, rename, front + [last], p, k) <==> Brings(edges, rename, front, p, k) || (Onto(rename, last, p) && edges[last] == k)
  {
    assert last in front + [last] && forall e :: e in front + [last] <==> e in front || e == last;
  }

  lemma LeadsStays(edges: EdgeMap, rename: Rename, front: seq<(string, string)>, last: (string, string), p: (string, string), k: EdgeKind)
    requires last in edges
    ensures Leads(edges, rename, front, p, k) ==> Leads(edges, rename, front + [last], p, k)
  {
    var order := front + [last];
    if i :| 0 <= i < |front| && front[i] in edges && Onto(rename, front[i], p) && edges[front[i]] == k
            && forall j :: 0 <= j < i ==> !Onto(rename, front[j], p) {
      assert order[i] == front[i] && forall j :: 0 <= j < i ==> order[j] == front[j];
    }
  }

  lemma LeadsNew(edges: EdgeMap, rename: Rename, front: seq<(string, string)>, last: (string, string), p: (string, string))
    requires last in edges && Onto(rename, last, p) && forall e :: e in front ==> !Onto(rename, e, p)
    ensures Leads(edges, rename, front + [last], p, edges[last])
  {
    var order := front + [last];
    assert order[|front|] == last && forall j :: 0 <= j < |front| ==> order[j] in front;
  }

  lemma LeaderBrings(edges: EdgeMap, rename: Rename, order: seq<(string, string)>, p: (string, string), k: EdgeKind)
    requires Leads(edges, rename, order, p, k)
    ensures Brings(edges, rename, order, p, k)
  {
    var i :| 0 <= i < |order| && order[i] in edges && Onto(rename, order[i], p) && edges[order[i]] == k;
    assert order[i] in order;
  }

  // ----- Walks in slot order

  /** The slot each node sits in. */
  type Layout = string -> nat

  /** Rows come in slot order; inside a row the adjacency map is walked in any order. */
  ghost predicate RowsInOrder(layout: Layout, order: seq<(string, string)>)
  {
    forall i, j :: 0 <= i < j < |order| ==> layout(order[i].0) <= layout(order[j].0)
  }

  /** Every edge once. */
  ghost predicate Walks(layout: Layout, order: seq<(string, string)>, edges: EdgeMap)
  {
    Distinct(order) && RowsInOrder(layout, order) && forall e :: e in order <==> e in edges
  }

  /** The edge lands on `p`, and no edge of a lower slot does. */
  ghost predicate Foremost(layout: Layout, edges: EdgeMap, rename: Rename, p: (string, string), e: (string, string))
  {
    && e in edges && Onto(rename, e, p)
    && forall f :: f in edges && Onto(rename, f, p) ==> layout(e.0) <= layout(f.0)
  }

  ghost predicate Claimed(edges: EdgeMap, rename: Rename, p: (string, string))
  {
    exists e :: e in edges && Onto(rename, e, p) && edges[e] == DependsOn
  }

  /** On every new pair the edges of its foremost row agree, or some edge claims a dependency. */
  ghost predicate RowsSettle(layout: Layout, into: EdgeMap, edges: EdgeMap, rename: Rename)
  {
    forall p, e, f {:trigger Foremost(layout, edges, rename, p, e), Foremost(layout, edges, rename, p, f)} ::
      p !in into && Foremost(layout, edges, rename, p, e) && Foremost(layout, edges, rename, p, f) ==>
        edges[e] == edges[f] || Claimed(edges, rename, p)
  }

  /** Every walk the layout allows builds the same edges. */
  ghost predicate WalkFree(layout: Layout, into: EdgeMap, edges: EdgeMap, rename: Rename)
  {
    forall x, y :: Walks(layout, x, edges) && Walks(layout, y, edges) ==> Copied(into, edges, rename, x) == Copied(into, edges, rename, y)
  }

  /** The leader of a walk is an edge of the foremost row. */
  lemma LeaderIsForemost(layout: Layout, edges: EdgeMap, rename: Rename, order: seq<(string, string)>, p: (string, string), k: EdgeKind)
      returns (e: (string, string))
    requires Walks(layout, order, edges) && Leads(edges, rename, order, p, k)
    ensures Foremost(layout, edges, rename, p, e) && edges[e] == k
  {
    var i :| 0 <= i < |order| && order[i] in edges && Onto(rename, order[i], p) && edges[order[i]] == k
             && forall j :: 0 <= j < i ==> !Onto(rename, order[j], p);
    e := order[i];
    forall f | f in edges && Onto(rename, f, p) ensures layout(e.0) <= layout(f.0) {
      var j :| 0 <= j < |order| && order[j] == f;
      assert i <= j;
    }
  }

  lemma ClaimIsBrought(layout: Layout, edges: EdgeMap, rename: Rename, order: seq<(string, string)>, p: (string, string))
    requires Walks(layout, order, edges)
    ensures Brings(edges, rename, order, p, DependsOn) <==> Claimed(edges, rename, p)
    ensures (exists e :: e in order && Onto(rename, e, p)) <==> exists e :: e in edges && Onto(rename, e, p)
  {
  }

  lemma SettledPair(layout: Layout, into: EdgeMap, edges: EdgeMap, rename: Rename,
                                       x: seq<(string, string)>, y: seq<(string, string)>, p: (string, string))
    requires Walks(layout, x, edges) && Walks(layout, y, edges) && Stated(edges) && Stated(into) && RowsSettle(layout, into, edges, rename)
    ensures var a, b := Copied(into, edges, rename, x), Copied(into, edges, rename, y);
            (p in a <==> p in b) && (p in a ==> a[p] == b[p])
  {
    var a, b := Copied(into, edges, rename, x), Copied(into, edges, rename, y);
    CopyMeaning(into, edges, rename, x, p);
    CopyMeaning(into, edges, rename, y, p);
    ClaimIsBrought(layout, edges, rename, x, p);
    ClaimIsBrought(layout, edges, rename, y, p);
    if p in a && p !in into && !Claimed(edges, rename, p) {
      var e := LeaderIsForemost(layout, edges, rename, x, p, a[p]);
      var f := LeaderIsForemost(layout, edges, rename, y, p, b[p]);
    }
  }

  /** For any rename and any target: the copy does not depend on how the adjacency maps are walked exactly when every
      new pair's foremost row agrees on its kind or some edge claims a dependency there. */
  lemma WalkFreeIffRowsSettle(layout: Layout, into: EdgeMap, edges: EdgeMap, rename: Rename)
    requires Stated(edges) && Stated(into)
    ensures WalkFree(layout, into, edges, rename) <==> RowsSettle(layout, into, edges, rename)
  {
    if RowsSettle(layout, into, edges, rename) {
      forall x, y | Walks(layout, x, edges) && Walks(layout, y, edges)
        ensures Copied(into, edges, rename, x) == Copied(into, edges, rename, y)
      {
        forall p ensures var a, b := Copied(into, edges, rename, x), Copied(into, edges, rename, y);
                         (p in a <==> p in b) && (p in a ==> a[p] == b[p])
        {
          SettledPair(layout, into, edges, rename, x, y, p);
        }
      }
    } else {
      var p, e, f :| p !in into && Foremost(layout, edges, rename, p, e) && Foremost(layout, edges, rename, p, f)
                     && edges[e] != edges[f] && !Claimed(edges, rename, p);
      var x := WalkLedBy(layout, into, edges, rename, p, e);
      var y := WalkLedBy(layout, into, edges, rename, p, f);
    }
  }

  /** No two nodes that edges touch share a slot, as in any slot table. */
  ghost predicate OneEach(layout: Layout, edges: EdgeMap)
  {
    forall x, y {:trigger layout(x), layout(y)} :: x in Ends(edges) && y in Ends(edges) && layout(x) == layout(y) ==> x == y
  }

  ghost function Ends(edges: EdgeMap): set<string>
  {
    (set e | e in edges :: e.0) + set e | e in edges :: e.1
  }

  /** All edges that land on a new pair agree, or one of them claims a dependency. */
  ghost predicate KindsSettle(into: EdgeMap, edges: EdgeMap, rename: Rename)
  {
    forall p, e, f {:trigger Onto(rename, e, p), Onto(rename, f, p)} ::
      p !in into && e in edges && f in edges && Onto(rename, e, p) && Onto(rename, f, p) ==>
        edges[e] == edges[f] || Claimed(edges, rename, p)
  }

  /** The copy is a function of the edges alone: neither the slots nor the walk decides. */
  ghost predicate ContentDecides(into: EdgeMap, edges: EdgeMap, rename: Rename)
  {
    forall l, m, x, y :: OneEach(l, edges) && OneEach(m, edges) && Walks(l, x, edges) && Walks(m, y, edges) ==>
      Copied(into, edges, rename, x) == Copied(into, edges, rename, y)
  }

  /** For any rename and any target, the copy is a function of the edges alone exactly when the kinds landing on every
      new pair settle. */
  lemma ContentDecidesIffKindsSettle(into: EdgeMap, edges: EdgeMap, rename: Rename)
    requires Stated(edges) && Stated(into)
    ensures ContentDecides(into, edges, rename) <==> KindsSettle(into, edges, rename)
  {
    if KindsSettle(into, edges, rename) {
      forall l, m, x, y | OneEach(l, edges) && OneEach(m, edges) && Walks(l, x, edges) && Walks(m, y, edges)
        ensures Copied(into, edges, rename, x) == Copied(into, edges, rename, y)
      {
        SettledCopies(l, m, into, edges, rename, x, y);
      }
    } else {
      var p, e, f :| p !in into && e in edges && f in edges && Onto(rename, e, p) && Onto(rename, f, p)
                     && edges[e] != edges[f] && !Claimed(edges, rename, p);
      var l := LowestFirst(edges, e.0);
      var m := LowestFirst(edges, f.0);
      var x := WalkLedBy(l, into, edges, rename, p, e);
      var y := WalkLedBy(m, into, edges, rename, p, f);
    }
  }

  lemma SettledCopies(l: Layout, m: Layout, into: EdgeMap, edges: EdgeMap, rename: Rename, x: seq<(string, string)>, y: seq<(string, string)>)
    requires Stated(edges) && Stated(into) && KindsSettle(into, edges, rename) && Walks(l, x, edges) && Walks(m, y, edges)
    ensures Copied(into, edges, rename, x) == Copied(into, edges, rename, y)
  {
    var a, b := Copied(into, edges, rename, x), Copied(into, edges, rename, y);
    forall p ensures (p in a <==> p in b) && (p in a ==> a[p] == b[p]) {
      CopyMeaning(into, edges, rename, x, p);
      CopyMeaning(into, edges, rename, y, p);
      ClaimIsBrought(l, edges, rename, x, p);
      ClaimIsBrought(m, edges, rename, y, p);
      if p in a && p !in into && !Claimed(edges, rename, p) {
        var e := LeaderIsForemost(l, edges, rename, x, p, a[p]);
        var f := LeaderIsForemost(m, edges, rename, y, p, b[p]);
      }
    }
  }

  /** A layout with a slot for each node and a chosen node in the lowest. */
  lemma LowestFirst(edges: EdgeMap, first: string) returns (layout: Layout)
    requires first in Ends(edges)
    ensures OneEach(layout, edges) && forall x :: layout(first) <= layout(x)
  {
    var rest := Seats(Ends(edges) - {first});
    layout := x => if x == first then 0 else rest(x) + 1;
  }

  lemma {:induction false} Seats(ids: set<string>) returns (layout: Layout)
    ensures forall x, y {:trigger layout(x), layout(y)} :: x in ids && y in ids && layout(x) == layout(y) ==> x == y
    decreases ids
  {
    if ids == {} {
      layout := x => 0;
    } else {
      var first :| first in ids;
      var rest := Seats(ids - {first});
      layout := x => if x == first then 0 else rest(x) + 1;
    }
  }

  /** On one slot table only the edges that leave one node can race: whatever the table, every walk of it builds the
      same edges exactly when those settle. */
  lemma AlwaysWalkFree(into: EdgeMap, edges: EdgeMap, rename: Rename)
    requires Stated(edges) && Stated(into)
    ensures (forall layout: Layout :: OneEach(layout, edges) ==> WalkFree(layout, into, edges, rename)) <==>
            forall p, e, f {:trigger Onto(rename, e, p), Onto(rename, f, p)} ::
              p !in into && e in edges && f in edges && e.0 == f.0 && Onto(rename, e, p) && Onto(rename, f, p) ==>
                edges[e] == edges[f] || Claimed(edges, rename, p)
  {
    if p, e, f :| p !in into && e in edges && f in edges && e.0 == f.0 && Onto(rename, e, p) && Onto(rename, f, p)
                  && edges[e] != edges[f] && !Claimed(edges, rename, p) {
      var layout := LowestFirst(edges, e.0);
      assert Foremost(layout, edges, rename, p, e) && Foremost(layout, edges, rename, p, f);
      WalkFreeIffRowsSettle(layout, into, edges, rename);
    } else {
      forall layout: Layout | OneEach(layout, edges) ensures WalkFree(layout, into, edges, rename) {
        assert RowsSettle(layout, into, edges, rename);
        WalkFreeIffRowsSettle(layout, into, edges, rename);
      }
    }
  }

  /** A rename that keeps names apart or drops them, as copying a whole or a filtered graph does, never depends on the walk. */
  lemma DistinctNamesAreWalkFree(layout: Layout, into: EdgeMap, edges: EdgeMap, rename: Rename)
    requires Stated(edges) && Stated(into)
    requires forall x, y {:trigger rename(x), rename(y)} :: rename(x) == rename(y) && rename(x) != "" ==> x == y
    ensures WalkFree(layout, into, edges, rename)
  {
    forall e: (string, string), f: (string, string), p | Onto(rename, e, p) && Onto(rename, f, p) ensures e == f {
      assert e == (e.0, e.1) && f == (f.0, f.1);
    }
    WalkFreeIffRowsSettle(layout, into, edges, rename);
  }

  /** A walk in which a foremost edge comes before every other edge that lands on its pair. */
  lemma WalkLedBy(layout: Layout, into: EdgeMap, edges: EdgeMap, rename: Rename, p: (string, string), e: (string, string))
      returns (order: seq<(string, string)>)
    requires Stated(edges) && Stated(into) && p !in into && Foremost(layout, edges, rename, p, e) && !Claimed(edges, rename, p)
    ensures Walks(layout, order, edges)
    ensures p in Copied(into, edges, rename, order) && Copied(into, edges, rename, order)[p] == edges[e]
  {
    order := BuildWalk(layout, edges, rename, p, e);
    CopyMeaning(into, edges, rename, order, p);
    ClaimIsBrought(layout, edges, rename, order, p);
    LeaderBrings(edges, rename, order, p, edges[e]);
    OneLeader(edges, rename, order, p);
  }

  lemma OneLeader(edges: EdgeMap, rename: Rename, order: seq<(string, string)>, p: (string, string))
    ensures forall k, l :: Leads(edges, rename, order, p, k) && Leads(edges, rename, order, p, l) ==> k == l
  {
    forall k, l | Leads(edges, rename, order, p, k) && Leads(edges, rename, order, p, l) ensures k == l {
      var i :| 0 <= i < |order| && order[i] in edges && Onto(rename, order[i], p) && edges[order[i]] == k
               && forall j :: 0 <= j < i ==> !Onto(rename, order[j], p);
      var m :| 0 <= m < |order| && order[m] in edges && Onto(rename, order[m], p) && edges[order[m]] == l
               && forall j :: 0 <= j < m ==> !Onto(rename, order[j], p);
      assert i == m;
    }
  }

  lemma BuildWalk(layout: Layout, edges: EdgeMap, rename: Rename, p: (string, string), e: (string, string))
      returns (order: seq<(string, string)>)
    requires Foremost(layout, edges, rename, p, e)
    ensures Walks(layout, order, edges) && Leads(edges, rename, order, p, edges[e])
  {
    var below := set f | f in edges && layout(f.0) < layout(e.0);
    var above := edges.Keys - below - {e};
    var lo := RowSort(layout, below);
    var hi := RowSort(layout, above);
    order := lo + [e] + hi;
    Between(layout, lo, e, hi);
    forall f ensures f in order <==> f in edges {
      assert f in order <==> f in lo || f == e || f in hi;
    }
    var at := |lo|;
    assert order[at] == e && forall i :: 0 <= i < at ==> order[i] in lo;
    assert forall i :: 0 <= i < at ==> !Onto(rename, order[i], p);
  }

  lemma Between(layout: Layout, lo: seq<(string, string)>, e: (string, string), hi: seq<(string, string)>)
    requires Distinct(lo) && Distinct(hi) && RowsInOrder(layout, lo) && RowsInOrder(layout, hi)
    requires forall f :: f in lo ==> layout(f.0) < layout(e.0)
    requires e !in hi && forall f :: f in hi ==> f !in lo && layout(e.0) <= layout(f.0)
    ensures Distinct(lo + [e] + hi) && RowsInOrder(layout, lo + [e] + hi)
  {
    var order, at := lo + [e] + hi, |lo|;
    assert forall i :: 0 <= i < |order| ==> if i < at then order[i] in lo else if i == at then order[i] == e else order[i] in hi;
  }

  /** Some edges, rows in slot order. */
  lemma {:induction false} RowSort(layout: Layout, some: set<(string, string)>) returns (order: seq<(string, string)>)
    ensures Distinct(order) && RowsInOrder(layout, order) && forall e :: e in order <==> e in some
    decreases some
  {
    if some == {} {
      order := [];
    } else {
      var last := HighestRow(layout, some);
      order := RowSort(layout, some - {last});
      assert forall i :: 0 <= i < |order| ==> order[i] in order;
      order := order + [last];
    }
  }

  lemma {:induction false} HighestRow(layout: Layout, some: set<(string, string)>) returns (last: (string, string))
    requires some != {}
    ensures last in some && forall e :: e in some ==> layout(e.0) <= layout(last.0)
    decreases some
  {
    last :| last in some;
    var rest := some - {last};
    if rest != {} {
      var other := HighestRow(layout, rest);
      last := if layout(last.0) < layout(other.0) then other else last;
    }
  }

  // ----- The rename a promotion performs

  function Swap(a: string, b: string): Rename
  {
    x => if x == a then b else x
  }

  /** Where the rename makes two edges collide, their kinds merge alike in either order, or the edge already between
      the survivor and its neighbour sits in the lower slot and is walked first. */
  ghost predicate CollisionsSettle(layout: Layout, edges: EdgeMap, a: string, b: string)
  {
    forall p :: p in edges && p.0 != a && p.1 != a && Arrives(edges, a, b, edges.Keys, p) ==>
      var q := Source(a, b, p);
      edges[p] == edges[q] || edges[p] == DependsOn || edges[q] == DependsOn || layout(p.0) < layout(q.0)
  }

  ghost predicate AlwaysRenames(layout: Layout, v: View, a: string, b: string)
  {
    forall order :: Walks(layout, order, v.edges) ==> Copied(map[], v.edges, Swap(a, b), order) == Renamed(v.edges, a, b)
  }

  ghost predicate Renameable(v: View, a: string, b: string)
  {
    WellFormed(v) && a != b && b != "" && forall id :: id in v.ids ==> id != ""
  }

  /** Copying every edge into an edgeless graph through the rename builds what a promotion leaves, on every walk the
      slots allow, exactly when the collisions settle. */
  lemma RenamedIffSettled(layout: Layout, v: View, a: string, b: string)
    requires Renameable(v, a, b)
    ensures AlwaysRenames(layout, v, a, b) <==> CollisionsSettle(layout, v.edges, a, b)
  {
    if CollisionsSettle(layout, v.edges, a, b) {
      forall order | Walks(layout, order, v.edges) ensures Copied(map[], v.edges, Swap(a, b), order) == Renamed(v.edges, a, b) {
        RenamedIsCopied(layout, v, a, b, order);
      }
    } else {
      var p :| p in v.edges && p.0 != a && p.1 != a && Arrives(v.edges, a, b, v.edges.Keys, p)
               && v.edges[p] != v.edges[Source(a, b, p)] && v.edges[p] != DependsOn && v.edges[Source(a, b, p)] != DependsOn
               && layout(Source(a, b, p).0) <= layout(p.0);
      UnsettledOrder(layout, v, a, b, p);
    }
  }

  lemma RenamedIsCopied(layout: Layout, v: View, a: string, b: string, order: seq<(string, string)>)
    requires Renameable(v, a, b) && Walks(layout, order, v.edges) && CollisionsSettle(layout, v.edges, a, b)
    ensures Copied(map[], v.edges, Swap(a, b), order) == Renamed(v.edges, a, b)
  {
    var got, want := Copied(map[], v.edges, Swap(a, b), order), Renamed(v.edges, a, b);
    forall p ensures (p in got <==> p in want) && (p in got ==> got[p] == want[p]) {
      CopyMeaning(map[], v.edges, Swap(a, b), order, p);
      RenamedPair(layout, v, a, b, order, got, p);
    }
  }

  lemma UnsettledOrder(layout: Layout, v: View, a: string, b: string, p: (string, string))
    requires Renameable(v, a, b)
    requires p in v.edges && p.0 != a && p.1 != a && Arrives(v.edges, a, b, v.edges.Keys, p)
    requires v.edges[p] != v.edges[Source(a, b, p)] && v.edges[p] != DependsOn && v.edges[Source(a, b, p)] != DependsOn
    requires layout(Source(a, b, p).0) <= layout(p.0)
    ensures !AlwaysRenames(layout, v, a, b)
  {
    var s := Source(a, b, p);
    LandsOn(v, a, b, s, p);
    forall e | e in v.edges && Onto(Swap(a, b), e, p) ensures v.edges[e] != DependsOn && layout(s.0) <= layout(e.0) {
      LandsOn(v, a, b, e, p);
    }
    var order := WalkLedBy(layout, map[], v.edges, Swap(a, b), p, s);
    InMoved(v.edges, a, b, v.edges.Keys, p);
  }

  /** What lands on a pair: the edge itself when it touches neither end of the rename, and its moved twin. */
  lemma LandsOn(v: View, a: string, b: string, e: (string, string), p: (string, string))
    requires Renameable(v, a, b) && e in v.edges
    ensures Onto(Swap(a, b), e, p) <==>
            p.0 != a && p.1 != a && p.0 != p.1 && (e == p || ((p.0 == b || p.1 == b) && e == Source(a, b, p)))
  {
    assert e == (e.0, e.1) && p == (p.0, p.1);
  }

  lemma RenamedPair(layout: Layout, v: View, a: string, b: string, order: seq<(string, string)>, got: EdgeMap, p: (string, string))
    requires Renameable(v, a, b) && Walks(layout, order, v.edges) && CollisionsSettle(layout, v.edges, a, b)
    requires CopyMeans(map[], v.edges, Swap(a, b), order, got, p)
    ensures p in got <==> p in Renamed(v.edges, a, b)
    ensures p in got ==> got[p] == Renamed(v.edges, a, b)[p]
  {
    var s := Source(a, b, p);
    RenamedKind(v.edges, a, b, p);
    hide Renamed;
    hide Walks;
    ClaimIsBrought(layout, v.edges, Swap(a, b), order, p);
    Landing(v, a, b, p);
    hide Onto;
    if p in got && !Claimed(v.edges, Swap(a, b), p) {
      var e := LeaderIsForemost(layout, v.edges, Swap(a, b), order, p, got[p]);
    }
  }

  lemma RenamedKind(edges: EdgeMap, a: string, b: string, p: (string, string))
    ensures p in Renamed(edges, a, b) <==> p.0 != a && p.1 != a && p.0 != p.1 && (p in edges || Arrives(edges, a, b, edges.Keys, p))
    ensures p in Renamed(edges, a, b) ==>
              Renamed(edges, a, b)[p] == (if !Arrives(edges, a, b, edges.Keys, p) then edges[p]
                                          else if p in edges then MergeEdgeKind(edges[p], edges[Source(a, b, p)])
                                          else edges[Source(a, b, p)])
  {
    InMoved(edges, a, b, edges.Keys, p);
  }

  /** Only the pair's own edge and its moved twin land on it. */
  lemma Landing(v: View, a: string, b: string, p: (string, string))
    requires Renameable(v, a, b)
    ensures forall e :: e in v.edges && Onto(Swap(a, b), e, p) ==>
              p.0 != a && p.1 != a && p.0 != p.1 && (e == p || (Arrives(v.edges, a, b, v.edges.Keys, p) && e == Source(a, b, p)))
    ensures p.0 != a && p.1 != a && p.0 != p.1 && p in v.edges ==> Onto(Swap(a, b), p, p)
    ensures p.0 != a && p.1 != a && p.0 != p.1 && Arrives(v.edges, a, b, v.edges.Keys, p) ==> Onto(Swap(a, b), Source(a, b, p), p)
  {
    forall e | e in v.edges ensures Onto(Swap(a, b), e, p) <==>
            p.0 != a && p.1 != a && p.0 != p.1 && (e == p || ((p.0 == b || p.1 == b) && e == Source(a, b, p))) {
      LandsOn(v, a, b, e, p);
    }
  }

  /** One node that points at both the old node and the survivor, with two kinds no vocabulary ranks: its row is one
      map, so two walks of the same graph copy it differently. */
  lemma UnsettledRow(layout: Layout, a: string, b: string, c: string)
    requires a != b && a != c && b != c && b != "" && c != ""
    ensures var edges: EdgeMap := map[(c, a) := OtherKind("x"), (c, b) := Describes];
            var one, two := [(c, a), (c, b)], [(c, b), (c, a)];
            && Walks(layout, one, edges) && Walks(layout, two, edges)
            && Copied(map[], edges, Swap(a, b), one) != Copied(map[], edges, Swap(a, b), two)
  {
    var edges: EdgeMap := map[(c, a) := OtherKind("x"), (c, b) := Describes];
    var one, two := [(c, a), (c, b)], [(c, b), (c, a)];
    assert one[..1] == [(c, a)] && two[..1] == [(c, b)] && [(c, a)][..0] == [] && [(c, b)][..0] == [];
    assert Copied(map[], edges, Swap(a, b), [(c, a)]) == map[(c, b) := OtherKind("x")];
    assert Copied(map[], edges, Swap(a, b), [(c, b)]) == map[(c, b) := Describes];
    assert Copied(map[], edges, Swap(a, b), one)[(c, b)] == OtherKind("x");
    assert Copied(map[], edges, Swap(a, b), two)[(c, b)] == Describes;
  }
}

/** Node replacement and edge copying over the slot table: detectorkit/nodes.go and model/graph.go. */
module Promotion {
  import opened Orders
  import opened MergeClasses
  import opened EdgeKinds
  import opened Locations
  import opened Nodes
  import opened Views
  import opened SlotTables
  import opened Graphs
  import opened Renaming

  predicate IsSpace(c: char)
  {
    c in "\t\n\U{000b}\U{000c}\r \U{0085}\U{00a0}\U{1680}\U{2028}\U{2029}\U{202f}\U{205f}\U{3000}" || '\U{2000}' <= c <= '\U{200a}'
  }

  predicate Blank(s: string)
  {
    forall c :: c in s ==> IsSpace(c)
  }

  /** Mints a module node for a declaring path and the coordinates of a node; none when its gates refuse. */
  type Mint = (string, Content) -> Option<Content>

  ghost predicate MintsModules(mint: Mint)
  {
    forall path, c :: mint(path, c).Some? ==> mint(path, c).value.kind == ModuleKind && mint(path, c).value.id != ""
  }

  /** A dependency, or a module declared elsewhere, is a candidate. */
  predicate Promotable(c: Content, path: string)
  {
    c.kind == DependencyKind || (c.kind == ModuleKind && c.manifestPath != path)
  }

  /** The module that takes a node's place, if any does. */
  function Replacement(c: Content, path: string, mint: Mint): Option<Content>
  {
    if !Promotable(c, path) || mint(path, c).None? || mint(path, c).value.id == c.id then None
    else Some(Carrying(mint(path, c).value, c))
  }

  /** The module with everything learned about the node it replaces. */
  function Carrying(module': Content, c: Content): (m: Content)
    ensures m.id == module'.id && m.kind == module'.kind
  {
    module'.(locations := c.locations, facts := module'.facts.(metadata := c.facts.metadata))
  }

  // ----- Incident edges

  datatype Incident = Incident(id: string, kind: EdgeKind)

  /** The neighbours in ID order, each with the kind its edge was recorded with. */
  ghost predicate IncidentList(list: seq<Incident>, edges: EdgeMap, at: string, inbound: bool)
  {
    && (forall i, j :: 0 <= i < j < |list| ==> Less(list[i].id, list[j].id))
    && (forall i :: 0 <= i < |list| ==> End(list[i].id, at, inbound) in edges && edges[End(list[i].id, at, inbound)] == list[i].kind)
    && (forall e :: e in edges && (if inbound then e.1 else e.0) == at ==> exists i :: 0 <= i < |list| && e == End(list[i].id, at, inbound))
  }

  function End(id: string, at: string, inbound: bool): (string, string)
  {
    if inbound then (id, at) else (at, id)
  }

  method IncidentEdges(g: Graph, nodeID: string, inbound: bool) returns (list: seq<Incident>)
    requires g.Valid() && nodeID in g.NodeMap()
    ensures IncidentList(list, g.Edges(), nodeID, inbound)
  {
    hide *;
    g.NodesFiled();
    var r;
    if inbound {
      r := g.Dependents(nodeID);
    } else {
      r := g.DirectDependencies(nodeID);
    }
    var neighbours := r.value;
    NeighboursAre(g, nodeID, inbound, neighbours);
    list := [];
    for i := 0 to |neighbours|
      invariant |list| == i && forall j :: 0 <= j < i ==> list[j] == Incident(neighbours[j].id, g.Edges()[End(neighbours[j].id, nodeID, inbound)])
    {
      var kind := if inbound then g.EdgeKindOf(neighbours[i].id, nodeID) else g.EdgeKindOf(nodeID, neighbours[i].id);
      EndIs(neighbours[i].id, nodeID, inbound);
      list := list + [Incident(neighbours[i].id, kind)];
    }
    ListIsIncident(list, neighbours, g.Edges(), nodeID, inbound);
  }

  lemma EndIs(id: string, at: string, inbound: bool)
    ensures End(id, at, inbound) == if inbound then (id, at) else (at, id)
  {
  }

  ghost predicate Around(neighbours: seq<Node>, edges: EdgeMap, at: string, inbound: bool)
  {
    && (forall i, j :: 0 <= i < j < |neighbours| ==> Less(neighbours[i].id, neighbours[j].id))
    && (forall e :: e in edges && (if inbound then e.1 else e.0) == at ==>
          exists i :: 0 <= i < |neighbours| && e == End(neighbours[i].id, at, inbound))
  }

  lemma NeighboursAre(g: Graph, at: string, inbound: bool, neighbours: seq<Node>)
    requires g.Valid() && at in g.indexByID && Listed(neighbours, g.NodeMap(), if inbound then g.Parents(at) else g.Children(at))
    ensures Around(neighbours, g.Edges(), at, inbound)
    ensures forall i :: 0 <= i < |neighbours| ==> End(neighbours[i].id, at, inbound) in g.Edges()
  {
    g.AbsWellFormed();
    hide TableOk;
    var edges := g.Edges();
    forall e | e in edges && (if inbound then e.1 else e.0) == at
      ensures exists i :: 0 <= i < |neighbours| && e == End(neighbours[i].id, at, inbound)
    {
      assert e == (e.0, e.1);
      var other := if inbound then e.0 else e.1;
      assert other in if inbound then g.Parents(at) else g.Children(at);
      var i :| 0 <= i < |neighbours| && neighbours[i].id == other;
    }
  }

  lemma ListIsIncident(list: seq<Incident>, neighbours: seq<Node>, edges: EdgeMap, at: string, inbound: bool)
    requires Around(neighbours, edges, at, inbound) && |list| == |neighbours|
    requires forall j :: 0 <= j < |list| ==>
               End(neighbours[j].id, at, inbound) in edges && list[j] == Incident(neighbours[j].id, edges[End(neighbours[j].id, at, inbound)])
    ensures IncidentList(list, edges, at, inbound)
  {
    forall e | e in edges && (if inbound then e.1 else e.0) == at ensures exists i :: 0 <= i < |list| && e == End(list[i].id, at, inbound) {
      var i :| 0 <= i < |neighbours| && e == End(neighbours[i].id, at, inbound);
      assert list[i].id == neighbours[i].id;
    }
  }

  // ----- Re-pointing

  method Reattach(g: Graph, fromID: string, toID: string, kind: EdgeKind)
    requires g.Valid() && fromID in g.NodeMap() && toID in g.NodeMap() && kind != Unstated
    modifies g
    ensures g.Valid() && g.NodeMap() == old(g.NodeMap()) && g.ContentMap() == old(g.ContentMap())
    ensures g.Edges() == if fromID == toID then old(g.Edges()) else WithEdge(old(g.Edges()), fromID, toID, kind)
  {
    hide *;
    g.NodesFiled();
    if fromID != toID {
      var added := g.AddTypedEdge(fromID, toID, kind);
    }
  }

  ghost function Ends(list: seq<Incident>, at: string, inbound: bool, count: nat): set<(string, string)>
    requires count <= |list|
  {
    set i | 0 <= i < count :: End(list[i].id, at, inbound)
  }

  lemma NextEnd(v: View, list: seq<Incident>, at: string, b: string, inbound: bool, i: nat, done: set<(string, string)>)
    requires WellFormed(v) && IncidentList(list, v.edges, at, inbound) && i < |list| && at != b
    requires forall e :: e in done ==> (if inbound then e.0 else e.1) == at
    ensures list[i].kind != Unstated && list[i].id in v.ids && list[i].id != at
    ensures var e := End(list[i].id, b, inbound);
            Moved(v.edges, at, b, done + Ends(list, at, inbound, i + 1)) ==
            if e.0 == e.1 then Moved(v.edges, at, b, done + Ends(list, at, inbound, i))
            else WithEdge(Moved(v.edges, at, b, done + Ends(list, at, inbound, i)), e.0, e.1, list[i].kind)
  {
    hide Moved;
    hide WithEdge;
    var moved, e := done + Ends(list, at, inbound, i), End(list[i].id, at, inbound);
    assert Ends(list, at, inbound, i + 1) == Ends(list, at, inbound, i) + {e};
    assert done + Ends(list, at, inbound, i + 1) == moved + {e};
    assert e in v.edges && v.edges[e] == list[i].kind;
    assert e !in moved by {
      assert forall j :: 0 <= j < i ==> list[j].id != list[i].id by { LessIsStrictTotal(); }
    }
    if inbound {
      MoveParent(v, at, b, moved, list[i].id);
    } else {
      MoveChild(v, at, b, moved, list[i].id);
    }
  }

  /** Re-adds the remembered edges of one direction at the survivor. */
  method ReattachAll(g: Graph, list: seq<Incident>, survivor: string, inbound: bool, ghost v: View, ghost at: string, ghost done: set<(string, string)>)
    requires g.Valid() && WellFormed(v) && IncidentList(list, v.edges, at, inbound) && at != survivor
    requires survivor in g.NodeMap() && (v.ids - {at}) <= g.NodeMap().Keys
    requires forall e :: e in done ==> (if inbound then e.0 else e.1) == at
    requires g.Edges() == Moved(v.edges, at, survivor, done)
    modifies g
    ensures g.Valid() && g.NodeMap() == old(g.NodeMap()) && g.ContentMap() == old(g.ContentMap())
    ensures g.Edges() == Moved(v.edges, at, survivor, done + Ends(list, at, inbound, |list|))
  {
    hide *;
    NoEnds(list, at, inbound, done);
    for i := 0 to |list|
      invariant g.Valid() && g.NodeMap() == old(g.NodeMap()) && g.ContentMap() == old(g.ContentMap())
      invariant g.Edges() == Moved(v.edges, at, survivor, done + Ends(list, at, inbound, i))
    {
      NextEnd(v, list, at, survivor, inbound, i, done);
      EndIs(list[i].id, survivor, inbound);
      if inbound {
        Reattach(g, list[i].id, survivor, list[i].kind);
      } else {
        Reattach(g, survivor, list[i].id, list[i].kind);
      }
    }
  }

  lemma NoEnds(list: seq<Incident>, at: string, inbound: bool, done: set<(string, string)>)
    ensures done + Ends(list, at, inbound, 0) == done
  {
  }

  /** Once both directions are back, every edge of the node has moved. */
  lemma AllMoved(v: View, at: string, b: string, parents: seq<Incident>, children: seq<Incident>)
    requires WellFormed(v) && at != b && IncidentList(parents, v.edges, at, true) && IncidentList(children, v.edges, at, false)
    ensures Moved(v.edges, at, b, {} + Ends(parents, at, true, |parents|) + Ends(children, at, false, |children|)) == Renamed(v.edges, at, b)
  {
    var moved := {} + Ends(parents, at, true, |parents|) + Ends(children, at, false, |children|);
    var got, want := Moved(v.edges, at, b, moved), Renamed(v.edges, at, b);
    forall e | e in v.edges && (e.0 == at || e.1 == at) ensures e in moved {
      if e.1 == at {
        var i :| 0 <= i < |parents| && e == End(parents[i].id, at, true);
      } else {
        var i :| 0 <= i < |children| && e == End(children[i].id, at, false);
      }
    }
    forall p ensures (p in got <==> p in want) && (p in got ==> got[p] == want[p]) {
      InMoved(v.edges, at, b, moved, p);
      InMoved(v.edges, at, b, v.edges.Keys, p);
    }
  }

  /** Outside the parents already moved, only edges leaving the node are left. */
  lemma ParentEnds(list: seq<Incident>, at: string)
    ensures forall e :: e in {} + Ends(list, at, true, |list|) ==> e.1 == at
  {
  }

  /** What a promotion must leave behind. */
  ghost predicate Promoted(contents: map<string, Content>, edges: EdgeMap, nodeID: string, path: string, mint: Mint,
                           contents': map<string, Content>, edges': EdgeMap, id: string)
  {
    if Blank(nodeID) || nodeID !in contents || Replacement(contents[nodeID], path, mint).None?
    then contents' == contents && edges' == edges && id == nodeID
    else
      var module' := Replacement(contents[nodeID], path, mint).value;
      && id == module'.id
      && contents' == Folded(contents - {nodeID}, module')
      && edges' == Renamed(edges, nodeID, module'.id)
  }

  /** A manifest, and a module its manifest already declares, stay as they are; a dependency, and any other module, gives
      way to the node its coordinates mint, when that is another one. */
  ghost predicate GivesWay(contents: map<string, Content>, nodeID: string, path: string, mint: Mint, after: map<string, Content>, id: string)
  {
    nodeID in contents && contents[nodeID].id == nodeID && !Blank(nodeID) ==>
      var c := contents[nodeID];
      if c.kind == ManifestKind || (c.kind == ModuleKind && c.manifestPath == path) || mint(path, c).None? || mint(path, c).value.id == nodeID
      then after == contents && id == nodeID
      else id == mint(path, c).value.id && nodeID !in after && id in after
  }

  /** The node gives way to the module; its edges are re-pointed with the kinds they were recorded with. */
  method Replace(g: Graph, nodeID: string, minted: Content)
    requires g.Valid() && nodeID in g.NodeMap() && minted.id != nodeID && minted.id != ""
    modifies g, g.NodeMap().Values
    ensures g.Valid()
    ensures g.ContentMap() == Folded(old(g.ContentMap()) - {nodeID}, minted)
    ensures g.Edges() == Renamed(old(g.Edges()), nodeID, minted.id)
  {
    hide *;
    g.AbsWellFormed();
    g.NodesFiled();
    ghost var v := g.Abs();
    var parents := IncidentEdges(g, nodeID, true);
    var children := IncidentEdges(g, nodeID, false);
    var module' := new Node(minted);
    var removed := g.RemoveNode(nodeID);
    var inserted := g.InsertNode(module');
    g.NodesFiled();
    var survivor := inserted.value.id;
    NothingMoved(v, nodeID, survivor);
    ReattachAll(g, parents, survivor, true, v, nodeID, {});
    ParentEnds(parents, nodeID);
    ReattachAll(g, children, survivor, false, v, nodeID, {} + Ends(parents, nodeID, true, |parents|));
    AllMoved(v, nodeID, survivor, parents, children);
  }

  /** Replaces a dependency, or a module declared elsewhere, by the module its coordinates mint. */
  method PromoteToModule(g: Graph, nodeID: string, manifestPath: string, mint: Mint) returns (id: string, r: Option<GateError>)
    requires g.Valid() && MintsModules(mint)
    modifies g, g.NodeMap().Values
    ensures g.Valid()
    ensures Promoted(old(g.ContentMap()), old(g.Edges()), nodeID, manifestPath, mint, g.ContentMap(), g.Edges(), id)
    ensures r.Some? <==> Refused(old(g.ContentMap()), nodeID, manifestPath, mint)
    ensures GivesWay(old(g.ContentMap()), nodeID, manifestPath, mint, g.ContentMap(), id)
  {
    hide *;
    g.ContentsFiled();
    g.NodesFiled();
    PromotedMeans(g.ContentMap(), g.Edges(), nodeID, manifestPath, mint);
    if Blank(nodeID) {
      return nodeID, None;
    }
    var existing := g.Lookup(nodeID);
    if existing == null {
      return nodeID, None;
    }
    var content := existing.Contents();
    ReplacementMeans(content, manifestPath, mint);
    match content.kind {
      case DependencyKind =>
      case ModuleKind =>
        if content.manifestPath == manifestPath {
          return nodeID, None;
        }
      case ManifestKind =>
        return nodeID, None;
    }
    var minted := mint(manifestPath, content);
    if minted.None? {
      return nodeID, Some(CannotMint);
    }
    if minted.value.id == nodeID {
      return nodeID, None;
    }
    MintedId(mint, manifestPath, content);
    Replace(g, nodeID, Carrying(minted.value, content));
    return minted.value.id, None;
  }

  lemma MintedId(mint: Mint, path: string, c: Content)
    requires MintsModules(mint) && mint(path, c).Some?
    ensures mint(path, c).value.id != ""
  {
  }

  lemma ReplacementMeans(c: Content, path: string, mint: Mint)
    ensures Promotable(c, path) <==> c.kind == DependencyKind || (c.kind == ModuleKind && c.manifestPath != path)
    ensures Replacement(c, path, mint).Some? <==> Promotable(c, path) && mint(path, c).Some? && mint(path, c).value.id != c.id
    ensures Replacement(c, path, mint).Some? ==> Replacement(c, path, mint).value == Carrying(mint(path, c).value, c)
  {
  }

  lemma PromotedMeans(contents: map<string, Content>, edges: EdgeMap, nodeID: string, path: string, mint: Mint)
    ensures Blank(nodeID) || nodeID !in contents || Replacement(contents[nodeID], path, mint).None? ==>
              Promoted(contents, edges, nodeID, path, mint, contents, edges, nodeID) && GivesWay(contents, nodeID, path, mint, contents, nodeID)
    ensures !Blank(nodeID) && nodeID in contents && Replacement(contents[nodeID], path, mint).Some? ==>
              var m := Replacement(contents[nodeID], path, mint).value;
              Promoted(contents, edges, nodeID, path, mint, Folded(contents - {nodeID}, m), Renamed(edges, nodeID, m.id), m.id)
              && GivesWay(contents, nodeID, path, mint, Folded(contents - {nodeID}, m), m.id)
    ensures Refused(contents, nodeID, path, mint) <==>
              !Blank(nodeID) && nodeID in contents && Promotable(contents[nodeID], path) && mint(path, contents[nodeID]).None?
  {
  }

  /** Identities are disjoint by kind, so a module folds into a module: no site and no metadata key of the old node is
      lost, and only a key the surviving module already carries keeps another value. */
  lemma PromotionKeepsEvidence(contents: map<string, Content>, nodeID: string, path: string, mint: Mint)
    requires MintsModules(mint) && nodeID in contents && contents[nodeID].id == nodeID && Replacement(contents[nodeID], path, mint).Some?
    requires var id := mint(path, contents[nodeID]).value.id; id in contents ==> contents[id].kind == ModuleKind
    ensures var c, m := contents[nodeID], Replacement(contents[nodeID], path, mint).value;
            var after := Folded(contents - {nodeID}, m)[m.id];
            var sites := if m.id in contents then contents[m.id].locations else [];
            var known := if m.id in contents then contents[m.id].facts.metadata else map[];
            Canonical(after.locations) == Canonical(sites + c.locations) && after.facts.metadata == c.facts.metadata + known
  {
    var c, m := contents[nodeID], Replacement(contents[nodeID], path, mint).value;
    ReplacementMeans(c, path, mint);
    if m.id in contents {
      MergedCanonical(contents[m.id].locations, c.locations);
    } else {
      assert [] + c.locations == c.locations;
    }
  }

  datatype GateError = CannotMint

  ghost predicate Refused(contents: map<string, Content>, nodeID: string, path: string, mint: Mint)
  {
    !Blank(nodeID) && nodeID in contents && Promotable(contents[nodeID], path) && mint(path, contents[nodeID]).None?
  }

  // ----- Copying edges between graphs

  /** Every edge the rename keeps has both of its ends in the target. */
  ghost predicate Covered(ids: set<string>, edges: EdgeMap, rename: Rename)
  {
    forall e :: e in edges && Kept(rename, e) ==> rename(e.0) in ids && rename(e.1) in ids
  }

  ghost predicate Arrived(ids: set<string>, rename: Rename, e: (string, string))
  {
    Kept(rename, e) ==> rename(e.0) in ids && rename(e.1) in ids
  }

  function SlotsOf(index: map<string, nat>): Layout
  {
    x => if x in index then index[x] else 0
  }

  /** The edges of the slots below `from` are copied, and nothing else. */
  ghost predicate RowsCopied(index: map<string, nat>, edges: EdgeMap, ids: set<string>, rename: Rename, from: nat, order: seq<(string, string)>)
  {
    && Distinct(order) && RowsInOrder(SlotsOf(index), order) && (forall e :: e in edges ==> e.0 in index && e.1 in index)
    && (forall e :: e in order ==> Arrived(ids, rename, e))
    && (forall e :: e in order <==> e in edges && index[e.0] < from)
  }

  /** As well as those of slot `from` itself whose targets are not in `todo`. */
  ghost predicate InsideRow(index: map<string, nat>, edges: EdgeMap, ids: set<string>, rename: Rename,
                            from: nat, todo: set<nat>, order: seq<(string, string)>)
  {
    && Distinct(order) && RowsInOrder(SlotsOf(index), order) && (forall e :: e in edges ==> e.0 in index && e.1 in index)
    && (forall e :: e in order ==> Arrived(ids, rename, e))
    && (forall e :: e in order <==> e in edges && (index[e.0] < from || (index[e.0] == from && index[e.1] !in todo)))
  }

  /** Where a failed copy stops: every lower row is copied, and the next edge has an end the target lacks. */
  ghost predicate StoppedAt(index: map<string, nat>, edges: EdgeMap, ids: set<string>, rename: Rename, order: seq<(string, string)>, e: (string, string))
  {
    && Distinct(order) && RowsInOrder(SlotsOf(index), order) && (forall f :: f in order ==> f in edges && Arrived(ids, rename, f))
    && e in edges && e !in order && !Arrived(ids, rename, e)
    && (forall f :: f in edges && SlotsOf(index)(f.0) < SlotsOf(index)(e.0) ==> f in order)
    && (forall f :: f in order ==> SlotsOf(index)(f.0) <= SlotsOf(index)(e.0))
  }

  lemma StopsHere(index: map<string, nat>, edges: EdgeMap, ids: set<string>, rename: Rename,
                                     from: nat, todo: set<nat>, order: seq<(string, string)>, e: (string, string))
    requires InsideRow(index, edges, ids, rename, from, todo, order)
    requires e in edges && e.0 in index && e.1 in index && index[e.0] == from && index[e.1] in todo
    ensures !Arrived(ids, rename, e) ==> StoppedAt(index, edges, ids, rename, order, e)
  {
  }

  /** What a slot stores is the edges leaving its node. */
  ghost predicate RowHolds(index: map<string, nat>, nodes: seq<Node?>, edges: EdgeMap, from: nat, row: map<nat, EdgeKind>)
  {
    && (forall e :: e in edges && e.0 in index && e.1 in index && index[e.0] == from ==> index[e.1] in row)
    && (forall to :: to in row ==>
          && Live(nodes, from) && Live(nodes, to)
          && IdAt(nodes, from) in index && index[IdAt(nodes, from)] == from && IdAt(nodes, to) in index && index[IdAt(nodes, to)] == to
          && (IdAt(nodes, from), IdAt(nodes, to)) in edges && edges[(IdAt(nodes, from), IdAt(nodes, to))] == row[to])
  }

  lemma RowOfSlot(g: Graph, from: nat)
    requires g.Valid() && from < |g.nodes|
    ensures |g.alive| == |g.outgoing| == |g.nodes|
    ensures g.alive[from] <==> g.nodes[from] != null
    ensures RowHolds(g.indexByID, g.nodes, g.Edges(), from, g.outgoing[from])
    ensures forall to :: to in g.outgoing[from] ==> to < |g.nodes| && g.nodes[from] != null && g.nodes[to] != null && g.alive[to]
  {
    var edges, row := g.Edges(), g.outgoing[from];
    g.AbsWellFormed();
    forall to | to in row
      ensures Live(g.nodes, from) && Live(g.nodes, to)
      ensures (IdAt(g.nodes, from), IdAt(g.nodes, to)) in edges && edges[(IdAt(g.nodes, from), IdAt(g.nodes, to))] == row[to]
    {
      assert Arc(g.outgoing, from, to);
      g.ArcIsEdge(from, to);
    }
    forall e | e in edges && g.indexByID[e.0] == from ensures g.indexByID[e.1] in row {
      g.SlotOfIndex(e.0);
      g.SlotOfIndex(e.1);
      assert e == (e.0, e.1);
      g.ArcIsEdge(from, g.indexByID[e.1]);
    }
  }

  lemma NextCopied(index: map<string, nat>, nodes: seq<Node?>, edges: EdgeMap, ids: set<string>, rename: Rename,
                                      from: nat, row: map<nat, EdgeKind>, todo: set<nat>, order: seq<(string, string)>, to: nat)
    requires InsideRow(index, edges, ids, rename, from, todo, order) && RowHolds(index, nodes, edges, from, row) && IndexOk(index, nodes)
    requires to in todo && to in row
    ensures (IdAt(nodes, from), IdAt(nodes, to)) in edges && edges[(IdAt(nodes, from), IdAt(nodes, to))] == row[to]
    ensures !Arrived(ids, rename, (IdAt(nodes, from), IdAt(nodes, to))) ==>
              StoppedAt(index, edges, ids, rename, order, (IdAt(nodes, from), IdAt(nodes, to)))
    ensures Arrived(ids, rename, (IdAt(nodes, from), IdAt(nodes, to))) ==>
              InsideRow(index, edges, ids, rename, from, todo - {to}, order + [(IdAt(nodes, from), IdAt(nodes, to))])
  {
    var e0 := (IdAt(nodes, from), IdAt(nodes, to));
    StopsHere(index, edges, ids, rename, from, todo, order, e0);
    var next := order + [e0];
    assert forall e :: e in next <==> e in order || e == e0;
    forall e | e in edges && index[e.0] == from && index[e.1] == to ensures e == e0 {
      assert e == (e.0, e.1);
      assert IdAt(nodes, index[e.0]) == e.0 && IdAt(nodes, index[e.1]) == e.1;
    }
  }

  lemma StartRow(index: map<string, nat>, nodes: seq<Node?>, edges: EdgeMap, ids: set<string>, rename: Rename,
                                    from: nat, row: map<nat, EdgeKind>, order: seq<(string, string)>)
    requires RowsCopied(index, edges, ids, rename, from, order) && RowHolds(index, nodes, edges, from, row)
    ensures InsideRow(index, edges, ids, rename, from, row.Keys, order)
  {
  }

  lemma EndRow(index: map<string, nat>, edges: EdgeMap, ids: set<string>, rename: Rename, from: nat, order: seq<(string, string)>)
    requires InsideRow(index, edges, ids, rename, from, {}, order)
    ensures RowsCopied(index, edges, ids, rename, from + 1, order)
  {
  }

  lemma CopyStep(into: EdgeMap, edges: EdgeMap, rename: Rename, order: seq<(string, string)>, e: (string, string))
    requires (forall f :: f in order ==> f in edges) && e in edges
    ensures Copied(into, edges, rename, order + [e]) == CopyOne(Copied(into, edges, rename, order), edges, rename, e)
    ensures CopyOne(Copied(into, edges, rename, order), edges, rename, e) ==
            if rename(e.0) == "" || rename(e.1) == "" || rename(e.0) == rename(e.1) then Copied(into, edges, rename, order)
            else WithEdge(Copied(into, edges, rename, order), rename(e.0), rename(e.1), edges[e])
  {
    assert (order + [e])[..|order|] == order;
  }

  /** One edge through the rename. */
  method CopyEdge(dst: Graph, fromID: string, toID: string, kind: EdgeKind) returns (r: Outcome)
    requires dst.Valid() && kind != Unstated
    modifies dst
    ensures dst.Valid() && dst.NodeMap() == old(dst.NodeMap()) && dst.ContentMap() == old(dst.ContentMap())
    ensures r == if fromID == "" || toID == "" || fromID == toID then Ok
                 else if fromID !in dst.NodeMap() || toID !in dst.NodeMap() then Fail(NodeNotFound) else Ok
    ensures dst.Edges() == if fromID == "" || toID == "" || fromID == toID || r != Ok then old(dst.Edges())
                           else WithEdge(old(dst.Edges()), fromID, toID, kind)
  {
    hide *;
    dst.NodesFiled();
    if fromID == "" || toID == "" || fromID == toID {
      return Ok;
    }
    r := dst.AddTypedEdge(fromID, toID, kind);
  }

  lemma Uncovered(ids: set<string>, edges: EdgeMap, rename: Rename, e: (string, string))
    requires e in edges
    ensures !Arrived(ids, rename, e) ==> !Covered(ids, edges, rename)
    ensures Arrived(ids, rename, e) <==> rename(e.0) == "" || rename(e.1) == "" || rename(e.0) == rename(e.1)
                                         || (rename(e.0) in ids && rename(e.1) in ids)
  {
  }

  method CopyRow(dst: Graph, src: Graph, from: nat, rename: Rename, ghost before: EdgeMap, ghost order0: seq<(string, string)>)
    returns (r: Outcome, ghost order: seq<(string, string)>, ghost stuck: (string, string))
    requires dst.Valid() && src.Valid() && dst != src && from < |src.nodes|
    requires RowsCopied(src.indexByID, src.Edges(), dst.NodeMap().Keys, rename, from, order0)
    requires forall e :: e in order0 ==> e in src.Edges()
    requires dst.Edges() == Copied(before, src.Edges(), rename, order0)
    modifies dst
    ensures dst.Valid() && dst.NodeMap() == old(dst.NodeMap()) && dst.ContentMap() == old(dst.ContentMap())
    ensures r != Ok ==> r == Fail(NodeNotFound) && !Covered(dst.NodeMap().Keys, src.Edges(), rename)
    ensures r != Ok ==> StoppedAt(src.indexByID, src.Edges(), dst.NodeMap().Keys, rename, order, stuck)
    ensures r == Ok ==> RowsCopied(src.indexByID, src.Edges(), dst.NodeMap().Keys, rename, from + 1, order)
    ensures (forall e :: e in order ==> e in src.Edges()) && dst.Edges() == Copied(before, src.Edges(), rename, order)
  {
    hide *;
    order, stuck := order0, ("", "");
    src.Unfolded();
    src.AbsWellFormed();
    RowOfSlot(src, from);
    ghost var index, edges, ids := src.indexByID, src.Edges(), dst.NodeMap().Keys;
    var row: map<nat, EdgeKind> := src.outgoing[from];
    var todo := row.Keys;
    StartRow(index, src.nodes, edges, ids, rename, from, row, order);
    while todo != {}
      invariant todo <= row.Keys
      invariant dst.Valid() && dst.NodeMap() == old(dst.NodeMap()) && dst.ContentMap() == old(dst.ContentMap())
      invariant InsideRow(index, edges, ids, rename, from, todo, order) && forall e :: e in order ==> e in edges
      invariant dst.Edges() == Copied(before, edges, rename, order)
      decreases todo
    {
      var to :| to in todo;
      NextCopied(index, src.nodes, edges, ids, rename, from, row, todo, order, to);
      KindStated(src.Abs(), edges, (IdAt(src.nodes, from), IdAt(src.nodes, to)));
      ghost var e := (IdAt(src.nodes, from), IdAt(src.nodes, to));
      CopyStep(before, edges, rename, order, e);
      Uncovered(ids, edges, rename, e);
      SlotIds(src.nodes, from, to);
      r := CopyEdge(dst, rename(src.nodes[from].id), rename(src.nodes[to].id), row[to]);
      if r != Ok {
        stuck := e;
        return;
      }
      order := order + [e];
      todo := todo - {to};
    }
    EndRow(index, edges, ids, rename, from, order);
    return Ok, order, stuck;
  }

  lemma SlotIds(nodes: seq<Node?>, from: nat, to: nat)
    requires from < |nodes| && to < |nodes| && nodes[from] != null && nodes[to] != null
    ensures IdAt(nodes, from) == nodes[from].id && IdAt(nodes, to) == nodes[to].id
  {
  }

  lemma KindStated(v: View, edges: EdgeMap, e: (string, string))
    requires WellFormed(v) && v == View(v.ids, edges) && e in edges
    ensures edges[e] != Unstated
  {
  }

  lemma NothingCopied(dst: Graph, src: Graph, rename: Rename)
    requires dst.Valid() && src.Valid()
    ensures RowsCopied(src.indexByID, src.Edges(), dst.NodeMap().Keys, rename, 0, [])
    ensures dst.Edges() == Copied(dst.Edges(), src.Edges(), rename, [])
  {
    src.AbsWellFormed();
  }

  lemma RowsCover(src: Graph, rename: Rename, ids: set<string>, order: seq<(string, string)>)
    requires src.Valid() && RowsCopied(src.indexByID, src.Edges(), ids, rename, |src.outgoing|, order)
    ensures Walks(SlotsOf(src.indexByID), order, src.Edges()) && Covered(ids, src.Edges(), rename)
  {
    hide *;
    src.SlotsAreRows();
    EndsIndexed(src);
    AllRowsCover(src.indexByID, src.Edges(), ids, rename, |src.outgoing|, order);
  }

  lemma EndsIndexed(src: Graph)
    requires src.Valid()
    ensures forall e :: e in src.Edges() ==> e.0 in src.indexByID
  {
    src.AbsWellFormed();
    hide SlotTables.TableOk;
  }

  lemma AllRowsCover(index: map<string, nat>, edges: EdgeMap, ids: set<string>, rename: Rename, end: nat, order: seq<(string, string)>)
    requires RowsCopied(index, edges, ids, rename, end, order) && forall e :: e in edges ==> e.0 in index && index[e.0] < end
    ensures Walks(SlotsOf(index), order, edges) && Covered(ids, edges, rename)
  {
    hide RowsInOrder;
    assert forall e :: e in edges ==> e in order;
  }

  /** Copies every edge, kind included, through a rename, row by row in slot order; a self-edge it makes is skipped.
      A failure leaves the edges copied before it. */
  method CopyEdgesInto(dst: Graph, src: Graph, rename: Rename)
    returns (r: Outcome, ghost order: seq<(string, string)>, ghost stuck: (string, string))
    requires dst.Valid() && src.Valid() && dst != src
    modifies dst
    ensures dst.Valid() && dst.NodeMap() == old(dst.NodeMap()) && dst.ContentMap() == old(dst.ContentMap())
    ensures r == if Covered(dst.NodeMap().Keys, src.Edges(), rename) then Ok else Fail(NodeNotFound)
    ensures (forall e :: e in order ==> e in src.Edges()) && dst.Edges() == Copied(old(dst.Edges()), src.Edges(), rename, order)
    ensures r == Ok ==> Walks(SlotsOf(src.indexByID), order, src.Edges())
    ensures r != Ok ==> StoppedAt(src.indexByID, src.Edges(), dst.NodeMap().Keys, rename, order, stuck)
  {
    hide *;
    src.TableLengths();
    order, stuck := [], ("", "");
    r := Ok;
    NothingCopied(dst, src, rename);
    for from := 0 to |src.outgoing|
      invariant dst.Valid() && dst.NodeMap() == old(dst.NodeMap()) && dst.ContentMap() == old(dst.ContentMap()) && r == Ok
      invariant RowsCopied(src.indexByID, src.Edges(), dst.NodeMap().Keys, rename, from, order) && forall e :: e in order ==> e in src.Edges()
      invariant dst.Edges() == Copied(old(dst.Edges()), src.Edges(), rename, order)
    {
      r, order, stuck := CopyRow(dst, src, from, rename, old(dst.Edges()), order);
      if r != Ok {
        return;
      }
    }
    RowsCover(src, rename, dst.NodeMap().Keys, order);
  }
}
