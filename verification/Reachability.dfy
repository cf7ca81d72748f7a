/** Paths and reachability over the meaning of a graph. */
module Reachability {
  import opened Orders
  import opened Views

  ghost predicate IsPath(v: View, p: seq<string>)
  {
    && |p| > 0 && (forall i :: 0 <= i < |p| ==> p[i] in v.ids)
    && (forall i, j :: 0 <= i < j < |p| && j == i + 1 ==> Edge(v, p[i], p[j]))
  }

  ghost predicate PathFromTo(v: View, a: string, b: string, p: seq<string>)
  {
    IsPath(v, p) && p[0] == a && p[|p| - 1] == b
  }

  ghost predicate Reaches(v: View, a: string, b: string)
  {
    exists p :: PathFromTo(v, a, b, p)
  }

  lemma ReachesItself(v: View, a: string)
    requires a in v.ids
    ensures Reaches(v, a, a)
  {
    assert PathFromTo(v, a, a, [a]);
  }

  lemma JoinPaths(v: View, p: seq<string>, q: seq<string>)
    requires IsPath(v, p) && IsPath(v, q) && Edge(v, p[|p| - 1], q[0])
    ensures IsPath(v, p + q)
  {
    var r := p + q;
    forall i, j | 0 <= i < j < |r| && j == i + 1 ensures Edge(v, r[i], r[j]) {
      if j < |p| {
        assert r[i] == p[i] && r[j] == p[j];
      } else if i >= |p| {
        assert r[i] == q[i - |p|] && r[j] == q[j - |p|];
      }
    }
  }

  lemma SubPath(v: View, p: seq<string>, i: nat, j: nat)
    requires IsPath(v, p) && i < j <= |p|
    ensures IsPath(v, p[i..j])
  {
    var r := p[i..j];
    forall k, l | 0 <= k < l < |r| && l == k + 1 ensures Edge(v, r[k], r[l]) {
      assert r[k] == p[i + k] && r[l] == p[i + l];
    }
  }

  /** Every node of a path reaches every later one. */
  lemma PathReaches(v: View, p: seq<string>, i: nat, j: nat)
    requires IsPath(v, p) && i <= j < |p|
    ensures Reaches(v, p[i], p[j])
  {
    SubPath(v, p, i, j + 1);
    assert PathFromTo(v, p[i], p[j], p[i..j + 1]);
  }

  lemma EdgeThenReaches(v: View, a: string, b: string, c: string)
    requires a in v.ids && Edge(v, a, b) && Reaches(v, b, c)
    ensures Reaches(v, a, c)
  {
    var p :| PathFromTo(v, b, c, p);
    assert IsPath(v, [a]);
    JoinPaths(v, [a], p);
    assert PathFromTo(v, a, c, [a] + p);
  }

  lemma ReachesThenEdge(v: View, a: string, b: string, c: string)
    requires c in v.ids && Reaches(v, a, b) && Edge(v, b, c)
    ensures Reaches(v, a, c)
  {
    var p :| PathFromTo(v, a, b, p);
    assert IsPath(v, [c]);
    JoinPaths(v, p, [c]);
    assert PathFromTo(v, a, c, p + [c]);
  }

  /** A set closed under parents holds everything that reaches one of its members. */
  lemma {:induction false} ParentClosed(v: View, s: set<string>, p: seq<string>)
    requires IsPath(v, p) && p[|p| - 1] in s
    requires forall a, b :: Edge(v, a, b) && b in s ==> a in s
    ensures p[0] in s
    decreases |p|
  {
    if |p| > 1 {
      SubPath(v, p, 1, |p|);
      ParentClosed(v, s, p[1..]);
      assert Edge(v, p[0], p[1]);
    }
  }

  /** A set closed under children holds everything reachable from one of its members. */
  lemma {:induction false} ChildClosed(v: View, s: set<string>, p: seq<string>)
    requires IsPath(v, p) && p[0] in s
    requires forall a, b :: Edge(v, a, b) && a in s ==> b in s
    ensures p[|p| - 1] in s
    decreases |p|
  {
    if |p| > 1 {
      SubPath(v, p, 1, |p|);
      assert Edge(v, p[0], p[1]);
      ChildClosed(v, s, p[1..]);
    }
  }

  lemma {:induction false} DistinctSize(p: seq<string>, s: set<string>)
    requires Distinct(p) && forall i :: 0 <= i < |p| ==> p[i] in s
    ensures |p| <= |s|
    decreases |p|
  {
    if p != [] {
      var front, last := p[..|p| - 1], p[|p| - 1];
      DistinctSize(front, s - {last});
    }
  }
}
