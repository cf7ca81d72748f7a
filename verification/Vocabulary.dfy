/** The merge classes of model/merge.go that the closed vocabularies use. */
module MergeClasses {

  /** Ties, and anything the ranking does not separate, keep the current value. */
  function MergeStrongest<T(==)>(zero: T, current: T, next: T, rank: T -> int): T
  {
    if next == zero then current
    else if current == zero then next
    else if rank(next) > rank(current) then next
    else current
  }

  datatype Option<+T> = None | Some(value: T)

  /** The first publishable value stands; an unpublishable one neither blocks a later value nor fills a gap. */
  function MergeFillGap<T(==)>(zero: T, current: T, next: T, publishable: T -> bool): (r: T)
    ensures r == zero || publishable(r)
  {
    if current != zero && publishable(current) then current
    else if next != zero && !publishable(next) then zero
    else next
  }
}

/** Scope sets and the scope semilattice of model/dependency.go. */
module Scopes {
  import opened Orders

  datatype Scope = Unknown | Development | Runtime

  /** Runtime dominates development, and both dominate unknown. It is also the order of the names. */
  function Rank(s: Scope): nat
  {
    match s
    case Unknown => 0
    case Development => 1
    case Runtime => 2
  }

  lemma RuntimeOverDevelopment()
    ensures Rank(Runtime) > Rank(Development) > Rank(Unknown)
  {
  }

  function MergeScope(current: Scope, next: Scope): Scope
  {
    if next == Unknown then current
    else if current == Unknown then next
    else if current == Runtime || next == Runtime then Runtime
    else Development
  }

  /** MergeScope is the join of the three-element chain. */
  lemma MergeScopeIsJoin(a: Scope, b: Scope)
    ensures Rank(MergeScope(a, b)) == if Rank(a) < Rank(b) then Rank(b) else Rank(a)
  {
  }

  ghost function Strongest(scopes: seq<Scope>): Scope
  {
    if Runtime in scopes then Runtime else if Development in scopes then Development else Unknown
  }

  method PrimaryScope(scopes: seq<Scope>) returns (result: Scope)
    ensures result == Strongest(scopes)
  {
    result := Unknown;
    for i := 0 to |scopes|
      invariant result == Strongest(scopes[..i])
    {
      assert scopes[..i + 1] == scopes[..i] + [scopes[i]];
      result := MergeScope(result, scopes[i]);
    }
    assert scopes[..|scopes|] == scopes;
  }

  ghost function Known(scopes: seq<Scope>): set<Scope>
  {
    set s | s in scopes && s != Unknown
  }

  /** The sorted list of a set of known scopes. */
  ghost function KnownList(scopes: set<Scope>): (list: seq<Scope>)
    ensures Known(list) == scopes - {Unknown} && Unknown !in list
    ensures Sorted(list) && Distinct(list)
  {
    var list := (if Development in scopes then [Development] else []) + (if Runtime in scopes then [Runtime] else []);
    assert forall s :: s in list <==> s in scopes && s != Unknown;
    list
  }

  ghost predicate Sorted(list: seq<Scope>)
  {
    forall i, j :: 0 <= i < j < |list| ==> Rank(list[i]) <= Rank(list[j])
  }

  method ScopesOf(scopes: seq<Scope>) returns (out: seq<Scope>)
    ensures Distinct(out) && forall s :: s in out <==> s in scopes && s != Unknown
  {
    out := [];
    for i := 0 to |scopes|
      invariant Distinct(out)
      invariant forall s :: s in out <==> s in scopes[..i] && s != Unknown
    {
      assert scopes[..i + 1] == scopes[..i] + [scopes[i]];
      if scopes[i] != Unknown && scopes[i] !in out {
        out := out + [scopes[i]];
      }
    }
    assert scopes[..|scopes|] == scopes;
  }

  function InsertScope(x: Scope, list: seq<Scope>): (out: seq<Scope>)
    ensures multiset(out) == multiset(list) + multiset{x}
  {
    if list == [] || Rank(x) <= Rank(list[0]) then [x] + list
    else
      assert list == [list[0]] + list[1..];
      [list[0]] + InsertScope(x, list[1..])
  }

  lemma {:induction false} InsertScopeSorts(x: Scope, list: seq<Scope>)
    requires Sorted(list)
    ensures Sorted(InsertScope(x, list))
    decreases |list|
  {
    if list != [] && Rank(x) > Rank(list[0]) {
      var rest := InsertScope(x, list[1..]);
      InsertScopeSorts(x, list[1..]);
      forall i | 0 <= i < |rest| ensures Rank(list[0]) <= Rank(rest[i]) {
        assert rest[i] in multiset(list[1..]) + multiset{x};
        assert rest[i] in list[1..] || rest[i] == x;
      }
    }
  }

  function SortScopes(list: seq<Scope>): (out: seq<Scope>)
    ensures Sorted(out) && multiset(out) == multiset(list)
  {
    if list == [] then []
    else
      assert list == [list[0]] + list[1..];
      InsertScopeSorts(list[0], SortScopes(list[1..]));
      InsertScope(list[0], SortScopes(list[1..]))
  }

  /** What AddScope leaves in a scope list. */
  function WithScope(list: seq<Scope>, scope: Scope): (out: seq<Scope>)
    ensures Known(out) == Known(list) + (if scope == Unknown then {} else {scope})
    ensures scope == Unknown || scope in list ==> out == list
  {
    if scope == Unknown || scope in list then list
    else
      var out := SortScopes(list + [scope]);
      assert forall s :: s in out <==> s in multiset(list + [scope]);
      out
  }

  /** A scope that is added leaves the list sorted, with nothing else in it. */
  lemma AddedScopeSorts(list: seq<Scope>, scope: Scope)
    requires scope != Unknown && scope !in list
    ensures Sorted(WithScope(list, scope)) && multiset(WithScope(list, scope)) == multiset(list) + multiset{scope}
  {
  }

  ghost function WithScopes(list: seq<Scope>, more: seq<Scope>): (out: seq<Scope>)
    ensures Known(out) == Known(list) + Known(more)
  {
    if more == [] then list
    else
      assert more == more[..|more| - 1] + [more[|more| - 1]];
      WithScope(WithScopes(list, more[..|more| - 1]), more[|more| - 1])
  }

  lemma {:induction false} SortedDistinctIsUnique(a: seq<Scope>, b: seq<Scope>)
    requires Sorted(a) && Sorted(b) && Distinct(a) && Distinct(b)
    requires forall s :: s in a <==> s in b
    ensures a == b
    decreases |a|
  {
    assert |a| > 0 ==> a[0] in b;
    assert |b| > 0 ==> b[0] in a;
    if a != [] {
      assert a[0] == b[0];
      forall s ensures s in a[1..] <==> s in b[1..] {
        assert s in a <==> s == a[0] || s in a[1..];
        assert s in b <==> s == b[0] || s in b[1..];
      }
      SortedDistinctIsUnique(a[1..], b[1..]);
      assert a == [a[0]] + a[1..] && b == [b[0]] + b[1..];
    }
  }

  /** The sorted union of two scope sets without unknown entries, whatever order they came in. */
  method MergeScopeSet(existing: seq<Scope>, additions: seq<Scope>) returns (merged: seq<Scope>)
    ensures merged == KnownList(Known(existing) + Known(additions))
  {
    var known := ScopesOf(existing + additions);
    merged := SortScopes(known);
    DistinctPermuted(known, merged);
    forall s ensures s in merged <==> s in existing + additions && s != Unknown {
      assert s in multiset(merged) <==> s in multiset(known);
    }
    KnownListUnique(merged, Known(existing) + Known(additions));
  }

  lemma KnownListUnique(list: seq<Scope>, scopes: set<Scope>)
    requires Sorted(list) && Distinct(list) && forall s :: s in list <==> s in scopes && s != Unknown
    ensures list == KnownList(scopes)
  {
    var known := KnownList(scopes);
    forall s ensures s in list <==> s in known {
      assert s in Known(known) <==> s in known;
    }
    SortedDistinctIsUnique(list, known);
  }

  /** Every scope of a set in name order, unknown included; repeats dropped, nothing else. */
  ghost function ScopeList(scopes: set<Scope>): (list: seq<Scope>)
    ensures Sorted(list) && Distinct(list) && forall s :: s in list <==> s in scopes
  {
    var known := KnownList(scopes);
    assert forall s :: s in known <==> s in Known(known);
    (if Unknown in scopes then [Unknown] else []) + known
  }

  method CanonicalScopeSet(scopes: seq<Scope>) returns (out: seq<Scope>)
    ensures out == ScopeList(set s | s in scopes)
  {
    var sorted := SortScopes(scopes);
    out := Compact(sorted);
    ghost var list := ScopeList(set s | s in scopes);
    forall s ensures s in out <==> s in list {
      assert s in multiset(sorted) <==> s in multiset(scopes);
    }
    SortedDistinctIsUnique(out, list);
  }

  /** Drops each entry equal to the one before it. */
  method Compact(sorted: seq<Scope>) returns (out: seq<Scope>)
    requires Sorted(sorted)
    ensures Sorted(out) && Distinct(out) && forall s :: s in out <==> s in sorted
  {
    out := [];
    for i := 0 to |sorted|
      invariant Sorted(out) && Distinct(out)
      invariant i == 0 ==> out == []
      invariant i > 0 ==> |out| > 0 && out[|out| - 1] == sorted[i - 1]
      invariant forall s :: s in out ==> s in sorted
      invariant forall j :: 0 <= j < i ==> sorted[j] in out
    {
      if |out| == 0 || out[|out| - 1] != sorted[i] {
        assert |out| > 0 ==> Rank(out[|out| - 1]) < Rank(sorted[i]);
        assert forall k :: 0 <= k < |out| ==> Rank(out[k]) <= Rank(out[|out| - 1]);
        out := out + [sorted[i]];
      }
    }
  }
}

/** What an edge asserts: model/edge.go. */
module EdgeKinds {
  import opened MergeClasses

  datatype NodeKind = ManifestKind | ModuleKind | DependencyKind

  /** `Unstated` is the empty token; `OtherKind` is any token outside the vocabulary. */
  datatype EdgeKind = Unstated | DependsOn | Describes | OtherKind(token: string)

  predicate InVocabulary(k: EdgeKind)
  {
    !k.OtherKind?
  }

  function DeriveEdgeKind(from: NodeKind, to: NodeKind): EdgeKind
  {
    if from == ManifestKind && to == ModuleKind then Describes else DependsOn
  }

  function EdgeRank(k: EdgeKind): int
  {
    if k == DependsOn then 1 else 0
  }

  function MergeEdgeKind(current: EdgeKind, next: EdgeKind): EdgeKind
  {
    MergeStrongest(Unstated, current, next, EdgeRank)
  }
}

/** How a dependency relates to its owner: the vocabulary of model/relationship.go. */
module Relationships {

  /** `Unset` is the empty value, `Unrecovered` the stated "unknown". */
  datatype Relationship = Unset | Direct | Transitive | Unrecovered

  function RelationshipRank(r: Relationship): nat
  {
    match r
    case Direct => 3
    case Transitive => 2
    case Unrecovered => 1
    case Unset => 0
  }

  /** Direct beats transitive, transitive beats unknown, and any of them beats none. */
  lemma RankByName()
    ensures RelationshipRank(Direct) > RelationshipRank(Transitive) > RelationshipRank(Unrecovered) > RelationshipRank(Unset)
  {
  }

  function MergeRelationship(current: Relationship, next: Relationship): Relationship
  {
    if RelationshipRank(next) > RelationshipRank(current) then next else current
  }

  function RelationshipForDepth(stated: Relationship, depth: nat): Relationship
  {
    if stated != Unset then stated
    else if depth == 1 then Direct
    else if depth > 1 then Transitive
    else Unrecovered
  }
}
