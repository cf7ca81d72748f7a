/** The laws of the named merge classes of model/merge.go. */
module MergeLaws {
  import opened MergeClasses
  import opened EdgeKinds

  /** Ties keep the current value, so two sides agree in either order exactly when ranks tell stated values apart. */
  lemma StrongestCommutes<T(!new)>(zero: T, rank: T -> int)
    ensures (forall a, b :: MergeStrongest(zero, a, b, rank) == MergeStrongest(zero, b, a, rank)) <==>
            (forall a, b {:trigger rank(a), rank(b)} :: a != zero && b != zero && rank(a) == rank(b) ==> a == b)
  {
    if forall a, b :: MergeStrongest(zero, a, b, rank) == MergeStrongest(zero, b, a, rank) {
      forall a, b | a != zero && b != zero && rank(a) == rank(b) ensures a == b {
        assert MergeStrongest(zero, a, b, rank) == MergeStrongest(zero, b, a, rank);
      }
    }
  }

  /** Edge kinds are ranked by whether they claim a dependency, which leaves all others tied. */
  lemma EdgeRankingTies()
    ensures MergeEdgeKind(Describes, OtherKind("x")) == Describes
    ensures MergeEdgeKind(OtherKind("x"), Describes) == OtherKind("x")
  {
  }

  /** A stated value beats none, the higher-ranked of two stated ones stands, and the current one on a tie. */
  lemma StrongestMeans<T(!new)>(zero: T, rank: T -> int, current: T, next: T)
    ensures var r := MergeStrongest(zero, current, next, rank);
            && (current == zero ==> r == next) && (next == zero ==> r == current)
            && (current != zero && next != zero && rank(current) < rank(next) ==> r == next)
            && (current != zero && next != zero && rank(next) <= rank(current) ==> r == current)
  {
  }

  /** The current value when it can be published, or else the next one when that can, or else none. */
  lemma FillGapMeans<T(!new)>(zero: T, publishable: T -> bool, current: T, next: T)
    ensures var r := MergeFillGap(zero, current, next, publishable);
            && (current != zero && publishable(current) ==> r == current)
            && ((current == zero || !publishable(current)) && next != zero && publishable(next) ==> r == next)
            && ((current == zero || !publishable(current)) && (next == zero || !publishable(next)) ==> r == zero)
  {
  }

  lemma StrongestAssociates<T(!new)>(zero: T, rank: T -> int, a: T, b: T, c: T)
    ensures MergeStrongest(zero, MergeStrongest(zero, a, b, rank), c, rank) == MergeStrongest(zero, a, MergeStrongest(zero, b, c, rank), rank)
  {
  }

  lemma FillGapAssociates<T(!new)>(zero: T, publishable: T -> bool, a: T, b: T, c: T)
    ensures MergeFillGap(zero, MergeFillGap(zero, a, b, publishable), c, publishable) ==
            MergeFillGap(zero, a, MergeFillGap(zero, b, c, publishable), publishable)
  {
  }
}

/** The union class: gated, deduplicated by key, sorted by key. */
module Unions {
  import opened Orders
  import opened MergeClasses
  import opened KeyedFold

  function KeepFirst<T>(current: T, next: T): T
  {
    current
  }

  /** Gated values pass unchanged. */
  ghost predicate Idempotents<T(!new)>(gate: T -> Option<T>)
  {
    forall x {:trigger gate(x)} :: gate(x).Some? ==> gate(gate(x).value) == gate(x)
  }

  ghost function Entries<T>(list: seq<T>, key: T -> string, gate: T -> Option<T>): seq<(string, T)>
  {
    if list == [] then []
    else
      var g := gate(list[|list| - 1]);
      Entries(list[..|list| - 1], key, gate) + if g.Some? then [(key(g.value), g.value)] else []
  }

  ghost function Values<T>(entries: seq<(string, T)>): seq<T>
  {
    seq(|entries|, i requires 0 <= i < |entries| => entries[i].1)
  }

  /** One member per key in key order, each the first that arrived. */
  ghost function Union<T(!new)>(list: seq<T>, key: T -> string, gate: T -> Option<T>): seq<T>
  {
    LessIsStrictTotal();
    Values(Canon(Less, KeepFirst, Entries(list, key, gate)))
  }

  lemma {:induction false} EntriesConcat<T>(a: seq<T>, b: seq<T>, key: T -> string, gate: T -> Option<T>)
    ensures Entries(a + b, key, gate) == Entries(a, key, gate) + Entries(b, key, gate)
    decreases |b|
  {
    if b == [] {
      assert a + b == a;
    } else {
      assert (a + b)[..|a + b| - 1] == a + b[..|b| - 1];
      EntriesConcat(a, b[..|b| - 1], key, gate);
    }
  }

  /** The entry names its member's own key, and its member has passed the gate. */
  ghost predicate Proper<T>(e: (string, T), key: T -> string, gate: T -> Option<T>)
  {
    e.0 == key(e.1) && gate(e.1) == Some(e.1)
  }

  lemma {:induction false} EntriesAreProper<T(!new)>(list: seq<T>, key: T -> string, gate: T -> Option<T>)
    requires Idempotents(gate)
    ensures forall e :: e in Entries(list, key, gate) ==> Proper(e, key, gate)
    decreases |list|
  {
    if list != [] {
      EntriesAreProper(list[..|list| - 1], key, gate);
    }
  }

  lemma {:induction false} FoldIsProper<T(!new)>(entries: seq<(string, T)>, key: T -> string, gate: T -> Option<T>)
    requires forall e :: e in entries ==> Proper(e, key, gate)
    ensures forall k :: k in FoldMap(KeepFirst, entries) ==> Proper((k, FoldMap(KeepFirst, entries)[k]), key, gate)
    decreases |entries|
  {
    if entries != [] {
      var front, last := entries[..|entries| - 1], entries[|entries| - 1];
      assert last in entries && forall e :: e in front ==> e in entries;
      FoldIsProper(front, key, gate);
    }
  }

  lemma {:induction false} EntriesOfValues<T(!new)>(entries: seq<(string, T)>, key: T -> string, gate: T -> Option<T>)
    requires forall e :: e in entries ==> Proper(e, key, gate)
    ensures Entries(Values(entries), key, gate) == entries
    decreases |entries|
  {
    if entries != [] {
      var front, last := entries[..|entries| - 1], entries[|entries| - 1];
      assert last in entries && (forall e :: e in front ==> e in entries) && entries == front + [last];
      EntriesOfValues(front, key, gate);
      assert Values(entries)[..|entries| - 1] == Values(front);
      assert Proper(last, key, gate) && last == (last.0, last.1);
    }
  }

  lemma EntriesOfUnion<T(!new)>(list: seq<T>, key: T -> string, gate: T -> Option<T>)
    requires Idempotents(gate)
    ensures StrictTotalOrder(Less)
    ensures Entries(Union(list, key, gate), key, gate) == Canon(Less, KeepFirst, Entries(list, key, gate))
  {
    LessIsStrictTotal();
    EntriesAreProper(list, key, gate);
    FoldIsProper(Entries(list, key, gate), key, gate);
    var c := Canon(Less, KeepFirst, Entries(list, key, gate));
    forall e | e in c ensures Proper(e, key, gate) {
      var i :| 0 <= i < |c| && c[i] == e;
    }
    EntriesOfValues(c, key, gate);
  }

  /** Merging unions is one union of everything, however the lists are grouped. */
  lemma UnionConcat<T(!new)>(a: seq<T>, b: seq<T>, key: T -> string, gate: T -> Option<T>)
    requires Idempotents(gate)
    ensures Union(Union(a, key, gate) + Union(b, key, gate), key, gate) == Union(a + b, key, gate)
  {
    EntriesOfUnion(a, key, gate);
    EntriesOfUnion(b, key, gate);
    EntriesConcat(Union(a, key, gate), Union(b, key, gate), key, gate);
    EntriesConcat(a, b, key, gate);
    assert Associative<T>(KeepFirst);
    CanonConcat(Less, KeepFirst, Entries(a, key, gate), Entries(b, key, gate));
  }

  lemma UnionTwice<T(!new)>(a: seq<T>, key: T -> string, gate: T -> Option<T>)
    requires Idempotents(gate)
    ensures Union(Union(a, key, gate), key, gate) == Union(a, key, gate)
    ensures Union(a + a, key, gate) == Union(a, key, gate)
  {
    EntriesOfUnion(a, key, gate);
    CanonTwice(Less, KeepFirst, Entries(a, key, gate));
    EntriesConcat(a, a, key, gate);
    assert Associative<T>(KeepFirst) && Idempotent<T>(KeepFirst);
    CanonDoubled(Less, KeepFirst, Entries(a, key, gate));
  }

  // ----- Arrival order

  /** Two members that pass the gate under one key. */
  ghost predicate Rivals<T>(list: seq<T>, key: T -> string, gate: T -> Option<T>, x: T, y: T)
  {
    x in list && y in list && gate(x).Some? && gate(y).Some? && key(gate(x).value) == key(gate(y).value)
  }

  /** Gated members with one key are equal. */
  ghost predicate KeysDetermine<T(!new)>(list: seq<T>, key: T -> string, gate: T -> Option<T>)
  {
    forall x, y :: Rivals(list, key, gate, x, y) ==> gate(x) == gate(y)
  }

  ghost predicate Brings<T>(list: seq<T>, key: T -> string, gate: T -> Option<T>, k: string, v: T)
  {
    key(v) == k && exists x :: x in list && gate(x) == Some(v)
  }

  /** Every key some gated member has, with one of the members that have it. */
  ghost predicate Represents<T(!new)>(list: seq<T>, key: T -> string, gate: T -> Option<T>, m: map<string, T>)
  {
    && (forall k :: k in m ==> Brings(list, key, gate, k, m[k]))
    && (forall x :: x in list && gate(x).Some? ==> key(gate(x).value) in m)
  }

  ghost function Firsts<T>(list: seq<T>, key: T -> string, gate: T -> Option<T>): map<string, T>
  {
    FoldMap(KeepFirst, Entries(list, key, gate))
  }

  lemma {:induction false} FirstOfKey<T(!new)>(list: seq<T>, key: T -> string, gate: T -> Option<T>)
    ensures Represents(list, key, gate, Firsts(list, key, gate))
    decreases |list|
  {
    if list != [] {
      var front, last := list[..|list| - 1], list[|list| - 1];
      FirstOfKey(front, key, gate);
      FirstsSnoc(front, last, key, gate);
      RepresentsSnoc(front, last, key, gate, Firsts(front, key, gate));
      assert list == front + [last];
    }
  }

  lemma FirstsSnoc<T(!new)>(front: seq<T>, last: T, key: T -> string, gate: T -> Option<T>)
    ensures Firsts(front + [last], key, gate) == Grown(Firsts(front, key, gate), last, key, gate)
  {
    var entries := Entries(front, key, gate);
    assert (front + [last])[..|front|] == front;
    if gate(last).Some? {
      var e := (key(gate(last).value), gate(last).value);
      assert (entries + [e])[..|entries|] == entries;
      var m := FoldMap(KeepFirst, entries);
      assert FoldMap(KeepFirst, entries + [e]) == Put(KeepFirst, m, e.0, e.1);
    } else {
      assert entries + [] == entries;
    }
  }

  ghost function Grown<T>(m: map<string, T>, last: T, key: T -> string, gate: T -> Option<T>): map<string, T>
  {
    if gate(last).Some? && key(gate(last).value) !in m then m[key(gate(last).value) := gate(last).value] else m
  }

  lemma RepresentsSnoc<T(!new)>(front: seq<T>, last: T, key: T -> string, gate: T -> Option<T>, m: map<string, T>)
    requires Represents(front, key, gate, m)
    ensures Represents(front + [last], key, gate, Grown(m, last, key, gate))
  {
    var list, after := front + [last], Grown(m, last, key, gate);
    assert last in list && forall x :: x in list <==> x in front || x == last;
    forall k | k in after ensures Brings(list, key, gate, k, after[k]) {
      if k in m {
        assert Brings(front, key, gate, k, m[k]);
      }
    }
  }

  lemma {:induction false} FirstStays<T(!new)>(entries: seq<(string, T)>)
    requires entries != []
    ensures var m := FoldMap(KeepFirst, entries); entries[0].0 in m && m[entries[0].0] == entries[0].1
    decreases |entries|
  {
    if |entries| > 1 {
      FirstStays(entries[..|entries| - 1]);
    } else {
      assert entries[..0] == [];
    }
  }

  /** The members of a union, looked up by key. */
  lemma UnionMember<T(!new)>(list: seq<T>, key: T -> string, gate: T -> Option<T>, v: T)
    ensures v in Union(list, key, gate) <==> key(v) in Firsts(list, key, gate) && Firsts(list, key, gate)[key(v)] == v
  {
    LessIsStrictTotal();
    FirstOfKey(list, key, gate);
    ListedValue(Firsts(list, key, gate), v);
    var m := Firsts(list, key, gate);
    hide Firsts;
    if k :| k in m && m[k] == v {
      assert Brings(list, key, gate, k, m[k]);
    }
  }

  lemma ListedValue<T(!new)>(m: map<string, T>, v: T)
    requires StrictTotalOrder(Less)
    ensures v in Values(Listing(Less, m)) <==> exists k :: k in m && m[k] == v
  {
    var c := Listing(Less, m);
    ListingIncreases(Less, m);
    if v in Values(c) {
      var i :| 0 <= i < |c| && Values(c)[i] == v;
      assert c[i].0 in m && m[c[i].0] == v;
    }
    if k :| k in m && m[k] == v {
      var i :| 0 <= i < |c| && c[i] == (k, m[k]);
      assert Values(c)[i] == v;
    }
  }

  /** The first item whose gated value has this key is this value. */
  ghost predicate FirstWith<T(!new)>(list: seq<T>, key: T -> string, gate: T -> Option<T>, v: T)
  {
    exists i :: 0 <= i < |list| && gate(list[i]) == Some(v) && forall j :: 0 <= j < i ==> Apart(gate(list[j]), key, v)
  }

  ghost predicate Apart<T>(o: Option<T>, key: T -> string, v: T)
  {
    o.Some? ==> key(o.value) != key(v)
  }

  lemma {:induction false} FirstsAreFirst<T(!new)>(list: seq<T>, key: T -> string, gate: T -> Option<T>, v: T)
    ensures FirstWith(list, key, gate, v) <==> key(v) in Firsts(list, key, gate) && Firsts(list, key, gate)[key(v)] == v
    ensures key(v) !in Firsts(list, key, gate) <==> forall i :: 0 <= i < |list| ==> Apart(gate(list[i]), key, v)
    decreases |list|
  {
    if list != [] {
      var front, last := list[..|list| - 1], list[|list| - 1];
      FirstsAreFirst(front, key, gate, v);
      assert list == front + [last];
      FirstsSnoc(front, last, key, gate);
      hide Firsts;
      FirstWithSnoc(front, last, key, gate, v);
    }
  }

  lemma FirstWithSnoc<T(!new)>(front: seq<T>, last: T, key: T -> string, gate: T -> Option<T>, v: T)
    ensures FirstWith(front + [last], key, gate, v) <==>
            FirstWith(front, key, gate, v) || (gate(last) == Some(v) && forall i :: 0 <= i < |front| ==> Apart(gate(front[i]), key, v))
    ensures (forall i :: 0 <= i < |front + [last]| ==> Apart(gate((front + [last])[i]), key, v)) <==>
            (forall i :: 0 <= i < |front| ==> Apart(gate(front[i]), key, v)) && Apart(gate(last), key, v)
  {
    var list := front + [last];
    assert list[|front|] == last && forall i :: 0 <= i < |front| ==> list[i] == front[i];
    if i :| 0 <= i < |front| && gate(front[i]) == Some(v) && forall j :: 0 <= j < i ==> Apart(gate(front[j]), key, v) {
      assert gate(list[i]) == Some(v);
    }
    if FirstWith(list, key, gate, v) {
      var i :| 0 <= i < |list| && gate(list[i]) == Some(v) && forall j :: 0 <= j < i ==> Apart(gate(list[j]), key, v);
      assert i < |front| ==> gate(front[i]) == Some(v);
    }
  }

  /** Exactly the first gated member of each key, in strictly increasing key order. */
  lemma UnionMeans<T(!new)>(list: seq<T>, key: T -> string, gate: T -> Option<T>)
    ensures var u := Union(list, key, gate);
            && (forall v :: v in u <==> FirstWith(list, key, gate, v))
            && (forall i, j :: 0 <= i < j < |u| ==> Less(key(u[i]), key(u[j])))
  {
    var u := Union(list, key, gate);
    forall v ensures v in u <==> FirstWith(list, key, gate, v) {
      UnionMember(list, key, gate, v);
      FirstsAreFirst(list, key, gate, v);
    }
    LessIsStrictTotal();
    FirstOfKey(list, key, gate);
    var m := Firsts(list, key, gate);
    ListingIncreases(Less, m);
    var c := Listing(Less, m);
    hide FirstWith, Firsts;
    forall i, j | 0 <= i < j < |u| ensures Less(key(u[i]), key(u[j])) {
      assert Brings(list, key, gate, c[i].0, m[c[i].0]) && Brings(list, key, gate, c[j].0, m[c[j].0]);
    }
  }

  lemma LeaderIsListed<T(!new)>(x: T, rest: seq<T>, key: T -> string, gate: T -> Option<T>)
    requires gate(x).Some?
    ensures gate(x).value in Union([x] + rest, key, gate)
  {
    var e := (key(gate(x).value), gate(x).value);
    EntriesConcat([x], rest, key, gate);
    assert [x][..0] == [] && Entries([x], key, gate) == [e];
    FirstStays([e] + Entries(rest, key, gate));
    UnionMember([x] + rest, key, gate, gate(x).value);
  }

  /** Two runs that found the same members in a different order publish the same list, whatever the order, exactly when
      no two gated members share a key without being equal. */
  lemma UnionIgnoresOrderIff<T(!new)>(a: seq<T>, key: T -> string, gate: T -> Option<T>)
    ensures (forall b :: multiset(b) == multiset(a) ==> Union(b, key, gate) == Union(a, key, gate)) <==> KeysDetermine(a, key, gate)
  {
    if KeysDetermine(a, key, gate) {
      forall b | multiset(b) == multiset(a) ensures Union(b, key, gate) == Union(a, key, gate) {
        SameMembers(a, b);
        SameFirsts(a, b, key, gate);
      }
    } else {
      var x, y :| Rivals(a, key, gate, x, y) && gate(x) != gate(y);
      var b := BroughtForward(a, x);
      var c := BroughtForward(a, y);
      LeaderIsListed(x, b[1..], key, gate);
      LeaderIsListed(y, c[1..], key, gate);
      assert b == [x] + b[1..] && c == [y] + c[1..];
      UnionMember(b, key, gate, gate(x).value);
      UnionMember(b, key, gate, gate(y).value);
    }
  }

  lemma SameFirsts<T(!new)>(a: seq<T>, b: seq<T>, key: T -> string, gate: T -> Option<T>)
    requires KeysDetermine(a, key, gate) && forall x :: x in a <==> x in b
    ensures Union(a, key, gate) == Union(b, key, gate)
  {
    FirstOfKey(a, key, gate);
    FirstOfKey(b, key, gate);
    OneRepresentative(a, b, key, gate, Firsts(a, key, gate), Firsts(b, key, gate));
  }

  lemma OneRepresentative<T(!new)>(a: seq<T>, b: seq<T>, key: T -> string, gate: T -> Option<T>, m: map<string, T>, n: map<string, T>)
    requires KeysDetermine(a, key, gate) && (forall x :: x in a <==> x in b) && Represents(a, key, gate, m) && Represents(b, key, gate, n)
    ensures m == n
  {
    forall k ensures (k in m <==> k in n) && (k in m ==> m[k] == n[k]) {
      if k in m {
        var x :| x in a && gate(x) == Some(m[k]);
        assert key(gate(x).value) in n && key(m[k]) == k;
      }
      if k in n {
        var y :| y in b && gate(y) == Some(n[k]);
        assert key(gate(y).value) in m && key(n[k]) == k;
      }
      if k in m && k in n {
        var x :| x in a && gate(x) == Some(m[k]);
        var y :| y in b && gate(y) == Some(n[k]);
        assert Rivals(a, key, gate, x, y);
      }
    }
  }

  /** The members collected so far, and the keys they hold. */
  ghost predicate Collected<T(!new)>(items: seq<(string, T)>, merged: seq<T>, seen: set<string>, entries: seq<(string, T)>, key: T -> string)
  {
    && Records(items, FoldMap(KeepFirst, entries)) && merged == Values(items)
    && (forall k :: k in seen <==> exists i :: 0 <= i < |items| && items[i].0 == k)
    && (forall i :: 0 <= i < |items| ==> items[i].0 == key(items[i].1))
  }

  lemma CollectNothing<T(!new)>(key: T -> string)
    ensures Collected<T>([], [], {}, [], key)
  {
  }

  lemma CollectOne<T(!new)>(items: seq<(string, T)>, merged: seq<T>, seen: set<string>, entries: seq<(string, T)>, key: T -> string, x: T)
    requires Collected(items, merged, seen, entries, key)
    ensures key(x) in seen ==> Collected(items, merged, seen, entries + [(key(x), x)], key)
    ensures key(x) !in seen ==> Collected(items + [(key(x), x)], merged + [x], seen + {key(x)}, entries + [(key(x), x)], key)
  {
    var e := (key(x), x);
    assert (entries + [e])[..|entries|] == entries;
    var m := FoldMap(KeepFirst, entries);
    assert FoldMap(KeepFirst, entries + [e]) == Put(KeepFirst, m, e.0, e.1);
    if key(x) in seen {
      assert Put(KeepFirst, m, e.0, e.1) == m;
    } else {
      RecordsAppend(KeepFirst, items, m, e);
      assert (items + [e])[|items|] == e && forall i :: 0 <= i < |items| ==> (items + [e])[i] == items[i];
      assert Values(items + [e]) == Values(items) + [x];
    }
  }

  lemma NextEntry<T>(all: seq<T>, i: nat, key: T -> string, gate: T -> Option<T>)
    requires i < |all|
    ensures Entries(all[..i + 1], key, gate) ==
            Entries(all[..i], key, gate) + if gate(all[i]).Some? then [(key(gate(all[i]).value), gate(all[i]).value)] else []
    ensures Entries(all[..0], key, gate) == []
  {
    assert all[..i + 1][..i] == all[..i];
  }

  /** Gates every item, keeps the first of each key, sorts by key. */
  method MergeUnion<T(!new)>(current: seq<T>, next: seq<T>, key: T -> string, publishable: T -> Option<T>) returns (out: seq<T>)
    ensures out == Union(current + next, key, publishable)
  {
    hide *;
    var all := current + next;
    var merged: seq<T>, seen: set<string> := [], {};
    ghost var items: seq<(string, T)>, done: seq<(string, T)> := [], [];
    CollectNothing(key);
    NoneYet(all, key, publishable);
    for i := 0 to |all|
      invariant done == Entries(all[..i], key, publishable) && Collected(items, merged, seen, done, key)
    {
      NextEntry(all, i, key, publishable);
      var cleaned := publishable(all[i]);
      if cleaned.Some? {
        var identity := key(cleaned.value);
        CollectOne(items, merged, seen, done, key, cleaned.value);
        done := done + [(identity, cleaned.value)];
        if identity !in seen {
          seen := seen + {identity};
          merged := merged + [cleaned.value];
          items := items + [(identity, cleaned.value)];
        }
      } else {
        assert done + [] == done;
      }
    }
    TakeAll(all);
    out := SortByKey(items, merged, seen, done, key);
    UnionIs(all, key, publishable);
  }

  lemma NoneYet<T>(all: seq<T>, key: T -> string, gate: T -> Option<T>)
    ensures Entries(all[..0], key, gate) == []
  {
  }

  lemma UnionIs<T(!new)>(list: seq<T>, key: T -> string, gate: T -> Option<T>)
    ensures StrictTotalOrder(Less) && Union(list, key, gate) == Values(Listing(Less, FoldMap(KeepFirst, Entries(list, key, gate))))
  {
    LessIsStrictTotal();
  }

  method SortByKey<T(!new)>(ghost items: seq<(string, T)>, merged: seq<T>, ghost seen: set<string>, ghost entries: seq<(string, T)>, key: T -> string)
    returns (out: seq<T>)
    requires Collected(items, merged, seen, entries, key)
    ensures StrictTotalOrder(Less) && out == Values(Listing(Less, FoldMap(KeepFirst, entries)))
  {
    LessIsStrictTotal();
    forall i, j | 0 <= i < j < |merged| ensures key(merged[i]) != key(merged[j]) {
      assert items[i].0 != items[j].0;
    }
    out := Sort((a, b) => Less(key(a), key(b)), merged);
    ghost var sorted := seq(|out|, i requires 0 <= i < |out| => (key(out[i]), out[i]));
    SortedItems(items, merged, out, key);
    RecordsSorted(Less, items, FoldMap(KeepFirst, entries), sorted);
    assert Values(sorted) == out;
  }

  lemma SortedItems<T(!new)>(items: seq<(string, T)>, merged: seq<T>, out: seq<T>, key: T -> string)
    requires merged == Values(items) && multiset(out) == multiset(merged) && forall i :: 0 <= i < |items| ==> items[i].0 == key(items[i].1)
    ensures multiset(seq(|out|, i requires 0 <= i < |out| => (key(out[i]), out[i]))) == multiset(items)
  {
    KeyedMultiset(out, merged, key);
    assert items == Keyed(merged, key);
    assert Keyed(out, key) == seq(|out|, i requires 0 <= i < |out| => (key(out[i]), out[i]));
  }

  ghost function Keyed<T>(list: seq<T>, key: T -> string): seq<(string, T)>
  {
    seq(|list|, i requires 0 <= i < |list| => (key(list[i]), list[i]))
  }

  lemma {:induction false} KeyedMultiset<T>(a: seq<T>, b: seq<T>, key: T -> string)
    requires multiset(a) == multiset(b)
    ensures multiset(Keyed(a, key)) == multiset(Keyed(b, key))
    decreases |b|
  {
    if b == [] {
      assert |multiset(a)| == |multiset(b)|;
    } else {
      var pre, post := TakeOut(a, b);
      var front, last := b[..|b| - 1], b[|b| - 1];
      KeyedMultiset(pre + post, front, key);
      assert Keyed(a, key) == Keyed(pre, key) + [(key(last), last)] + Keyed(post, key);
      assert Keyed(pre + post, key) == Keyed(pre, key) + Keyed(post, key);
      assert Keyed(b, key) == Keyed(front, key) + [(key(last), last)];
    }
  }
}
