/** The shape three merges share: walk a list, fold every item into the record already holding
    its key or append it, then sort the records by key. */
module KeyedFold {
  import opened Orders

  /** What one item does to the records collected so far. */
  ghost function Put<K, V>(merge: (V, V) -> V, records: map<K, V>, key: K, value: V): map<K, V>
  {
    if key in records then records[key := merge(records[key], value)] else records[key := value]
  }

  ghost function FoldMap<K, V>(merge: (V, V) -> V, items: seq<(K, V)>): map<K, V>
  {
    if items == [] then map[]
    else
      var last := items[|items| - 1];
      Put(merge, FoldMap(merge, items[..|items| - 1]), last.0, last.1)
  }

  ghost function Combine<K, V>(merge: (V, V) -> V, m: map<K, V>, n: map<K, V>): map<K, V>
  {
    map k | k in m.Keys + n.Keys ::
      if k in m && k in n then merge(m[k], n[k]) else if k in m then m[k] else n[k]
  }

  /** The records of a map, listed in key order. */
  ghost function Listing<K(!new), V>(lt: (K, K) -> bool, m: map<K, V>): (s: seq<(K, V)>)
    requires StrictTotalOrder(lt)
    ensures |s| == |m|
    ensures forall i :: 0 <= i < |s| ==> s[i].0 in m && s[i] == (s[i].0, m[s[i].0])
  {
    var keys := SortedSeq(lt, m.Keys);
    assert forall i :: 0 <= i < |keys| ==> keys[i] in Elems(keys);
    assert |m| == |m.Keys|;
    seq(|keys|, i requires 0 <= i < |keys| => (keys[i], m[keys[i]]))
  }

  ghost function Canon<K(!new), V>(lt: (K, K) -> bool, merge: (V, V) -> V, items: seq<(K, V)>): seq<(K, V)>
    requires StrictTotalOrder(lt)
  {
    Listing(lt, FoldMap(merge, items))
  }

  ghost predicate KeysIncrease<K(!new), V>(lt: (K, K) -> bool, s: seq<(K, V)>)
  {
    forall i, j :: 0 <= i < j < |s| ==> lt(s[i].0, s[j].0)
  }

  ghost predicate Associative<V(!new)>(merge: (V, V) -> V)
  {
    forall a, b, c :: merge(merge(a, b), c) == merge(a, merge(b, c))
  }

  ghost predicate Commutative<V(!new)>(merge: (V, V) -> V)
  {
    forall a, b :: merge(a, b) == merge(b, a)
  }

  ghost predicate Idempotent<V(!new)>(merge: (V, V) -> V)
  {
    forall a :: merge(a, a) == a
  }

  lemma ListingIncreases<K(!new), V>(lt: (K, K) -> bool, m: map<K, V>)
    requires StrictTotalOrder(lt)
    ensures KeysIncrease(lt, Listing(lt, m))
    ensures forall k :: k in m ==> (k, m[k]) in Listing(lt, m)
  {
    var keys := SortedSeq(lt, m.Keys);
    SortedSeqIncreases(lt, m.Keys);
    var s := Listing(lt, m);
    assert forall i :: 0 <= i < |s| ==> s[i].0 == keys[i];
    forall k | k in m ensures (k, m[k]) in s {
      assert k in Elems(keys);
      var i :| 0 <= i < |keys| && keys[i] == k;
      assert s[i] == (k, m[k]);
    }
  }

  /** A list with increasing keys folds to the map that simply looks its keys up. */
  lemma {:induction false} FoldIncreasing<K(!new), V>(lt: (K, K) -> bool, merge: (V, V) -> V, s: seq<(K, V)>)
    requires StrictTotalOrder(lt) && KeysIncrease(lt, s)
    ensures forall k :: k in FoldMap(merge, s) <==> exists i :: 0 <= i < |s| && s[i].0 == k
    ensures forall i :: 0 <= i < |s| ==> s[i].0 in FoldMap(merge, s) && FoldMap(merge, s)[s[i].0] == s[i].1
    decreases |s|
  {
    if s != [] {
      var front := s[..|s| - 1];
      FoldIncreasing(lt, merge, front);
      var last := s[|s| - 1];
      assert last.0 !in FoldMap(merge, front);
      forall k | k in FoldMap(merge, s) ensures exists i :: 0 <= i < |s| && s[i].0 == k {
        if k == last.0 {
          assert s[|s| - 1].0 == k;
        } else {
          var i :| 0 <= i < |front| && front[i].0 == k;
          assert s[i].0 == k;
        }
      }
      forall i | 0 <= i < |s|
        ensures s[i].0 in FoldMap(merge, s) && FoldMap(merge, s)[s[i].0] == s[i].1
      {
        if i < |front| { assert front[i] == s[i]; }
      }
    }
  }

  /** Folding a listing gives back the map it lists. */
  lemma FoldListing<K(!new), V>(lt: (K, K) -> bool, merge: (V, V) -> V, m: map<K, V>)
    requires StrictTotalOrder(lt)
    ensures FoldMap(merge, Listing(lt, m)) == m
  {
    var s := Listing(lt, m);
    var f := FoldMap(merge, s);
    assert KeysIncrease(lt, s) && (forall k :: k in m ==> (k, m[k]) in s) by {
      ListingIncreases(lt, m);
    }
    FoldIncreasing(lt, merge, s);
    forall k | k in m ensures k in f && f[k] == m[k] {
      var i :| 0 <= i < |s| && s[i] == (k, m[k]);
    }
  }

  lemma PutCombine<K, V(!new)>(merge: (V, V) -> V, m: map<K, V>, n: map<K, V>, key: K, value: V)
    requires Associative(merge)
    ensures Put(merge, Combine(merge, m, n), key, value) == Combine(merge, m, Put(merge, n, key, value))
  {
    if key in m && key in n {
      assert merge(merge(m[key], n[key]), value) == merge(m[key], merge(n[key], value));
    }
  }

  lemma {:induction false} FoldConcat<K, V(!new)>(merge: (V, V) -> V, a: seq<(K, V)>, b: seq<(K, V)>)
    requires Associative(merge)
    ensures FoldMap(merge, a + b) == Combine(merge, FoldMap(merge, a), FoldMap(merge, b))
    decreases |b|
  {
    if b == [] {
      assert a + b == a;
      assert Combine(merge, FoldMap(merge, a), map[]) == FoldMap(merge, a);
    } else {
      var front := b[..|b| - 1];
      var last := b[|b| - 1];
      assert (a + b)[..|a + b| - 1] == a + front;
      FoldConcat(merge, a, front);
      PutCombine(merge, FoldMap(merge, a), FoldMap(merge, front), last.0, last.1);
    }
  }

  /** Canonicalizing early changes nothing: the fold is a homomorphism. */
  lemma CanonConcat<K(!new), V(!new)>(lt: (K, K) -> bool, merge: (V, V) -> V, a: seq<(K, V)>, b: seq<(K, V)>)
    requires StrictTotalOrder(lt) && Associative(merge)
    ensures Canon(lt, merge, Canon(lt, merge, a) + Canon(lt, merge, b)) == Canon(lt, merge, a + b)
  {
    FoldConcat(merge, a, b);
    FoldConcat(merge, Canon(lt, merge, a), Canon(lt, merge, b));
    FoldListing(lt, merge, FoldMap(merge, a));
    FoldListing(lt, merge, FoldMap(merge, b));
  }

  lemma CanonTwice<K(!new), V>(lt: (K, K) -> bool, merge: (V, V) -> V, a: seq<(K, V)>)
    requires StrictTotalOrder(lt)
    ensures Canon(lt, merge, Canon(lt, merge, a)) == Canon(lt, merge, a)
  {
    FoldListing(lt, merge, FoldMap(merge, a));
  }

  lemma CanonDoubled<K(!new), V(!new)>(lt: (K, K) -> bool, merge: (V, V) -> V, a: seq<(K, V)>)
    requires StrictTotalOrder(lt) && Associative(merge) && Idempotent(merge)
    ensures Canon(lt, merge, a + a) == Canon(lt, merge, a)
  {
    FoldConcat(merge, a, a);
    var f := FoldMap(merge, a);
    assert Combine(merge, f, f) == f;
  }

  lemma FoldSwap<K, V(!new)>(merge: (V, V) -> V, a: seq<(K, V)>, b: seq<(K, V)>)
    requires Associative(merge) && Commutative(merge)
    ensures FoldMap(merge, a + b) == FoldMap(merge, b + a)
  {
    FoldConcat(merge, a, b);
    FoldConcat(merge, b, a);
  }

  /** An item may arrive last instead of in the middle. */
  lemma FoldToLast<K, V(!new)>(merge: (V, V) -> V, pre: seq<(K, V)>, x: (K, V), post: seq<(K, V)>)
    requires Associative(merge) && Commutative(merge)
    ensures FoldMap(merge, pre + [x] + post) == FoldMap(merge, pre + post + [x])
  {
    assert pre + [x] + post == pre + ([x] + post);
    assert pre + post + [x] == pre + (post + [x]);
    FoldConcat(merge, pre, [x] + post);
    FoldConcat(merge, pre, post + [x]);
    FoldSwap(merge, [x], post);
  }

  /** Arrival order does not decide the fold. */
  lemma {:induction false} FoldPermuted<K, V(!new)>(merge: (V, V) -> V, a: seq<(K, V)>, b: seq<(K, V)>)
    requires Associative(merge) && Commutative(merge)
    requires multiset(a) == multiset(b)
    ensures FoldMap(merge, a) == FoldMap(merge, b)
    decreases |b|
  {
    if b == [] {
      assert |multiset(a)| == |multiset(b)|;
    } else {
      var front := b[..|b| - 1];
      var last := b[|b| - 1];
      var pre, post := TakeOut(a, b);
      FoldPermuted(merge, pre + post, front);
      FoldToLast(merge, pre, last, post);
      assert (pre + post + [last])[..|pre + post|] == pre + post;
    }
  }

  lemma TakeOut<T>(a: seq<T>, b: seq<T>) returns (pre: seq<T>, post: seq<T>)
    requires b != [] && multiset(a) == multiset(b)
    ensures a == pre + [b[|b| - 1]] + post
    ensures multiset(pre + post) == multiset(b[..|b| - 1])
  {
    var last := b[|b| - 1];
    assert b == b[..|b| - 1] + [last];
    assert last in multiset(b);
    var i :| 0 <= i < |a| && a[i] == last;
    pre, post := a[..i], a[i + 1..];
    assert a == pre + [last] + post;
    assert multiset(a) == multiset(pre) + multiset{last} + multiset(post);
    assert multiset(b) == multiset(b[..|b| - 1]) + multiset{last};
    assert multiset(pre + post) == multiset(a) - multiset{last};
  }

  lemma SameMembers<T>(a: seq<T>, b: seq<T>)
    requires multiset(a) == multiset(b)
    ensures forall x :: x in a <==> x in b
  {
    forall x ensures x in a <==> x in b {
      assert x in multiset(a) <==> x in multiset(b);
    }
  }

  /** The same items with a chosen one first. */
  lemma BroughtForward<T>(a: seq<T>, x: T) returns (b: seq<T>)
    requires x in a
    ensures b != [] && b[0] == x && multiset(b) == multiset(a)
  {
    var i :| 0 <= i < |a| && a[i] == x;
    b := [x] + (a[..i] + a[i + 1..]);
    assert a == a[..i] + [x] + a[i + 1..];
  }

  // ----- Maps combined one after another

  ghost function FoldSeq<V>(merge: (V, V) -> V, s: seq<V>): V
    requires s != []
  {
    if |s| == 1 then s[0] else merge(FoldSeq(merge, s[..|s| - 1]), s[|s| - 1])
  }

  /** What each item gives, one after another. */
  ghost function Flat<T, U>(f: T -> seq<U>, list: seq<T>): seq<U>
  {
    if list == [] then [] else Flat(f, list[..|list| - 1]) + f(list[|list| - 1])
  }

  lemma {:induction false} FlatConcat<T, U>(f: T -> seq<U>, a: seq<T>, b: seq<T>)
    ensures Flat(f, a + b) == Flat(f, a) + Flat(f, b)
    decreases |b|
  {
    if b == [] {
      assert a + b == a;
    } else {
      assert (a + b)[..|a + b| - 1] == a + b[..|b| - 1];
      FlatConcat(f, a, b[..|b| - 1]);
    }
  }

  lemma FlatOne<T, U>(f: T -> seq<U>, x: T)
    ensures Flat(f, [x]) == f(x)
  {
    assert Flat(f, [x][..0]) == [];
  }

  lemma {:induction false} FlatPermuted<T, U>(f: T -> seq<U>, a: seq<T>, b: seq<T>)
    requires multiset(a) == multiset(b)
    ensures multiset(Flat(f, a)) == multiset(Flat(f, b))
    decreases |b|
  {
    if b == [] {
      assert |multiset(a)| == |multiset(b)|;
    } else {
      var pre, post := TakeOut(a, b);
      var front, last := b[..|b| - 1], b[|b| - 1];
      FlatPermuted(f, pre + post, front);
      FlatConcat(f, pre + [last], post);
      FlatConcat(f, pre, [last]);
      FlatConcat(f, pre, post);
      FlatOne(f, last);
    }
  }

  lemma {:induction false} FlatMembers<T, U>(f: T -> seq<U>, list: seq<T>)
    ensures forall u :: u in Flat(f, list) <==> exists x :: x in list && u in f(x)
    decreases |list|
  {
    if list != [] {
      var front, last := list[..|list| - 1], list[|list| - 1];
      FlatMembers(f, front);
      assert list == front + [last] && last in list && forall x :: x in list <==> x in front || x == last;
    }
  }

  /** The values a list of maps holds under one key, in order. */
  ghost function At<K, V>(maps: seq<map<K, V>>, k: K): seq<V>
  {
    Flat((m: map<K, V>) => if k in m then [m[k]] else [], maps)
  }

  ghost function CombineAll<K, V>(merge: (V, V) -> V, maps: seq<map<K, V>>): map<K, V>
  {
    if maps == [] then map[] else Combine(merge, CombineAll(merge, maps[..|maps| - 1]), maps[|maps| - 1])
  }

  /** Combining works key by key. */
  lemma {:induction false} CombineAllAt<K, V>(merge: (V, V) -> V, maps: seq<map<K, V>>, k: K)
    ensures k in CombineAll(merge, maps) <==> At(maps, k) != []
    ensures k in CombineAll(merge, maps) ==> CombineAll(merge, maps)[k] == FoldSeq(merge, At(maps, k))
    decreases |maps|
  {
    if maps != [] {
      var front, last := maps[..|maps| - 1], maps[|maps| - 1];
      CombineAllAt(merge, front, k);
      if k in last {
        var before := At(front, k);
        assert (before + [last[k]])[..|before|] == before;
      } else {
        assert At(front, k) + [] == At(front, k);
      }
    }
  }

  lemma AtPermuted<K, V>(a: seq<map<K, V>>, b: seq<map<K, V>>, k: K)
    requires multiset(a) == multiset(b)
    ensures multiset(At(a, k)) == multiset(At(b, k))
  {
    FlatPermuted((m: map<K, V>) => if k in m then [m[k]] else [], a, b);
  }

  lemma AtMembers<K, V>(maps: seq<map<K, V>>, k: K)
    ensures forall v :: v in At(maps, k) <==> exists m :: m in maps && k in m && m[k] == v
  {
    FlatMembers((m: map<K, V>) => if k in m then [m[k]] else [], maps);
  }

  // ----- What the loops keep: a record list that stands for a map

  ghost predicate Records<K(!new), V>(items: seq<(K, V)>, m: map<K, V>)
  {
    && (forall i, j :: 0 <= i < j < |items| ==> items[i].0 != items[j].0)
    && (forall i :: 0 <= i < |items| ==> items[i].0 in m && m[items[i].0] == items[i].1)
    && (forall k :: k in m ==> exists i :: 0 <= i < |items| && items[i].0 == k)
  }

  lemma RecordsAppend<K(!new), V>(merge: (V, V) -> V, items: seq<(K, V)>, m: map<K, V>, x: (K, V))
    requires Records(items, m) && forall i :: 0 <= i < |items| ==> items[i].0 != x.0
    ensures Records(items + [x], Put(merge, m, x.0, x.1))
  {
    var items', m' := items + [x], Put(merge, m, x.0, x.1);
    forall k | k in m' ensures exists i :: 0 <= i < |items'| && items'[i].0 == k {
      if k == x.0 {
        assert items'[|items|].0 == k;
      } else {
        var i :| 0 <= i < |items| && items[i].0 == k;
        assert items'[i].0 == k;
      }
    }
  }

  lemma RecordsUpdate<K(!new), V>(merge: (V, V) -> V, items: seq<(K, V)>, m: map<K, V>, at: nat, x: (K, V))
    requires Records(items, m) && at < |items| && items[at].0 == x.0
    ensures Records(items[at := (x.0, merge(items[at].1, x.1))], Put(merge, m, x.0, x.1))
  {
    var items' := items[at := (x.0, merge(items[at].1, x.1))];
    forall k | k in m ensures exists i :: 0 <= i < |items'| && items'[i].0 == k {
      var i :| 0 <= i < |items| && items[i].0 == k;
      assert items'[i].0 == k;
    }
  }

  lemma RecordKeys<K(!new), V(!new)>(items: seq<(K, V)>, m: map<K, V>, sorted: seq<(K, V)>, keys: seq<K>)
    requires Records(items, m) && multiset(sorted) == multiset(items)
    requires |keys| == |sorted| && forall i :: 0 <= i < |keys| ==> keys[i] == sorted[i].0
    ensures Elems(keys) == m.Keys
    ensures forall i :: 0 <= i < |sorted| ==> sorted[i].0 in m && m[sorted[i].0] == sorted[i].1
  {
    forall j | 0 <= j < |sorted| ensures keys[j] in m && m[sorted[j].0] == sorted[j].1 {
      assert sorted[j] in multiset(items);
    }
    forall k | k in m ensures k in keys {
      var i :| 0 <= i < |items| && items[i].0 == k;
      assert items[i] in multiset(sorted);
      var j :| 0 <= j < |sorted| && sorted[j] == items[i];
      assert keys[j] == k;
    }
  }

  /** Sorting a record list gives the listing of its map. */
  lemma RecordsSorted<K(!new), V(!new)>(lt: (K, K) -> bool, items: seq<(K, V)>, m: map<K, V>, sorted: seq<(K, V)>)
    requires StrictTotalOrder(lt) && Records(items, m)
    requires KeysIncrease(lt, sorted) && multiset(sorted) == multiset(items)
    ensures sorted == Listing(lt, m)
  {
    var keys := seq(|sorted|, i requires 0 <= i < |sorted| => sorted[i].0);
    RecordKeys(items, m, sorted, keys);
    SortedSeqIncreases(lt, m.Keys);
    IncreasingIsUnique(lt, keys, SortedSeq(lt, m.Keys));
    ListingIsPairs(lt, m);
    assert forall i :: 0 <= i < |sorted| ==> sorted[i].0 == keys[i] == Listing(lt, m)[i].0;
  }

  // ----- A bound applied to the sorted records

  ghost function Cut<T>(limit: nat, s: seq<T>): seq<T>
  {
    if |s| <= limit then s else s[..limit]
  }

  /** The keys below `k`; a record survives a cut exactly when fewer than `limit` keys are below it. */
  ghost function Below<K(!new)>(lt: (K, K) -> bool, keys: set<K>, k: K): set<K>
  {
    set x | x in keys && lt(x, k)
  }

  ghost function CutMap<K(!new), V>(lt: (K, K) -> bool, limit: nat, m: map<K, V>): map<K, V>
  {
    map k | k in m && |Below(lt, m.Keys, k)| < limit :: m[k]
  }

  lemma PrefixSet<K(!new)>(lt: (K, K) -> bool, s: seq<K>, i: nat)
    requires StrictTotalOrder(lt) && Increasing(lt, s) && i < |s|
    ensures Below(lt, Elems(s), s[i]) == Elems(s[..i]) && |Elems(s[..i])| == i
  {
    BelowIsPrefix(lt, s, i);
    PrefixSize(s, i);
  }

  lemma BelowIsPrefix<K(!new)>(lt: (K, K) -> bool, s: seq<K>, i: nat)
    requires StrictTotalOrder(lt) && Increasing(lt, s) && i < |s|
    ensures Below(lt, Elems(s), s[i]) == Elems(s[..i])
  {
    forall j | 0 <= j < |s| ensures lt(s[j], s[i]) <==> j < i {
    }
    forall x | x in Below(lt, Elems(s), s[i]) ensures x in s[..i] {
      var j :| 0 <= j < |s| && s[j] == x;
      assert s[..i][j] == x;
    }
  }

  lemma {:induction false} PrefixSize<K>(s: seq<K>, i: nat)
    requires (forall a, b :: 0 <= a < b < |s| ==> s[a] != s[b]) && i <= |s|
    ensures |Elems(s[..i])| == i
    decreases i
  {
    if i == 0 {
      assert Elems(s[..0]) == {};
    } else {
      var front, x := s[..i - 1], s[i - 1];
      PrefixSize(s, i - 1);
      assert s[..i] == front + [x];
      ElemsSnoc(front, x);
      assert forall j :: 0 <= j < |front| ==> front[j] != x;
    }
  }

  lemma ElemsSnoc<K>(s: seq<K>, x: K)
    ensures Elems(s + [x]) == Elems(s) + {x}
  {
  }

  lemma ListingIsPairs<K(!new), V>(lt: (K, K) -> bool, m: map<K, V>)
    requires StrictTotalOrder(lt)
    ensures |Listing(lt, m)| == |SortedSeq(lt, m.Keys)|
    ensures forall i :: 0 <= i < |Listing(lt, m)| ==> Listing(lt, m)[i].0 == SortedSeq(lt, m.Keys)[i]
  {
  }

  /** The keys a cut keeps are the ones with few enough keys below them. */
  lemma CutKeys<K(!new), V>(lt: (K, K) -> bool, limit: nat, m: map<K, V>)
    requires StrictTotalOrder(lt)
    ensures Elems(Cut(limit, SortedSeq(lt, m.Keys))) == CutMap(lt, limit, m).Keys
  {
    var keys := SortedSeq(lt, m.Keys);
    SortedSeqIncreases(lt, m.Keys);
    var s := Cut(limit, keys);
    forall k | k in s ensures k in CutMap(lt, limit, m) {
      var i :| 0 <= i < |s| && s[i] == k;
      assert keys[i] in Elems(keys);
      PrefixSet(lt, keys, i);
    }
    forall k | k in CutMap(lt, limit, m) ensures k in s {
      assert k in Elems(keys);
      var i :| 0 <= i < |keys| && keys[i] == k;
      PrefixSet(lt, keys, i);
      assert s[i] == k;
    }
  }

  lemma CutIsCutMap<K(!new), V>(lt: (K, K) -> bool, limit: nat, m: map<K, V>)
    requires StrictTotalOrder(lt)
    ensures Cut(limit, Listing(lt, m)) == Listing(lt, CutMap(lt, limit, m))
  {
    var c := CutMap(lt, limit, m);
    CutSorted(lt, limit, m);
    ListingIsPairs(lt, m);
    ListingIsPairs(lt, c);
    hide SortedSeq, Below;
    SameEntries(Cut(limit, Listing(lt, m)), Listing(lt, c), m, c);
  }

  lemma SameEntries<K, V>(s: seq<(K, V)>, t: seq<(K, V)>, m: map<K, V>, c: map<K, V>)
    requires |s| == |t| && forall i :: 0 <= i < |s| ==> s[i].0 == t[i].0
    requires forall i :: 0 <= i < |s| ==> s[i].0 in m && s[i] == (s[i].0, m[s[i].0])
    requires forall i :: 0 <= i < |t| ==> t[i].0 in c && t[i] == (t[i].0, c[t[i].0])
    requires forall k :: k in c ==> k in m && c[k] == m[k]
    ensures s == t
  {
  }

  lemma CutSorted<K(!new), V>(lt: (K, K) -> bool, limit: nat, m: map<K, V>)
    requires StrictTotalOrder(lt)
    ensures Cut(limit, SortedSeq(lt, m.Keys)) == SortedSeq(lt, CutMap(lt, limit, m).Keys)
  {
    CutKeys(lt, limit, m);
    SortedSeqIncreases(lt, m.Keys);
    SortedSeqIncreases(lt, CutMap(lt, limit, m).Keys);
    IncreasingIsUnique(lt, Cut(limit, SortedSeq(lt, m.Keys)), SortedSeq(lt, CutMap(lt, limit, m).Keys));
  }

  lemma BelowGrows<K(!new)>(lt: (K, K) -> bool, small: set<K>, large: set<K>, k: K)
    requires small <= large
    ensures |Below(lt, small, k)| <= |Below(lt, large, k)|
  {
    SubsetSize(Below(lt, small, k), Below(lt, large, k));
  }

  lemma {:induction false} SubsetSize<T>(a: set<T>, b: set<T>)
    requires a <= b
    ensures |a| <= |b|
    decreases |a|
  {
    if a != {} {
      var x :| x in a;
      SubsetSize(a - {x}, b - {x});
    }
  }

  /** The keys a cut keeps below `k` are all of them when `k` itself would be kept. */
  lemma BelowSurvivesCut<K(!new)>(lt: (K, K) -> bool, limit: nat, keys: set<K>, k: K)
    requires StrictTotalOrder(lt)
    ensures var kept := set x | x in keys && |Below(lt, keys, x)| < limit;
            && (|Below(lt, keys, k)| < limit ==> Below(lt, kept, k) == Below(lt, keys, k))
            && (|Below(lt, keys, k)| >= limit ==> |Below(lt, kept, k)| >= limit)
  {
    var kept := set x | x in keys && |Below(lt, keys, x)| < limit;
    var below := Below(lt, keys, k);
    if |below| < limit {
      forall x | x in below ensures x in kept {
        SubsetSize(Below(lt, keys, x), below);
      }
    } else {
      var s := SortedSeq(lt, below);
      SortedSeqIncreases(lt, below);
      var first := Elems(s[..limit]);
      forall x | x in first ensures x in Below(lt, kept, k) {
        var i :| 0 <= i < limit && s[i] == x;
        assert x in Elems(s);
        PrefixSet(lt, s, i);
        assert Below(lt, keys, x) == Below(lt, below, x);
      }
      if limit > 0 {
        if limit < |s| {
          PrefixSet(lt, s, limit);
        } else {
          assert s[..limit] == s;
        }
        SubsetSize(first, Below(lt, kept, k));
      }
    }
  }

  lemma CutKeepsUnion<K(!new)>(lt: (K, K) -> bool, limit: nat, a: set<K>, b: set<K>, k: K)
    requires StrictTotalOrder(lt) && k in a
    ensures var keptA := set x | x in a && |Below(lt, a, x)| < limit;
            var keptB := set x | x in b && |Below(lt, b, x)| < limit;
            |Below(lt, a + b, k)| < limit
            <==> k in keptA && |Below(lt, keptA + keptB, k)| < limit
    ensures |Below(lt, a + b, k)| < limit && k in b ==> |Below(lt, b, k)| < limit
  {
    var keptA := set x | x in a && |Below(lt, a, x)| < limit;
    var keptB := set x | x in b && |Below(lt, b, x)| < limit;
    BelowSurvivesCut(lt, limit, a, k);
    BelowSurvivesCut(lt, limit, b, k);
    BelowGrows(lt, a, a + b, k);
    BelowGrows(lt, b, a + b, k);
    BelowGrows(lt, keptA, keptA + keptB, k);
    BelowGrows(lt, keptB, keptA + keptB, k);
    assert Below(lt, a + b, k) == Below(lt, a, k) + Below(lt, b, k);
    assert Below(lt, keptA + keptB, k) == Below(lt, keptA, k) + Below(lt, keptB, k);
  }

  /** Cutting each operand first, then the union, is cutting the union once. */
  lemma CutCombine<K(!new), V(!new)>(lt: (K, K) -> bool, merge: (V, V) -> V, limit: nat, m: map<K, V>, n: map<K, V>)
    requires StrictTotalOrder(lt)
    ensures CutMap(lt, limit, Combine(merge, CutMap(lt, limit, m), CutMap(lt, limit, n)))
         == CutMap(lt, limit, Combine(merge, m, n))
  {
    var m', n' := CutMap(lt, limit, m), CutMap(lt, limit, n);
    var union, union' := Combine(merge, m, n), Combine(merge, m', n');
    forall k ensures k in CutMap(lt, limit, union') <==> k in CutMap(lt, limit, union) {
      CutCombineKey(lt, merge, limit, m, n, k);
    }
    forall k | k in CutMap(lt, limit, union) ensures union'[k] == union[k] {
      CutCombineKey(lt, merge, limit, m, n, k);
    }
  }

  lemma CutCombineKey<K(!new), V(!new)>(lt: (K, K) -> bool, merge: (V, V) -> V, limit: nat, m: map<K, V>, n: map<K, V>, k: K)
    requires StrictTotalOrder(lt)
    ensures var union := Combine(merge, m, n);
            var union' := Combine(merge, CutMap(lt, limit, m), CutMap(lt, limit, n));
            && (k in CutMap(lt, limit, union') <==> k in CutMap(lt, limit, union))
            && (k in CutMap(lt, limit, union) ==> k in union' && union'[k] == union[k])
  {
    var a, b := m.Keys, n.Keys;
    var m', n' := CutMap(lt, limit, m), CutMap(lt, limit, n);
    assert m'.Keys == set x | x in a && |Below(lt, a, x)| < limit;
    assert n'.Keys == set x | x in b && |Below(lt, b, x)| < limit;
    assert Combine(merge, m, n).Keys == a + b && a + b == b + a;
    assert Combine(merge, m', n').Keys == m'.Keys + n'.Keys && m'.Keys + n'.Keys == n'.Keys + m'.Keys;
    if k in a {
      CutKeepsUnion(lt, limit, a, b, k);
    }
    if k in b {
      CutKeepsUnion(lt, limit, b, a, k);
    }
  }

  /** Bounding at every step equals bounding once: sort, fold and cut commute with concatenation. */
  lemma CutCanonConcat<K(!new), V(!new)>(lt: (K, K) -> bool, merge: (V, V) -> V, limit: nat, a: seq<(K, V)>, b: seq<(K, V)>)
    requires StrictTotalOrder(lt) && Associative(merge)
    ensures Cut(limit, Canon(lt, merge, Cut(limit, Canon(lt, merge, a)) + Cut(limit, Canon(lt, merge, b))))
         == Cut(limit, Canon(lt, merge, a + b))
  {
    var f, g := FoldMap(merge, a), FoldMap(merge, b);
    var f', g' := CutMap(lt, limit, f), CutMap(lt, limit, g);
    CutIsCutMap(lt, limit, f);
    CutIsCutMap(lt, limit, g);
    FoldListing(lt, merge, f');
    FoldListing(lt, merge, g');
    FoldConcat(merge, Listing(lt, f'), Listing(lt, g'));
    FoldConcat(merge, a, b);
    CutIsCutMap(lt, limit, Combine(merge, f, g));
    CutIsCutMap(lt, limit, Combine(merge, f', g'));
    CutCombine(lt, merge, limit, f, g);
  }
}
