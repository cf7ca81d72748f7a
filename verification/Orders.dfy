/** The orders the repository sorts by, and the one list a finite set sorts to. */
module Orders {

  /** Go's `<` on strings, read on characters: byte order and code point order agree on UTF-8. */
  predicate Less(a: string, b: string)
  {
    |b| > 0 && (|a| == 0 || a[0] < b[0] || (a[0] == b[0] && Less(a[1..], b[1..])))
  }

  ghost predicate StrictOrder<K(!new)>(lt: (K, K) -> bool)
  {
    && (forall a :: !lt(a, a))
    && (forall a, b, c :: lt(a, b) && lt(b, c) ==> lt(a, c))
  }

  ghost predicate StrictTotalOrder<K(!new)>(lt: (K, K) -> bool)
  {
    && StrictOrder(lt)
    && (forall a, b :: a == b || lt(a, b) || lt(b, a))
  }

  /** The first `n` characters agree, and then `a` ends first or has the smaller character. */
  ghost predicate Precedes(a: string, b: string, n: nat)
  {
    n <= |a| && n < |b| && a[..n] == b[..n] && (n == |a| || a[n] < b[n])
  }

  /** Alphabetical order, said without recursion: a proper prefix comes first, and otherwise the first difference decides. */
  lemma {:induction false} LessMeans(a: string, b: string)
    ensures Less(a, b) <==> exists n: nat :: Precedes(a, b, n)
    decreases |a|
  {
    if a == [] || b == [] || a[0] != b[0] {
      if Less(a, b) {
        assert Precedes(a, b, 0);
      }
      if n: nat :| Precedes(a, b, n) && n > 0 {
        assert a[..n][0] == b[..n][0];
      }
    } else {
      LessMeans(a[1..], b[1..]);
      if n: nat :| Precedes(a[1..], b[1..], n) {
        assert a[..n + 1] == [a[0]] + a[1..][..n] && b[..n + 1] == [b[0]] + b[1..][..n];
        assert Precedes(a, b, n + 1);
      }
      if n: nat :| Precedes(a, b, n) {
        assert n > 0;
        assert a[1..][..n - 1] == a[..n][1..] && b[1..][..n - 1] == b[..n][1..];
        assert Precedes(a[1..], b[1..], n - 1);
      }
    }
  }

  lemma {:induction false} LessIrreflexive(a: string)
    ensures !Less(a, a)
  {
    if a != [] {
      LessIrreflexive(a[1..]);
    }
  }

  lemma {:induction false} LessTransitive(a: string, b: string, c: string)
    requires Less(a, b) && Less(b, c)
    ensures Less(a, c)
  {
    if a != [] && a[0] == b[0] == c[0] {
      LessTransitive(a[1..], b[1..], c[1..]);
    }
  }

  lemma {:induction false} LessTotal(a: string, b: string)
    ensures a == b || Less(a, b) || Less(b, a)
  {
    if a != [] && b != [] && a[0] == b[0] {
      LessTotal(a[1..], b[1..]);
      assert a == [a[0]] + a[1..] && b == [b[0]] + b[1..];
    }
  }

  lemma LessIsStrictTotal()
    ensures StrictTotalOrder(Less)
  {
    forall a ensures !Less(a, a) { LessIrreflexive(a); }
    forall a, b, c | Less(a, b) && Less(b, c) ensures Less(a, c) { LessTransitive(a, b, c); }
    forall a, b ensures a == b || Less(a, b) || Less(b, a) { LessTotal(a, b); }
  }

  /** Strictly increasing: sorted, and no key twice. */
  ghost predicate Increasing<K(!new)>(lt: (K, K) -> bool, s: seq<K>)
  {
    forall i, j :: 0 <= i < j < |s| ==> lt(s[i], s[j])
  }

  ghost function Elems<T>(s: seq<T>): set<T>
  {
    set x | x in s
  }

  ghost predicate Distinct<T>(s: seq<T>)
  {
    forall i, j :: 0 <= i < j < |s| ==> s[i] != s[j]
  }

  lemma DistinctPermuted<T>(a: seq<T>, b: seq<T>)
    requires Distinct(a) && multiset(a) == multiset(b)
    ensures Distinct(b)
  {
    forall i, j | 0 <= i < j < |b| ensures b[i] != b[j] {
      DistinctCount(a, b[i]);
      var rest := b[..i] + b[i + 1..j] + b[j + 1..];
      assert b == b[..i] + [b[i]] + b[i + 1..j] + [b[j]] + b[j + 1..];
      assert multiset(b) == multiset(rest) + multiset{b[i]} + multiset{b[j]};
    }
  }

  lemma {:induction false} DistinctCount<T>(a: seq<T>, x: T)
    requires Distinct(a)
    ensures multiset(a)[x] <= 1
    decreases |a|
  {
    if a != [] {
      assert a == [a[0]] + a[1..];
      DistinctCount(a[1..], x);
    }
  }

  lemma TakeSnoc<T>(s: seq<T>, i: nat)
    requires i < |s|
    ensures s[..i + 1] == s[..i] + [s[i]]
  {
  }

  lemma TakeAll<T>(s: seq<T>)
    ensures s[..|s|] == s
  {
  }

  /** The least element of a nonempty set. */
  ghost function Least<K(!new)>(lt: (K, K) -> bool, keys: set<K>): (m: K)
    requires StrictTotalOrder(lt) && keys != {}
    ensures m in keys && forall x :: x in keys && x != m ==> lt(m, x)
  {
    LeastExists(lt, keys);
    var m :| m in keys && forall x :: x in keys && x != m ==> lt(m, x);
    m
  }

  lemma {:induction false} LeastExists<K(!new)>(lt: (K, K) -> bool, keys: set<K>)
    requires StrictTotalOrder(lt) && keys != {}
    ensures exists m :: m in keys && forall x :: x in keys && x != m ==> lt(m, x)
    decreases |keys|
  {
    var k :| k in keys;
    var rest := keys - {k};
    if rest == {} {
      assert keys == {k};
    } else {
      LeastExists(lt, rest);
      var m :| m in rest && forall x :: x in rest && x != m ==> lt(m, x);
      var least := if lt(k, m) then k else m;
      forall x | x in keys && x != least ensures lt(least, x) {
        if x != k && x != m {
          assert lt(m, x) && (lt(k, m) ==> lt(k, x));
        }
      }
    }
  }

  /** The list a finite set sorts to. */
  ghost function SortedSeq<K(!new)>(lt: (K, K) -> bool, keys: set<K>): (s: seq<K>)
    requires StrictTotalOrder(lt)
    ensures Elems(s) == keys && |s| == |keys|
    decreases |keys|
  {
    if keys == {} then []
    else
      var m := Least(lt, keys);
      var rest := SortedSeq(lt, keys - {m});
      assert forall x :: x in [m] + rest <==> x == m || x in Elems(rest);
      [m] + rest
  }

  lemma {:induction false} SortedSeqIncreases<K(!new)>(lt: (K, K) -> bool, keys: set<K>)
    requires StrictTotalOrder(lt)
    ensures Increasing(lt, SortedSeq(lt, keys))
    decreases |keys|
  {
    if keys != {} {
      var m := Least(lt, keys);
      var rest := SortedSeq(lt, keys - {m});
      SortedSeqIncreases(lt, keys - {m});
      assert forall i :: 0 <= i < |rest| ==> rest[i] in Elems(rest);
    }
  }

  /** A set sorts to one list only, so any sort of it is `SortedSeq`. */
  lemma {:induction false} IncreasingIsUnique<K(!new)>(lt: (K, K) -> bool, s: seq<K>, t: seq<K>)
    requires StrictOrder(lt)
    requires Increasing(lt, s) && Increasing(lt, t) && Elems(s) == Elems(t)
    ensures s == t
    decreases |s|
  {
    assert |s| > 0 ==> s[0] in Elems(t);
    assert |t| > 0 ==> t[0] in Elems(s);
    if s != [] {
      assert s[0] == t[0];
      forall x ensures x in s[1..] <==> x in t[1..] {
        assert x in Elems(s) <==> x in Elems(t);
        assert x in s <==> x == s[0] || x in s[1..];
        assert x in t <==> x == t[0] || x in t[1..];
      }
      assert Elems(s[1..]) == Elems(t[1..]);
      IncreasingIsUnique(lt, s[1..], t[1..]);
      assert s == [s[0]] + s[1..] && t == [t[0]] + t[1..];
    }
  }

  /** Whatever lists a set in order is its sorted list. */
  lemma OnlySort<K(!new)>(lt: (K, K) -> bool, keys: set<K>, s: seq<K>)
    requires StrictTotalOrder(lt) && Increasing(lt, s) && forall k :: k in s <==> k in keys
    ensures s == SortedSeq(lt, keys)
  {
    SortedSeqIncreases(lt, keys);
    assert Elems(s) == keys;
    IncreasingIsUnique(lt, s, SortedSeq(lt, keys));
  }

  /** Any two entries differ in order, so sorting leaves no choice. */
  ghost predicate Comparable<T(!new)>(less: (T, T) -> bool, s: seq<T>)
  {
    forall i, j :: 0 <= i < j < |s| ==> less(s[i], s[j]) || less(s[j], s[i])
  }

  lemma InsertedIncreases<T(!new)>(less: (T, T) -> bool, t: seq<T>, k: nat, x: T)
    requires Increasing(less, t) && k <= |t|
    requires forall i :: 0 <= i < k ==> less(t[i], x)
    requires forall i :: k <= i < |t| ==> less(x, t[i])
    ensures Increasing(less, t[..k] + [x] + t[k..])
  {
    var u := t[..k] + [x] + t[k..];
    forall i, j | 0 <= i < j < |u| ensures less(u[i], u[j]) {
      assert u[i] == if i < k then t[i] else if i == k then x else t[i - 1];
      assert u[j] == if j < k then t[j] else if j == k then x else t[j - 1];
    }
  }

  method Insert<T(!new)>(less: (T, T) -> bool, t: seq<T>, x: T) returns (u: seq<T>)
    requires Increasing(less, t)
    requires forall i :: 0 <= i < |t| ==> less(x, t[i]) || less(t[i], x)
    requires forall i, j :: 0 <= i < j < |t| && less(x, t[i]) ==> less(x, t[j])
    ensures Increasing(less, u) && multiset(u) == multiset(t) + multiset{x}
  {
    var k := 0;
    while k < |t| && less(t[k], x)
      invariant k <= |t| && forall i :: 0 <= i < k ==> less(t[i], x)
    {
      k := k + 1;
    }
    assert k < |t| ==> less(x, t[k]);
    InsertedIncreases(less, t, k, x);
    assert t == t[..k] + t[k..];
    u := t[..k] + [x] + t[k..];
  }

  /** Stands in for the library sort. */
  method Sort<T(!new)>(less: (T, T) -> bool, s: seq<T>) returns (t: seq<T>)
    requires StrictOrder(less) && Comparable(less, s)
    ensures Increasing(less, t) && multiset(t) == multiset(s)
  {
    t := [];
    for n := 0 to |s|
      invariant Increasing(less, t) && multiset(t) == multiset(s[..n])
    {
      forall j | 0 <= j < |t| ensures less(s[n], t[j]) || less(t[j], s[n]) {
        assert t[j] in multiset(s[..n]);
        var i :| 0 <= i < n && s[i] == t[j];
      }
      t := Insert(less, t, s[n]);
      assert s[..n + 1] == s[..n] + [s[n]];
    }
    assert s[..|s|] == s;
  }
}
