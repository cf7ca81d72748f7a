/** The source set of a merged document: model/document.go. */
module Sources {
  import opened Orders
  import opened MergeClasses
  import opened KeyedFold

  datatype SourceKey = SourceKey(identity: string, version: nat)
  datatype Digest = Digest(algorithm: string, value: string)

  /** A gated source: the document it names, and its checksum if one is stated. Version 0 states none. */
  type DocumentSource = (SourceKey, Option<Digest>)

  const MaxDocumentSources: nat := 256

  predicate KeyLess(a: SourceKey, b: SourceKey)
  {
    if a.identity != b.identity then Less(a.identity, b.identity) else a.version < b.version
  }

  predicate SourceLess(a: DocumentSource, b: DocumentSource)
  {
    KeyLess(a.0, b.0)
  }

  function FillGap(a: Option<Digest>, b: Option<Digest>): Option<Digest>
  {
    MergeFillGap(None, a, b, (c: Option<Digest>) => true)
  }

  lemma KeyOrder()
    ensures StrictTotalOrder(KeyLess)
  {
    forall a ensures !KeyLess(a, a) {
    }
    forall a, b, c | KeyLess(a, b) && KeyLess(b, c) ensures KeyLess(a, c) {
      KeyTransitive(a, b, c);
    }
    forall a, b ensures a == b || KeyLess(a, b) || KeyLess(b, a) {
      LessTotal(a.identity, b.identity);
    }
  }

  lemma KeyTransitive(a: SourceKey, b: SourceKey, c: SourceKey)
    requires KeyLess(a, b) && KeyLess(b, c)
    ensures KeyLess(a, c)
  {
    LessIrreflexive(a.identity);
    if a.identity != b.identity && b.identity != c.identity {
      LessTransitive(a.identity, b.identity, c.identity);
    }
  }

  lemma FillGapAssociates()
    ensures Associative(FillGap) && Idempotent(FillGap)
  {
  }

  /** One record per (identity, version), sorted, each with its first stated checksum. */
  ghost function Folded(sources: seq<DocumentSource>): seq<DocumentSource>
  {
    KeyOrder();
    Canon(KeyLess, FillGap, sources)
  }

  /** The same, cut to the bound. */
  ghost function Bounded(sources: seq<DocumentSource>): seq<DocumentSource>
  {
    Cut(MaxDocumentSources, Folded(sources))
  }

  ghost predicate Indexed(index: map<SourceKey, nat>, folded: seq<DocumentSource>)
  {
    && (forall k :: k in index ==> index[k] < |folded| && folded[index[k]].0 == k)
    && (forall i :: 0 <= i < |folded| ==> folded[i].0 in index && index[folded[i].0] == i)
  }

  method FoldDocumentSources(gated: seq<DocumentSource>) returns (folded: seq<DocumentSource>)
    ensures folded == Folded(gated)
  {
    var index: map<SourceKey, nat> := map[];
    folded := [];
    hide *;
    StartFold();
    assert gated[..0] == [];
    for i := 0 to |gated|
      invariant Records(folded, FoldMap(FillGap, gated[..i])) && Indexed(index, folded)
    {
      var source := gated[i];
      NextFold(gated, i);
      IndexedMeans(index, folded, source);
      if source.0 in index {
        var at := index[source.0];
        RecordsUpdate(FillGap, folded, FoldMap(FillGap, gated[..i]), at, source);
        folded := folded[at := (source.0, FillGap(folded[at].1, source.1))];
      } else {
        RecordsAppend(FillGap, folded, FoldMap(FillGap, gated[..i]), source);
        index := index[source.0 := |folded|];
        folded := folded + [source];
      }
    }
    TakeAll(gated);
    FoldedIs(gated);
    folded := SortSources(folded, FoldMap(FillGap, gated));
  }

  lemma FoldedIs(gated: seq<DocumentSource>)
    ensures StrictTotalOrder(KeyLess) && Folded(gated) == Listing(KeyLess, FoldMap(FillGap, gated))
  {
    KeyOrder();
  }

  lemma StartFold()
    ensures Records<SourceKey, Option<Digest>>([], FoldMap<SourceKey, Option<Digest>>(FillGap, [])) && Indexed(map[], [])
  {
  }

  /** A hit is the record of that key; a miss means no record has it. */
  lemma IndexedMeans(index: map<SourceKey, nat>, folded: seq<DocumentSource>, source: DocumentSource)
    requires Indexed(index, folded)
    ensures source.0 in index ==> index[source.0] < |folded| && folded[index[source.0]].0 == source.0
    ensures source.0 in index ==> forall c :: Indexed(index, folded[index[source.0] := (source.0, c)])
    ensures source.0 !in index ==> forall i :: 0 <= i < |folded| ==> folded[i].0 != source.0
    ensures source.0 !in index ==> Indexed(index[source.0 := |folded|], folded + [source])
  {
  }

  lemma NextFold(gated: seq<DocumentSource>, i: nat)
    requires i < |gated|
    ensures FoldMap(FillGap, gated[..i + 1]) == Put(FillGap, FoldMap(FillGap, gated[..i]), gated[i].0, gated[i].1)
  {
    assert gated[..i + 1][..i] == gated[..i];
  }

  method SortSources(folded: seq<DocumentSource>, ghost m: map<SourceKey, Option<Digest>>) returns (sorted: seq<DocumentSource>)
    requires Records(folded, m)
    ensures StrictTotalOrder(KeyLess) && sorted == Listing(KeyLess, m)
  {
    KeyOrder();
    assert StrictOrder(SourceLess) && Comparable(SourceLess, folded);
    sorted := Sort(SourceLess, folded);
    RecordsSorted(KeyLess, folded, m, sorted);
  }

  // ----- Merging two gated lists

  /** The version a link tuple names: the stated one, or the one its identity's tail carries. */
  function EffectiveVersion(tail: string -> nat, identity: string, version: nat): nat
  {
    if version != 0 then version else tail(identity)
  }

  /** The source names the document that lists it. */
  predicate IsSelfSource(tail: string -> nat, identity: string, version: nat, source: DocumentSource)
  {
    && identity != "" && source.0.identity == identity
    && EffectiveVersion(tail, identity, version) != 0
    && EffectiveVersion(tail, identity, version) == EffectiveVersion(tail, source.0.identity, source.0.version)
  }

  ghost function WithoutSelf(tail: string -> nat, identity: string, version: nat, sources: seq<DocumentSource>): seq<DocumentSource>
  {
    if sources == [] then []
    else
      var last := sources[|sources| - 1];
      WithoutSelf(tail, identity, version, sources[..|sources| - 1]) + if IsSelfSource(tail, identity, version, last) then [] else [last]
  }

  /** The union folds and sorts as a whole before the bound is applied. */
  method MergeSources(tail: string -> nat, identity: string, version: nat, left: seq<DocumentSource>, right: seq<DocumentSource>)
    returns (merged: seq<DocumentSource>)
    ensures merged == Merged(tail, SourceKey(identity, version), left, right)
    ensures MergedMeans(tail, SourceKey(identity, version), left + right, merged)
  {
    var all := left + right;
    var union: seq<DocumentSource> := [];
    for i := 0 to |all|
      invariant union == WithoutSelf(tail, identity, version, all[..i])
    {
      assert all[..i + 1][..i] == all[..i];
      if !IsSelfSource(tail, identity, version, all[i]) {
        union := union + [all[i]];
      }
    }
    TakeAll(all);
    merged := FoldDocumentSources(union);
    if |merged| > MaxDocumentSources {
      merged := merged[..MaxDocumentSources];
    }
    MergedListMeans(tail, SourceKey(identity, version), left, right);
  }

  lemma {:induction false} NoSelfToDrop(tail: string -> nat, identity: string, version: nat, sources: seq<DocumentSource>)
    requires forall s :: s in sources ==> !IsSelfSource(tail, identity, version, s)
    ensures WithoutSelf(tail, identity, version, sources) == sources
    decreases |sources|
  {
    if sources != [] {
      var front, last := sources[..|sources| - 1], sources[|sources| - 1];
      assert last in sources && sources == front + [last];
      NoSelfToDrop(tail, identity, version, front);
    }
  }

  // ----- What a bounded merge promises

  /** Bounding each operand first changes nothing. */
  lemma BoundedConcat(a: seq<DocumentSource>, b: seq<DocumentSource>)
    ensures Bounded(Bounded(a) + Bounded(b)) == Bounded(a + b)
  {
    KeyOrder();
    FillGapAssociates();
    CutCanonConcat(KeyLess, FillGap, MaxDocumentSources, a, b);
  }

  lemma BoundedTwice(a: seq<DocumentSource>)
    ensures Bounded(Bounded(a)) == Bounded(a)
  {
    BoundedConcat(a, []);
    assert a + [] == a;
    assert Bounded([]) == [] && Bounded(a) + [] == Bounded(a);
  }

  /** However a run of merges is grouped, it is one fold of everything, sorted and cut once. */
  lemma GroupingDoesNotMatter(a: seq<DocumentSource>, b: seq<DocumentSource>, c: seq<DocumentSource>)
    ensures Bounded(Bounded(a + b) + c) == Bounded(a + Bounded(b + c)) == Bounded(a + b + c)
  {
    hide Bounded;
    BoundedTwice(a + b);
    BoundedTwice(b + c);
    BoundedConcat(Bounded(a + b), c);
    BoundedConcat(a + b, c);
    BoundedConcat(a, Bounded(b + c));
    BoundedConcat(a, b + c);
    assert a + (b + c) == a + b + c;
  }

  ghost function KeysOf(sources: seq<DocumentSource>): set<SourceKey>
  {
    set s | s in sources :: s.0
  }

  /** Which documents survive does not depend on the order of the operands. */
  lemma KeysIgnoreOrder(a: seq<DocumentSource>, b: seq<DocumentSource>)
    ensures KeysOf(Bounded(a + b)) == KeysOf(Bounded(b + a))
  {
    KeyOrder();
    FillGapAssociates();
    FoldConcat(FillGap, a, b);
    FoldConcat(FillGap, b, a);
    BoundedKeys(a + b);
    BoundedKeys(b + a);
    assert FoldMap(FillGap, a + b).Keys == FoldMap(FillGap, b + a).Keys;
  }

  lemma BoundedKeys(a: seq<DocumentSource>)
    ensures KeysOf(Bounded(a)) == set k | k in FoldMap(FillGap, a) && |Below(KeyLess, FoldMap(FillGap, a).Keys, k)| < MaxDocumentSources
  {
    KeyOrder();
    var m := FoldMap(FillGap, a);
    var c := CutMap(KeyLess, MaxDocumentSources, m);
    CutIsCutMap(KeyLess, MaxDocumentSources, m);
    ListingIncreases(KeyLess, c);
    var list := Listing(KeyLess, c);
    assert forall i :: 0 <= i < |list| ==> list[i].0 in c;
    assert forall k :: k in c ==> (k, c[k]) in list;
  }

  /** None of the sources names the document. */
  ghost predicate NoSelf(tail: string -> nat, document: SourceKey, sources: seq<DocumentSource>)
  {
    forall s :: s in sources ==> !IsSelfSource(tail, document.identity, document.version, s)
  }

  /** What merging two lists into one document's leaves. */
  ghost function Merged(tail: string -> nat, document: SourceKey, left: seq<DocumentSource>, right: seq<DocumentSource>): seq<DocumentSource>
  {
    Bounded(WithoutSelf(tail, document.identity, document.version, left + right))
  }

  lemma BoundedNamesNoSelf(tail: string -> nat, document: SourceKey, sources: seq<DocumentSource>)
    requires NoSelf(tail, document, sources)
    ensures NoSelf(tail, document, Bounded(sources))
  {
    KeyOrder();
    forall s | s in Bounded(sources) ensures !IsSelfSource(tail, document.identity, document.version, s) {
      var i :| 0 <= i < |Folded(sources)| && Folded(sources)[i] == s;
      FoldedChecksum(sources, s.0);
      var t :| t in sources && t.0 == s.0;
    }
  }

  /** Both documents drop the same of these sources. */
  ghost predicate DropAlike(tail: string -> nat, d: SourceKey, e: SourceKey, sources: seq<DocumentSource>)
  {
    forall s :: s in sources ==> (IsSelfSource(tail, d.identity, d.version, s) <==> IsSelfSource(tail, e.identity, e.version, s))
  }

  lemma {:induction false} DroppedAlike(tail: string -> nat, d: SourceKey, e: SourceKey, sources: seq<DocumentSource>)
    requires DropAlike(tail, d, e, sources)
    ensures WithoutSelf(tail, d.identity, d.version, sources) == WithoutSelf(tail, e.identity, e.version, sources)
    decreases |sources|
  {
    if sources != [] {
      var front, last := sources[..|sources| - 1], sources[|sources| - 1];
      assert last in sources && forall s :: s in front ==> s in sources;
      DroppedAlike(tail, d, e, front);
    }
  }

  lemma {:induction false} WithoutSelfConcat(tail: string -> nat, d: SourceKey, a: seq<DocumentSource>, b: seq<DocumentSource>)
    ensures WithoutSelf(tail, d.identity, d.version, a + b) ==
            WithoutSelf(tail, d.identity, d.version, a) + WithoutSelf(tail, d.identity, d.version, b)
    decreases |b|
  {
    if b == [] {
      assert a + b == a;
    } else {
      assert (a + b)[..|a + b| - 1] == a + b[..|b| - 1];
      WithoutSelfConcat(tail, d, a, b[..|b| - 1]);
    }
  }

  lemma {:induction false} SelfIsGone(tail: string -> nat, d: SourceKey, sources: seq<DocumentSource>)
    ensures NoSelf(tail, d, WithoutSelf(tail, d.identity, d.version, sources))
    decreases |sources|
  {
    if sources != [] {
      SelfIsGone(tail, d, sources[..|sources| - 1]);
    }
  }

  /** What a document already dropped is not dropped again. */
  lemma DroppedOnce(tail: string -> nat, d: SourceKey, sources: seq<DocumentSource>)
    ensures var kept := Bounded(WithoutSelf(tail, d.identity, d.version, sources)); WithoutSelf(tail, d.identity, d.version, kept) == kept
  {
    var union := WithoutSelf(tail, d.identity, d.version, sources);
    SelfIsGone(tail, d, sources);
    BoundedNamesNoSelf(tail, d, union);
    NoSelfToDrop(tail, d.identity, d.version, Bounded(union));
  }

  /** Three lists merge to the same bounded list in either grouping, as long as each step drops what the last one does. */
  lemma MergesGroupAnyhow(tail: string -> nat, ab: SourceKey, bc: SourceKey, abc: SourceKey,
                          a: seq<DocumentSource>, b: seq<DocumentSource>, c: seq<DocumentSource>)
    requires DropAlike(tail, ab, abc, a + b) && DropAlike(tail, bc, abc, b + c)
    ensures Merged(tail, abc, Merged(tail, ab, a, b), c) == Merged(tail, abc, a, Merged(tail, bc, b, c)) ==
            Bounded(WithoutSelf(tail, abc.identity, abc.version, a + b + c))
  {
    hide *;
    var x, y, z := WithoutSelf(tail, abc.identity, abc.version, a), WithoutSelf(tail, abc.identity, abc.version, b),
                   WithoutSelf(tail, abc.identity, abc.version, c);
    DroppedAlike(tail, ab, abc, a + b);
    DroppedAlike(tail, bc, abc, b + c);
    MergedIs(tail, ab, abc, a, b);
    MergedIs(tail, bc, abc, b, c);
    WithoutSelfConcat(tail, abc, a, b);
    WithoutSelfConcat(tail, abc, b, c);
    WithoutSelfConcat(tail, abc, a + b, c);
    DroppedOnce(tail, abc, a + b);
    DroppedOnce(tail, abc, b + c);
    WithoutSelfConcat(tail, abc, Bounded(x + y), c);
    WithoutSelfConcat(tail, abc, a, Bounded(y + z));
    MergedIs(tail, abc, abc, Bounded(x + y), c);
    MergedIs(tail, abc, abc, a, Bounded(y + z));
    GroupingDoesNotMatter(x, y, z);
  }

  lemma MergedIs(tail: string -> nat, d: SourceKey, e: SourceKey, a: seq<DocumentSource>, b: seq<DocumentSource>)
    requires WithoutSelf(tail, d.identity, d.version, a + b) == WithoutSelf(tail, e.identity, e.version, a + b)
    ensures Merged(tail, d, a, b) == Bounded(WithoutSelf(tail, e.identity, e.version, a + b))
  {
  }

  /** The first checksum stated for a key; none when no entry states one. */
  ghost function FirstStated(sources: seq<DocumentSource>, key: SourceKey): Option<Digest>
  {
    if sources == [] then None
    else
      var front, last := sources[..|sources| - 1], sources[|sources| - 1];
      if FirstStated(front, key).Some? || last.0 != key then FirstStated(front, key) else last.1
  }

  /** A surviving key keeps its first stated checksum. */
  lemma FirstChecksumStands(sources: seq<DocumentSource>, i: nat)
    requires i < |Bounded(sources)|
    ensures Bounded(sources)[i].1 == FirstStated(sources, Bounded(sources)[i].0)
  {
    KeyOrder();
    FoldedChecksum(sources, Folded(sources)[i].0);
  }

  lemma {:induction false} FoldedChecksum(sources: seq<DocumentSource>, key: SourceKey)
    ensures key in FoldMap(FillGap, sources) <==> exists s :: s in sources && s.0 == key
    ensures key in FoldMap(FillGap, sources) ==> FoldMap(FillGap, sources)[key] == FirstStated(sources, key)
    ensures key !in FoldMap(FillGap, sources) ==> FirstStated(sources, key) == None
    decreases |sources|
  {
    if sources != [] {
      var front, last := sources[..|sources| - 1], sources[|sources| - 1];
      assert sources == front + [last] && last in sources;
      FoldedChecksum(front, key);
      assert forall s :: s in sources <==> s in front || s == last;
    }
  }

  // ----- The merged list, source by source

  /** By identity, then by version; a source that states no version comes before those that do. */
  ghost predicate KeyBefore(a: SourceKey, b: SourceKey)
  {
    Less(a.identity, b.identity) || (a.identity == b.identity && a.version < b.version)
  }

  /** The version stated, or the one the identity's tail carries when none is. */
  ghost predicate Versioned(tail: string -> nat, k: SourceKey, v: nat)
  {
    v != 0 && (k.version == v || (k.version == 0 && tail(k.identity) == v))
  }

  /** Both name one document at one known version. */
  ghost predicate NamesOne(tail: string -> nat, a: SourceKey, b: SourceKey)
  {
    a.identity != "" && a.identity == b.identity && exists v :: Versioned(tail, a, v) && Versioned(tail, b, v)
  }

  /** The checksum of the first source of this key that states one. */
  ghost predicate FirstChecksum(sources: seq<DocumentSource>, k: SourceKey, c: Option<Digest>)
  {
    if c.None? then forall i :: 0 <= i < |sources| && sources[i].0 == k ==> sources[i].1 == None
    else exists i :: 0 <= i < |sources| && sources[i] == (k, c) && forall j :: 0 <= j < i && sources[j].0 == k ==> sources[j].1 == None
  }

  /** At most 256 sources, in increasing key order, none of them the document, each with its first stated checksum; one
      left out is the document itself, or comes after all of a full list. */
  ghost predicate MergedMeans(tail: string -> nat, document: SourceKey, all: seq<DocumentSource>, m: seq<DocumentSource>)
  {
    && |m| <= 256 && (forall i, j :: 0 <= i < j < |m| ==> KeyBefore(m[i].0, m[j].0))
    && (forall i :: 0 <= i < |m| ==> ListsKey(all, m[i].0) && !NamesOne(tail, document, m[i].0) && FirstChecksum(all, m[i].0, m[i].1))
    && (forall s :: s in all && !NamesOne(tail, document, s.0) ==>
          ListsKey(m, s.0) || (|m| == 256 && forall i :: 0 <= i < |m| ==> KeyBefore(m[i].0, s.0)))
  }

  ghost predicate ListsKey(sources: seq<DocumentSource>, k: SourceKey)
  {
    exists i :: 0 <= i < |sources| && sources[i].0 == k
  }

  lemma SelfMeans(tail: string -> nat, document: SourceKey, s: DocumentSource)
    ensures IsSelfSource(tail, document.identity, document.version, s) <==> NamesOne(tail, document, s.0)
  {
    if IsSelfSource(tail, document.identity, document.version, s) {
      var v := EffectiveVersion(tail, document.identity, document.version);
      assert Versioned(tail, document, v) && Versioned(tail, s.0, v);
    }
  }

  lemma {:induction false} KeptSources(tail: string -> nat, document: SourceKey, all: seq<DocumentSource>, k: SourceKey)
    ensures var kept := WithoutSelf(tail, document.identity, document.version, all);
            && (ListsKey(kept, k) <==> ListsKey(all, k) && !NamesOne(tail, document, k))
            && (!NamesOne(tail, document, k) ==> FirstStated(kept, k) == FirstStated(all, k))
    decreases |all|
  {
    if all != [] {
      var front, last := all[..|all| - 1], all[|all| - 1];
      KeptSources(tail, document, front, k);
      SelfMeans(tail, document, last);
      var before := WithoutSelf(tail, document.identity, document.version, front);
      ListsSnoc(front, last, k);
      ListsSnoc(before, last, k);
      assert all == front + [last];
      hide IsSelfSource, NamesOne, ListsKey;
      assert (before + [last])[..|before|] == before && before + [] == before;
    }
  }

  lemma ListsSnoc(front: seq<DocumentSource>, last: DocumentSource, k: SourceKey)
    ensures ListsKey(front + [last], k) <==> ListsKey(front, k) || last.0 == k
  {
    var all := front + [last];
    assert all[|front|] == last && forall i :: 0 <= i < |front| ==> all[i] == front[i];
  }

  lemma {:induction false} FirstStatedMeans(sources: seq<DocumentSource>, k: SourceKey)
    ensures FirstChecksum(sources, k, FirstStated(sources, k))
    decreases |sources|
  {
    if sources != [] {
      var front, last := sources[..|sources| - 1], sources[|sources| - 1];
      FirstStatedMeans(front, k);
      var c := FirstStated(sources, k);
      if FirstStated(front, k).Some? {
        var i :| 0 <= i < |front| && front[i] == (k, c) && forall j :: 0 <= j < i && front[j].0 == k ==> front[j].1 == None;
        assert sources[i] == (k, c) && forall j :: 0 <= j < i ==> sources[j] == front[j];
      } else if c.Some? {
        assert sources[|front|] == (k, c) && forall j :: 0 <= j < |front| ==> sources[j] == front[j];
      }
    }
  }

  /** The folded list holds every key once, in order, with its first stated checksum. */
  lemma FoldedMeans(sources: seq<DocumentSource>)
    ensures var f := Folded(sources);
            && (forall i, j :: 0 <= i < j < |f| ==> KeyBefore(f[i].0, f[j].0))
            && (forall i :: 0 <= i < |f| ==> ListsKey(sources, f[i].0) && f[i].1 == FirstStated(sources, f[i].0))
            && (forall s :: s in sources ==> ListsKey(f, s.0))
  {
    KeyOrder();
    var m := FoldMap(FillGap, sources);
    ListingIncreases(KeyLess, m);
    var f := Folded(sources);
    forall i | 0 <= i < |f| ensures ListsKey(sources, f[i].0) && f[i].1 == FirstStated(sources, f[i].0) {
      FoldedChecksum(sources, f[i].0);
      var s :| s in sources && s.0 == f[i].0;
    }
    forall s | s in sources ensures ListsKey(f, s.0) {
      FoldedChecksum(sources, s.0);
      assert (s.0, m[s.0]) in f;
    }
  }

  lemma MergedListMeans(tail: string -> nat, document: SourceKey, left: seq<DocumentSource>, right: seq<DocumentSource>)
    ensures MergedMeans(tail, document, left + right, Merged(tail, document, left, right))
  {
    var all := left + right;
    var kept := WithoutSelf(tail, document.identity, document.version, all);
    var f, m := Folded(kept), Merged(tail, document, left, right);
    FoldedMeans(kept);
    assert m == f[..|m|] && (|m| < |f| ==> |m| == 256);
    forall k ensures (ListsKey(kept, k) <==> ListsKey(all, k) && !NamesOne(tail, document, k))
                     && (!NamesOne(tail, document, k) ==> FirstChecksum(all, k, FirstStated(kept, k))) {
      KeptSources(tail, document, all, k);
      FirstStatedMeans(all, k);
    }
    hide Folded, FirstStated, FirstChecksum, NamesOne, Merged, WithoutSelf;
    forall s | s in all && !NamesOne(tail, document, s.0)
      ensures ListsKey(m, s.0) || (|m| == 256 && forall i :: 0 <= i < |m| ==> KeyBefore(m[i].0, s.0))
    {
      assert ListsKey(all, s.0);
      CutOff(kept, f, m, s.0);
    }
    hide ListsKey, KeyBefore;
  }

  lemma CutOff(kept: seq<DocumentSource>, f: seq<DocumentSource>, m: seq<DocumentSource>, k: SourceKey)
    requires ListsKey(kept, k) && forall s :: s in kept ==> ListsKey(f, s.0)
    requires forall i, j :: 0 <= i < j < |f| ==> KeyBefore(f[i].0, f[j].0)
    requires |m| <= |f| && m == f[..|m|] && (|m| < |f| ==> |m| == 256)
    ensures ListsKey(m, k) || (|m| == 256 && forall i :: 0 <= i < |m| ==> KeyBefore(m[i].0, k))
  {
    var j :| 0 <= j < |kept| && kept[j].0 == k;
    assert kept[j] in kept;
    var i :| 0 <= i < |f| && f[i].0 == k;
    assert i < |m| ==> m[i] == f[i];
  }
}
