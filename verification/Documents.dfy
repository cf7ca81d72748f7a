/** Merging the claims of two source documents: the link tuple and the source set of model/document.go. */
module Documents {
  import opened MergeClasses
  import opened KeyedFold
  import opened Orders
  import opened Sources

  /** Identity, version and checksum are one provenance tuple; version 0 states none. */
  datatype Link = Link(identity: string, version: nat, checksum: Option<Digest>)
  datatype Document = Document(link: Link, sources: seq<DocumentSource>)

  /** The same identity at a compatible version. */
  predicate SameDocument(a: Link, b: Link)
  {
    a.identity != "" && a.identity == b.identity && (a.version == 0 || b.version == 0 || a.version == b.version)
  }

  function FilledLink(a: Link, b: Link): Link
  {
    a.(version := if a.version == 0 then b.version else a.version, checksum := FillGap(a.checksum, b.checksum))
  }

  /** The tuple two documents leave. */
  ghost function Settle(left: Link, right: Link): Link
  {
    if left.identity == "" && right.identity != "" then right
    else if left.identity == "" || SameDocument(left, right) then FilledLink(left, right)
    else left
  }

  /** A tuple without an identity yields to one that has one; of two documents the first stands as it is; one document,
      or none at all, takes the first version and the first checksum stated. */
  ghost predicate Settled(left: Link, right: Link, s: Link)
  {
    if left.identity == "" && right.identity != "" then s == right
    else if left.identity != right.identity || (left.identity != "" && left.version != 0 && right.version != 0 && left.version != right.version)
    then s == left
    else
      && s.identity == left.identity
      && (left.version != 0 ==> s.version == left.version) && (left.version == 0 ==> s.version == right.version)
      && (left.checksum.Some? ==> s.checksum == left.checksum) && (left.checksum.None? ==> s.checksum == right.checksum)
  }

  ghost function Key(link: Link): SourceKey
  {
    SourceKey(link.identity, link.version)
  }

  ghost function Joined(tail: string -> nat, left: Document, right: Document): Document
  {
    var link := Settle(left.link, right.link);
    Document(link, Merged(tail, Key(link), left.sources, right.sources))
  }

  /** The tuple fills as a unit; the sources union, less the merged document's own, folded and cut. */
  method MergeDocuments(tail: string -> nat, left: Document, right: Document) returns (merged: Document)
    ensures merged == Joined(tail, left, right)
    ensures Settled(left.link, right.link, merged.link) && MergedMeans(tail, Key(merged.link), left.sources + right.sources, merged.sources)
  {
    var link := left.link;
    if left.link.identity == "" && right.link.identity != "" {
      link := right.link;
    } else if left.link.identity == "" || SameDocument(left.link, right.link) {
      if link.version == 0 {
        link := link.(version := right.link.version);
      }
      link := link.(checksum := FillGap(left.link.checksum, right.link.checksum));
    }
    var sources := MergeSources(tail, link.identity, link.version, left.sources, right.sources);
    merged := Document(link, sources);
  }

  // ----- Grouping of the tuple

  /** The second link names the first's document and has something the first lacks. */
  predicate Fills(a: Link, b: Link)
  {
    SameDocument(a, b) && ((a.version == 0 && b.version != 0) || (a.checksum.None? && b.checksum.Some?))
  }

  /** Naming the same document is no equivalence: an unversioned link is compatible with two versions that are not
      compatible with each other, and a refused link may stand between two that are. */
  predicate LinksGroup(a: Link, b: Link, c: Link)
  {
    && (a.identity != "" && b.identity != "" && !SameDocument(a, b) ==> !Fills(a, c))
    && (SameDocument(a, b) && SameDocument(b, c) && !SameDocument(a, c) ==> !Fills(a, b))
  }

  /** Three link tuples merge alike in either grouping exactly when the first gains nothing past one it refuses, and
      nothing from an unversioned one that the third claims for another version. */
  lemma SettleGroupsIff(a: Link, b: Link, c: Link)
    ensures Settle(Settle(a, b), c) == Settle(a, Settle(b, c)) <==> LinksGroup(a, b, c)
  {
  }

  /** The checksum of an unversioned link goes to version 2 in one grouping and nowhere in the other. */
  lemma UnversionedLinkRegroups(identity: string, d: Digest)
    requires identity != ""
    ensures var a, b, c := Link(identity, 2, None), Link(identity, 0, Some(d)), Link(identity, 3, None);
            Settle(Settle(a, b), c) == Link(identity, 2, Some(d)) && Settle(a, Settle(b, c)) == a
  {
  }

  // ----- Grouping of whole documents

  /** A stated version agrees with the one the identity's tail carries. */
  ghost predicate Agreeing(tail: string -> nat, link: Link)
  {
    link.version != 0 && tail(link.identity) != 0 ==> link.version == tail(link.identity)
  }

  ghost predicate NamesItself(tail: string -> nat, link: Link, k: SourceKey)
  {
    IsSelfSource(tail, link.identity, link.version, (k, None))
  }

  /** What an identified document drops it still drops after any later merge. */
  lemma DropsStay(tail: string -> nat, a: Link, b: Link, c: Link, k: SourceKey)
    requires Agreeing(tail, a) && Agreeing(tail, b) && Agreeing(tail, c) && NamesItself(tail, Settle(a, b), k)
    ensures NamesItself(tail, Settle(Settle(a, b), c), k)
  {
  }

  lemma SettleAgrees(tail: string -> nat, a: Link, b: Link)
    requires Agreeing(tail, a) && Agreeing(tail, b) && tail("") == 0
    ensures Agreeing(tail, Settle(a, b))
  {
  }

  ghost function SourceMap(sources: seq<DocumentSource>): map<SourceKey, Option<Digest>>
  {
    FoldMap(FillGap, sources)
  }

  ghost function Dropped(tail: string -> nat, link: Link, m: map<SourceKey, Option<Digest>>): map<SourceKey, Option<Digest>>
  {
    map k | k in m && !NamesItself(tail, link, k) :: m[k]
  }

  lemma {:induction false} DroppedSources(tail: string -> nat, link: Link, sources: seq<DocumentSource>)
    ensures SourceMap(WithoutSelf(tail, link.identity, link.version, sources)) == Dropped(tail, link, SourceMap(sources))
    decreases |sources|
  {
    if sources != [] {
      var front, last := sources[..|sources| - 1], sources[|sources| - 1];
      DroppedSources(tail, link, front);
      var rest := WithoutSelf(tail, link.identity, link.version, front);
      assert IsSelfSource(tail, link.identity, link.version, last) <==> NamesItself(tail, link, last.0);
      if NamesItself(tail, link, last.0) {
        assert rest + [] == rest;
      } else {
        assert (rest + [last])[..|rest|] == rest;
      }
    }
  }

  /** All keys fit below the bound. */
  ghost predicate Fits(m: map<SourceKey, Option<Digest>>)
  {
    |m| <= MaxDocumentSources
  }

  lemma FitsLess(small: map<SourceKey, Option<Digest>>, large: map<SourceKey, Option<Digest>>)
    requires small.Keys <= large.Keys && Fits(large)
    ensures Fits(small)
  {
    SubsetSize(small.Keys, large.Keys);
    assert |small.Keys| == |small| && |large.Keys| == |large|;
  }

  /** Below the bound a merge lists the two source maps combined, less the document itself. */
  lemma MergedMap(tail: string -> nat, link: Link, x: seq<DocumentSource>, y: seq<DocumentSource>)
    requires Fits(Combine(FillGap, SourceMap(x), SourceMap(y)))
    ensures StrictTotalOrder(KeyLess)
    ensures var m := Dropped(tail, link, Combine(FillGap, SourceMap(x), SourceMap(y)));
            Merged(tail, Key(link), x, y) == Listing(KeyLess, m) && SourceMap(Merged(tail, Key(link), x, y)) == m
  {
    KeyOrder();
    FillGapAssociates();
    FoldConcat(FillGap, x, y);
    DroppedSources(tail, link, x + y);
    var all := Combine(FillGap, SourceMap(x), SourceMap(y));
    var m := Dropped(tail, link, all);
    FitsLess(m, all);
    FoldListing(KeyLess, FillGap, m);
  }

  /** A source the second and third documents drop as their own, and the first grouping keeps, is one the first
      document lists by itself. */
  ghost predicate SourcesGroup(tail: string -> nat, a: Document, b: Document, c: Document)
  {
    var m := SourceMap(a.sources);
    var all := Combine(FillGap, Combine(FillGap, m, SourceMap(b.sources)), SourceMap(c.sources));
    var bc, abc := Settle(b.link, c.link), Settle(Settle(a.link, b.link), c.link);
    forall k :: k in all && NamesItself(tail, bc, k) && !NamesItself(tail, abc, k) ==> k in m && m[k] == all[k]
  }

  /** Below the bound, three documents merge alike in either grouping exactly when their tuples do and no source is
      dropped as the own of a document the first one then refuses. */
  lemma DocumentsGroupIff(tail: string -> nat, a: Document, b: Document, c: Document)
    requires Agreeing(tail, a.link) && Agreeing(tail, b.link) && Agreeing(tail, c.link)
    requires Fits(Combine(FillGap, Combine(FillGap, SourceMap(a.sources), SourceMap(b.sources)), SourceMap(c.sources)))
    ensures Joined(tail, Joined(tail, a, b), c) == Joined(tail, a, Joined(tail, b, c)) <==>
            LinksGroup(a.link, b.link, c.link) && SourcesGroup(tail, a, b, c)
  {
    SettleGroupsIff(a.link, b.link, c.link);
    if LinksGroup(a.link, b.link, c.link) {
      SourcesGroupIff(tail, a, b, c);
    }
  }

  lemma SourcesGroupIff(tail: string -> nat, a: Document, b: Document, c: Document)
    requires Agreeing(tail, a.link) && Agreeing(tail, b.link) && Agreeing(tail, c.link)
    requires Fits(Combine(FillGap, Combine(FillGap, SourceMap(a.sources), SourceMap(b.sources)), SourceMap(c.sources)))
    requires Settle(Settle(a.link, b.link), c.link) == Settle(a.link, Settle(b.link, c.link))
    ensures Joined(tail, Joined(tail, a, b), c).sources == Joined(tail, a, Joined(tail, b, c)).sources <==> SourcesGroup(tail, a, b, c)
  {
    var ab, bc := Settle(a.link, b.link), Settle(b.link, c.link);
    var l := Settle(ab, c.link);
    JoinedTwice(tail, ab, bc, l, a.sources, b.sources, c.sources);
    forall k | NamesItself(tail, ab, k) ensures NamesItself(tail, l, k) {
      DropsStay(tail, a.link, b.link, c.link, k);
    }
    hide *;
    SameDropsIff(tail, l, ab, bc, SourceMap(a.sources), SourceMap(b.sources), SourceMap(c.sources));
    GroupIs(tail, a, b, c);
  }

  lemma GroupIs(tail: string -> nat, a: Document, b: Document, c: Document)
    ensures var ab, bc := Settle(a.link, b.link), Settle(b.link, c.link);
            var l := Settle(ab, c.link);
            && (SourcesGroup(tail, a, b, c) <==> OnlyInFirst(tail, l, bc, SourceMap(a.sources), SourceMap(b.sources), SourceMap(c.sources)))
            && Joined(tail, Joined(tail, a, b), c).sources == Merged(tail, Key(l), Merged(tail, Key(ab), a.sources, b.sources), c.sources)
            && Joined(tail, a, Joined(tail, b, c)).sources ==
               Merged(tail, Key(Settle(a.link, bc)), a.sources, Merged(tail, Key(bc), b.sources, c.sources))
  {
    hide Merged, Settle, NamesItself;
  }

  /** Below the bound both groupings list a map, so they agree exactly when the maps do. */
  lemma JoinedTwice(tail: string -> nat, ab: Link, bc: Link, l: Link, a: seq<DocumentSource>, b: seq<DocumentSource>, c: seq<DocumentSource>)
    requires Fits(Combine(FillGap, Combine(FillGap, SourceMap(a), SourceMap(b)), SourceMap(c)))
    ensures Merged(tail, Key(l), Merged(tail, Key(ab), a, b), c) == Merged(tail, Key(l), a, Merged(tail, Key(bc), b, c)) <==>
            DroppedLeft(tail, l, ab, SourceMap(a), SourceMap(b), SourceMap(c)) == DroppedRight(tail, l, bc, SourceMap(a), SourceMap(b), SourceMap(c))
  {
    var ma, mb, mc := SourceMap(a), SourceMap(b), SourceMap(c);
    AllFit(tail, ab, bc, ma, mb, mc);
    MergedMap(tail, ab, a, b);
    MergedMap(tail, bc, b, c);
    var x, y := Merged(tail, Key(ab), a, b), Merged(tail, Key(bc), b, c);
    hide Fits, SourceMap, Combine, Dropped, Merged, NamesItself;
    MergedMap(tail, l, x, c);
    MergedMap(tail, l, a, y);
    FoldListing(KeyLess, FillGap, DroppedLeft(tail, l, ab, ma, mb, mc));
    FoldListing(KeyLess, FillGap, DroppedRight(tail, l, bc, ma, mb, mc));
  }

  lemma AllFit(tail: string -> nat, ab: Link, bc: Link, ma: map<SourceKey, Option<Digest>>,
               mb: map<SourceKey, Option<Digest>>, mc: map<SourceKey, Option<Digest>>)
    requires Fits(Combine(FillGap, Combine(FillGap, ma, mb), mc))
    ensures Fits(Combine(FillGap, ma, mb)) && Fits(Combine(FillGap, mb, mc))
    ensures Fits(Combine(FillGap, Dropped(tail, ab, Combine(FillGap, ma, mb)), mc))
    ensures Fits(Combine(FillGap, ma, Dropped(tail, bc, Combine(FillGap, mb, mc))))
  {
    hide Fits;
    hide NamesItself;
    var all := Combine(FillGap, Combine(FillGap, ma, mb), mc);
    FitsLess(Combine(FillGap, ma, mb), all);
    FitsLess(Combine(FillGap, mb, mc), all);
    FitsLess(Combine(FillGap, Dropped(tail, ab, Combine(FillGap, ma, mb)), mc), all);
    FitsLess(Combine(FillGap, ma, Dropped(tail, bc, Combine(FillGap, mb, mc))), all);
  }

  ghost function DroppedLeft(tail: string -> nat, l: Link, ab: Link, ma: map<SourceKey, Option<Digest>>,
                             mb: map<SourceKey, Option<Digest>>, mc: map<SourceKey, Option<Digest>>): map<SourceKey, Option<Digest>>
  {
    Dropped(tail, l, Combine(FillGap, Dropped(tail, ab, Combine(FillGap, ma, mb)), mc))
  }

  ghost function DroppedRight(tail: string -> nat, l: Link, bc: Link, ma: map<SourceKey, Option<Digest>>,
                              mb: map<SourceKey, Option<Digest>>, mc: map<SourceKey, Option<Digest>>): map<SourceKey, Option<Digest>>
  {
    Dropped(tail, l, Combine(FillGap, ma, Dropped(tail, bc, Combine(FillGap, mb, mc))))
  }

  ghost predicate OnlyInFirst(tail: string -> nat, l: Link, bc: Link, ma: map<SourceKey, Option<Digest>>,
                              mb: map<SourceKey, Option<Digest>>, mc: map<SourceKey, Option<Digest>>)
  {
    var all := Combine(FillGap, Combine(FillGap, ma, mb), mc);
    forall k :: k in all && NamesItself(tail, bc, k) && !NamesItself(tail, l, k) ==> k in ma && ma[k] == all[k]
  }

  lemma LeftAt(tail: string -> nat, l: Link, ab: Link, ma: map<SourceKey, Option<Digest>>,
               mb: map<SourceKey, Option<Digest>>, mc: map<SourceKey, Option<Digest>>, k: SourceKey)
    requires NamesItself(tail, ab, k) ==> NamesItself(tail, l, k)
    ensures var left, all := DroppedLeft(tail, l, ab, ma, mb, mc), Combine(FillGap, Combine(FillGap, ma, mb), mc);
            (k in left <==> k in all && !NamesItself(tail, l, k)) && (k in left ==> left[k] == all[k])
  {
    hide NamesItself, FillGap;
  }

  lemma RightAt(tail: string -> nat, l: Link, bc: Link, ma: map<SourceKey, Option<Digest>>,
                mb: map<SourceKey, Option<Digest>>, mc: map<SourceKey, Option<Digest>>, k: SourceKey)
    ensures var right, all := DroppedRight(tail, l, bc, ma, mb, mc), Combine(FillGap, Combine(FillGap, ma, mb), mc);
            && (k in right <==> k in all && !NamesItself(tail, l, k) && (NamesItself(tail, bc, k) ==> k in ma))
            && (k in right ==> right[k] == if NamesItself(tail, bc, k) then ma[k] else all[k])
  {
    hide NamesItself;
    if k in ma && k in mb && k in mc {
      FillGapAssociates();
    }
  }

  lemma SameDropsIff(tail: string -> nat, l: Link, ab: Link, bc: Link, ma: map<SourceKey, Option<Digest>>,
                     mb: map<SourceKey, Option<Digest>>, mc: map<SourceKey, Option<Digest>>)
    requires forall k :: NamesItself(tail, ab, k) ==> NamesItself(tail, l, k)
    ensures DroppedLeft(tail, l, ab, ma, mb, mc) == DroppedRight(tail, l, bc, ma, mb, mc) <==> OnlyInFirst(tail, l, bc, ma, mb, mc)
  {
    hide NamesItself, Combine, DroppedLeft, DroppedRight;
    var left, right := DroppedLeft(tail, l, ab, ma, mb, mc), DroppedRight(tail, l, bc, ma, mb, mc);
    var all := Combine(FillGap, Combine(FillGap, ma, mb), mc);
    forall k ensures (k in left <==> k in all && !NamesItself(tail, l, k)) && (k in left ==> left[k] == all[k]) {
      LeftAt(tail, l, ab, ma, mb, mc, k);
    }
    forall k ensures (k in right <==> k in all && !NamesItself(tail, l, k) && (NamesItself(tail, bc, k) ==> k in ma))
                     && (k in right ==> right[k] == if NamesItself(tail, bc, k) then ma[k] else all[k]) {
      RightAt(tail, l, bc, ma, mb, mc, k);
    }
    if OnlyInFirst(tail, l, bc, ma, mb, mc) {
      assert left == right;
    } else {
      var k :| k in all && NamesItself(tail, bc, k) && !NamesItself(tail, l, k) && !(k in ma && ma[k] == all[k]);
      assert k in left && (k in right ==> right[k] != left[k]);
    }
  }

  /** The second document drops a source as its own; when the first one then refuses that document, the source is gone,
      although the other grouping keeps it. */
  lemma RefusedDocumentRegroups(tail: string -> nat, x: string, y: string)
    requires x != y && x != "" && y != "" && (tail(x) == 0 || tail(x) == 1) && (tail(y) == 0 || tail(y) == 1)
    ensures var a, b := Document(Link(x, 1, None), []), Document(Link(y, 1, None), []);
            var c := Document(Link("", 0, None), [(SourceKey(y, 1), None)]);
            && LinksGroup(a.link, b.link, c.link)
            && Joined(tail, Joined(tail, a, b), c) != Joined(tail, a, Joined(tail, b, c))
  {
    var a, b := Document(Link(x, 1, None), []), Document(Link(y, 1, None), []);
    var s: DocumentSource := (SourceKey(y, 1), None);
    var c := Document(Link("", 0, None), [s]);
    OneSource(s);
    hide SourceMap, FillGap;
    var none: map<SourceKey, Option<Digest>> := map[];
    assert Combine(FillGap, none, none) == none;
    assert Combine(FillGap, none, map[s.0 := s.1]) == map[s.0 := s.1];
    DocumentsGroupIff(tail, a, b, c);
    assert NamesItself(tail, b.link, s.0) && !NamesItself(tail, a.link, s.0);
    assert s.0 in map[s.0 := s.1];
  }

  lemma OneSource(s: DocumentSource)
    ensures SourceMap([s]) == map[s.0 := s.1] && SourceMap([]) == map[]
  {
    assert [s][..0] == [];
    assert SourceMap([s]) == Put(FillGap, SourceMap([]), s.0, s.1);
  }

  /** With any number of sources: when the tuples group and each step drops what the last one does, so do the documents. */
  lemma DocumentsGroupAnyhow(tail: string -> nat, a: Document, b: Document, c: Document)
    requires LinksGroup(a.link, b.link, c.link)
    requires var ab, bc := Settle(a.link, b.link), Settle(b.link, c.link);
             && DropAlike(tail, Key(ab), Key(Settle(ab, c.link)), a.sources + b.sources)
             && DropAlike(tail, Key(bc), Key(Settle(ab, c.link)), b.sources + c.sources)
    ensures Joined(tail, Joined(tail, a, b), c) == Joined(tail, a, Joined(tail, b, c))
    ensures var k := Key(Settle(Settle(a.link, b.link), c.link));
            Joined(tail, Joined(tail, a, b), c).sources == Bounded(WithoutSelf(tail, k.identity, k.version, a.sources + b.sources + c.sources))
  {
    SettleGroupsIff(a.link, b.link, c.link);
    var ab, bc := Settle(a.link, b.link), Settle(b.link, c.link);
    hide Settle, Merged, DropAlike, LinksGroup;
    MergesGroupAnyhow(tail, Key(ab), Key(bc), Key(Settle(ab, c.link)), a.sources, b.sources, c.sources);
  }

  // ----- What every merge keeps

  /** What the gate of a document leaves: a version its identity allows, and a folded source list without itself. */
  ghost predicate Gated(tail: string -> nat, d: Document)
  {
    Agreeing(tail, d.link) && d.sources == Bounded(d.sources) && NoSelf(tail, Key(d.link), d.sources)
  }

  /** No merge brings back a cycle, an overlong list or a version the identity contradicts. */
  lemma MergedIsGated(tail: string -> nat, a: Document, b: Document)
    requires Gated(tail, a) && Gated(tail, b) && tail("") == 0
    ensures Gated(tail, Joined(tail, a, b))
  {
    SettleAgrees(tail, a.link, b.link);
    var k := Key(Settle(a.link, b.link));
    var union := WithoutSelf(tail, k.identity, k.version, a.sources + b.sources);
    SelfIsGone(tail, k, a.sources + b.sources);
    BoundedNamesNoSelf(tail, k, union);
    BoundedTwice(union);
  }

  lemma MergedWithItself(tail: string -> nat, d: Document)
    requires Gated(tail, d)
    ensures Joined(tail, d, d) == d
  {
    hide Bounded;
    NoSelfToDrop(tail, d.link.identity, d.link.version, d.sources + d.sources);
    BoundedDoubled(d.sources);
  }

  lemma BoundedDoubled(sources: seq<DocumentSource>)
    ensures Bounded(sources + sources) == Bounded(sources)
  {
    KeyOrder();
    FillGapAssociates();
    CanonDoubled(KeyLess, FillGap, sources);
  }
}
