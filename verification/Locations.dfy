/** Usage records and their canonical list: the location fold of model/graph.go. */
module Locations {
  import opened Orders
  import opened KeyedFold
  import opened Scopes
  import opened Relationships

  datatype Position = Nowhere | At(file: string, line: int, column: int, endLine: int)

  /** What names a usage: module root and declaration site. */
  datatype Usage = Usage(realPath: string, accessPath: string, moduleRoot: string, position: Position)

  /** A usage with the attribution its record carries. */
  datatype Location = Location(usage: Usage, scopes: seq<Scope>, relationship: Relationship)

  datatype Attribution = Attribution(scopes: set<Scope>, relationship: Relationship)

  function CompareStrings(a: string, b: string): int
  {
    if a == b then 0 else if Less(a, b) then -1 else 1
  }

  function CompareInts(a: int, b: int): int
  {
    if a == b then 0 else if a < b then -1 else 1
  }

  function ComparePositions(a: Position, b: Position): int
  {
    if a.Nowhere? && b.Nowhere? then 0
    else if a.Nowhere? then -1
    else if b.Nowhere? then 1
    else if a.file != b.file then CompareStrings(a.file, b.file)
    else if a.line != b.line then CompareInts(a.line, b.line)
    else if a.column != b.column then CompareInts(a.column, b.column)
    else CompareInts(a.endLine, b.endLine)
  }

  function CompareUsages(a: Usage, b: Usage): int
  {
    if a.realPath != b.realPath then CompareStrings(a.realPath, b.realPath)
    else if a.accessPath != b.accessPath then CompareStrings(a.accessPath, b.accessPath)
    else if a.moduleRoot != b.moduleRoot then CompareStrings(a.moduleRoot, b.moduleRoot)
    else ComparePositions(a.position, b.position)
  }

  predicate UsageLess(a: Usage, b: Usage)
  {
    CompareUsages(a, b) < 0
  }

  lemma CompareStringsLaws(a: string, b: string, c: string)
    ensures CompareStrings(a, b) == -CompareStrings(b, a)
    ensures CompareStrings(a, b) < 0 && CompareStrings(b, c) < 0 ==> CompareStrings(a, c) < 0
  {
    LessTotal(a, b);
    if Less(a, b) && Less(b, a) {
      LessTransitive(a, b, a);
    }
    LessIrreflexive(a);
    if Less(a, b) && Less(b, c) {
      LessTransitive(a, b, c);
    }
  }

  lemma ComparePositionsLaws(a: Position, b: Position, c: Position)
    ensures ComparePositions(a, b) == 0 <==> a == b
    ensures ComparePositions(a, b) == -ComparePositions(b, a)
    ensures ComparePositions(a, b) < 0 && ComparePositions(b, c) < 0 ==> ComparePositions(a, c) < 0
  {
    if a.At? && b.At? {
      CompareStringsLaws(a.file, b.file, if c.At? then c.file else "");
    }
  }

  lemma CompareUsagesLaws(a: Usage, b: Usage, c: Usage)
    ensures CompareUsages(a, b) == 0 <==> a == b
    ensures CompareUsages(a, b) == -CompareUsages(b, a)
    ensures CompareUsages(a, b) < 0 && CompareUsages(b, c) < 0 ==> CompareUsages(a, c) < 0
  {
    CompareStringsLaws(a.realPath, b.realPath, c.realPath);
    CompareStringsLaws(a.accessPath, b.accessPath, c.accessPath);
    CompareStringsLaws(a.moduleRoot, b.moduleRoot, c.moduleRoot);
    ComparePositionsLaws(a.position, b.position, c.position);
  }

  /** An absent position comes before any stated one; stated ones go by file, line, column and end line. */
  ghost predicate PositionBefore(a: Position, b: Position)
  {
    b.At? && (a.Nowhere? || Less(a.file, b.file)
              || (a.file == b.file && (a.line < b.line
                  || (a.line == b.line && (a.column < b.column || (a.column == b.column && a.endLine < b.endLine))))))
  }

  /** By real path, then access path, then module root, then position. */
  ghost predicate UsageBefore(a: Usage, b: Usage)
  {
    || Less(a.realPath, b.realPath)
    || (a.realPath == b.realPath && Less(a.accessPath, b.accessPath))
    || (a.realPath == b.realPath && a.accessPath == b.accessPath && Less(a.moduleRoot, b.moduleRoot))
    || (a.realPath == b.realPath && a.accessPath == b.accessPath && a.moduleRoot == b.moduleRoot && PositionBefore(a.position, b.position))
  }

  lemma UsageLessMeans(a: Usage, b: Usage)
    ensures UsageLess(a, b) <==> UsageBefore(a, b)
  {
    LessIrreflexive(a.realPath);
    LessIrreflexive(a.accessPath);
    LessIrreflexive(a.moduleRoot);
    if a.position.At? {
      LessIrreflexive(a.position.file);
    }
  }

  /** The comparison is a total order that ties only on one and the same usage. */
  lemma UsageOrder()
    ensures StrictTotalOrder(UsageLess)
  {
    forall a, b, c | UsageLess(a, b) && UsageLess(b, c) ensures UsageLess(a, c) { CompareUsagesLaws(a, b, c); }
    forall a, b ensures a == b || UsageLess(a, b) || UsageLess(b, a) { CompareUsagesLaws(a, b, b); }
    forall a ensures !UsageLess(a, a) { CompareUsagesLaws(a, a, a); }
  }

  function MergeAttribution(a: Attribution, b: Attribution): Attribution
  {
    Attribution(a.scopes + b.scopes, MergeRelationship(a.relationship, b.relationship))
  }

  lemma MergeAttributionLaws()
    ensures Associative(MergeAttribution) && Commutative(MergeAttribution) && Idempotent(MergeAttribution)
  {
  }

  ghost function Record(l: Location): (Usage, Attribution)
  {
    (l.usage, Attribution(Known(l.scopes), l.relationship))
  }

  ghost function Recorded(locations: seq<Location>): seq<(Usage, Attribution)>
  {
    seq(|locations|, i requires 0 <= i < |locations| => Record(locations[i]))
  }

  ghost function Rendered(records: seq<(Usage, Attribution)>): seq<Location>
  {
    seq(|records|, i requires 0 <= i < |records| =>
      Location(records[i].0, KnownList(records[i].1.scopes), records[i].1.relationship))
  }

  ghost function Attributions(locations: seq<Location>): map<Usage, Attribution>
  {
    FoldMap(MergeAttribution, Recorded(locations))
  }

  /** The canonical form of a location list. */
  ghost function Canonical(locations: seq<Location>): seq<Location>
  {
    UsageOrder();
    Rendered(Canon(UsageLess, MergeAttribution, Recorded(locations)))
  }

  ghost function MergedRecord(dst: Location, src: Location): Location
  {
    Location(dst.usage, KnownList(Known(dst.scopes) + Known(src.scopes)), MergeRelationship(dst.relationship, src.relationship))
  }

  /** One location folded into a list: into the first record of its usage, or appended. */
  ghost function FoldLocation(dst: seq<Location>, l: Location): seq<Location>
  {
    if dst == [] then [l]
    else if dst[0].usage == l.usage then [MergedRecord(dst[0], l)] + dst[1..]
    else [dst[0]] + FoldLocation(dst[1..], l)
  }

  ghost function MergedLocations(dst: seq<Location>, additions: seq<Location>): seq<Location>
  {
    if additions == [] then dst
    else FoldLocation(MergedLocations(dst, additions[..|additions| - 1]), additions[|additions| - 1])
  }

  method UsageRecordIndex(existing: seq<Location>, l: Location) returns (at: int)
    ensures at < 0 ==> forall i :: 0 <= i < |existing| ==> existing[i].usage != l.usage
    ensures at >= 0 ==> at < |existing| && existing[at].usage == l.usage
    ensures forall i :: 0 <= i < at ==> existing[i].usage != l.usage
  {
    for i := 0 to |existing|
      invariant forall j :: 0 <= j < i ==> existing[j].usage != l.usage
    {
      if existing[i].usage == l.usage {
        return i;
      }
    }
    return -1;
  }

  method MergeUsageRecord(dst: Location, src: Location) returns (merged: Location)
    ensures merged == MergedRecord(dst, src)
  {
    var scopes := MergeScopeSet(dst.scopes, src.scopes);
    merged := Location(dst.usage, scopes, MergeRelationship(dst.relationship, src.relationship));
  }

  lemma {:induction false} FoldLocationAt(dst: seq<Location>, l: Location, at: nat)
    requires at <= |dst| && forall i :: 0 <= i < at ==> dst[i].usage != l.usage
    requires at < |dst| ==> dst[at].usage == l.usage
    ensures FoldLocation(dst, l) == if at < |dst| then dst[at := MergedRecord(dst[at], l)] else dst + [l]
    decreases at
  {
    if at > 0 {
      var rest := dst[1..];
      FoldLocationAt(rest, l, at - 1);
      assert dst == [dst[0]] + rest;
      assert at < |dst| ==> dst[at := MergedRecord(dst[at], l)] == [dst[0]] + rest[at - 1 := MergedRecord(dst[at], l)];
    }
  }

  /** Folds a witness's locations into `dst`, matching records by usage. */
  method MergeNodeLocations(dst: seq<Location>, additions: seq<Location>) returns (out: seq<Location>)
    ensures out == MergedLocations(dst, additions)
  {
    out := dst;
    for n := 0 to |additions|
      invariant out == MergedLocations(dst, additions[..n])
    {
      assert additions[..n + 1][..n] == additions[..n];
      var at := UsageRecordIndex(out, additions[n]);
      FoldLocationAt(out, additions[n], if at >= 0 then at else |out|);
      if at >= 0 {
        var merged := MergeUsageRecord(out[at], additions[n]);
        out := out[at := merged];
      } else {
        out := out + [additions[n]];
      }
    }
    assert additions[..|additions|] == additions;
  }

  lemma MergedRecordAttribution(x: Location, l: Location)
    requires x.usage == l.usage
    ensures Record(MergedRecord(x, l)) == (l.usage, MergeAttribution(Record(x).1, Record(l).1))
  {
    assert Known(KnownList(Known(x.scopes) + Known(l.scopes))) == Known(x.scopes) + Known(l.scopes);
  }

  /** Merging into the record where it stands, or seeing the second witness at the end. */
  lemma MergeInPlace(pre: seq<Location>, x: Location, post: seq<Location>, l: Location)
    requires x.usage == l.usage
    ensures Attributions(pre + [MergedRecord(x, l)] + post) == Attributions(pre + [x] + post + [l])
  {
    var m := Attributions(pre + post);
    AttributionsSplit(pre, MergedRecord(x, l), post);
    AttributionsSplit(pre, x, post);
    AttributionsSnoc(pre + [x] + post, l);
    MergedRecordAttribution(x, l);
    if x.usage in m {
      MergeAttributionAssociates(m[x.usage], Record(x).1, Record(l).1);
    }
  }

  lemma MergeAttributionAssociates(a: Attribution, b: Attribution, c: Attribution)
    ensures MergeAttribution(a, MergeAttribution(b, c)) == MergeAttribution(MergeAttribution(a, b), c)
  {
  }

  lemma UpdateSplits<T>(s: seq<T>, at: nat, y: T)
    requires at < |s|
    ensures s == s[..at] + [s[at]] + s[at + 1..] && s[at := y] == s[..at] + [y] + s[at + 1..]
  {
  }

  /** Folding one more location is seeing one more location. */
  lemma FoldLocationAttributions(dst: seq<Location>, l: Location)
    ensures Attributions(FoldLocation(dst, l)) == Attributions(dst + [l])
  {
    var at := FirstOf(dst, l.usage);
    FoldLocationAt(dst, l, at);
    if at < |dst| {
      var pre, x, post := dst[..at], dst[at], dst[at + 1..];
      UpdateSplits(dst, at, MergedRecord(x, l));
      MergeInPlace(pre, x, post, l);
    }
  }

  function FirstOf(dst: seq<Location>, u: Usage): (at: nat)
    ensures at <= |dst| && (forall i :: 0 <= i < at ==> dst[i].usage != u) && (at < |dst| ==> dst[at].usage == u)
  {
    if dst == [] || dst[0].usage == u then 0 else 1 + FirstOf(dst[1..], u)
  }

  lemma AttributionsSnoc(locations: seq<Location>, l: Location)
    ensures Attributions(locations + [l]) == Put(MergeAttribution, Attributions(locations), l.usage, Record(l).1)
  {
    assert Recorded(locations + [l])[..|locations|] == Recorded(locations);
  }

  lemma AttributionsSplit(pre: seq<Location>, x: Location, post: seq<Location>)
    ensures Attributions(pre + [x] + post) == Put(MergeAttribution, Attributions(pre + post), x.usage, Record(x).1)
  {
    MergeAttributionLaws();
    FoldToLast(MergeAttribution, Recorded(pre), Record(x), Recorded(post));
    assert Recorded(pre + [x] + post) == Recorded(pre) + [Record(x)] + Recorded(post);
    assert Recorded(pre + post + [x]) == Recorded(pre) + Recorded(post) + [Record(x)];
    AttributionsSnoc(pre + post, x);
  }

  /** Folding witnesses into a list says exactly what the two lists together say. */
  lemma {:induction false} MergedAttributions(dst: seq<Location>, additions: seq<Location>)
    ensures Attributions(MergedLocations(dst, additions)) == Attributions(dst + additions)
    decreases |additions|
  {
    if additions == [] {
      assert dst + additions == dst;
    } else {
      var front, last := additions[..|additions| - 1], additions[|additions| - 1];
      MergedAttributions(dst, front);
      FoldLocationAttributions(MergedLocations(dst, front), last);
      AttributionsSnoc(MergedLocations(dst, front), last);
      AttributionsSnoc(dst + front, last);
      assert dst + additions == dst + front + [last];
    }
  }

  lemma MergedCanonical(dst: seq<Location>, additions: seq<Location>)
    ensures Canonical(MergedLocations(dst, additions)) == Canonical(dst + additions)
  {
    MergedAttributions(dst, additions);
  }

  ghost predicate DistinctUsages(locations: seq<Location>)
  {
    forall i, j :: 0 <= i < j < |locations| ==> locations[i].usage != locations[j].usage
  }

  lemma {:induction false} MergedDistinct(dst: seq<Location>, additions: seq<Location>)
    requires DistinctUsages(dst)
    ensures DistinctUsages(MergedLocations(dst, additions))
    decreases |additions|
  {
    if additions != [] {
      var front, last := additions[..|additions| - 1], additions[|additions| - 1];
      MergedDistinct(dst, front);
      var before := MergedLocations(dst, front);
      FoldLocationAt(before, last, FirstOf(before, last.usage));
    }
  }

  lemma {:induction false} DistinctRecords(locations: seq<Location>)
    requires DistinctUsages(locations)
    ensures Records(Recorded(locations), Attributions(locations))
    decreases |locations|
  {
    if locations != [] {
      var front, last := locations[..|locations| - 1], locations[|locations| - 1];
      DistinctRecords(front);
      assert locations == front + [last];
      AttributionsSnoc(front, last);
      RecordsAppend(MergeAttribution, Recorded(front), Attributions(front), Record(last));
      assert Recorded(locations) == Recorded(front) + [Record(last)];
    }
  }

  predicate RecordLess(a: Location, b: Location)
  {
    UsageLess(a.usage, b.usage)
  }

  /** The published list: fold by usage, clean each scope set, sort. */
  method CanonicalLocations(locations: seq<Location>) returns (out: seq<Location>)
    ensures out == Canonical(locations)
  {
    if |locations| == 0 {
      return [];
    }
    var merged := MergeNodeLocations([], locations);
    MergedDistinct([], locations);
    MergedAttributions([], locations);
    assert [] + locations == locations;
    DistinctRecords(merged);
    var clean := CleanScopes(merged);
    out := SortRecords(clean, Attributions(locations));
  }

  method SortRecords(clean: seq<Location>, ghost m: map<Usage, Attribution>) returns (out: seq<Location>)
    requires Records(Recorded(clean), m)
    requires forall l :: l in clean ==> l.scopes == KnownList(Known(l.scopes))
    ensures StrictTotalOrder(UsageLess) && out == Rendered(Listing(UsageLess, m))
  {
    assert forall i :: 0 <= i < |clean| ==> clean[i].usage == Recorded(clean)[i].0;
    RecordOrder(clean);
    out := Sort(RecordLess, clean);
    SortedIsCanonical(clean, out, m);
  }

  lemma RecordOrder(clean: seq<Location>)
    requires forall i, j :: 0 <= i < j < |clean| ==> clean[i].usage != clean[j].usage
    ensures StrictOrder(RecordLess) && Comparable(RecordLess, clean)
  {
    forall a: Location, b: Location, c: Location | RecordLess(a, b) && RecordLess(b, c) ensures RecordLess(a, c) {
      CompareUsagesLaws(a.usage, b.usage, c.usage);
    }
    forall a: Location ensures !RecordLess(a, a) {
      CompareUsagesLaws(a.usage, a.usage, a.usage);
    }
    forall i, j | 0 <= i < j < |clean| ensures RecordLess(clean[i], clean[j]) || RecordLess(clean[j], clean[i]) {
      CompareUsagesLaws(clean[i].usage, clean[j].usage, clean[j].usage);
    }
  }

  method CleanScopes(locations: seq<Location>) returns (out: seq<Location>)
    ensures Recorded(out) == Recorded(locations)
    ensures forall l :: l in out ==> l.scopes == KnownList(Known(l.scopes))
  {
    out := [];
    for i := 0 to |locations|
      invariant |out| == i
      invariant forall j :: 0 <= j < i ==> Clean(locations[j], out[j])
    {
      var scopes := MergeScopeSet(locations[i].scopes, []);
      KnownListFixed(locations[i].scopes, scopes);
      out := out + [locations[i].(scopes := scopes)];
    }
  }

  ghost predicate Clean(l: Location, out: Location)
  {
    Record(out) == Record(l) && out.scopes == KnownList(Known(out.scopes))
  }

  lemma KnownListFixed(raw: seq<Scope>, scopes: seq<Scope>)
    requires scopes == KnownList(Known(raw) + Known([]))
    ensures Known(scopes) == Known(raw) && scopes == KnownList(Known(scopes))
  {
    assert Known(raw) + Known([]) == Known(raw);
  }

  lemma SortedIsCanonical(clean: seq<Location>, out: seq<Location>, m: map<Usage, Attribution>)
    requires Records(Recorded(clean), m)
    requires forall l :: l in clean ==> l.scopes == KnownList(Known(l.scopes))
    requires Increasing(RecordLess, out) && multiset(out) == multiset(clean)
    ensures StrictTotalOrder(UsageLess) && out == Rendered(Listing(UsageLess, m))
  {
    RecordedMultiset(out, clean);
    RenderedRecorded(out, clean);
    RecordedIncreases(out);
    UsageOrder();
    RecordsSorted(UsageLess, Recorded(clean), m, Recorded(out));
  }

  lemma RenderedRecorded(out: seq<Location>, clean: seq<Location>)
    requires forall l :: l in clean ==> l.scopes == KnownList(Known(l.scopes))
    requires multiset(out) == multiset(clean)
    ensures Rendered(Recorded(out)) == out
  {
    forall i | 0 <= i < |out| ensures out[i] == Rendered(Recorded(out))[i] {
      assert out[i] in multiset(clean);
    }
  }

  lemma RecordedIncreases(out: seq<Location>)
    requires Increasing(RecordLess, out)
    ensures KeysIncrease(UsageLess, Recorded(out))
  {
    forall i, j | 0 <= i < j < |out| ensures UsageLess(out[i].usage, out[j].usage) {
      assert RecordLess(out[i], out[j]);
    }
  }

  lemma {:induction false} RecordedMultiset(a: seq<Location>, b: seq<Location>)
    requires multiset(a) == multiset(b)
    ensures multiset(Recorded(a)) == multiset(Recorded(b))
    decreases |b|
  {
    if b == [] {
      assert |multiset(a)| == |multiset(b)|;
    } else {
      var pre, post := TakeOut(a, b);
      var front, last := b[..|b| - 1], b[|b| - 1];
      RecordedMultiset(pre + post, front);
      assert Recorded(a) == Recorded(pre) + [Record(last)] + Recorded(post);
      assert Recorded(pre + post) == Recorded(pre) + Recorded(post);
      assert Recorded(b) == Recorded(front) + [Record(last)];
    }
  }

  // ----- What the canonical form promises

  lemma RecordedRendered(records: seq<(Usage, Attribution)>)
    requires forall i :: 0 <= i < |records| ==> Unknown !in records[i].1.scopes
    ensures Recorded(Rendered(records)) == records
  {
    forall i | 0 <= i < |records| ensures Recorded(Rendered(records))[i] == records[i] {
      assert Known(KnownList(records[i].1.scopes)) == records[i].1.scopes;
    }
  }

  lemma {:induction false} NoUnknown(locations: seq<Location>)
    ensures forall u :: u in Attributions(locations) ==> Unknown !in Attributions(locations)[u].scopes
    decreases |locations|
  {
    if locations != [] {
      var front, last := locations[..|locations| - 1], locations[|locations| - 1];
      NoUnknown(front);
      assert Recorded(locations)[..|locations| - 1] == Recorded(front);
      assert Attributions(locations) == Put(MergeAttribution, Attributions(front), last.usage, Record(last).1);
    }
  }

  lemma NoUnknownListed(locations: seq<Location>)
    ensures StrictTotalOrder(UsageLess)
    ensures forall i :: 0 <= i < |Listing(UsageLess, Attributions(locations))| ==>
              Unknown !in Listing(UsageLess, Attributions(locations))[i].1.scopes
  {
    UsageOrder();
    NoUnknown(locations);
    var m := Attributions(locations);
    forall i | 0 <= i < |Listing(UsageLess, m)| ensures Unknown !in Listing(UsageLess, m)[i].1.scopes {
      assert Listing(UsageLess, m)[i].0 in m;
    }
  }

  lemma RecordedCanonical(locations: seq<Location>)
    ensures StrictTotalOrder(UsageLess)
    ensures Recorded(Canonical(locations)) == Canon(UsageLess, MergeAttribution, Recorded(locations))
  {
    NoUnknownListed(locations);
    assert Canon(UsageLess, MergeAttribution, Recorded(locations)) == Listing(UsageLess, Attributions(locations));
    RecordedRendered(Canon(UsageLess, MergeAttribution, Recorded(locations)));
  }

  /** Witnesses may arrive in any order. */
  lemma CanonicalIgnoresOrder(a: seq<Location>, b: seq<Location>)
    requires multiset(a) == multiset(b)
    ensures Canonical(a) == Canonical(b)
  {
    MergeAttributionLaws();
    RecordedMultiset(a, b);
    FoldPermuted(MergeAttribution, Recorded(a), Recorded(b));
  }

  lemma CanonicalIsFixed(locations: seq<Location>)
    ensures Canonical(Canonical(locations)) == Canonical(locations)
  {
    RecordedCanonical(locations);
    CanonTwice(UsageLess, MergeAttribution, Recorded(locations));
  }

  lemma CanonOfParts(a: seq<(Usage, Attribution)>, b: seq<(Usage, Attribution)>)
    ensures StrictTotalOrder(UsageLess)
    ensures Canon(UsageLess, MergeAttribution, Canon(UsageLess, MergeAttribution, a) + Canon(UsageLess, MergeAttribution, b))
         == Canon(UsageLess, MergeAttribution, a + b)
  {
    UsageOrder();
    MergeAttributionLaws();
    CanonConcat(UsageLess, MergeAttribution, a, b);
  }

  /** Canonicalizing parts first changes nothing. */
  lemma CanonicalIsHomomorphic(a: seq<Location>, b: seq<Location>)
    ensures Canonical(Canonical(a) + Canonical(b)) == Canonical(a + b)
  {
    RecordedConcat(a, b);
    RecordedConcat(Canonical(a), Canonical(b));
    RecordedCanonical(a);
    RecordedCanonical(b);
    CanonOfParts(Recorded(a), Recorded(b));
  }

  lemma RecordedConcat(a: seq<Location>, b: seq<Location>)
    ensures Recorded(a + b) == Recorded(a) + Recorded(b)
  {
  }

  /** A second witness that repeats what is known adds nothing. */
  lemma CanonicalAbsorbsRepeats(locations: seq<Location>)
    ensures Canonical(locations + locations) == Canonical(locations)
  {
    MergeAttributionLaws();
    UsageOrder();
    assert Recorded(locations + locations) == Recorded(locations) + Recorded(locations);
    CanonDoubled(UsageLess, MergeAttribution, Recorded(locations));
  }

  /** The record of one usage, read off the input without folding. */
  ghost predicate Summarizes(locations: seq<Location>, u: Usage, a: Attribution)
  {
    && (forall s :: s in a.scopes <==> exists i :: 0 <= i < |locations| && locations[i].usage == u && s in Known(locations[i].scopes))
    && (exists i :: 0 <= i < |locations| && locations[i].usage == u && locations[i].relationship == a.relationship)
    && (forall i :: 0 <= i < |locations| && locations[i].usage == u ==>
          RelationshipRank(locations[i].relationship) <= RelationshipRank(a.relationship))
  }

  lemma {:induction false} AttributionsSummarize(locations: seq<Location>, u: Usage)
    ensures u in Attributions(locations) <==> exists i :: 0 <= i < |locations| && locations[i].usage == u
    ensures u in Attributions(locations) ==> Summarizes(locations, u, Attributions(locations)[u])
    decreases |locations|
  {
    if locations != [] {
      var front, last := locations[..|locations| - 1], locations[|locations| - 1];
      AttributionsSummarize(front, u);
      assert Recorded(locations)[..|locations| - 1] == Recorded(front);
      assert locations == front + [last];
      if last.usage == u {
        assert locations[|front|].usage == u;
        SummaryStep(front, last, u);
      } else {
        if u in Attributions(front) {
          var i :| 0 <= i < |front| && front[i].usage == u;
          assert locations[i].usage == u;
          SummarySkip(front, last, u);
        }
      }
    }
  }

  lemma SummaryStep(front: seq<Location>, last: Location, u: Usage)
    requires last.usage == u
    requires u in Attributions(front) <==> exists i :: 0 <= i < |front| && front[i].usage == u
    requires u in Attributions(front) ==> Summarizes(front, u, Attributions(front)[u])
    ensures Summarizes(front + [last], u,
              if u in Attributions(front) then MergeAttribution(Attributions(front)[u], Record(last).1) else Record(last).1)
  {
    var all := front + [last];
    assert all[|front|] == last;
    assert forall i :: 0 <= i < |front| ==> all[i] == front[i];
    if u in Attributions(front) {
      var i :| 0 <= i < |front| && front[i].usage == u && front[i].relationship == Attributions(front)[u].relationship;
      assert all[i].usage == u;
    }
  }

  lemma SummarySkip(front: seq<Location>, last: Location, u: Usage)
    requires last.usage != u && u in Attributions(front)
    requires Summarizes(front, u, Attributions(front)[u])
    ensures Summarizes(front + [last], u, Attributions(front)[u])
  {
    var all := front + [last];
    assert forall i :: 0 <= i < |front| ==> all[i] == front[i];
  }

  /** Canonical records come in usage order, so no usage has two. */
  lemma CanonicalIncreases(locations: seq<Location>)
    ensures forall i, j :: 0 <= i < j < |Canonical(locations)| ==>
              UsageBefore(Canonical(locations)[i].usage, Canonical(locations)[j].usage)
  {
    UsageOrder();
    var m := Attributions(locations);
    ListingIncreases(UsageLess, m);
    var list := Listing(UsageLess, m);
    forall i, j | 0 <= i < j < |list| ensures UsageBefore(list[i].0, list[j].0) {
      UsageLessMeans(list[i].0, list[j].0);
    }
  }

  /** One record per usage named in the input, carrying the union of its known scopes and its
      highest-ranked relationship; nothing else. */
  lemma CanonicalRecords(locations: seq<Location>)
    ensures forall i :: 0 <= i < |Canonical(locations)| ==>
              Summarizes(locations, Canonical(locations)[i].usage, Record(Canonical(locations)[i]).1)
    ensures forall i :: 0 <= i < |Canonical(locations)| ==> Sorted(Canonical(locations)[i].scopes) && Distinct(Canonical(locations)[i].scopes)
    ensures forall i :: 0 <= i < |locations| ==>
              exists j :: 0 <= j < |Canonical(locations)| && Canonical(locations)[j].usage == locations[i].usage
  {
    NoUnknownListed(locations);
    var m, c := Attributions(locations), Canonical(locations);
    var list := Listing(UsageLess, m);
    forall i | 0 <= i < |c| ensures Summarizes(locations, c[i].usage, Record(c[i]).1) {
      assert list[i].0 in m && c[i].usage == list[i].0;
      AttributionsSummarize(locations, c[i].usage);
      assert Known(KnownList(list[i].1.scopes)) == list[i].1.scopes;
      assert Record(c[i]).1 == m[c[i].usage];
    }
    forall i | 0 <= i < |locations| ensures exists j :: 0 <= j < |c| && c[j].usage == locations[i].usage {
      EveryUsageListed(locations, i);
    }
  }

  lemma EveryUsageListed(locations: seq<Location>, i: nat)
    requires i < |locations|
    ensures exists j :: 0 <= j < |Canonical(locations)| && Canonical(locations)[j].usage == locations[i].usage
  {
    var m, u := Attributions(locations), locations[i].usage;
    AttributionsSummarize(locations, u);
    UsageOrder();
    ListingIncreases(UsageLess, m);
    assert (u, m[u]) in Listing(UsageLess, m);
    var j :| 0 <= j < |Listing(UsageLess, m)| && Listing(UsageLess, m)[j] == (u, m[u]);
    assert Canonical(locations)[j].usage == u;
  }
}
