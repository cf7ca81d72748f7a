/** The typed nodes of the dependency graph and the fold of one witness into another. */
module Nodes {
  import opened Scopes
  import opened EdgeKinds
  import opened Relationships
  import opened Locations

  /** Registry-match source of a dependency; `OtherSource` is a plugin's own value. */
  datatype Source = NoSource | Registry | Project | Workspace | FileSource | Git | Url | OtherSource(name: string)

  /** What a fold only adds to: classification, references, enrichment and free-form metadata. */
  datatype Facts = Facts(
    foundBy: string, resolvedURL: string, packageRef: string, manager: string, language: string, nodeType: string,
    fileKind: string, matched: bool, metadata: map<string, string>)

  datatype Content = Content(
    id: string, kind: NodeKind, manifestPath: string, version: string, ecosystem: string,
    source: Source, relationship: Relationship, scopes: seq<Scope>, locations: seq<Location>, facts: Facts)

  function Filled(current: string, next: string): string
  {
    if current == "" then next else current
  }

  /** Each kind of node fills its own gaps; metadata keys the survivor carries win. */
  function FoldFacts(kind: NodeKind, mine: Facts, theirs: Facts): Facts
  {
    var metadata := theirs.metadata + mine.metadata;
    match kind
    case DependencyKind =>
      mine.(
        foundBy := Filled(mine.foundBy, theirs.foundBy), resolvedURL := Filled(mine.resolvedURL, theirs.resolvedURL),
        packageRef := Filled(mine.packageRef, theirs.packageRef), manager := Filled(mine.manager, theirs.manager),
        language := Filled(mine.language, theirs.language), nodeType := Filled(mine.nodeType, theirs.nodeType),
        matched := mine.matched || theirs.matched, metadata := metadata)
    case ModuleKind =>
      mine.(manager := Filled(mine.manager, theirs.manager), language := Filled(mine.language, theirs.language), metadata := metadata)
    case ManifestKind =>
      mine.(fileKind := Filled(mine.fileKind, theirs.fileKind), metadata := metadata)
  }

  function Eligible(c: Content): bool
  {
    (c.ecosystem == "swift" && c.source == Git)
    || (c.source != Project && c.source != Workspace && c.source != FileSource && c.source != Git && c.source != Url)
  }

  ghost function SiteScopes(locations: seq<Location>): set<Scope>
  {
    set l, s | l in locations && s in l.scopes && s != Unknown :: s
  }

  /** The IDs of a list of nodes. */
  ghost function IdsOf(list: seq<Node>): seq<string>
  {
    seq(|list|, i requires 0 <= i < |list| => list[i].id)
  }

  /** What the survivor holds after a witness of the same identity is folded into it. */
  ghost function FoldContent(survivor: Content, incoming: Content): Content
  {
    if survivor.kind != incoming.kind then survivor
    else match survivor.kind
      case DependencyKind =>
        var locations := MergedLocations(survivor.locations, incoming.locations);
        survivor.(
          relationship := MergeRelationship(survivor.relationship, incoming.relationship),
          locations := locations,
          scopes := WithScopes(WithScopes(survivor.scopes, incoming.scopes), KnownList(SiteScopes(locations))),
          source := if Eligible(survivor) || !Eligible(incoming) then survivor.source else incoming.source,
          facts := FoldFacts(DependencyKind, survivor.facts, incoming.facts))
      case ModuleKind =>
        survivor.(
          version := Filled(survivor.version, incoming.version),
          ecosystem := Filled(survivor.ecosystem, incoming.ecosystem),
          locations := MergedLocations(survivor.locations, incoming.locations),
          facts := FoldFacts(ModuleKind, survivor.facts, incoming.facts))
      case ManifestKind =>
        survivor.(facts := FoldFacts(ManifestKind, survivor.facts, incoming.facts))
  }

  /** A table after one more record, folded into the record of its identity if there is one. */
  ghost function Folded(contents: map<string, Content>, c: Content): map<string, Content>
  {
    contents[c.id := if c.id in contents then FoldContent(contents[c.id], c) else c]
  }

  /** ID, kind and declaring path are fixed at construction; the rest is mutable. */
  class Node {
    const id: string
    const kind: NodeKind
    const manifestPath: string
    var version: string
    var ecosystem: string
    var source: Source
    var relationship: Relationship
    var scopes: seq<Scope>
    var locations: seq<Location>
    var facts: Facts

    constructor (c: Content)
      ensures Contents() == c
      ensures id == c.id && kind == c.kind && manifestPath == c.manifestPath
    {
      id, kind, manifestPath := c.id, c.kind, c.manifestPath;
      version, ecosystem, source, relationship := c.version, c.ecosystem, c.source, c.relationship;
      scopes, locations, facts := c.scopes, c.locations, c.facts;
    }

    function Contents(): (c: Content)
      reads this
      ensures c.id == id && c.kind == kind
    {
      Content(id, kind, manifestPath, version, ecosystem, source, relationship, scopes, locations, facts)
    }

    method AddScope(scope: Scope)
      modifies this`scopes
      ensures scope == Unknown || scope in old(scopes) ==> scopes == old(scopes)
      ensures scope != Unknown && scope !in old(scopes) ==>
                Sorted(scopes) && multiset(scopes) == multiset(old(scopes)) + multiset{scope}
      ensures scopes == WithScope(old(scopes), scope)
    {
      if scope != Unknown && scope !in scopes {
        AddedScopeSorts(scopes, scope);
      }
      scopes := WithScope(scopes, scope);
    }

    method CloneNode() returns (clone: Node)
      ensures fresh(clone) && clone.Contents() == Contents()
    {
      clone := new Node(Contents());
    }

    method LocationScopes() returns (union: seq<Scope>)
      ensures union == KnownList(SiteScopes(locations))
    {
      var all: seq<Scope> := [];
      for i := 0 to |locations|
        invariant Known(all) == SiteScopes(locations[..i])
      {
        ghost var before := Known(all);
        assert locations[..i + 1] == locations[..i] + [locations[i]];
        assert SiteScopes(locations[..i + 1]) == SiteScopes(locations[..i]) + Known(locations[i].scopes);
        all := all + locations[i].scopes;
        assert Known(all) == before + Known(locations[i].scopes);
      }
      assert locations[..|locations|] == locations;
      union := MergeScopeSet(all, []);
      assert Known(all) + Known([]) == SiteScopes(locations);
    }

    /** A witness may be the survivor itself: it is read before anything is written. */
    method FoldFrom(incoming: Node)
      modifies this
      ensures Contents() == FoldContent(old(Contents()), old(incoming.Contents()))
    {
      if kind != incoming.kind {
        return;
      }
      match kind
      case DependencyKind =>
        var mine, theirs := Contents(), incoming.Contents();
        relationship := MergeRelationship(mine.relationship, theirs.relationship);
        AddScopes(theirs.scopes);
        locations := MergeNodeLocations(mine.locations, theirs.locations);
        var sites := LocationScopes();
        AddScopes(sites);
        if !Eligible(mine) && Eligible(theirs) {
          source := theirs.source;
        }
        facts := FoldFacts(kind, mine.facts, theirs.facts);
      case ModuleKind =>
        version := Filled(version, incoming.version);
        ecosystem := Filled(ecosystem, incoming.ecosystem);
        facts := FoldFacts(kind, facts, incoming.facts);
        locations := MergeNodeLocations(locations, incoming.locations);
      case ManifestKind =>
        facts := FoldFacts(kind, facts, incoming.facts);
    }

    method AddScopes(more: seq<Scope>)
      modifies this`scopes
      ensures scopes == WithScopes(old(scopes), more)
    {
      for i := 0 to |more|
        invariant scopes == WithScopes(old(scopes), more[..i])
      {
        assert more[..i + 1][..i] == more[..i];
        AddScope(more[i]);
      }
      assert more[..|more|] == more;
    }
  }

  /** The node-level set stays a superset of its sites'. */
  lemma FoldKeepsSites(survivor: Content, incoming: Content)
    requires survivor.kind == incoming.kind == DependencyKind
    ensures SiteScopes(FoldContent(survivor, incoming).locations) <= Known(FoldContent(survivor, incoming).scopes)
  {
    var sites := SiteScopes(MergedLocations(survivor.locations, incoming.locations));
    assert Known(KnownList(sites)) == sites;
  }

  /** Registry eligibility is an any-witness fact. */
  lemma FoldEligibility(a: Content, b: Content)
    requires a.kind == b.kind == DependencyKind && a.ecosystem == b.ecosystem
    ensures Eligible(FoldContent(a, b)) <==> Eligible(a) || Eligible(b)
  {
  }

  // ----- Any number of witnesses

  /** The first witness with every later one folded into it. */
  ghost function FoldAll(list: seq<Content>): Content
    requires list != []
  {
    KeyedFold.FoldSeq(FoldContent, list)
  }

  ghost function LocationsOf(list: seq<Content>): seq<Location>
  {
    KeyedFold.Flat((c: Content) => c.locations, list)
  }

  ghost function ScopesOfAll(list: seq<Content>): set<Scope>
  {
    set c, s | c in list && s in Known(c.scopes) :: s
  }

  /** The strongest relationship any witness states. */
  ghost predicate TopRelationship(list: seq<Content>, r: Relationship)
  {
    && (exists c :: c in list && c.relationship == r)
    && (forall c :: c in list ==> RelationshipRank(c.relationship) <= RelationshipRank(r))
  }

  ghost predicate AllDependencies(list: seq<Content>)
  {
    forall c :: c in list ==> c.kind == DependencyKind
  }

  /** What the fold of a list of witnesses publishes, in terms of all of them at once. */
  ghost predicate SaysAll(list: seq<Content>, f: Content)
  {
    && f.kind == DependencyKind && TopRelationship(list, f.relationship)
    && Canonical(f.locations) == Canonical(LocationsOf(list))
    && Known(f.scopes) == ScopesOfAll(list) + if |list| > 1 then SiteScopes(LocationsOf(list)) else {}
  }

  lemma {:induction false} FoldSaysAll(list: seq<Content>)
    requires list != [] && AllDependencies(list)
    ensures SaysAll(list, FoldAll(list))
    decreases |list|
  {
    if |list| == 1 {
      assert list == [list[0]] && list[..0] == [];
      KeyedFold.FlatOne((c: Content) => c.locations, list[0]);
      assert ScopesOfAll(list) == Known(list[0].scopes);
    } else {
      var front, last := list[..|list| - 1], list[|list| - 1];
      assert list == front + [last] && last in list && forall c :: c in front ==> c in list;
      FoldSaysAll(front);
      OneMoreSays(front, FoldAll(front), last);
    }
  }

  lemma OneMoreSays(front: seq<Content>, f: Content, last: Content)
    requires front != [] && SaysAll(front, f) && last.kind == DependencyKind
    ensures SaysAll(front + [last], FoldContent(f, last))
  {
    hide FoldContent, MergedLocations, Known, ScopesOfAll, LocationsOf, TopRelationship, SiteScopes, Canonical;
    FoldedScopes(f, last);
    FoldedRelationship(front, f.relationship, last);
    LocationsSnoc(front, last);
    ScopesSnoc(front, last);
    FoldedLocations(f.locations, LocationsOf(front), last.locations);
    SitesConcat(LocationsOf(front), last.locations);
  }

  lemma LocationsSnoc(front: seq<Content>, last: Content)
    ensures LocationsOf(front + [last]) == LocationsOf(front) + last.locations
  {
    assert (front + [last])[..|front|] == front;
  }

  /** The relationship published, by name: direct beats transitive, transitive beats unknown, and any beats none. */
  lemma FoldedRelationshipByName(list: seq<Content>)
    requires list != [] && AllDependencies(list)
    ensures FoldAll(list).relationship ==
            if exists c :: c in list && c.relationship == Direct then Direct
            else if exists c :: c in list && c.relationship == Transitive then Transitive
            else if exists c :: c in list && c.relationship == Unrecovered then Unrecovered
            else Unset
  {
    FoldSaysAll(list);
    hide FoldAll, Known, Canonical, LocationsOf, ScopesOfAll, SiteScopes;
  }

  // ----- What the first witness decides

  /** The first value stated, or none when none is. */
  ghost predicate FirstStated(values: seq<string>, v: string)
  {
    if v == "" then forall i :: 0 <= i < |values| ==> values[i] == ""
    else exists i :: 0 <= i < |values| && values[i] == v && forall j :: 0 <= j < i ==> values[j] == ""
  }

  ghost function Values(list: seq<Content>, get: Content -> string): seq<string>
  {
    seq(|list|, i requires 0 <= i < |list| => get(list[i]))
  }

  /** A gap that nodes of one kind fill. */
  ghost predicate GapField(kind: NodeKind, get: Content -> string)
  {
    forall a: Content, b: Content {:trigger FoldContent(a, b)} :: a.kind == b.kind == kind ==> get(FoldContent(a, b)) == Filled(get(a), get(b))
  }

  ghost predicate AllOf(kind: NodeKind, list: seq<Content>)
  {
    forall c :: c in list ==> c.kind == kind
  }

  /** Every key any witness carries, with the value of the first that carries it. */
  ghost predicate FirstKeyed(list: seq<Content>, metadata: map<string, string>)
  {
    && (forall i, k :: 0 <= i < |list| && k in list[i].facts.metadata ==> k in metadata)
    && (forall k :: k in metadata ==> exists i :: 0 <= i < |list| && FirstCarries(list, i, k, metadata[k]))
  }

  ghost predicate FirstCarries(list: seq<Content>, i: nat, k: string, value: string)
    requires i < |list|
  {
    && k in list[i].facts.metadata && list[i].facts.metadata[k] == value
    && forall j :: 0 <= j < i ==> k !in list[j].facts.metadata
  }

  /** Enrichment of one witness is true of the folded record. */
  ghost predicate AnyMatched(list: seq<Content>, matched: bool)
  {
    matched <==> exists c :: c in list && c.facts.matched
  }

  /** Unstated, registry and plugin sources are matched against a registry, and so is a Swift checkout. */
  ghost predicate RegistrySource(c: Content)
  {
    c.source in {NoSource, Registry} || c.source.OtherSource? || (c.source == Git && c.ecosystem == "swift")
  }

  /** The source of the first witness matched against a registry; the first witness's own when none is. */
  ghost predicate FirstEligible(list: seq<Content>, source: Source)
    requires list != []
  {
    if forall c :: c in list ==> !RegistrySource(c) then source == list[0].source
    else exists i :: 0 <= i < |list| && RegistrySource(list[i]) && list[i].source == source && forall j :: 0 <= j < i ==> !RegistrySource(list[j])
  }

  /** Whatever a fold of that kind does not touch is as the first witness had it. */
  ghost predicate Untouched(kind: NodeKind, first: Content, f: Content)
  {
    match kind
    case DependencyKind =>
      && f == first.(source := f.source, relationship := f.relationship, scopes := f.scopes, locations := f.locations, facts := f.facts)
      && f.facts.fileKind == first.facts.fileKind
    case ModuleKind =>
      && f == first.(version := f.version, ecosystem := f.ecosystem, locations := f.locations, facts := f.facts)
      && f.facts == first.facts.(manager := f.facts.manager, language := f.facts.language, metadata := f.facts.metadata)
    case ManifestKind =>
      && f == first.(facts := f.facts) && f.facts == first.facts.(fileKind := f.facts.fileKind, metadata := f.facts.metadata)
  }

  lemma {:induction false} RestIsUntouched(kind: NodeKind, list: seq<Content>)
    requires list != [] && AllOf(kind, list)
    ensures Untouched(kind, list[0], FoldAll(list))
    decreases |list|
  {
    if |list| > 1 {
      var front, last := list[..|list| - 1], list[|list| - 1];
      assert list == front + [last] && last in list && front[0] == list[0] && front[0] in list && forall c :: c in front ==> c in list;
      RestIsUntouched(kind, front);
      FoldKeepsKind(front);
      FoldUntouched(kind, list[0], FoldAll(front), last);
    }
  }

  lemma FoldUntouched(kind: NodeKind, first: Content, f: Content, last: Content)
    requires f.kind == last.kind == kind && Untouched(kind, first, f)
    ensures Untouched(kind, first, FoldContent(f, last))
  {
  }

  /** In a fold of any number of witnesses of one kind each gap that kind fills holds the first value stated, and no
      metadata key is lost or overwritten; a match by any witness stands. */
  ghost predicate SaysFirst(kind: NodeKind, list: seq<Content>, f: Content)
  {
    && list != [] && Untouched(kind, list[0], f) && FirstKeyed(list, f.facts.metadata)
    && match kind
       case DependencyKind =>
         && AnyMatched(list, f.facts.matched)
         && FirstStated(Values(list, (c: Content) => c.facts.foundBy), f.facts.foundBy)
         && FirstStated(Values(list, (c: Content) => c.facts.resolvedURL), f.facts.resolvedURL)
         && FirstStated(Values(list, (c: Content) => c.facts.packageRef), f.facts.packageRef)
         && FirstStated(Values(list, (c: Content) => c.facts.manager), f.facts.manager)
         && FirstStated(Values(list, (c: Content) => c.facts.language), f.facts.language)
         && FirstStated(Values(list, (c: Content) => c.facts.nodeType), f.facts.nodeType)
       case ModuleKind =>
         && FirstStated(Values(list, (c: Content) => c.version), f.version)
         && FirstStated(Values(list, (c: Content) => c.ecosystem), f.ecosystem)
         && FirstStated(Values(list, (c: Content) => c.facts.manager), f.facts.manager)
         && FirstStated(Values(list, (c: Content) => c.facts.language), f.facts.language)
       case ManifestKind =>
         FirstStated(Values(list, (c: Content) => c.facts.fileKind), f.facts.fileKind)
  }

  lemma FactsSayAll(kind: NodeKind, list: seq<Content>)
    requires list != [] && AllOf(kind, list)
    ensures SaysFirst(kind, list, FoldAll(list))
  {
    MetadataSaysAll(kind, list);
    RestIsUntouched(kind, list);
    hide FoldAll, Untouched, FirstStated, FirstKeyed, AnyMatched;
    match kind
    case DependencyKind =>
      DependencyGaps();
      MatchSaysAny(list);
      GapSaysFirst(kind, list, (c: Content) => c.facts.foundBy);
      GapSaysFirst(kind, list, (c: Content) => c.facts.resolvedURL);
      GapSaysFirst(kind, list, (c: Content) => c.facts.packageRef);
      GapSaysFirst(kind, list, (c: Content) => c.facts.manager);
      GapSaysFirst(kind, list, (c: Content) => c.facts.language);
      GapSaysFirst(kind, list, (c: Content) => c.facts.nodeType);
    case ModuleKind =>
      OtherGaps();
      GapSaysFirst(kind, list, (c: Content) => c.version);
      GapSaysFirst(kind, list, (c: Content) => c.ecosystem);
      GapSaysFirst(kind, list, (c: Content) => c.facts.manager);
      GapSaysFirst(kind, list, (c: Content) => c.facts.language);
    case ManifestKind =>
      OtherGaps();
      GapSaysFirst(kind, list, (c: Content) => c.facts.fileKind);
  }

  lemma DependencyGaps()
    ensures GapField(DependencyKind, (c: Content) => c.facts.foundBy) && GapField(DependencyKind, (c: Content) => c.facts.resolvedURL)
    ensures GapField(DependencyKind, (c: Content) => c.facts.packageRef) && GapField(DependencyKind, (c: Content) => c.facts.manager)
    ensures GapField(DependencyKind, (c: Content) => c.facts.language) && GapField(DependencyKind, (c: Content) => c.facts.nodeType)
  {
  }

  lemma OtherGaps()
    ensures GapField(ModuleKind, (c: Content) => c.version) && GapField(ModuleKind, (c: Content) => c.ecosystem)
    ensures GapField(ModuleKind, (c: Content) => c.facts.manager) && GapField(ModuleKind, (c: Content) => c.facts.language)
    ensures GapField(ManifestKind, (c: Content) => c.facts.fileKind)
  {
  }

  lemma {:induction false} GapSaysFirst(kind: NodeKind, list: seq<Content>, get: Content -> string)
    requires list != [] && AllOf(kind, list) && GapField(kind, get)
    ensures FirstStated(Values(list, get), get(FoldAll(list)))
    decreases |list|
  {
    if |list| == 1 {
      assert Values(list, get)[0] == get(list[0]);
    } else {
      var front, last := list[..|list| - 1], list[|list| - 1];
      assert list == front + [last] && last in list && front[0] in list && forall c :: c in front ==> c in list;
      GapSaysFirst(kind, front, get);
      FoldKeepsKind(front);
      hide FirstStated, FoldContent;
      FilledIsFirst(Values(front, get), get(FoldAll(front)), get(last));
      assert Values(list, get) == Values(front, get) + [get(last)];
    }
  }

  lemma FilledIsFirst(values: seq<string>, v: string, next: string)
    requires FirstStated(values, v)
    ensures FirstStated(values + [next], Filled(v, next))
  {
    var all := values + [next];
    if v != "" {
      var i :| 0 <= i < |values| && values[i] == v && forall j :: 0 <= j < i ==> values[j] == "";
      assert all[i] == v && forall j :: 0 <= j < i ==> all[j] == "";
    } else if next != "" {
      assert all[|values|] == next && forall j :: 0 <= j < |values| ==> all[j] == "";
    }
  }

  lemma {:induction false} MetadataSaysAll(kind: NodeKind, list: seq<Content>)
    requires list != [] && AllOf(kind, list)
    ensures FirstKeyed(list, FoldAll(list).facts.metadata)
    decreases |list|
  {
    if |list| == 1 {
      assert forall k :: k in list[0].facts.metadata ==> FirstCarries(list, 0, k, list[0].facts.metadata[k]);
    } else {
      var front, last := list[..|list| - 1], list[|list| - 1];
      assert list == front + [last] && last in list && front[0] in list && forall c :: c in front ==> c in list;
      MetadataSaysAll(kind, front);
      FoldKeepsKind(front);
      MetadataFolds(FoldAll(front), last);
      hide FirstKeyed, FoldContent;
      KeyedSnoc(front, FoldAll(front).facts.metadata, last);
    }
  }

  lemma MetadataFolds(a: Content, b: Content)
    requires a.kind == b.kind
    ensures FoldContent(a, b).facts.metadata == b.facts.metadata + a.facts.metadata
  {
  }

  lemma KeyedSnoc(front: seq<Content>, metadata: map<string, string>, last: Content)
    requires FirstKeyed(front, metadata)
    ensures FirstKeyed(front + [last], last.facts.metadata + metadata)
  {
    var list, after := front + [last], last.facts.metadata + metadata;
    forall k | k in after ensures exists i :: 0 <= i < |list| && FirstCarries(list, i, k, after[k]) {
      if k in metadata {
        var i :| 0 <= i < |front| && FirstCarries(front, i, k, metadata[k]);
        assert FirstCarries(list, i, k, after[k]);
      } else {
        assert FirstCarries(list, |front|, k, after[k]);
      }
    }
  }

  lemma {:induction false} MatchSaysAny(list: seq<Content>)
    requires list != [] && AllDependencies(list)
    ensures AnyMatched(list, FoldAll(list).facts.matched)
    decreases |list|
  {
    if |list| == 1 {
      assert list[0] in list;
    } else {
      var front, last := list[..|list| - 1], list[|list| - 1];
      assert list == front + [last] && last in list && front[0] in list && forall c :: c in list <==> c in front || c == last;
      MatchSaysAny(front);
      FoldKeepsKind(front);
      MatchFolds(FoldAll(front), last);
      hide FoldContent;
    }
  }

  lemma MatchFolds(a: Content, b: Content)
    requires a.kind == b.kind == DependencyKind
    ensures FoldContent(a, b).facts.matched <==> a.facts.matched || b.facts.matched
  {
  }

  lemma EligibleMeans(c: Content)
    ensures Eligible(c) <==> RegistrySource(c)
  {
  }

  /** Among witnesses of one dependency, which share an ecosystem, the first source matched against a registry stands. */
  lemma {:induction false} FirstEligibleStands(list: seq<Content>)
    requires list != [] && AllDependencies(list) && forall c :: c in list ==> c.ecosystem == list[0].ecosystem
    ensures FirstEligible(list, FoldAll(list).source) && FoldAll(list).ecosystem == list[0].ecosystem
    decreases |list|
  {
    if |list| > 1 {
      var front, last := list[..|list| - 1], list[|list| - 1];
      assert list == front + [last] && last in list && front[0] == list[0] && forall c :: c in list <==> c in front || c == last;
      FirstEligibleStands(front);
      FoldKeepsKind(front);
      SourceFolds(FoldAll(front), last);
      hide FoldContent;
      EligibleSnoc(front, FoldAll(front).source, last);
    } else {
      assert list[0] in list;
    }
  }

  lemma SourceFolds(a: Content, b: Content)
    requires a.kind == b.kind == DependencyKind
    ensures FoldContent(a, b).source == if RegistrySource(a) || !RegistrySource(b) then a.source else b.source
    ensures FoldContent(a, b).ecosystem == a.ecosystem
  {
    EligibleMeans(a);
    EligibleMeans(b);
  }

  lemma EligibleSnoc(front: seq<Content>, source: Source, last: Content)
    requires front != [] && FirstEligible(front, source) && forall c :: c in front ==> c.ecosystem == last.ecosystem
    ensures var kept := front[0].(source := source);
            FirstEligible(front + [last], if RegistrySource(kept) || !RegistrySource(last) then source else last.source)
  {
    var list := front + [last];
    assert front[0] in front && last in list && forall c :: c in list <==> c in front || c == last;
    if forall c :: c in front ==> !RegistrySource(c) {
      assert RegistrySource(last) ==> list[|front|] == last && forall j :: 0 <= j < |front| ==> list[j] in front;
    } else {
      var i :| 0 <= i < |front| && RegistrySource(front[i]) && front[i].source == source && forall j :: 0 <= j < i ==> !RegistrySource(front[j]);
      assert front[i] in front && list[i] == front[i] && forall j :: 0 <= j < i ==> list[j] == front[j];
    }
  }

  lemma ScopesSnoc(front: seq<Content>, last: Content)
    ensures ScopesOfAll(front + [last]) == ScopesOfAll(front) + Known(last.scopes)
  {
    assert last in front + [last] && forall c :: c in front + [last] <==> c in front || c == last;
  }

  lemma FoldedRelationship(front: seq<Content>, r: Relationship, last: Content)
    requires TopRelationship(front, r)
    ensures TopRelationship(front + [last], MergeRelationship(r, last.relationship))
  {
    var list := front + [last];
    assert last in list && forall c :: c in list <==> c in front || c == last;
  }

  lemma FoldedLocations(folded: seq<Location>, all: seq<Location>, more: seq<Location>)
    requires Canonical(folded) == Canonical(all)
    ensures Canonical(MergedLocations(folded, more)) == Canonical(all + more)
    ensures SiteScopes(MergedLocations(folded, more)) == SiteScopes(all + more)
  {
    MergedCanonical(folded, more);
    CanonicalIsHomomorphic(folded, more);
    CanonicalIsHomomorphic(all, more);
    SitesOfCanonical(MergedLocations(folded, more));
    SitesOfCanonical(all + more);
  }

  lemma SitesConcat(a: seq<Location>, b: seq<Location>)
    ensures SiteScopes(a + b) == SiteScopes(a) + SiteScopes(b)
  {
  }

  lemma FoldedScopes(a: Content, b: Content)
    requires a.kind == b.kind == DependencyKind
    ensures FoldContent(a, b).kind == DependencyKind && FoldContent(a, b).locations == MergedLocations(a.locations, b.locations)
    ensures FoldContent(a, b).relationship == MergeRelationship(a.relationship, b.relationship)
    ensures Known(FoldContent(a, b).scopes) == Known(a.scopes) + Known(b.scopes) + SiteScopes(MergedLocations(a.locations, b.locations))
  {
  }

  /** Any permutation of the witnesses of one dependency folds to the same relationship and the same canonical sites. */
  lemma FoldIgnoresOrder(a: seq<Content>, b: seq<Content>)
    requires a != [] && AllDependencies(a) && multiset(a) == multiset(b)
    ensures b != [] && FoldAll(a).relationship == FoldAll(b).relationship
    ensures Canonical(FoldAll(a).locations) == Canonical(FoldAll(b).locations)
  {
    SameWitnesses(a, b);
    FoldSaysAll(a);
    FoldSaysAll(b);
    LocationsPermuted(a, b);
    CanonicalIgnoresOrder(LocationsOf(a), LocationsOf(b));
    OneTop(a, FoldAll(a).relationship, FoldAll(b).relationship);
  }

  /** And to the same scope set. */
  lemma ScopesIgnoreOrder(a: seq<Content>, b: seq<Content>)
    requires a != [] && AllDependencies(a) && multiset(a) == multiset(b)
    ensures b != [] && Known(FoldAll(a).scopes) == Known(FoldAll(b).scopes)
  {
    SameWitnesses(a, b);
    FoldSaysAll(a);
    FoldSaysAll(b);
    SitesPermuted(a, b);
    hide FoldAll;
    hide SiteScopes;
    hide TopRelationship;
    assert ScopesOfAll(a) == ScopesOfAll(b);
  }

  lemma SitesPermuted(a: seq<Content>, b: seq<Content>)
    requires multiset(a) == multiset(b)
    ensures SiteScopes(LocationsOf(a)) == SiteScopes(LocationsOf(b))
  {
    LocationsPermuted(a, b);
    CanonicalIgnoresOrder(LocationsOf(a), LocationsOf(b));
    SitesOfCanonical(LocationsOf(a));
    SitesOfCanonical(LocationsOf(b));
  }

  /** Two records of one dependency that differ at most in what the first witness decides. */
  ghost predicate SameDependency(a: Content, b: Content)
  {
    && a.kind == b.kind == DependencyKind && a.relationship == b.relationship && Known(a.scopes) == Known(b.scopes)
    && Canonical(a.locations) == Canonical(b.locations)
    && a.facts.matched == b.facts.matched && a.facts.metadata.Keys == b.facts.metadata.Keys
  }

  lemma FoldAlike(a: seq<Content>, b: seq<Content>)
    requires a != [] && AllDependencies(a) && multiset(a) == multiset(b)
    ensures b != [] && SameDependency(FoldAll(a), FoldAll(b))
  {
    SameWitnesses(a, b);
    FoldIgnoresOrder(a, b);
    ScopesIgnoreOrder(a, b);
    FoldSaysAll(a);
    FoldSaysAll(b);
    FactsIgnoreOrder(a, b);
  }

  lemma FactsIgnoreOrder(a: seq<Content>, b: seq<Content>)
    requires a != [] && b != [] && AllDependencies(a) && AllDependencies(b) && forall c :: c in a <==> c in b
    ensures FoldAll(a).facts.matched == FoldAll(b).facts.matched && FoldAll(a).facts.metadata.Keys == FoldAll(b).facts.metadata.Keys
  {
    MatchSaysAny(a);
    MatchSaysAny(b);
    MetadataSaysAll(DependencyKind, a);
    MetadataSaysAll(DependencyKind, b);
    hide FoldAll;
    KeysOfAll(a, FoldAll(a).facts.metadata);
    KeysOfAll(b, FoldAll(b).facts.metadata);
  }

  lemma KeysOfAll(list: seq<Content>, metadata: map<string, string>)
    requires FirstKeyed(list, metadata)
    ensures forall k :: k in metadata <==> exists c :: c in list && k in c.facts.metadata
  {
    forall k | k in metadata ensures exists c :: c in list && k in c.facts.metadata {
      var i :| 0 <= i < |list| && FirstCarries(list, i, k, metadata[k]);
      assert list[i] in list;
    }
  }

  // ----- Tables of records merged one after another

  ghost function MergedRecords(tables: seq<map<string, Content>>): map<string, Content>
  {
    KeyedFold.CombineAll(FoldContent, tables)
  }

  lemma RecordsSnoc(front: seq<map<string, Content>>, last: map<string, Content>)
    ensures MergedRecords(front + [last]) == KeyedFold.Combine(FoldContent, MergedRecords(front), last)
  {
    assert (front + [last])[..|front|] == front;
  }

  lemma OneRecord(contents: map<string, Content>, c: Content)
    ensures KeyedFold.Combine(FoldContent, contents, map[c.id := c]) == Folded(contents, c)
  {
    hide FoldContent;
  }

  /** Identities of different kinds never meet. */
  ghost predicate KindsAgree(tables: seq<map<string, Content>>)
  {
    forall s: map<string, Content>, t: map<string, Content>, id :: s in tables && t in tables && id in s && id in t ==> s[id].kind == t[id].kind
  }

  lemma {:induction false} FoldKeepsKind(list: seq<Content>)
    requires list != []
    ensures FoldAll(list).kind == list[0].kind
    decreases |list|
  {
    if |list| > 1 {
      FoldKeepsKind(list[..|list| - 1]);
    }
  }

  /** Tables merged in any order hold the same identities and kinds, and the same about every dependency. */
  lemma TablesAlike(a: seq<map<string, Content>>, b: seq<map<string, Content>>, id: string)
    requires KindsAgree(a) && multiset(a) == multiset(b)
    ensures id in MergedRecords(a) <==> id in MergedRecords(b)
    ensures id in MergedRecords(a) ==> SameRecord(MergedRecords(a)[id], MergedRecords(b)[id])
  {
    var x, y := KeyedFold.At(a, id), KeyedFold.At(b, id);
    KeyedFold.CombineAllAt(FoldContent, a, id);
    KeyedFold.CombineAllAt(FoldContent, b, id);
    KeyedFold.AtPermuted(a, b, id);
    assert |multiset(x)| == |x| && |multiset(y)| == |y|;
    if id in MergedRecords(a) {
      KindsAt(a, b, id);
      FoldKeepsKind(x);
      FoldKeepsKind(y);
      if x[0].kind == DependencyKind {
        FoldAlike(x, y);
      }
    }
  }

  ghost predicate SameRecord(a: Content, b: Content)
  {
    a.kind == b.kind && (a.kind == DependencyKind ==> SameDependency(a, b))
  }

  lemma KindsAt(a: seq<map<string, Content>>, b: seq<map<string, Content>>, id: string)
    requires KindsAgree(a) && multiset(a) == multiset(b)
    ensures forall c: Content, d: Content :: (c in KeyedFold.At(a, id) || c in KeyedFold.At(b, id)) && (d in KeyedFold.At(a, id) || d in KeyedFold.At(b, id)) ==> c.kind == d.kind
  {
    KeyedFold.AtMembers(a, id);
    KeyedFold.AtMembers(b, id);
    assert forall t :: t in a <==> t in multiset(b);
  }

  lemma SameWitnesses(a: seq<Content>, b: seq<Content>)
    requires a != [] && AllDependencies(a) && multiset(a) == multiset(b)
    ensures b != [] && |a| == |b| && AllDependencies(b) && forall c :: c in a <==> c in b
  {
    assert |multiset(a)| == |multiset(b)|;
    forall c ensures c in a <==> c in b {
      assert c in multiset(a) <==> c in multiset(b);
    }
  }

  lemma OneTop(list: seq<Content>, r: Relationship, s: Relationship)
    requires TopRelationship(list, r) && TopRelationship(list, s)
    ensures r == s
  {
    assert RelationshipRank(r) == RelationshipRank(s);
  }

  lemma LocationsPermuted(a: seq<Content>, b: seq<Content>)
    requires multiset(a) == multiset(b)
    ensures multiset(LocationsOf(a)) == multiset(LocationsOf(b))
  {
    KeyedFold.FlatPermuted((c: Content) => c.locations, a, b);
  }

  lemma SitesOfCanonical(locations: seq<Location>)
    ensures SiteScopes(Canonical(locations)) == SiteScopes(locations)
  {
    CanonicalRecords(locations);
    forall s ensures s in SiteScopes(Canonical(locations)) <==> s in SiteScopes(locations) {
      if s in SiteScopes(Canonical(locations)) {
        SiteOfRecord(locations, Canonical(locations), s);
      }
      if s in SiteScopes(locations) {
        RecordOfSite(locations, Canonical(locations), s);
      }
    }
  }

  lemma SiteOfRecord(locations: seq<Location>, c: seq<Location>, s: Scope)
    requires forall i :: 0 <= i < |c| ==> Summarizes(locations, c[i].usage, Record(c[i]).1)
    requires s in SiteScopes(c)
    ensures s in SiteScopes(locations)
  {
    var j :| 0 <= j < |c| && s in c[j].scopes;
    assert s in Record(c[j]).1.scopes;
    var i :| 0 <= i < |locations| && locations[i].usage == c[j].usage && s in Known(locations[i].scopes);
  }

  lemma RecordOfSite(locations: seq<Location>, c: seq<Location>, s: Scope)
    requires forall i :: 0 <= i < |c| ==> Summarizes(locations, c[i].usage, Record(c[i]).1)
    requires forall i :: 0 <= i < |locations| ==> exists j :: 0 <= j < |c| && c[j].usage == locations[i].usage
    requires s in SiteScopes(locations)
    ensures s in SiteScopes(c)
  {
    var i :| 0 <= i < |locations| && s in locations[i].scopes;
    var j :| 0 <= j < |c| && c[j].usage == locations[i].usage;
    ScopeReachesRecord(locations, i, c[j], s);
  }

  lemma ScopeReachesRecord(locations: seq<Location>, i: nat, record: Location, s: Scope)
    requires Summarizes(locations, record.usage, Record(record).1)
    requires i < |locations| && locations[i].usage == record.usage && s in locations[i].scopes && s != Unknown
    ensures s in record.scopes
  {
    assert s in Known(locations[i].scopes);
    assert s in Record(record).1.scopes;
  }
}
