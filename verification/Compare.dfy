/** What a diff of two dependency tables is: rank-by-rank pairing inside each identity. */
module DiffTheory {
  import KeyedFold
  import opened Orders
  import opened Relationships
  import opened Nodes

  /** Dependency records by ID. */
  type Table = map<string, Content>

  /** The version-less identity of a dependency ID. */
  type KeyOf = string -> string

  ghost predicate Filed(c: Table)
  {
    forall id :: id in c ==> c[id].id == id
  }

  predicate ContentLess(a: Content, b: Content)
  {
    Less(a.version, b.version) || (a.version == b.version && Less(a.id, b.id))
  }

  function VersionOf(c: Table, id: string): string
  {
    if id in c then c[id].version else ""
  }

  /** By version, then by ID. */
  ghost function IdLess(c: Table): (string, string) -> bool
  {
    (a, b) => Less(VersionOf(c, a), VersionOf(c, b)) || (VersionOf(c, a) == VersionOf(c, b) && Less(a, b))
  }

  lemma IdOrder(c: Table)
    ensures StrictTotalOrder(IdLess(c))
  {
    LessIsStrictTotal();
  }

  ghost function Keyed(c: Table, other: Table, key: KeyOf, k: string): set<string>
  {
    set id | id in c && id !in other && key(id) == k
  }

  /** The records of one identity whose IDs the other table lacks, by version. */
  ghost function Group(c: Table, other: Table, key: KeyOf, k: string): seq<string>
  {
    IdOrder(c);
    SortedSeq(IdLess(c), Keyed(c, other, key, k))
  }

  /** The two stand at the same place of their identity's lists. */
  ghost predicate Matched(base: Table, head: Table, key: KeyOf, b: string, h: string)
  {
    && key(b) == key(h)
    && exists i :: 0 <= i < |Group(base, head, key, key(b))| && i < |Group(head, base, key, key(b))|
                   && Group(base, head, key, key(b))[i] == b && Group(head, base, key, key(b))[i] == h
  }

  /** Its identity's list is longer on its own side, and it stands past the end of the other. */
  ghost predicate Leftover(c: Table, other: Table, key: KeyOf, id: string)
  {
    exists i :: |Group(other, c, key, key(id))| <= i < |Group(c, other, key, key(id))| && Group(c, other, key, key(id))[i] == id
  }

  lemma GroupHolds(c: Table, other: Table, key: KeyOf, k: string)
    ensures Distinct(Group(c, other, key, k))
    ensures forall id :: id in Group(c, other, key, k) <==> id in c && id !in other && key(id) == k
  {
    IdOrder(c);
    SortedSeqIncreases(IdLess(c), Keyed(c, other, key, k));
    var g := Group(c, other, key, k);
    assert forall id :: id in g <==> id in Elems(g);
  }

  /** A base record is in head by ID, or has exactly one partner, or is removed, and only one of these. */
  lemma Partition(base: Table, head: Table, key: KeyOf, b: string)
    requires b in base
    ensures b in head ==> !Leftover(base, head, key, b) && forall h :: !Matched(base, head, key, b, h)
    ensures b !in head && Leftover(base, head, key, b) ==> forall h :: !Matched(base, head, key, b, h)
    ensures b !in head && !Leftover(base, head, key, b) ==>
              exists h :: Matched(base, head, key, b, h) && forall other :: Matched(base, head, key, b, other) ==> other == h
  {
    GroupHolds(base, head, key, key(b));
    GroupHolds(head, base, key, key(b));
    hide Group;
    var gb, gh := Group(base, head, key, key(b)), Group(head, base, key, key(b));
    if b !in head {
      var i :| 0 <= i < |gb| && gb[i] == b;
      assert forall j :: 0 <= j < |gb| && gb[j] == b ==> j == i;
      if i < |gh| {
        assert Matched(base, head, key, b, gh[i]);
      }
    }
  }

  /** Swapping the tables swaps the partners. */
  lemma MatchedSwaps(base: Table, head: Table, key: KeyOf, b: string, h: string)
    ensures Matched(base, head, key, b, h) <==> Matched(head, base, key, h, b)
  {
  }

  lemma MatchedAreRecords(base: Table, head: Table, key: KeyOf, b: string, h: string)
    requires Matched(base, head, key, b, h)
    ensures b in base && b !in head && h in head && h !in base
  {
    GroupHolds(base, head, key, key(b));
    GroupHolds(head, base, key, key(b));
  }

  /** An identity never has something removed and something added at once. */
  lemma OneSidedLeftovers(base: Table, head: Table, key: KeyOf, b: string, h: string)
    requires key(b) == key(h)
    ensures !(Leftover(base, head, key, b) && Leftover(head, base, key, h))
  {
  }

  // ----- Partners by counting

  /** The unshared records of the same identity that come before this one, by version and then by ID. */
  ghost function Ahead(c: Table, other: Table, key: KeyOf, id: string): set<string>
    requires id in c
  {
    set x | x in c && x !in other && key(x) == key(id)
            && (Less(c[x].version, c[id].version) || (c[x].version == c[id].version && Less(x, id)))
  }

  lemma PlaceIsCount(c: Table, other: Table, key: KeyOf, k: string, i: nat)
    requires i < |Group(c, other, key, k)|
    ensures var id := Group(c, other, key, k)[i]; id in c && id !in other && key(id) == k && |Ahead(c, other, key, id)| == i
  {
    IdOrder(c);
    SortedSeqIncreases(IdLess(c), Keyed(c, other, key, k));
    GroupHolds(c, other, key, k);
    var g := Group(c, other, key, k);
    assert g[i] in g;
    KeyedFold.PrefixSet(IdLess(c), g, i);
    assert KeyedFold.Below(IdLess(c), Elems(g), g[i]) == Ahead(c, other, key, g[i]);
  }

  lemma PlaceOf(c: Table, other: Table, key: KeyOf, id: string) returns (i: nat)
    requires id in c && id !in other
    ensures i < |Group(c, other, key, key(id))| && Group(c, other, key, key(id))[i] == id && |Ahead(c, other, key, id)| == i
    ensures |Group(c, other, key, key(id))| == |Keyed(c, other, key, key(id))|
  {
    GroupHolds(c, other, key, key(id));
    i :| 0 <= i < |Group(c, other, key, key(id))| && Group(c, other, key, key(id))[i] == id;
    PlaceIsCount(c, other, key, key(id), i);
    GroupSize(c, other, key, key(id));
  }

  lemma GroupSize(c: Table, other: Table, key: KeyOf, k: string)
    ensures |Group(c, other, key, k)| == |Keyed(c, other, key, k)|
  {
    IdOrder(c);
    SortedSeqIncreases(IdLess(c), Keyed(c, other, key, k));
  }

  /** Two unshared records of one identity are partners exactly when as many of their own side come before each. */
  lemma MatchedByCount(base: Table, head: Table, key: KeyOf, b: string, h: string)
    ensures Matched(base, head, key, b, h) <==>
            b in base && b !in head && h in head && h !in base && key(b) == key(h)
            && |Ahead(base, head, key, b)| == |Ahead(head, base, key, h)|
  {
    if Matched(base, head, key, b, h) {
      var i :| 0 <= i < |Group(base, head, key, key(b))| && i < |Group(head, base, key, key(b))|
               && Group(base, head, key, key(b))[i] == b && Group(head, base, key, key(b))[i] == h;
      PlaceIsCount(base, head, key, key(b), i);
      PlaceIsCount(head, base, key, key(b), i);
    }
    if b in base && b !in head && h in head && h !in base && key(b) == key(h) && |Ahead(base, head, key, b)| == |Ahead(head, base, key, h)| {
      var i := PlaceOf(base, head, key, b);
      var j := PlaceOf(head, base, key, h);
    }
  }

  /** An unshared record is left over exactly when at least as many of its own side come before it as the other side has. */
  lemma LeftoverByCount(c: Table, other: Table, key: KeyOf, id: string)
    ensures Leftover(c, other, key, id) <==>
            id in c && id !in other && |Ahead(c, other, key, id)| >= |Keyed(other, c, key, key(id))|
  {
    GroupSize(other, c, key, key(id));
    if Leftover(c, other, key, id) {
      var i :| |Group(other, c, key, key(id))| <= i < |Group(c, other, key, key(id))| && Group(c, other, key, key(id))[i] == id;
      PlaceIsCount(c, other, key, key(id), i);
    }
    if id in c && id !in other {
      var i := PlaceOf(c, other, key, id);
    }
  }

  // ----- Details

  datatype Field = RelationshipField | SourceField | EligibilityField

  datatype Transition = Transition(before: Content, after: Content, fields: seq<Field>,
                                   beforeRelationship: Relationship, afterRelationship: Relationship,
                                   beforeEligible: bool, afterEligible: bool)

  datatype Change = Change(before: Content, after: Content)

  datatype Diff = Diff(added: seq<Content>, removed: seq<Content>, updated: seq<Change>, transitions: seq<Transition>)

  function ChangedFields(b: Content, h: Content, rb: Relationship, rh: Relationship): seq<Field>
  {
    (if rb != Unrecovered && rh != Unrecovered && rb != rh then [RelationshipField] else [])
    + (if b.source != NoSource && h.source != NoSource && b.source != h.source then [SourceField] else [])
    + (if (b.source == h.source || (b.source != NoSource && h.source != NoSource)) && Eligible(b) != Eligible(h)
       then [EligibilityField] else [])
  }

  /** The relationship a graph derives for a record; unrecovered when it derives none. */
  function RelationshipIn(rels: map<string, Relationship>, c: Content): Relationship
  {
    if c.id in rels && rels[c.id] != Unset then rels[c.id] else RelationshipForDepth(c.relationship, 0)
  }

  function Details(b: Content, h: Content, rb: map<string, Relationship>, rh: map<string, Relationship>): Transition
  {
    Transition(b, h, ChangedFields(b, h, RelationshipIn(rb, b), RelationshipIn(rh, h)),
               RelationshipIn(rb, b), RelationshipIn(rh, h), Eligible(b), Eligible(h))
  }

  function ReverseTransition(t: Transition): Transition
  {
    Transition(t.after, t.before, t.fields, t.afterRelationship, t.beforeRelationship, t.afterEligible, t.beforeEligible)
  }

  lemma DetailsReverse(b: Content, h: Content, rb: map<string, Relationship>, rh: map<string, Relationship>)
    ensures Details(h, b, rh, rb) == ReverseTransition(Details(b, h, rb, rh))
  {
  }

  // ----- The diff of two tables

  /** The same ID on both sides, or partners. */
  ghost predicate Compared(base: Table, head: Table, key: KeyOf, b: string, h: string)
  {
    (b == h && b in base && b in head) || Matched(base, head, key, b, h)
  }

  ghost predicate IsUpdate(base: Table, head: Table, key: KeyOf, u: Change)
  {
    && u.before.id in base && base[u.before.id] == u.before && u.after.id in head && head[u.after.id] == u.after
    && Matched(base, head, key, u.before.id, u.after.id)
  }

  ghost predicate IsTransition(base: Table, head: Table, rb: map<string, Relationship>, rh: map<string, Relationship>, key: KeyOf, t: Transition)
  {
    && t.before.id in base && base[t.before.id] == t.before && t.after.id in head && head[t.after.id] == t.after
    && Compared(base, head, key, t.before.id, t.after.id) && t == Details(t.before, t.after, rb, rh) && t.fields != []
  }

  ghost predicate IsLeftover(c: Table, other: Table, key: KeyOf, n: Content)
  {
    n.id in c && c[n.id] == n && Leftover(c, other, key, n.id)
  }

  predicate UpdateLess(key: KeyOf, a: Change, b: Change)
  {
    var ka, kb := key(a.before.id), key(b.before.id);
    if ka != kb then Less(ka, kb)
    else if a.before.version != b.before.version then Less(a.before.version, b.before.version)
    else if a.after.version != b.after.version then Less(a.after.version, b.after.version)
    else Less(a.before.id, b.before.id)
  }

  predicate TransitionLess(key: KeyOf, a: Transition, b: Transition)
  {
    var ka, kb := key(a.before.id), key(b.before.id);
    if ka != kb then Less(ka, kb)
    else if a.before.version != b.before.version then Less(a.before.version, b.before.version)
    else if a.after.version != b.after.version then Less(a.after.version, b.after.version)
    else if a.before.id != b.before.id then Less(a.before.id, b.before.id)
    else Less(a.after.id, b.after.id)
  }

  /** Exactly the leftovers, partners and detail changes, each in its published order. */
  ghost predicate IsDiff(d: Diff, base: Table, head: Table, rb: map<string, Relationship>, rh: map<string, Relationship>, key: KeyOf)
  {
    && Increasing(ContentLess, d.removed) && (forall n :: n in d.removed <==> IsLeftover(base, head, key, n))
    && Increasing(ContentLess, d.added) && (forall n :: n in d.added <==> IsLeftover(head, base, key, n))
    && Increasing((a, b) => UpdateLess(key, a, b), d.updated) && (forall u :: u in d.updated <==> IsUpdate(base, head, key, u))
    && Increasing((a, b) => TransitionLess(key, a, b), d.transitions)
    && (forall t :: t in d.transitions <==> IsTransition(base, head, rb, rh, key, t))
  }

  ghost predicate ByVersion(a: Content, b: Content)
  {
    Less(a.version, b.version) || (a.version == b.version && Less(a.id, b.id))
  }

  /** By identity, then the version before, then the version after; `tie` decides what is left. */
  ghost predicate ByChange(ka: string, kb: string, a: Change, b: Change, tie: bool)
  {
    || Less(ka, kb)
    || (ka == kb && Less(a.before.version, b.before.version))
    || (ka == kb && a.before.version == b.before.version && Less(a.after.version, b.after.version))
    || (ka == kb && a.before.version == b.before.version && a.after.version == b.after.version && tie)
  }

  /** Records come by version and ID; pairs by identity, versions and the ID before; transitions by the ID after as well. */
  lemma PublishedOrder(d: Diff, base: Table, head: Table, rb: map<string, Relationship>, rh: map<string, Relationship>, key: KeyOf)
    requires IsDiff(d, base, head, rb, rh, key)
    ensures forall i, j :: 0 <= i < j < |d.removed| ==> ByVersion(d.removed[i], d.removed[j])
    ensures forall i, j :: 0 <= i < j < |d.added| ==> ByVersion(d.added[i], d.added[j])
    ensures forall i, j :: 0 <= i < j < |d.updated| ==>
              var a, b := d.updated[i], d.updated[j]; ByChange(key(a.before.id), key(b.before.id), a, b, Less(a.before.id, b.before.id))
    ensures forall i, j :: 0 <= i < j < |d.transitions| ==>
              var a, b := d.transitions[i], d.transitions[j];
              ByChange(key(a.before.id), key(b.before.id), Change(a.before, a.after), Change(b.before, b.after),
                       Less(a.before.id, b.before.id) || (a.before.id == b.before.id && Less(a.after.id, b.after.id)))
  {
    LessIsStrictTotal();
    hide IsLeftover, IsUpdate, IsTransition;
    var lt := (a, b) => UpdateLess(key, a, b);
    assert Increasing(lt, d.updated);
    forall i, j | 0 <= i < j < |d.updated| ensures UpdateLess(key, d.updated[i], d.updated[j]) {
      assert lt(d.updated[i], d.updated[j]);
    }
    var tt := (a, b) => TransitionLess(key, a, b);
    assert Increasing(tt, d.transitions);
    forall i, j | 0 <= i < j < |d.transitions| ensures TransitionLess(key, d.transitions[i], d.transitions[j]) {
      assert tt(d.transitions[i], d.transitions[j]);
    }
  }

  lemma ContentOrder()
    ensures StrictOrder(ContentLess)
  {
    LessIsStrictTotal();
  }

  /** Comparing the other way round swaps added with removed and reverses every pair and transition. */
  lemma Antisymmetric(d: Diff, e: Diff, base: Table, head: Table,
                                         rb: map<string, Relationship>, rh: map<string, Relationship>, key: KeyOf)
    requires IsDiff(d, base, head, rb, rh, key) && IsDiff(e, head, base, rh, rb, key)
    ensures e.added == d.removed && e.removed == d.added
    ensures forall u :: u in d.updated <==> Change(u.after, u.before) in e.updated
    ensures forall t :: t in d.transitions <==> ReverseTransition(t) in e.transitions
  {
    ContentOrder();
    assert Elems(e.added) == Elems(d.removed) && Elems(e.removed) == Elems(d.added);
    IncreasingIsUnique(ContentLess, e.added, d.removed);
    IncreasingIsUnique(ContentLess, e.removed, d.added);
    forall u ensures IsUpdate(base, head, key, u) <==> IsUpdate(head, base, key, Change(u.after, u.before)) {
      MatchedSwaps(base, head, key, u.before.id, u.after.id);
    }
    forall t ensures IsTransition(base, head, rb, rh, key, t) <==> IsTransition(head, base, rh, rb, key, ReverseTransition(t)) {
      MatchedSwaps(base, head, key, t.before.id, t.after.id);
      DetailsReverse(t.before, t.after, rb, rh);
      DetailsReverse(t.after, t.before, rh, rb);
    }
  }

  /** A graph does not differ from itself. */
  lemma SelfDiffIsEmpty(d: Diff, c: Table, rels: map<string, Relationship>, key: KeyOf)
    requires IsDiff(d, c, c, rels, rels, key)
    ensures d == Diff([], [], [], [])
  {
    forall n: Content ensures !IsLeftover(c, c, key, n) {
      GroupHolds(c, c, key, key(n.id));
    }
    forall u: Change ensures !IsUpdate(c, c, key, u) {
      GroupHolds(c, c, key, key(u.before.id));
    }
    forall t: Transition ensures !IsTransition(c, c, rels, rels, key, t) {
      GroupHolds(c, c, key, key(t.before.id));
    }
    Something(d.removed);
    Something(d.added);
    Something(d.updated);
    Something(d.transitions);
  }

  lemma Something<T>(s: seq<T>)
    ensures s != [] ==> exists x :: x in s
  {
    if s != [] {
      assert s[0] in s;
    }
  }
}

/** The diff of model/graph.go. */
module Compare {
  import opened Orders
  import opened EdgeKinds
  import opened Relationships
  import opened Nodes
  import opened Graphs
  import opened Directness
  import opened DirectnessTheory
  import opened DiffTheory

  /** The dependency records of a graph. */
  ghost function DependencyTable(g: Graph): Table
    reads g, g.nodes
    requires g.Valid()
  {
    map id | id in g.ContentMap() && g.ContentMap()[id].kind == DependencyKind :: g.ContentMap()[id]
  }

  /** The relationships a graph derives for its dependencies. */
  ghost predicate Derived(g: Graph, rels: map<string, Relationship>)
    reads g, g.nodes
    requires g.Valid()
  {
    && rels.Keys == g.IdsOfKind(DependencyKind)
    && forall id :: id in rels ==>
         id in g.NodeMap() && rels[id] == GraphDirectness(g.Abs(), g.IdsOfKind(DependencyKind), g.NodeMap()[id].relationship, id)
  }

  method IndexDiffableNodes(g: Graph) returns (indexed: Table)
    requires g.Valid()
    ensures indexed == DependencyTable(g) && Filed(indexed)
  {
    hide *;
    var list := g.DependencyNodes();
    ghost var ids := ListedNodes(g, list);
    indexed := map[];
    for i := 0 to |list|
      invariant forall id :: id in indexed <==> exists j :: 0 <= j < i && ids[j] == id
      invariant forall id :: id in indexed ==> id in g.ContentMap() && indexed[id] == g.ContentMap()[id]
    {
      indexed := indexed[list[i].id := list[i].Contents()];
    }
    IndexedAll(g, ids, indexed);
  }

  /** The nodes of a full dependency listing. */
  lemma ListedNodes(g: Graph, list: seq<Node>) returns (ids: seq<string>)
    requires g.Valid() && Listed(list, g.NodeMap(), g.IdsOfKind(DependencyKind))
    ensures |ids| == |list|
    ensures forall i :: 0 <= i < |list| ==> list[i].id == ids[i] && ids[i] in g.ContentMap() && g.ContentMap()[ids[i]] == list[i].Contents()
    ensures forall id :: id in ids <==> id in DependencyTable(g)
  {
    g.NodesFiled();
    g.ContentsFiled();
    hide SlotTables.TableOk;
    hide SlotTables.ContentsOf;
    hide SlotTables.NodesOf;
    ids := seq(|list|, i requires 0 <= i < |list| => list[i].id);
    forall id ensures id in ids <==> id in DependencyTable(g) {
      assert id in DependencyTable(g) <==> id in g.IdsOfKind(DependencyKind);
      if id in g.IdsOfKind(DependencyKind) {
        var i :| 0 <= i < |list| && list[i].id == id;
        assert ids[i] == id;
      }
    }
  }

  lemma IndexedAll(g: Graph, ids: seq<string>, indexed: Table)
    requires g.Valid() && forall id :: id in ids <==> id in DependencyTable(g)
    requires forall id :: id in indexed <==> exists j :: 0 <= j < |ids| && ids[j] == id
    requires forall id :: id in indexed ==> id in g.ContentMap() && indexed[id] == g.ContentMap()[id]
    ensures indexed == DependencyTable(g) && Filed(indexed)
  {
    g.NodesFiled();
    g.ContentsFiled();
    hide SlotTables.TableOk;
    hide SlotTables.ContentsOf;
    hide SlotTables.NodesOf;
    forall id ensures id in indexed <==> id in DependencyTable(g) {
    }
  }

  /** The records of the first table missing from the second, and a transition for each shared one that changed. */
  method SplitExact(base: Table, head: Table, rb: map<string, Relationship>, rh: map<string, Relationship>)
    returns (remainder: Table, transitions: seq<Transition>)
    requires Filed(base) && Filed(head)
    ensures remainder == map id | id in base && id !in head :: base[id]
    ensures forall t :: t in transitions <==> t.before.id in base && t.before.id in head && t == Details(base[t.before.id], head[t.before.id], rb, rh) && t.fields != []
    ensures BeforesDiffer(transitions)
  {
    hide ChangedFields, Eligible, RelationshipIn;
    remainder, transitions := map[], [];
    var todo := base.Keys;
    while todo != {}
      invariant todo <= base.Keys
      invariant remainder == map id | id in base && id !in head && id !in todo :: base[id]
      invariant forall t :: t in transitions <==>
                  t.before.id in base && t.before.id !in todo && t.before.id in head && t == Details(base[t.before.id], head[t.before.id], rb, rh) && t.fields != []
      invariant BeforesDiffer(transitions)
      decreases todo
    {
      var id :| id in todo;
      todo := todo - {id};
      if id in head {
        var t := Details(base[id], head[id], rb, rh);
        if t.fields != [] {
          assert forall u :: u in transitions ==> u.before.id != id;
          transitions := transitions + [t];
        }
      } else {
        remainder := remainder[id := base[id]];
      }
    }
  }

  ghost predicate BeforesDiffer(transitions: seq<Transition>)
  {
    forall i, j :: 0 <= i < j < |transitions| ==> transitions[i].before.id != transitions[j].before.id
  }

  ghost predicate IdsDiffer(list: seq<Content>)
  {
    forall i, j :: 0 <= i < j < |list| ==> list[i].id != list[j].id
  }

  /** The records of each identity, in no particular order. */
  method GroupNodesByIdentity(nodes: Table, key: KeyOf) returns (groups: map<string, seq<Content>>)
    requires Filed(nodes)
    ensures forall k :: k in groups <==> exists id :: id in nodes && key(id) == k
    ensures forall k :: k in groups ==> IdsDiffer(groups[k]) && forall n :: n in groups[k] <==> n.id in nodes && n == nodes[n.id] && key(n.id) == k
  {
    groups := map[];
    var todo := nodes.Keys;
    while todo != {}
      invariant todo <= nodes.Keys
      invariant forall k :: k in groups <==> exists id :: id in nodes && id !in todo && key(id) == k
      invariant forall k :: k in groups ==> IdsDiffer(groups[k]) && forall n :: n in groups[k] <==>
                  n.id in nodes && n.id !in todo && n == nodes[n.id] && key(n.id) == k
      decreases todo
    {
      var id :| id in todo;
      todo := todo - {id};
      var k := key(id);
      var group := if k in groups then groups[k] else [];
      groups := groups[k := group + [nodes[id]]];
    }
  }

  // ----- One identity at a time

  /** The records of one identity, lined up as the diff pairs them. */
  ghost predicate GroupIs(list: seq<Content>, c: Table, other: Table, key: KeyOf, k: string)
  {
    && |list| == |Group(c, other, key, k)|
    && forall i :: 0 <= i < |list| ==> list[i].id == Group(c, other, key, k)[i] && list[i].id in c && c[list[i].id] == list[i]
  }

  /** Everything one identity holds on one side. */
  ghost predicate Members(list: seq<Content>, c: Table, other: Table, key: KeyOf, k: string)
  {
    IdsDiffer(list) && forall n :: n in list <==> n.id in c && n.id !in other && n == c[n.id] && key(n.id) == k
  }

  lemma SortedIsGroup(list: seq<Content>, sorted: seq<Content>, c: Table, other: Table, key: KeyOf, k: string)
    requires Filed(c) && Members(list, c, other, key, k) && multiset(sorted) == multiset(list) && Increasing(ContentLess, sorted)
    ensures GroupIs(sorted, c, other, key, k)
  {
    var ids := seq(|sorted|, i requires 0 <= i < |sorted| => sorted[i].id);
    forall n ensures n in sorted <==> n in list {
      assert n in multiset(sorted) <==> n in multiset(list);
    }
    assert forall i :: 0 <= i < |sorted| ==> sorted[i] in sorted;
    assert Increasing(IdLess(c), ids);
    forall id ensures id in ids <==> id in Keyed(c, other, key, k) {
      if id in Keyed(c, other, key, k) {
        assert c[id] in sorted;
        var i :| 0 <= i < |sorted| && sorted[i] == c[id];
        assert ids[i] == id;
      }
    }
    IdOrder(c);
    SortedSeqIncreases(IdLess(c), Keyed(c, other, key, k));
    assert Elems(ids) == Keyed(c, other, key, k);
    IncreasingIsUnique(IdLess(c), ids, SortedSeq(IdLess(c), Keyed(c, other, key, k)));
  }

  lemma IdsAreComparable(list: seq<Content>)
    requires IdsDiffer(list)
    ensures StrictOrder(ContentLess) && Comparable(ContentLess, list)
  {
    LessIsStrictTotal();
  }

  method SortNodesForDiff(list: seq<Content>, ghost c: Table, ghost other: Table, ghost key: KeyOf, ghost k: string) returns (sorted: seq<Content>)
    requires Filed(c) && Members(list, c, other, key, k)
    ensures GroupIs(sorted, c, other, key, k)
  {
    IdsAreComparable(list);
    sorted := Sort(ContentLess, list);
    SortedIsGroup(list, sorted, c, other, key, k);
  }

  function Smaller(a: nat, b: nat): nat
  {
    if a < b then a else b
  }

  ghost function Zipped(gb: seq<Content>, gh: seq<Content>): seq<Change>
  {
    seq(Smaller(|gb|, |gh|), i requires 0 <= i < Smaller(|gb|, |gh|) => Change(gb[i], gh[i]))
  }

  /** Pairs the two sides rank by rank and classifies what changed inside each pair. */
  method PairUp(gb: seq<Content>, gh: seq<Content>, rb: map<string, Relationship>, rh: map<string, Relationship>)
    returns (updated: seq<Change>, transitions: seq<Transition>)
    requires IdsDiffer(gb)
    ensures updated == Zipped(gb, gh)
    ensures BeforesDiffer(transitions)
    ensures forall t :: t in transitions <==>
              exists i :: 0 <= i < |gb| && i < |gh| && t == Details(gb[i], gh[i], rb, rh) && t.fields != []
  {
    hide Details;
    updated, transitions := [], [];
    var pairs := Smaller(|gb|, |gh|);
    for i := 0 to pairs
      invariant |updated| == i && forall j :: 0 <= j < i ==> updated[j] == Change(gb[j], gh[j])
      invariant BeforesDiffer(transitions) && forall t :: t in transitions ==> exists j :: 0 <= j < i && t.before == gb[j]
      invariant forall t :: t in transitions <==> exists j :: 0 <= j < i && t == Details(gb[j], gh[j], rb, rh) && t.fields != []
    {
      updated := updated + [Change(gb[i], gh[i])];
      var t := Details(gb[i], gh[i], rb, rh);
      BeforeIs(gb[i], gh[i], rb, rh);
      if t.fields != [] {
        transitions := transitions + [t];
      }
    }
  }

  lemma BeforeIs(b: Content, h: Content, rb: map<string, Relationship>, rh: map<string, Relationship>)
    ensures Details(b, h, rb, rh).before == b
  {
  }

  lemma TailIsLeftover(list: seq<Content>, c: Table, other: Table, key: KeyOf, k: string, pairs: nat)
    requires Filed(c) && GroupIs(list, c, other, key, k)
    requires pairs == Smaller(|list|, |Group(other, c, key, k)|)
    ensures forall n :: n in list[pairs..] <==> IsLeftover(c, other, key, n) && key(n.id) == k
  {
    GroupHolds(c, other, key, k);
    hide Group;
    var g := Group(c, other, key, k);
    forall n | n in list[pairs..] ensures IsLeftover(c, other, key, n) && key(n.id) == k {
      var i :| pairs <= i < |list| && list[i] == n;
      assert g[i] in g;
      assert g[i] == n.id;
    }
    forall n | IsLeftover(c, other, key, n) && key(n.id) == k ensures n in list[pairs..] {
      var i :| |Group(other, c, key, k)| <= i < |g| && g[i] == n.id;
      assert list[i].id == n.id;
      assert list[pairs..][i - pairs] == list[i];
    }
  }

  lemma ZipIsUpdates(gb: seq<Content>, gh: seq<Content>, base: Table, head: Table, key: KeyOf, k: string)
    requires Filed(base) && Filed(head) && GroupIs(gb, base, head, key, k) && GroupIs(gh, head, base, key, k)
    ensures forall u :: u in Zipped(gb, gh) <==> IsUpdate(base, head, key, u) && key(u.before.id) == k
  {
    GroupHolds(base, head, key, k);
    GroupHolds(head, base, key, k);
    hide Group;
    var zip, b, h := Zipped(gb, gh), Group(base, head, key, k), Group(head, base, key, k);
    forall u | u in zip ensures IsUpdate(base, head, key, u) && key(u.before.id) == k {
      var i :| 0 <= i < |zip| && zip[i] == u;
      assert b[i] in b && h[i] in h;
      assert b[i] == u.before.id && h[i] == u.after.id;
    }
    forall u | IsUpdate(base, head, key, u) && key(u.before.id) == k ensures u in zip {
      var i :| 0 <= i < |b| && i < |h| && b[i] == u.before.id && h[i] == u.after.id;
      assert gb[i].id == u.before.id && gh[i].id == u.after.id;
      assert zip[i] == u;
    }
  }

  /** A transition between two records that are not one ID is a detail change of a pair. */
  lemma TransitionIsUpdate(base: Table, head: Table, rb: map<string, Relationship>, rh: map<string, Relationship>, key: KeyOf, t: Transition)
    ensures IsTransition(base, head, rb, rh, key, t) && t.before.id !in head <==>
            IsUpdate(base, head, key, Change(t.before, t.after)) && t == Details(t.before, t.after, rb, rh) && t.fields != []
  {
    hide Matched;
    hide Details;
    if Matched(base, head, key, t.before.id, t.after.id) {
      MatchedAreRecords(base, head, key, t.before.id, t.after.id);
    }
  }

  lemma PairsAreTransitions(gb: seq<Content>, gh: seq<Content>, transitions: seq<Transition>, base: Table, head: Table,
                                               rb: map<string, Relationship>, rh: map<string, Relationship>, key: KeyOf, k: string)
    requires Filed(base) && Filed(head) && GroupIs(gb, base, head, key, k) && GroupIs(gh, head, base, key, k)
    requires forall t :: t in transitions <==>
               exists i :: 0 <= i < |gb| && i < |gh| && t == Details(gb[i], gh[i], rb, rh) && t.fields != []
    ensures forall t :: t in transitions <==> IsTransition(base, head, rb, rh, key, t) && t.before.id !in head && key(t.before.id) == k
  {
    ZipIsUpdates(gb, gh, base, head, key, k);
    hide GroupIs;
    hide IsUpdate;
    hide IsTransition;
    hide ChangedFields;
    hide RelationshipIn;
    hide Eligible;
    forall t ensures t in transitions <==> IsTransition(base, head, rb, rh, key, t) && t.before.id !in head && key(t.before.id) == k {
      TransitionIsUpdate(base, head, rb, rh, key, t);
      InZip(gb, gh, Change(t.before, t.after));
    }
  }

  lemma InZip(gb: seq<Content>, gh: seq<Content>, u: Change)
    ensures u in Zipped(gb, gh) <==> exists i :: 0 <= i < |gb| && i < |gh| && gb[i] == u.before && gh[i] == u.after
  {
    var zip := Zipped(gb, gh);
    if i :| 0 <= i < |gb| && i < |gh| && gb[i] == u.before && gh[i] == u.after {
      assert zip[i] == u;
    }
  }

  // ----- All identities

  /** The list holds exactly the values of `wanted`, no two with the same ID. */
  ghost predicate Exact<T(!new)>(list: seq<T>, idOf: T -> string, wanted: T -> bool)
  {
    && (forall i, j :: 0 <= i < j < |list| ==> idOf(list[i]) != idOf(list[j]))
    && (forall x :: x in list <==> wanted(x))
  }

  lemma ExactConcat<T(!new)>(a: seq<T>, b: seq<T>, idOf: T -> string, isA: T -> bool, isB: T -> bool, wanted: T -> bool)
    requires Exact(a, idOf, isA) && Exact(b, idOf, isB)
    requires forall x, y :: isA(x) && isB(y) ==> idOf(x) != idOf(y)
    requires forall x :: wanted(x) <==> isA(x) || isB(x)
    ensures Exact(a + b, idOf, wanted)
  {
    assert forall i :: 0 <= i < |a| ==> a[i] in a;
    assert forall i :: 0 <= i < |b| ==> b[i] in b;
  }

  function IdOf(n: Content): string { n.id }
  function BeforeOfUpdate(u: Change): string { u.before.id }
  function BeforeOf(t: Transition): string { t.before.id }

  ghost function LeftoversIn(c: Table, other: Table, key: KeyOf, keys: set<string>): Content -> bool
  {
    n => IsLeftover(c, other, key, n) && key(n.id) in keys
  }

  ghost function UpdatesIn(base: Table, head: Table, key: KeyOf, keys: set<string>): Change -> bool
  {
    u => IsUpdate(base, head, key, u) && key(u.before.id) in keys
  }

  /** Transitions of shared IDs, and those of partners whose identity is in `keys`. */
  ghost function TransitionsIn(base: Table, head: Table, rb: map<string, Relationship>, rh: map<string, Relationship>,
                               key: KeyOf, shared: bool, keys: set<string>): Transition -> bool
  {
    t => IsTransition(base, head, rb, rh, key, t) && if t.before.id in head then shared else key(t.before.id) in keys
  }

  ghost predicate Partial(d: Diff, base: Table, head: Table, rb: map<string, Relationship>, rh: map<string, Relationship>, key: KeyOf, keys: set<string>)
  {
    && Exact(d.removed, IdOf, LeftoversIn(base, head, key, keys))
    && Exact(d.added, IdOf, LeftoversIn(head, base, key, keys))
    && Exact(d.updated, BeforeOfUpdate, UpdatesIn(base, head, key, keys))
    && Exact(d.transitions, BeforeOf, TransitionsIn(base, head, rb, rh, key, true, keys))
  }

  /** What one identity contributes. */
  ghost predicate Contribution(d: Diff, base: Table, head: Table, rb: map<string, Relationship>, rh: map<string, Relationship>, key: KeyOf, k: string)
  {
    && Exact(d.removed, IdOf, LeftoversIn(base, head, key, {k}))
    && Exact(d.added, IdOf, LeftoversIn(head, base, key, {k}))
    && Exact(d.updated, BeforeOfUpdate, UpdatesIn(base, head, key, {k}))
    && Exact(d.transitions, BeforeOf, TransitionsIn(base, head, rb, rh, key, false, {k}))
  }

  function Joined(d: Diff, e: Diff): Diff
  {
    Diff(d.added + e.added, d.removed + e.removed, d.updated + e.updated, d.transitions + e.transitions)
  }

  lemma ContributionJoins(d: Diff, e: Diff, base: Table, head: Table, rb: map<string, Relationship>, rh: map<string, Relationship>,
                                             key: KeyOf, keys: set<string>, k: string)
    requires Partial(d, base, head, rb, rh, key, keys) && Contribution(e, base, head, rb, rh, key, k) && k !in keys
    ensures Partial(Joined(d, e), base, head, rb, rh, key, keys + {k})
  {
    hide IsLeftover;
    hide IsUpdate;
    hide IsTransition;
    hide Exact;
    ExactConcat(d.removed, e.removed, IdOf, LeftoversIn(base, head, key, keys), LeftoversIn(base, head, key, {k}), LeftoversIn(base, head, key, keys + {k}));
    ExactConcat(d.added, e.added, IdOf, LeftoversIn(head, base, key, keys), LeftoversIn(head, base, key, {k}), LeftoversIn(head, base, key, keys + {k}));
    ExactConcat(d.updated, e.updated, BeforeOfUpdate, UpdatesIn(base, head, key, keys), UpdatesIn(base, head, key, {k}), UpdatesIn(base, head, key, keys + {k}));
    ExactConcat(d.transitions, e.transitions, BeforeOf, TransitionsIn(base, head, rb, rh, key, true, keys),
                TransitionsIn(base, head, rb, rh, key, false, {k}), TransitionsIn(base, head, rb, rh, key, true, keys + {k}));
  }

  lemma IsContribution(gb: seq<Content>, gh: seq<Content>, transitions: seq<Transition>, base: Table, head: Table,
                                          rb: map<string, Relationship>, rh: map<string, Relationship>, key: KeyOf, k: string)
    requires Filed(base) && Filed(head) && GroupIs(gb, base, head, key, k) && GroupIs(gh, head, base, key, k) && BeforesDiffer(transitions)
    requires forall t :: t in transitions <==>
               exists i :: 0 <= i < |gb| && i < |gh| && t == Details(gb[i], gh[i], rb, rh) && t.fields != []
    ensures Contribution(Diff(gh[Smaller(|gb|, |gh|)..], gb[Smaller(|gb|, |gh|)..], Zipped(gb, gh), transitions), base, head, rb, rh, key, k)
  {
    ExactTail(gb, base, head, key, k, Smaller(|gb|, |gh|));
    ExactTail(gh, head, base, key, k, Smaller(|gb|, |gh|));
    ExactZip(gb, gh, base, head, key, k);
    ExactPairs(gb, gh, transitions, base, head, rb, rh, key, k);
    hide Exact;
    hide LeftoversIn;
    hide UpdatesIn;
    hide TransitionsIn;
    hide Zipped;
  }

  lemma ExactTail(list: seq<Content>, c: Table, other: Table, key: KeyOf, k: string, pairs: nat)
    requires Filed(c) && GroupIs(list, c, other, key, k) && pairs == Smaller(|list|, |Group(other, c, key, k)|)
    ensures Exact(list[pairs..], IdOf, LeftoversIn(c, other, key, {k}))
  {
    TailIsLeftover(list, c, other, key, k, pairs);
    GroupIdsDiffer(list, c, other, key, k);
    hide IsLeftover;
    hide GroupIs;
    hide Group;
  }

  lemma ExactZip(gb: seq<Content>, gh: seq<Content>, base: Table, head: Table, key: KeyOf, k: string)
    requires Filed(base) && Filed(head) && GroupIs(gb, base, head, key, k) && GroupIs(gh, head, base, key, k)
    ensures Exact(Zipped(gb, gh), BeforeOfUpdate, UpdatesIn(base, head, key, {k}))
  {
    ZipIsUpdates(gb, gh, base, head, key, k);
    GroupIdsDiffer(gb, base, head, key, k);
    hide IsUpdate;
    hide GroupIs;
    hide Group;
  }

  lemma ExactPairs(gb: seq<Content>, gh: seq<Content>, transitions: seq<Transition>, base: Table, head: Table,
                                      rb: map<string, Relationship>, rh: map<string, Relationship>, key: KeyOf, k: string)
    requires Filed(base) && Filed(head) && GroupIs(gb, base, head, key, k) && GroupIs(gh, head, base, key, k) && BeforesDiffer(transitions)
    requires forall t :: t in transitions <==>
               exists i :: 0 <= i < |gb| && i < |gh| && t == Details(gb[i], gh[i], rb, rh) && t.fields != []
    ensures Exact(transitions, BeforeOf, TransitionsIn(base, head, rb, rh, key, false, {k}))
  {
    PairsAreTransitions(gb, gh, transitions, base, head, rb, rh, key, k);
    hide IsTransition;
    hide GroupIs;
    hide Details;
  }

  method DiffIdentity(baseNodes: seq<Content>, headNodes: seq<Content>, rb: map<string, Relationship>, rh: map<string, Relationship>,
                      ghost base: Table, ghost head: Table, ghost key: KeyOf, ghost k: string) returns (part: Diff)
    requires Filed(base) && Filed(head) && Members(baseNodes, base, head, key, k) && Members(headNodes, head, base, key, k)
    ensures Contribution(part, base, head, rb, rh, key, k)
  {
    hide *;
    var gb := SortNodesForDiff(baseNodes, base, head, key, k);
    var gh := SortNodesForDiff(headNodes, head, base, key, k);
    GroupIdsDiffer(gb, base, head, key, k);
    var updated, transitions := PairUp(gb, gh, rb, rh);
    IsContribution(gb, gh, transitions, base, head, rb, rh, key, k);
    SmallerIsLess(|gb|, |gh|);
    var pairs := Smaller(|gb|, |gh|);
    part := Diff(gh[pairs..], gb[pairs..], updated, transitions);
  }

  lemma SmallerIsLess(a: nat, b: nat)
    ensures Smaller(a, b) <= a && Smaller(a, b) <= b
  {
  }

  lemma GroupIdsDiffer(list: seq<Content>, c: Table, other: Table, key: KeyOf, k: string)
    requires GroupIs(list, c, other, key, k)
    ensures IdsDiffer(list)
  {
    GroupHolds(c, other, key, k);
  }

  // ----- The published lists

  lemma ExactPermuted<T(!new)>(a: seq<T>, b: seq<T>, idOf: T -> string, wanted: T -> bool)
    requires Exact(a, idOf, wanted) && multiset(a) == multiset(b)
    ensures forall x :: x in b <==> wanted(x)
  {
    forall x ensures x in b <==> x in a {
      assert x in multiset(b) <==> x in multiset(a);
    }
  }

  lemma LeftoversComparable(list: seq<Content>, wanted: Content -> bool)
    requires Exact(list, IdOf, wanted)
    ensures StrictOrder(ContentLess) && Comparable(ContentLess, list)
  {
    assert forall i, j :: 0 <= i < j < |list| ==> IdOf(list[i]) != IdOf(list[j]);
    IdsAreComparable(list);
  }

  lemma UpdatesComparable(list: seq<Change>, wanted: Change -> bool, key: KeyOf)
    requires Exact(list, BeforeOfUpdate, wanted)
    ensures StrictOrder((a, b) => UpdateLess(key, a, b)) && Comparable((a, b) => UpdateLess(key, a, b), list)
  {
    LessIsStrictTotal();
    forall i, j | 0 <= i < j < |list| ensures UpdateLess(key, list[i], list[j]) || UpdateLess(key, list[j], list[i]) {
      assert BeforeOfUpdate(list[i]) != BeforeOfUpdate(list[j]);
    }
  }

  lemma TransitionsComparable(list: seq<Transition>, wanted: Transition -> bool, key: KeyOf)
    requires Exact(list, BeforeOf, wanted)
    ensures StrictOrder((a, b) => TransitionLess(key, a, b)) && Comparable((a, b) => TransitionLess(key, a, b), list)
  {
    LessIsStrictTotal();
    forall i, j | 0 <= i < j < |list| ensures TransitionLess(key, list[i], list[j]) || TransitionLess(key, list[j], list[i]) {
      assert BeforeOf(list[i]) != BeforeOf(list[j]);
    }
  }

  /** Every identity with a record on one side only is in `keys`. */
  ghost predicate Covers(base: Table, head: Table, key: KeyOf, keys: set<string>)
  {
    && (forall id :: id in base && id !in head ==> key(id) in keys)
    && (forall id :: id in head && id !in base ==> key(id) in keys)
  }

  lemma AllCovered(base: Table, head: Table, rb: map<string, Relationship>, rh: map<string, Relationship>, key: KeyOf, keys: set<string>)
    requires Covers(base, head, key, keys)
    ensures forall n :: LeftoversIn(base, head, key, keys)(n) <==> IsLeftover(base, head, key, n)
    ensures forall n :: LeftoversIn(head, base, key, keys)(n) <==> IsLeftover(head, base, key, n)
    ensures forall u :: UpdatesIn(base, head, key, keys)(u) <==> IsUpdate(base, head, key, u)
    ensures forall t :: TransitionsIn(base, head, rb, rh, key, true, keys)(t) <==> IsTransition(base, head, rb, rh, key, t)
  {
    forall n: Content ensures IsLeftover(base, head, key, n) ==> key(n.id) in keys {
      GroupHolds(base, head, key, key(n.id));
    }
    forall n: Content ensures IsLeftover(head, base, key, n) ==> key(n.id) in keys {
      GroupHolds(head, base, key, key(n.id));
    }
    forall u ensures IsUpdate(base, head, key, u) ==> key(u.before.id) in keys {
      if IsUpdate(base, head, key, u) {
        MatchedAreRecords(base, head, key, u.before.id, u.after.id);
      }
    }
    hide IsLeftover;
    hide IsUpdate;
    hide Details;
  }

  method Publish(d: Diff, key: KeyOf, ghost base: Table, ghost head: Table, ghost rb: map<string, Relationship>, ghost rh: map<string, Relationship>,
                 ghost keys: set<string>) returns (out: Diff)
    requires Partial(d, base, head, rb, rh, key, keys) && Covers(base, head, key, keys)
    ensures IsDiff(out, base, head, rb, rh, key)
  {
    PartialParts(d, base, head, rb, rh, key, keys);
    hide *;
    LeftoversComparable(d.added, LeftoversIn(head, base, key, keys));
    LeftoversComparable(d.removed, LeftoversIn(base, head, key, keys));
    UpdatesComparable(d.updated, UpdatesIn(base, head, key, keys), key);
    TransitionsComparable(d.transitions, TransitionsIn(base, head, rb, rh, key, true, keys), key);
    var added := Sort(ContentLess, d.added);
    var removed := Sort(ContentLess, d.removed);
    var updated := Sort((a, b) => UpdateLess(key, a, b), d.updated);
    var transitions := Sort((a, b) => TransitionLess(key, a, b), d.transitions);
    out := Diff(added, removed, updated, transitions);
    PublishedIsDiff(d, out, base, head, rb, rh, key, keys);
  }

  lemma PartialParts(d: Diff, base: Table, head: Table, rb: map<string, Relationship>, rh: map<string, Relationship>, key: KeyOf, keys: set<string>)
    requires Partial(d, base, head, rb, rh, key, keys)
    ensures Exact(d.removed, IdOf, LeftoversIn(base, head, key, keys)) && Exact(d.added, IdOf, LeftoversIn(head, base, key, keys))
    ensures Exact(d.updated, BeforeOfUpdate, UpdatesIn(base, head, key, keys))
    ensures Exact(d.transitions, BeforeOf, TransitionsIn(base, head, rb, rh, key, true, keys))
  {
  }

  lemma PublishedIsDiff(d: Diff, out: Diff, base: Table, head: Table, rb: map<string, Relationship>, rh: map<string, Relationship>,
                                           key: KeyOf, keys: set<string>)
    requires Partial(d, base, head, rb, rh, key, keys) && Covers(base, head, key, keys)
    requires multiset(out.added) == multiset(d.added) && multiset(out.removed) == multiset(d.removed)
    requires multiset(out.updated) == multiset(d.updated) && multiset(out.transitions) == multiset(d.transitions)
    requires Increasing(ContentLess, out.added) && Increasing(ContentLess, out.removed)
    requires Increasing((a, b) => UpdateLess(key, a, b), out.updated) && Increasing((a, b) => TransitionLess(key, a, b), out.transitions)
    ensures IsDiff(out, base, head, rb, rh, key)
  {
    AllCovered(base, head, rb, rh, key, keys);
    ExactPermuted(d.removed, out.removed, IdOf, LeftoversIn(base, head, key, keys));
    ExactPermuted(d.added, out.added, IdOf, LeftoversIn(head, base, key, keys));
    ExactPermuted(d.updated, out.updated, BeforeOfUpdate, UpdatesIn(base, head, key, keys));
    ExactPermuted(d.transitions, out.transitions, BeforeOf, TransitionsIn(base, head, rb, rh, key, true, keys));
    hide Increasing;
    hide LeftoversIn;
    hide UpdatesIn;
    hide TransitionsIn;
    hide IsLeftover;
    hide IsUpdate;
    hide IsTransition;
  }

  lemma SharedIsPartial(transitions: seq<Transition>, base: Table, head: Table, rb: map<string, Relationship>, rh: map<string, Relationship>, key: KeyOf)
    requires Filed(base) && Filed(head) && BeforesDiffer(transitions)
    requires forall t :: t in transitions <==> t.before.id in base && t.before.id in head && t == Details(base[t.before.id], head[t.before.id], rb, rh) && t.fields != []
    ensures Partial(Diff([], [], [], transitions), base, head, rb, rh, key, {})
  {
    forall t ensures t in transitions <==> IsTransition(base, head, rb, rh, key, t) && t.before.id in head {
      SharedTransition(base, head, rb, rh, key, t);
    }
    hide IsLeftover;
    hide IsUpdate;
    hide IsTransition;
    hide Details;
  }

  lemma SharedTransition(base: Table, head: Table, rb: map<string, Relationship>, rh: map<string, Relationship>, key: KeyOf, t: Transition)
    requires Filed(base) && Filed(head)
    ensures IsTransition(base, head, rb, rh, key, t) && t.before.id in head <==>
            t.before.id in base && t.before.id in head && t == Details(base[t.before.id], head[t.before.id], rb, rh) && t.fields != []
  {
    hide Matched;
    hide ChangedFields;
    hide RelationshipIn;
    hide Eligible;
    if Matched(base, head, key, t.before.id, t.after.id) {
      MatchedAreRecords(base, head, key, t.before.id, t.after.id);
    }
  }

  method MissingFrom(c: Table, other: Table) returns (remainder: Table)
    ensures remainder == map id | id in c && id !in other :: c[id]
  {
    remainder := map[];
    var todo := c.Keys;
    while todo != {}
      invariant todo <= c.Keys && remainder == map id | id in c && id !in other && id !in todo :: c[id]
      decreases todo
    {
      var id :| id in todo;
      todo := todo - {id};
      if id !in other {
        remainder := remainder[id := c[id]];
      }
    }
  }

  /** The groups of a remainder are the members of each identity. */
  ghost predicate Grouped(groups: map<string, seq<Content>>, c: Table, other: Table, key: KeyOf)
  {
    && (forall id :: id in c && id !in other ==> key(id) in groups)
    && forall k :: Members(if k in groups then groups[k] else [], c, other, key, k)
  }

  lemma GroupsAreMembers(groups: map<string, seq<Content>>, rest: Table, c: Table, other: Table, key: KeyOf)
    requires Filed(c) && rest == map id | id in c && id !in other :: c[id]
    requires forall k :: k in groups <==> exists id :: id in rest && key(id) == k
    requires forall k :: k in groups ==> IdsDiffer(groups[k]) && forall n :: n in groups[k] <==> n.id in rest && n == rest[n.id] && key(n.id) == k
    ensures Grouped(groups, c, other, key)
  {
    forall k ensures Members(if k in groups then groups[k] else [], c, other, key, k) {
    }
  }

  method GroupRemainder(rest: Table, key: KeyOf, ghost c: Table, ghost other: Table) returns (groups: map<string, seq<Content>>)
    requires Filed(c) && rest == map id | id in c && id !in other :: c[id]
    ensures Grouped(groups, c, other, key)
  {
    groups := GroupNodesByIdentity(rest, key);
    GroupsAreMembers(groups, rest, c, other, key);
  }

  lemma MembersOf(groups: map<string, seq<Content>>, c: Table, other: Table, key: KeyOf, k: string)
    requires Grouped(groups, c, other, key)
    ensures Members(if k in groups then groups[k] else [], c, other, key, k)
  {
  }

  lemma GroupsCover(baseGroups: map<string, seq<Content>>, headGroups: map<string, seq<Content>>, base: Table, head: Table, key: KeyOf)
    requires Grouped(baseGroups, base, head, key) && Grouped(headGroups, head, base, key)
    ensures Covers(base, head, key, baseGroups.Keys + headGroups.Keys)
  {
  }

  method DiffTables(base: Table, head: Table, rb: map<string, Relationship>, rh: map<string, Relationship>, key: KeyOf) returns (diff: Diff)
    requires Filed(base) && Filed(head)
    ensures IsDiff(diff, base, head, rb, rh, key)
  {
    hide *;
    var baseRemainder, transitions := SplitExact(base, head, rb, rh);
    var headRemainder := MissingFrom(head, base);
    SharedIsPartial(transitions, base, head, rb, rh, key);
    var baseGroups := GroupRemainder(baseRemainder, key, base, head);
    var headGroups := GroupRemainder(headRemainder, key, head, base);
    GroupsCover(baseGroups, headGroups, base, head, key);
    diff := PairAll(baseGroups, headGroups, Diff([], [], [], transitions), base, head, rb, rh, key);
    diff := Publish(diff, key, base, head, rb, rh, baseGroups.Keys + headGroups.Keys);
  }

  method PairAll(baseGroups: map<string, seq<Content>>, headGroups: map<string, seq<Content>>, start: Diff, ghost base: Table, ghost head: Table,
                 rb: map<string, Relationship>, rh: map<string, Relationship>, ghost key: KeyOf) returns (diff: Diff)
    requires Filed(base) && Filed(head) && Grouped(baseGroups, base, head, key) && Grouped(headGroups, head, base, key)
    requires Partial(start, base, head, rb, rh, key, {})
    ensures Partial(diff, base, head, rb, rh, key, baseGroups.Keys + headGroups.Keys)
  {
    hide *;
    diff := start;
    var identities := baseGroups.Keys + headGroups.Keys;
    var todo := identities;
    assert identities - todo == {};
    while todo != {}
      invariant todo <= identities && Partial(diff, base, head, rb, rh, key, identities - todo)
      decreases todo
    {
      var k :| k in todo;
      MembersOf(baseGroups, base, head, key, k);
      MembersOf(headGroups, head, base, key, k);
      var part := DiffIdentity(if k in baseGroups then baseGroups[k] else [], if k in headGroups then headGroups[k] else [],
                               rb, rh, base, head, key, k);
      ContributionJoins(diff, part, base, head, rb, rh, key, identities - todo, k);
      assert identities - (todo - {k}) == identities - todo + {k};
      diff := Joined(diff, part);
      todo := todo - {k};
    }
    assert identities - {} == identities;
  }

  /** `strip` takes the version off a package URL; an ID it cannot read is its own identity. */
  function DiffIdentityKey(strip: string -> string): KeyOf
  {
    id => if strip(id) != "" then strip(id) else id
  }

  // ----- What a transition reports

  /** What the graph as a whole says of one of its dependencies. */
  ghost function RelationIn(g: Graph, id: string): Relationship
    reads g, g.nodes
    requires g.Valid() && id in g.NodeMap()
  {
    GraphDirectness(g.Abs(), g.IdsOfKind(DependencyKind), g.NodeMap()[id].relationship, id)
  }

  /** Two recovered relationships differ. */
  ghost predicate Moved(rb: Relationship, rh: Relationship)
  {
    rb in {Direct, Transitive} && rh in {Direct, Transitive} && rb != rh
  }

  /** Two stated sources differ. */
  ghost predicate Resourced(b: Content, h: Content)
  {
    b.source != NoSource && h.source != NoSource && b.source != h.source
  }

  /** One is matched against a registry and the other is not, on sources that can be compared: the same on both sides,
      or stated on both. */
  ghost predicate Regated(b: Content, h: Content)
  {
    ((b.source == NoSource) <==> (h.source == NoSource)) && (RegistrySource(b) <==> !RegistrySource(h))
  }

  /** The transition carries both relationships and names exactly the reasons that hold, in this order. */
  ghost predicate Reported(t: Transition, rb: Relationship, rh: Relationship)
  {
    && t.beforeRelationship == rb && t.afterRelationship == rh
    && (t.beforeEligible <==> RegistrySource(t.before)) && (t.afterEligible <==> RegistrySource(t.after))
    && (RelationshipField in t.fields <==> Moved(rb, rh)) && (SourceField in t.fields <==> Resourced(t.before, t.after))
    && (EligibilityField in t.fields <==> Regated(t.before, t.after))
    && forall i, j :: 0 <= i < j < |t.fields| ==> t.fields[j] != RelationshipField && t.fields[i] != EligibilityField && t.fields[i] != t.fields[j]
  }

  /** A listed transition is between two compared records, with the relationships their graphs derive. */
  ghost predicate TransitionSays(t: Transition, base: Graph, head: Graph, key: KeyOf)
    reads base, base.nodes, head, head.nodes
    requires base.Valid() && head.Valid()
  {
    var b, h := DependencyTable(base), DependencyTable(head);
    && t.before.id in b && b[t.before.id] == t.before && t.after.id in h && h[t.after.id] == t.after
    && Compared(b, h, key, t.before.id, t.after.id)
    && t.before.id in base.NodeMap() && t.after.id in head.NodeMap()
    && Reported(t, RelationIn(base, t.before.id), RelationIn(head, t.after.id))
  }

  /** Two compared records are listed exactly when a reason holds. */
  ghost predicate PairSaid(transitions: seq<Transition>, base: Graph, head: Graph, key: KeyOf, x: string, y: string)
    reads base, base.nodes, head, head.nodes
    requires base.Valid() && head.Valid()
  {
    var b, h := DependencyTable(base), DependencyTable(head);
    && x in b && y in h && x in base.NodeMap() && y in head.NodeMap()
    && (Mentioned(transitions, b[x], h[y]) <==>
        Moved(RelationIn(base, x), RelationIn(head, y)) || Resourced(b[x], h[y]) || Regated(b[x], h[y]))
  }

  ghost predicate TransitionsSay(transitions: seq<Transition>, base: Graph, head: Graph, key: KeyOf)
    reads base, base.nodes, head, head.nodes
    requires base.Valid() && head.Valid()
  {
    && (forall t :: t in transitions ==> TransitionSays(t, base, head, key))
    && (forall x, y :: Compared(DependencyTable(base), DependencyTable(head), key, x, y) ==> PairSaid(transitions, base, head, key, x, y))
  }

  ghost predicate Mentioned(transitions: seq<Transition>, before: Content, after: Content)
  {
    exists t :: t in transitions && t.before == before && t.after == after
  }

  lemma DetailsReport(b: Content, h: Content, rb: map<string, Relationship>, rh: map<string, Relationship>, x: Relationship, y: Relationship)
    requires b.id in rb && rb[b.id] == x && h.id in rh && rh[h.id] == y && x != Unset && y != Unset
    ensures Reported(Details(b, h, rb, rh), x, y)
    ensures Details(b, h, rb, rh).fields != [] <==> Moved(x, y) || Resourced(b, h) || Regated(b, h)
  {
  }

  lemma DerivedIn(g: Graph, rels: map<string, Relationship>, id: string)
    requires g.Valid() && Derived(g, rels) && id in DependencyTable(g)
    ensures id in g.NodeMap() && id in rels && rels[id] == RelationIn(g, id) && RelationIn(g, id) != Unset
    ensures DependencyTable(g)[id].id == id
  {
    g.NodesFiled();
    g.ContentsFiled();
    hide SlotTables.TableOk, SlotTables.ContentsOf, SlotTables.NodesOf, Usable, HasParent, FromRoot;
  }

  lemma DiffSays(d: Diff, base: Graph, head: Graph, rb: map<string, Relationship>, rh: map<string, Relationship>, key: KeyOf)
    requires base.Valid() && head.Valid() && Derived(base, rb) && Derived(head, rh)
    requires IsDiff(d, DependencyTable(base), DependencyTable(head), rb, rh, key)
    ensures TransitionsSay(d.transitions, base, head, key)
  {
    hide *;
    forall t | t in d.transitions ensures TransitionSays(t, base, head, key) {
      OneSays(d, base, head, rb, rh, key, t);
    }
    forall x, y | Compared(DependencyTable(base), DependencyTable(head), key, x, y) ensures PairSaid(d.transitions, base, head, key, x, y) {
      PairSays(d, base, head, rb, rh, key, x, y);
    }
    AllSay(d.transitions, base, head, key);
  }

  lemma AllSay(transitions: seq<Transition>, base: Graph, head: Graph, key: KeyOf)
    requires base.Valid() && head.Valid()
    requires forall t :: t in transitions ==> TransitionSays(t, base, head, key)
    requires forall x, y :: Compared(DependencyTable(base), DependencyTable(head), key, x, y) ==> PairSaid(transitions, base, head, key, x, y)
    ensures TransitionsSay(transitions, base, head, key)
  {
    hide TransitionSays, PairSaid, Compared, DependencyTable;
  }

  lemma OneSays(d: Diff, base: Graph, head: Graph, rb: map<string, Relationship>, rh: map<string, Relationship>, key: KeyOf, t: Transition)
    requires base.Valid() && head.Valid() && Derived(base, rb) && Derived(head, rh)
    requires IsDiff(d, DependencyTable(base), DependencyTable(head), rb, rh, key) && t in d.transitions
    ensures TransitionSays(t, base, head, key)
  {
    hide DependencyTable, RelationIn, Reported, Details, Moved, Resourced, Regated, Increasing, IsLeftover, IsUpdate, Matched, Derived, Compared;
    assert IsTransition(DependencyTable(base), DependencyTable(head), rb, rh, key, t);
    DerivedIn(base, rb, t.before.id);
    DerivedIn(head, rh, t.after.id);
    DetailsReport(t.before, t.after, rb, rh, RelationIn(base, t.before.id), RelationIn(head, t.after.id));
  }

  lemma PairSays(d: Diff, base: Graph, head: Graph, rb: map<string, Relationship>, rh: map<string, Relationship>, key: KeyOf, x: string, y: string)
    requires base.Valid() && head.Valid() && Derived(base, rb) && Derived(head, rh)
    requires IsDiff(d, DependencyTable(base), DependencyTable(head), rb, rh, key)
    requires Compared(DependencyTable(base), DependencyTable(head), key, x, y)
    ensures PairSaid(d.transitions, base, head, key, x, y)
  {
    var b, h := DependencyTable(base), DependencyTable(head);
    if Matched(b, h, key, x, y) {
      MatchedAreRecords(b, h, key, x, y);
    }
    DerivedIn(base, rb, x);
    DerivedIn(head, rh, y);
    hide DependencyTable, RelationIn, Moved, Resourced, Regated, Increasing, IsLeftover, IsUpdate, Matched, Derived, Reported;
    DetailsReport(b[x], h[y], rb, rh, RelationIn(base, x), RelationIn(head, y));
    var t := Details(b[x], h[y], rb, rh);
    SidesOfDetails(b[x], h[y], rb, rh);
    hide Details;
    assert t.fields != [] ==> IsTransition(b, h, rb, rh, key, t);
  }

  lemma SidesOfDetails(b: Content, h: Content, rb: map<string, Relationship>, rh: map<string, Relationship>)
    ensures Details(b, h, rb, rh).before == b && Details(b, h, rb, rh).after == h
  {
  }

  lemma IdentityKey(strip: string -> string, id: string)
    ensures strip(id) != "" ==> DiffIdentityKey(strip)(id) == strip(id)
    ensures strip(id) == "" ==> DiffIdentityKey(strip)(id) == id
  {
  }

  method RelationshipsOf(g: Graph) returns (rels: map<string, Relationship>)
    requires g.Valid()
    ensures Derived(g, rels)
  {
    rels := DependencyRelationshipsForGraph(g);
  }

  /** Only dependency nodes take part: additions, removals, version changes and detail changes. */
  method Compare(base: Graph, head: Graph, strip: string -> string)
    returns (diff: Diff, ghost rb: map<string, Relationship>, ghost rh: map<string, Relationship>)
    requires base.Valid() && head.Valid()
    ensures Derived(base, rb) && Derived(head, rh)
    ensures IsDiff(diff, DependencyTable(base), DependencyTable(head), rb, rh, DiffIdentityKey(strip))
    ensures TransitionsSay(diff.transitions, base, head, DiffIdentityKey(strip))
  {
    hide *;
    var baseExact := IndexDiffableNodes(base);
    var headExact := IndexDiffableNodes(head);
    var baseRelationships := RelationshipsOf(base);
    var headRelationships := RelationshipsOf(head);
    rb, rh := baseRelationships, headRelationships;
    diff := DiffTables(baseExact, headExact, baseRelationships, headRelationships, DiffIdentityKey(strip));
    DiffSays(diff, base, head, rb, rh, DiffIdentityKey(strip));
  }
}
