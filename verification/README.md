# The dependency graph of bomly-sdk, in Dafny

A model of the typed dependency graph at the heart of bomly-sdk, of the algorithms that walk it, of the
merges that decide what is published, and of the component lifetime protocol, with proofs of what they promise.

- **The store** (`Graphs.dfy`, `Nodes.dfy`, `Histories.dfy`). A class over the slot table, free list, ID index and
  two mirrored adjacency tables. Its invariant (`TableOk`) makes the index a bijection onto live slots, the free list
  the dead slots without repeats, incoming the mirror of outgoing kind for kind, with no self-edge, no edge to a dead
  slot and no unstated kind. Every operation is specified by what it does to a plain content table and a plain edge
  map; `Histories.Replay` extends that to every sequence of operations.
- **Algorithms on possibly cyclic graphs.** Scope propagation as a least fixpoint (`ScopePropagation.dfy`), exhaustive
  path enumeration (`Paths.dfy`), Kahn's sort (`Toposort.dfy`), reachability walks (`Walks.dfy`), directness
  (`Directness.dfy`), node replacement and edge copying through a rename (`Promotion.dfy`), the graph diff
  (`Compare.dfy`), the merge of whole graphs (`Containers.dfy`) and the canonical codec (`Codec.dfy`). Each method on
  slots is tied to a definition that speaks of identities and edges only; the theorems are about that definition.
- **The merge algebra.** Locations, document sources, external references and unions share one shape, a fold by key
  followed by a sort (`KeyedFold.dfy`): a homomorphism, idempotent, indifferent to order when the merge commutes, and
  stable under a bound. Documents (`Documents.dfy`) pair such a set with a link tuple. Origins (`Origins.dfy`) are
  ordered lists with supersession; attestations (`Attestations.dfy`) fold only where verification cannot move between
  signers.
- **The lifetime protocol** (`Lifetime.dfy`). Every OnCleanup and Close call is a process with explicit lock steps;
  safety is proved over every interleaving, together with progress and a shrinking measure.
- **Percent-escape canonicalization** (`Escapes.dfy`) on bytes, as a normal form in the sense of RFC 3986.

To verify everything, run `dafny verify dfyconfig.toml` with Dafny 4.11.

## Where the code does not keep a promise everywhere

- An edge kind outside the vocabulary is kept or lost by arrival order. Decoding is independent of the order of the
  payload's lists exactly when the kinds stated between any two identities include a dependency claim or all agree
  (`Payloads.OrderFreeIffSettled`, with `Payloads.UnknownKindsKeepOrder` as the failing input).
- Edge copying goes by slot, but walks each row of edges, a map, in no fixed order. For any rename and target the copy
  is a function of the edges alone exactly when, on each pair absent from the target, a dependency claim lands or all
  kinds landing there agree (`Renaming.ContentDecidesIffKindsSettle`); on one slot table only edges leaving one node
  can race (`Renaming.AlwaysWalkFree`, with `Renaming.UnsettledRow` as the failing input). Both callers keep or drop
  names, which is always within the condition (`Renaming.DistinctNamesAreWalkFree`). Merging several graphs meets the
  same limit between graphs (`Consolidation.ConsolidationIgnoresOrderIff`).
- The comment on the strongest class asks for a total order and promises independence of order for ties; the latter
  holds exactly when the ranking separates stated values (`MergeLaws.StrongestCommutes`). The ranking of edge kinds is
  no total order on its values, so it does not meet the comment's own demand (`MergeLaws.EdgeRankingTies`).
- The comment on the union class says two orders of the same members give the same bytes; they do exactly when no two
  gated members share a key without being equal (`Unions.UnionIgnoresOrderIff`).
- Comments on document merging want it independent of grouping. The link tuple is so exactly under
  `Documents.SettleGroupsIff`, whole documents within the bound exactly under `Documents.DocumentsGroupIff`; failing
  inputs are `Documents.UnversionedLinkRegroups` and `Documents.RefusedDocumentRegroups`.
- A comment says the path reading of directness agrees with the graph-wide one. For a dependency that states nothing,
  the graph and the paths the search returns agree on direct exactly when something points at the node and some root
  leads to it (`SearchedDirectness.AgreeIffRooted`, with `SearchedDirectness.UnrootedDisagrees` as a failing input).

## Model

| member | source | states |
|---|---|---|
| Graphs.Graph.AddNode | model/graph.go:216-234 | Refuses a nil node, an empty ID and a known ID; otherwise the node map and the content table gain exactly that entry and edges stay as they were |
| Graphs.Graph.InsertNode | model/graph.go:250-266 | A known identity folds into the survivor, which is returned; the content table is the plain table with one more record folded in, and no other record changes |
| Graphs.Graph.AddTypedEdge | model/graph.go:691-715 | Self-edges and missing ends fail and change nothing; otherwise one pair is recorded and no other changes: a new pair takes the stated kind, or with none stated describes a module in a manifest and claims a dependency otherwise, and on a pair already there a claim on either side wins |
| Graphs.Graph.AddEdge | model/graph.go:682-684 | The same with no kind stated: a new edge describes exactly when it goes from a manifest to a module, and claims a dependency otherwise |
| Graphs.EdgeRecorded | model/edge.go:83-110 | Deriving and merging kinds records a pair in that way |
| Graphs.Graph.EdgeKindOf | model/graph.go:719-729 | Answers the kind of the edge map, or none when there is no such edge |
| Graphs.Graph.RemoveEdge | model/graph.go:792-807 | Removes exactly one edge from the edge map and says whether it was there |
| Graphs.Graph.RemoveNode | model/graph.go:810-829 | Removes one node and exactly the edges that touch it, and keeps the slot invariant |
| Graphs.Graph.Clone | model/graph.go:180-211 | The copy has the same slot layout, edges and contents, and none of its nodes is shared |
| Graphs.Graph.NextSlot | model/graph.go:1505-1517 | Takes a dead slot off the free list or grows the table by one; the meaning of the table does not change |
| Graphs.Graph.DirectDependencies | model/graph.go:832-838 | Exactly the nodes a node points at, in ID order, or not found |
| Graphs.Graph.Dependents | model/graph.go:841-847 | Exactly the nodes that point at a node, in ID order, or not found |
| Graphs.Graph.DependencyNodes | model/graph.go:644-652 | Exactly the dependency nodes, in ID order |
| Graphs.Graph.SortedIndices | model/graph.go:1486-1495 | Exactly the live slots, in ID order |
| Orders.LessMeans | model/graph.go:1486-1495 | Alphabetical order without recursion: a proper prefix comes first, and otherwise the first difference decides |
| Graphs.Graph.AbsWellFormed | model/graph.go:140-148 | A valid table never holds a self-edge, an edge to a missing node or an unstated kind |
| Graphs.Graph.ArcIsEdge | model/graph.go:140-148 | Both adjacency tables mean the same edges, kind for kind |
| Graphs.Detach | model/graph.go:815-820 | Clearing a slot drops it from exactly the rows that face it |
| SlotTables.FillSlot | model/graph.go:227-233 | A reused slot brings no edge with it: filling it adds one node to the meaning and nothing else |
| SlotTables.PutKeepsEdges | model/graph.go:706-713 | Writing both mirrored entries keeps incoming the mirror of outgoing |
| SlotTables.EmptySlotMeans | model/graph.go:815-828 | Emptying a slot removes from the meaning exactly the edges of its node |
| Histories.Replay | model/graph.go:216-266 | Over every sequence of inserts, folds, edge additions, removals and clones the table is the plain node map and plain edge map |
| Histories.Execute | model/graph.go:180-266 | Each single command does to the table what the plain step does to the two maps |
| Histories.RunsStayEncodable | model/graph.go:140-148 | After any history every edge joins two present nodes, is no self-edge and states a kind |
| Histories.RunsRoundTrip | model/json.go:386-424 | What is encoded after any history decodes to that history's nodes, edges and kinds |
| Nodes.Node.FoldFrom | model/graph.go:289-394 | Folding a witness leaves exactly the folded content, kind by kind, also when a node is folded into itself |
| Nodes.Node.AddScope | model/dependency.go:542-548 | A known, missing scope leaves a sorted list with exactly that member more; any other leaves the list alone |
| Nodes.Node.LocationScopes | model/usage.go:30-45 | The sorted union of the known scopes of every usage site |
| Nodes.FoldKeepsSites | model/graph.go:295-308 | After a fold the node-level scopes cover every scope its sites carry |
| Nodes.FoldEligibility | model/graph.go:494-500 | A fold is registry-eligible exactly when either witness was |
| Nodes.FoldSaysAll | model/graph.go:289-330 | Any number of dependency witnesses fold to the top relationship among them, the canonical form of all their locations, and the union of their scopes and their sites' scopes |
| Nodes.FactsSayAll | model/graph.go:289-394 | In a fold of any number of witnesses of one kind each gap that kind fills holds the first value stated, a match by any dependency stands, every metadata key stands with its first value, and all else is the first witness's |
| Nodes.FirstEligibleStands | model/graph.go:485-500 | Among witnesses of one dependency the first source matched against a registry stands, the first witness's own when none is |
| Nodes.EligibleMeans | model/dependency.go:600-617 | Unstated, registry and plugin sources are matched against a registry, and so is a Swift checkout; no other is |
| Nodes.FoldedRelationshipByName | model/relationship.go:66-88 | Direct beats transitive, transitive beats unknown, and any of them beats none, over any number of witnesses |
| Relationships.RankByName | model/relationship.go:66-88 | Direct ranks over transitive, transitive over unknown, unknown over none |
| Nodes.TablesAlike | model/graph.go:250-266 | Tables merged in any order hold the same identities and kinds and the same about every dependency |
| Nodes.FoldIgnoresOrder | model/graph.go:250-266 | Every permutation of a list of witnesses folds to the same relationship and canonical locations |
| Nodes.ScopesIgnoreOrder | model/graph.go:250-266 | Every permutation of a list of witnesses folds to the same scope set |
| Scopes.MergeScopeIsJoin | model/dependency.go:39-50 | Merging scopes is the join of unknown below development below runtime |
| Scopes.RuntimeOverDevelopment | model/dependency.go:39-50 | Runtime ranks over development, development over unknown |
| Scopes.PrimaryScope | model/dependency.go:522-531 | The strongest scope in the list |
| Scopes.ScopesOf | model/dependency.go:60-73 | The known scopes, each once |
| Scopes.MergeScopeSet | model/graph.go:606-610 | The sorted set of the known scopes of both lists |
| Scopes.CanonicalScopeSet | model/json.go:503-512 | The sorted duplicate-free list of the set, so equal sets encode alike |
| Locations.MergeNodeLocations | model/graph.go:506-521 | Each addition folds into the first record of its usage identity or is appended |
| Locations.FoldLocationAt | model/graph.go:506-521 | One location changes only the first record of its usage, or goes to the end of the list |
| Locations.CanonicalLocations | model/graph.go:523-537 | The canonical list: one record per usage identity, in usage order |
| Locations.CompareUsagesLaws | model/graph.go:538-576 | The usage comparison is antisymmetric, transitive and equal only on equal identities |
| Locations.UsageLessMeans | model/graph.go:540-576 | By real path, access path, module root and position; an absent position first, stated ones by file, line, column and end line |
| Locations.CanonicalIgnoresOrder | model/graph.go:523-537 | Every permutation of the input has the same canonical form |
| Locations.CanonicalIsFixed | model/graph.go:523-537 | Canonicalizing twice changes nothing |
| Locations.CanonicalIsHomomorphic | model/graph.go:506-537 | Canonicalizing a concatenation equals canonicalizing the concatenated canonical forms |
| Locations.CanonicalAbsorbsRepeats | model/graph.go:506-537 | A list merged with itself canonicalizes to itself |
| Locations.CanonicalRecords | model/graph.go:596-610 | Each record carries the union of the known scopes and the highest-ranked relationship of its usage, and every usage has one |
| Locations.CanonicalIncreases | model/graph.go:523-576 | Records strictly increase in exactly that order, so no usage is listed twice |
| Locations.MergedCanonical | model/graph.go:506-521 | Merging in place and canonicalizing afterwards agree with canonicalizing everything at once |
| ScopePropagation.PropagateScopes | detectorkit/nodes.go:197-278 | On every graph, cycles included: a reached dependency ends with runtime exactly when some walk to it starts at a node seeded runtime or unknown, or passes one that carries runtime, and with development otherwise, which is the join over all walks; an unreached one keeps what it says or takes runtime; the root and other kinds are unchanged, and an absent root changes nothing |
| ScopeWalks.WalkRuns | detectorkit/nodes.go:219-232 | What a walk carries, without joins: runtime when it starts at an unknown or runtime seed or passes a node that carries runtime, development otherwise |
| ScopePropagation.Spread | detectorkit/nodes.go:238-271 | The worklist ends because unused scope rank shrinks, with marks that solve every constraint and that some walk attains |
| ScopePropagation.Visit | detectorkit/nodes.go:238-270 | One queue step passes a mark on to every dependency child and shrinks what is left to gain, or pops |
| ScopePropagation.ApplyDefault | detectorkit/nodes.go:273-277 | Only nodes other than the root that carry no scope gain runtime |
| ScopeWalks.ClosedDominates | detectorkit/nodes.go:238-271 | Any solution of the propagation constraints is at or above every walk, so the joins are the least solution |
| ScopeWalks.MarkIsJoin | detectorkit/nodes.go:262-269 | A closed and attained mark is exactly the join over walks |
| ScopeWalks.JoinIsUnique | detectorkit/nodes.go:238-271 | The join is one value, so visiting order cannot matter |
| PathSearch.CollectPathsTo | model/graph.go:872-893 | Returns each simple path from a start to the target once and, flagged cyclic, each simple path through the target whose last node leads back to it; nothing else; sorted by path key |
| PathSearch.CollectFrom | model/graph.go:1379-1408 | The recursion returns exactly the wanted paths that extend the current stack |
| PathSearch.ReverseReachable | model/graph.go:1422-1437 | Exactly the slots from which the target can be reached |
| PathSearch.RelevantRoots | model/graph.go:1439-1454 | Exactly the relevant slots that no relevant slot points at, in ID order |
| PathSearch.SortPaths | model/graph.go:888-892 | A permutation in which no later path key is below an earlier one |
| PathSearch.PathKeyJoins | model/graph.go:1467-1473 | Each ID stands at its own place in the key, a slash between two, and nothing else |
| PathTheory.SpineReaches | model/graph.go:872-893 | Every node on a wanted path reaches the target, so pruning by relevance loses nothing |
| PathTheory.ViaPruned | model/graph.go:1379-1408 | A child that cannot reach the target contributes no wanted path |
| PathTheory.VisitedAll | model/graph.go:1379-1408 | Splitting by the next node covers every wanted path under a prefix |
| PathTheory.VisitedStep | model/graph.go:1379-1408 | Each child adds its own wanted paths, none of which an earlier child had |
| Toposort.TopologicalSort | model/graph.go:898-927 | Emits the order that always takes the smallest ready ID, a function of graph content alone, and reports a cycle exactly when a node is left out |
| Toposort.Emit | model/graph.go:912-921 | Lowering the counters of a node's children leaves every counter at the number of parents still to come |
| KahnTheory.KahnIsGreedy | model/graph.go:898-927 | Each position holds the smallest node whose parents are all emitted before it |
| KahnTheory.KahnDistinct | model/graph.go:898-927 | No node is emitted twice, and only nodes of the graph are |
| KahnTheory.ParentsFirst | model/graph.go:898-927 | Every parent of an emitted node is emitted before it |
| KahnTheory.CompleteIffAcyclic | model/graph.go:923-926 | Every node is emitted if and only if the graph has no cycle |
| KahnTheory.LeftOut | model/graph.go:923-926 | The nodes left out are exactly those reachable from a cycle |
| Payloads.EncodeIsInjective | model/json.go:386-424 | Equal payloads mean equal identities, kinds and edges |
| Payloads.DecodeInvertsEncode | model/json.go:433-498 | Decoding an encoded graph gives every node, edge and kind back, although derivable kinds are not written |
| Payloads.NodesAccepted | model/json.go:452-475 | A node list is accepted exactly when every node mints an identity and no wire ID stands for two, and its names then depend on the set of nodes only |
| Payloads.FirstFailureDecides | model/json.go:452-475 | The first node that cannot be taken decides the error: it mints nothing, or an empty identity, or another identity than an earlier node of the same wire ID |
| Payloads.EdgesAccepted | model/json.go:485-497 | An edge list is accepted exactly when every end resolves; an edge is recorded iff some wire edge lands on it, as a dependency claim if any states one |
| Payloads.DecodeIgnoresOrder | model/json.go:433-498 | For kinds in the vocabulary neither list's order decides acceptance, the identities, the edge map, or a dependency's relationship, known scopes, canonical locations, match or metadata keys |
| Payloads.OrderFreeIffSettled | model/json.go:485-497 | For any kinds all of that is independent of order exactly when the kinds stated between any two identities include a dependency claim or all agree |
| Payloads.UnknownKindsKeepOrder | model/edge.go:100-110 | Two edges of kinds outside the vocabulary in a two-node payload: each order decodes to its own edge map |
| Codec.Marshal | model/json.go:386-424 | The payload is a function of content: nodes in ID order with a dependency's scopes sorted and each once, edges in order of their ends, a kind left out exactly when the ends imply it |
| Payloads.EncodeMeans | model/json.go:386-424 | What is written, list by list and field by field, said of the payload of any content |
| Payloads.NamesMean | model/json.go:452-485 | A stated wire ID stands for what its node mints, and any other name for the identity it is |
| Payloads.WireKindsMean | model/json.go:485-497 | Between two decoded nodes a claim wins and otherwise the first wire edge decides; an edge with no kind describes a module in a manifest and claims a dependency otherwise |
| Codec.Unmarshal | model/json.go:433-498 | The receiver becomes exactly the decoded graph, empty for null, or an error is returned and it is untouched |
| Codec.DecodeInto | model/json.go:449-497 | Nodes, then names, then edges build exactly the decoded payload, or the first error is reported |
| Codec.InsertMinted | model/json.go:453-459 | A minted node joins the graph or folds into the node of its identity |
| Codec.DecodeEdgeList | model/json.go:485-497 | The edges built are the decoded edge map, or the first unresolved end is reported |
| Codec.FillAliases | model/json.go:481-485 | A node answers to its own identity unless a wire ID claims that name |
| Renaming.WalkFreeIffRowsSettle | model/graph.go:740-789 | For any rename, target edges and slot layout: every walk in slot order builds the same edge map exactly when, on each pair absent from the target, a dependency claim lands or the edges of the lowest row landing there agree |
| Renaming.ContentDecidesIffKindsSettle | model/graph.go:740-789 | For any rename and target: over all slot tables and all walks of them the copy is one edge map exactly when, on each pair absent from the target, a dependency claim lands or all kinds landing there agree |
| Renaming.AlwaysWalkFree | model/graph.go:740-789 | On any one slot table, each node in a slot of its own, every walk builds the same edge map exactly when that holds of the edges leaving one node |
| Renaming.DistinctNamesAreWalkFree | model/scope_filter.go:170-180 | A rename that keeps or drops names and joins none never depends on the walk |
| Renaming.RenamedIffSettled | model/graph.go:769-789 | Copying into an edgeless target through a one-node rename builds the renamed map on every slot-ordered walk exactly when, at each collision, the two kinds agree, one claims a dependency, or the edge that stays put is in the lower slot |
| Renaming.RenamedIsCopied | model/graph.go:769-789 | Under that condition any walk order builds the renamed map |
| Renaming.CopyMeaning | model/graph.go:769-789 | For any rename and target: a pair is present iff it was or some edge maps onto it; it keeps its kind unless a dependency claim arrives, and otherwise carries a claim if any, or the first kind to land |
| Renaming.UnsettledRow | model/graph.go:769-789 | A concrete two-edge graph, in any slot layout, whose two walks of one row build different maps |
| Renaming.OthersUnchanged | detectorkit/nodes.go:104-128 | Edges that touch neither the old nor the surviving node keep their kinds |
| Renaming.RenamedMeans | detectorkit/nodes.go:104-128 | Every edge lands where its ends are sent, one that collapses is gone, and where several land a claim wins, or else the edge already there, or else the one that arrives |
| Renaming.MoveOne | detectorkit/nodes.go:117-126 | Re-pointing one edge merges it where it lands and drops it when it collapses |
| Promotion.PromoteToModule | detectorkit/nodes.go:61-128 | A manifest, and a module its manifest already declares, stay; a dependency or other module gives way to the module its coordinates mint, with its sites and metadata, and every edge is renamed to the survivor with its recorded kind |
| Promotion.PromotionKeepsEvidence | detectorkit/nodes.go:97-102 | No site and no metadata key of the replaced node is lost, also when the module folds into one already there |
| Promotion.Replace | detectorkit/nodes.go:104-128 | After removal, insertion and re-adding the edge map is the renamed one |
| Promotion.IncidentEdges | detectorkit/nodes.go:139-154 | Exactly the neighbours of one direction in ID order, each with its recorded kind |
| Promotion.ReattachAll | detectorkit/nodes.go:117-126 | The edges of one direction all move, merging or collapsing as the rename says |
| Promotion.CopyEdgesInto | model/graph.go:740-789 | Copies every edge once through the rename, rows in slot order, or fails exactly when a kept edge has an end missing from the target, and then has copied exactly the edges walked before that edge |
| Containers.MergeGraph | model/container.go:142-159 | Never fails: records of one identity fold, kinds of one edge merge, and everything else of either graph stays, whatever the slots |
| Containers.InsertAll | model/container.go:146-153 | Every node of the source is inserted as a copy, also when the two graphs share nodes |
| Containers.ConsolidatedGraph | model/container.go:121-139 | No entry gives no graph, one entry its own, several a new graph of all entries merged in turn |
| Containers.EntriesAreStated | model/container.go:121-139 | Every container meets the condition of the order law on stated kinds |
| Consolidation.ConsolidationIgnoresOrderIff | model/container.go:121-159 | In whatever order graphs are merged, identities, kinds, and each dependency's relationship, known scopes, canonical locations, match and metadata keys are the same; with the edges they are so exactly when on each edge some graph claims a dependency or all agree |
| Consolidation.MergedEdge | model/container.go:121-159 | Any number of graphs merged: an edge is there iff some graph has it, a claim by any graph wins, and otherwise the first kind stated stands |
| Consolidation.CopiedUnchanged | model/container.go:157-158 | Copying without a rename merges the two edge maps on every walk |
| WalkTheory.ExploredAll | graphview/graphview.go:57-92 | When every visited node is finished, the children found are exactly the linked present nodes |
| WalkTheory.DescendedAll | detectorkit/subgraph.go:26-57 | When every visited node is finished, the visited nodes are exactly those below the root |
| WalkTheory.BelowIsClosed | detectorkit/subgraph.go:44-54 | An edge that starts below the root ends there, so no edge between kept nodes is lost |
| Walks.ChildrenAmong | graphview/graphview.go:57-92 | Without duplicates, exactly the present IDs reached by a nonempty path whose interior nodes are all absent, depth first with children by ID; ends on structural cycles |
| WalkTheory.SmallerChildrenFirst | graphview/graphview.go:40-92 | For every ID, what is found through the children that come before it is found first, as child order by ID asks |
| WalkTheory.DepthFirstFinds | graphview/graphview.go:57-92 | The depth-first order lists exactly the linked present nodes |
| Walks.WalkChildren | graphview/graphview.go:66-89 | Each call leaves the node and everything it newly visited finished, in the order of the depth-first walk |
| Walks.SubgraphFrom | detectorkit/subgraph.go:16-63 | A new graph over the same nodes: exactly those reachable from the root and every edge between them with its kind |
| Walks.WalkSubgraph | detectorkit/subgraph.go:26-57 | Each call copies the newly visited nodes and all their outgoing edges |
| DirectnessTheory.GraphAgreesWithPaths | model/graph.go:1179-1245 | For a dependency that states nothing and has a parent, the graph says direct iff some root-to-it path does, and transitive otherwise |
| DirectnessTheory.GraphDirectnessMeans | model/graph.go:1179-1245 | What is stated stands; a node nothing points at is unrecovered, as is every node where each is pointed at; any other is direct exactly when a path from a node nothing points at leads to it with no dependency between, and transitive otherwise |
| DirectnessTheory.PartWaysAtRoots | model/relationship.go:34-53 | For a path that starts at a root: the graph leaves the node unrecovered exactly when the path is that root alone, which the path reading calls direct |
| SearchedDirectness.AgreeIffRooted | model/relationship.go:34-53 | For a dependency that states nothing, the graph-wide reading and the paths the search returns agree on direct exactly when something points at the node and some root leads to it, cyclic paths counted or not |
| SearchedDirectness.UnrootedDisagrees | model/graph.go:872-893 | A concrete graph whose target no root leads to: the search returns a direct path, the graph says transitive |
| SearchedDirectness.CyclicAddsNothing | model/relationship.go:34-53 | Paths that run back into the target make no node direct that the other paths do not |
| DirectnessTheory.OwnedAll | model/graph.go:1199-1221 | When every owner is expanded, the marked nodes are exactly those a root leads to with no dependency between |
| Directness.DependencyRelationshipsForGraph | model/graph.go:1179-1245 | One relationship per dependency: the stated one, or direct, transitive or unrecovered as the graph's roots and edges imply |
| Directness.RelationshipForPath | model/relationship.go:34-53 | The stated relationship, or direct iff no dependency lies strictly between the ends |
| Directness.RunWorklist | model/graph.go:1199-1221 | The slots marked are exactly those a root leads to with no dependency between |
| Directness.RootSlots | model/graph.go:850-858 | Exactly the nodes nothing points at, in ID order |
| DiffTheory.Partition | model/graph.go:1049-1099 | A base record is in head by ID, or has exactly one partner, or is left over, and only one of these; used for either side |
| DiffTheory.MatchedByCount | model/graph.go:1084-1093 | Two unshared records of one identity are partners exactly when as many of their own side come before each, by version and then ID |
| DiffTheory.LeftoverByCount | model/graph.go:1094-1099 | A record is left over exactly when at least as many of its own side come before it as the other side has |
| DiffTheory.PublishedOrder | model/graph.go:1101-1119 | Records come by version and ID, pairs by identity, both versions and the ID before, transitions by the ID after as well |
| Compare.IdentityKey | model/graph.go:1280-1292 | Records are grouped by the package URL without its version, or by ID when none can be read |
| DiffTheory.Antisymmetric | model/graph.go:1038-1119 | Comparing the other way round swaps added with removed and reverses every pair and transition |
| DiffTheory.SelfDiffIsEmpty | model/graph.go:1038-1119 | A table does not differ from itself |
| DiffTheory.OneSidedLeftovers | model/graph.go:1084-1099 | An identity never has a removal and an addition at once |
| DiffTheory.DetailsReverse | model/graph.go:1134-1167 | Swapping the two records reverses a transition and keeps its changed fields |
| Compare.Compare | model/graph.go:1038-1119 | Exactly the leftovers, partners and detail changes of the two dependency tables, each list in its published order; two compared records make a transition exactly when their graph-derived relationships, stated sources or comparable eligibility differ, with exactly those fields and both derived relationships |
| Compare.DetailsReport | model/graph.go:1134-1167 | A transition carries both relationships and eligibilities and names exactly the reasons that hold: two recovered relationships that differ, two stated sources that differ, or differing eligibility on comparable sources |
| Compare.DiffTables | model/graph.go:1038-1119 | The same for two dependency tables |
| Compare.PairUp | model/graph.go:1084-1093 | Partners are paired rank by rank, and a transition is recorded for exactly the pairs that changed |
| Compare.GroupNodesByIdentity | model/graph.go:1294-1301 | Every record in exactly the group of its identity |
| Compare.SplitExact | model/graph.go:1046-1056 | Records shared by ID give a transition exactly when they changed; the rest remain |
| Compare.SortedIsGroup | model/graph.go:1303-1310 | Sorting a group by version and ID gives the one list the pairing goes by |
| Lifetime.RunsAreSafe | plugin/module.go:71-163 | Every interleaving of OnCleanup and Close calls keeps the lifetime invariant |
| Lifetime.CancelledFirstAndOnce | plugin/module.go:125-137 | No cleanup starts before the context is cancelled, and none starts or finishes twice |
| Lifetime.ReverseOrder | plugin/module.go:139-145 | Cleanups registered before closing start in reverse order, failures and panics notwithstanding |
| Lifetime.ClosesAgree | plugin/module.go:125-152 | No Close returns before every registered cleanup has finished, and all return the same joined error |
| Lifetime.CloseReportsFailures | plugin/module.go:139-163 | The error of every Close names exactly the registered cleanups that failed or panicked, each once with how it ended, the last registered first, and is empty exactly when all of them succeeded |
| Lifetime.LastRegisteredStartsFirst | plugin/module.go:139-145 | Of two registered cleanups the later registered starts first in every run |
| Lifetime.ExactlyOnce | plugin/module.go:98-152 | Once all calls have returned and one was a Close, every cleanup, late ones included, has run exactly once |
| Lifetime.NeverStuck | plugin/module.go:105-152 | While a call has not returned, some call can take a step |
| Lifetime.WorkShrinks | plugin/module.go:105-152 | Every step of a call uses up work, so a run without new calls ends |
| EscapeTheory.CanonicalIsNormal | model/origin.go:405-438 | On well-formed escapes the output is well-formed, in normal form, and stands for the same bytes |
| EscapeTheory.EscapeStandsForByte | model/origin.go:441-457 | The digits of a byte, high one first, each in either case of the sixteen listed, stand for that byte |
| EscapeTheory.DigitsAreListed | model/origin.go:441-457 | The hex digits are the sixteen of either case, and no other byte is one |
| EscapeTheory.EscapedAllDecodes | model/origin.go:405-438 | Any byte string escaped byte for byte decodes to itself and is rewritten to its one spelling: unreserved bytes plain, the rest in upper-case escapes |
| EscapeTheory.UnreservedIsListed | model/origin.go:459-470 | Unreserved are exactly the letters, digits and marks section 2.3 of RFC 3986 lists |
| EscapeTheory.WellFormedEverywhere | model/external_reference.go:622-633 | Well-formed means that two hex digits follow every percent sign |
| EscapeTheory.CanonicalIsFixed | model/origin.go:405-438 | A rewritten well-formed path is a fixed point |
| EscapeTheory.SameSpellingIffEquivalent | model/origin.go:405-438 | Two well-formed paths get one spelling iff they differ only by escaping of unreserved bytes and hex case, as sections 6.2.2.1 and 6.2.2.2 of RFC 3986 describe |
| EscapeTheory.NormalIsFixed | model/origin.go:405-438 | A path already in normal form is left as it is |
| EscapeTheory.FixedIffNoLateEscape | model/origin.go:418-436 | On any byte string: rewriting twice equals rewriting once exactly when no percent sign that starts no escape stands before two units that become the digits of an escape the rewriting would change |
| EscapeTheory.WellFormedHasNoLateEscape | model/origin.go:413-438 | Every path with well-formed escapes meets that condition |
| Escapes.CanonicalEscapes | model/origin.go:413-438 | The byte loop computes the rewriting, on any path |
| Escapes.Unhex | model/origin.go:441-457 | Succeeds iff both digits are hexadecimal; for the listed digits of any byte, in either case, the result is that byte |
| Escapes.HasValidPercentEscapes | model/external_reference.go:622-633 | Accepts exactly the well-formed escapes |
| OriginTheory.GroupingDoesNotMatter | model/origin.go:581-612 | However the lists are grouped the same origins come out in the same order, so the primary one is the same |
| OriginTheory.MergeAssociates | model/origin.go:581-612 | Merging is associative as an ordered list |
| OriginTheory.MergeIsIdempotent | model/origin.go:581-612 | Merging a list into itself, or again, changes nothing |
| OriginTheory.NothingElseIsLost | model/origin.go:614-656 | The result is exactly the gated origins nothing supersedes; no superseded one survives, and no place is lost |
| OriginTheory.PublishedMeans | model/origin.go:581-656 | Exactly the origins some entry passes as and no pinned one of the same repository and artifact refines, each once, in the order they first arrived |
| OriginTheory.KeysAreFaithful | model/origin.go:589-593 | NUL-joined keys agree exactly when the origins, or the places, do |
| Origins.MergeOrigins | model/origin.go:581-612 | The published list of the concatenation: first occurrences less the superseded |
| Origins.DropSupersededOrigins | model/origin.go:632-656 | Filters in place to exactly the entries no pinned entry supersedes, in order |
| Sources.FoldDocumentSources | model/document.go:235-261 | One record per identity and version, sorted, gaps filled |
| Sources.MergeSources | model/document.go:708-729 | At most 256 sources in increasing order of identity and version, none of them the document itself, each with its first stated checksum; one left out is the document or comes after all of a full list |
| Documents.MergeDocuments | model/document.go:694-729 | A tuple without identity yields to one that has one, two documents keep the first tuple, one document or none takes the first version and checksum stated; the sources merge as above |
| Documents.SettleGroupsIff | model/document.go:660-700 | Three link tuples merge alike in either grouping exactly when the first gains nothing past an identified one it refuses, and nothing from an unversioned one that the third claims for another version |
| Documents.UnversionedLinkRegroups | model/document.go:287-294 | Version 2, no version with a checksum, version 3: the checksum goes to version 2 in one grouping and is lost in the other |
| Documents.DocumentsGroupIff | model/document.go:655-731 | Within the bound, whole documents merge alike in either grouping exactly when their tuples do and every source the last two drop as their own, and the final document does not, is listed with the same checksum by the first |
| Documents.RefusedDocumentRegroups | model/document.go:279-285 | A concrete source kept in one grouping and dropped in the other, as the own of a document the first one refuses |
| Documents.DocumentsGroupAnyhow | model/document.go:708-729 | With any number of sources, documents whose tuples group, and whose every merge drops the sources the last one drops, merge alike in either grouping to one bounded fold of everything kept |
| Documents.MergedIsGated | model/document.go:263-285 | A merge of gated documents is gated: no source names the document, the list is folded and bounded, the version agrees with the identity |
| Documents.MergedWithItself | model/document.go:655-731 | A gated document merged with itself does not change |
| Sources.GroupingDoesNotMatter | model/document.go:708-729 | Bounding at every step equals bounding the whole concatenation once |
| Sources.NoSelfToDrop | model/document.go:279-285 | Without self-sources the drop is the identity |
| Sources.KeysIgnoreOrder | model/document.go:708-729 | Which documents survive does not depend on operand order |
| Sources.FirstChecksumStands | model/document.go:243-247 | Each surviving key keeps its first stated checksum |
| KeyedFold.CutCanonConcat | model/document.go:718-729 | Sort, fold and cut commute with concatenation for any associative merge |
| KeyedFold.FoldPermuted | model/graph.go:523-537 | A fold by key with an associative, commutative merge ignores arrival order |
| ReferenceTheory.MergeAssociates | model/external_reference.go:1015-1049 | Merging reference sets is associative |
| ReferenceTheory.MergedTwice | model/external_reference.go:1015-1049 | Merging is idempotent, on the published set and on its witnesses |
| ReferenceTheory.MergedIgnoresOrder | model/external_reference.go:1015-1049 | The result does not depend on the order witnesses arrive in |
| ReferenceTheory.RecordsSayAll | model/external_reference.go:1008-1049 | One record per key in strictly increasing key order, with the sorted union of its witnesses' hashes and the smallest nonempty comment |
| ReferenceTheory.MergedMeans | model/external_reference.go:1015-1049 | The same said of the witnesses themselves: keys ascend by category, type and locator, each record holds exactly the gated digests its witnesses state, by algorithm, subject and value, and the smallest gated comment |
| ReferenceTheory.ReconcileLaws | model/external_reference.go:951-970 | Reconciling comments is commutative, associative and idempotent |
| ReferenceTheory.KeyStringIsFaithful | model/external_reference.go:1004-1006 | Key strings agree exactly when category, type and locator do |
| References.MergeExternalReferences | model/external_reference.go:1015-1049 | Computes that set from two witness lists |
| References.MergeDigestSet | model/graph.go:435-468 | The sorted duplicate-free union of the gated digests |
| References.Normalized | model/external_reference.go:287-333 | A reference passes its gates as the record it starts, or is refused |
| AttestationTheory.MergedIsFaithful | model/attestation.go:41-60 | From an empty list, no two records describe one statement and the records are exactly those the inputs determine |
| AttestationTheory.VerificationNeverMoves | model/attestation.go:62-105 | A statement and issuer are verified in the result iff some input verified that very pair |
| AttestationTheory.RecordsMean | model/attestation.go:41-125 | Field by field: a verified record for each issuer some input verified the statement with, an unverified one for each issuer only unverified inputs name, and a bare one where nothing more is said |
| AttestationTheory.OrderDoesNotMatter | model/attestation.go:41-60 | The record set does not depend on arrival order |
| AttestationTheory.MergedInBatches | model/attestation.go:41-60 | Merging in batches is merging the concatenation |
| Packages.Package.MergeAttestations | model/attestation.go:41-60 | Every candidate folds into the first record it can, or becomes a record of its own |
| MergeLaws.StrongestCommutes | model/merge.go:96-116 | The strongest class agrees in either order exactly when the ranking tells stated values apart |
| MergeLaws.StrongestMeans | model/merge.go:96-116 | A stated value beats none, the higher-ranked of two stands, the current one on a tie |
| MergeLaws.FillGapMeans | model/merge.go:36-59 | The current value when it can be published, or else the next when that can, or else none |
| MergeLaws.EdgeRankingTies | model/edge.go:100-110 | Two edge kinds outside the dependency claim tie, and each order keeps its own first one |
| MergeLaws.StrongestAssociates | model/merge.go:96-116 | The strongest class is associative for any ranking |
| MergeLaws.FillGapAssociates | model/merge.go:36-59 | The gated fill-gap class is associative |
| Unions.MergeUnion | model/merge.go:71-94 | Gated, one member per key, the first to arrive, in key order |
| Unions.UnionMeans | model/merge.go:71-94 | Exactly the first gated member of each key, in strictly increasing key order |
| Unions.UnionConcat | model/merge.go:61-94 | Grouping of unions does not matter |
| Unions.UnionTwice | model/merge.go:61-94 | The union class is idempotent |
| Unions.UnionIgnoresOrderIff | model/merge.go:69-94 | Every permutation of the members gives the same list exactly when no two gated members share a key without being equal |

## Left out

- Gates that rest on libraries (URL and package-URL parsing, digests, reference vocabularies, node constructors) are
  function parameters, idempotent where the code needs it; a node identity is a string the constructor gate mints.
- Nodes carry no origins, licenses, assertions or source scope, and a metadata value is a string; deep copies of what a node holds are values.
- Nodes.Node.FoldFrom: folds every field but origins, licenses, assertions and the source scope, whose gates rest on libraries;
  the merges of origins and external references are modelled on their own.
- Scopes are unknown, development and runtime; relationships are unset, direct, transitive and unknown. Other spellings
  of these two vocabularies are not modelled; edge kinds outside theirs are.
- JSON tokens, byte and count bounds and the per-field node codec: the payload is a value, and the round trip requires
  that a node's own codec keeps its ID and kind.
- Nil receivers and nil list members are excluded by non-null types, except a nil node given to AddNode or InsertNode.
- `sort` and `container/heap` are replaced by insertion and smallest-element methods proved to do the same.
- Go map iteration is a choice of any remaining key, so every result holds for every iteration order.
- ScopePropagation.PropagateScopes: the seed is a function of the node ID, evaluated on the node as it was before the pass.
- PathSearch.CollectPathsTo: paths whose slash-joined keys coincide may stand in either order.
- Documents.MergeDocuments: takes both documents as already gated; names, licenses, creators, tools and other scalars of a
  document merge by the fill-gap and union classes, which are modelled on their own.
- Documents.DocumentsGroupIff: speaks of documents whose sources together stay within the bound; past it only
  Documents.DocumentsGroupAnyhow holds.
- Compare.Compare: a diff holds the contents of nodes rather than pointers to them; the version-stripping function is a parameter.
- Promotion.CopyEdgesInto: the target and the source are two graphs; copying a graph into itself is not modelled.
- Containers.MergeGraph: the target and the source are two graphs; they may share nodes.
- Lifetime.RunsAreSafe: every cleanup returns or panics; one that itself waits for Close is not modelled, nor is a nil cleanup.
- Slices and maps held by the graph are values that methods reassign; only origins are filtered in place on an array.
- Graph.Install, Graph.Place and Graph.FoldInto are parts of the mutators above, split off to keep proofs short.
- HTTP, caches, logging, configuration, conformance suites and the SBOM format codecs.
