/** The transport payload of a graph, what it decodes to, and the laws of model/json.go on values. */
module Payloads {
  import KeyedFold
  import opened Orders
  import opened MergeClasses
  import opened Scopes
  import opened EdgeKinds
  import opened Nodes
  import opened Views

  /** `id` is the identity the sender used; the node behind it is minted again on decode. */
  datatype WireNode = WireNode(id: string, content: Content)
  datatype WireEdge = WireEdge(from: string, to: string, kind: EdgeKind)
  datatype Payload = Payload(nodes: seq<WireNode>, edges: seq<WireEdge>)

  /** The constructor gates of a node: none when the wire node mints no valid identity. */
  type Gate = WireNode -> Option<Content>

  datatype DecodeError = BadNode | EmptyIdentity | WireIdConflict | UnknownEndpoint
  datatype Decode<+T> = Good(value: T) | Bad(error: DecodeError)

  predicate PairLess(a: (string, string), b: (string, string))
  {
    Less(a.0, b.0) || (a.0 == b.0 && Less(a.1, b.1))
  }

  lemma PairOrder()
    ensures StrictTotalOrder(PairLess)
  {
    LessIsStrictTotal();
  }

  // ----- Encoding

  ghost function EncodeNode(c: Content): WireNode
  {
    WireNode(c.id, if c.kind == DependencyKind then c.(scopes := ScopeList(set s | s in c.scopes)) else c)
  }

  function KindAt(contents: map<string, Content>, id: string): NodeKind
  {
    if id in contents then contents[id].kind else ManifestKind
  }

  /** A kind the nodes already imply is not written. */
  function EncodeEdge(contents: map<string, Content>, from: string, to: string, kind: EdgeKind): WireEdge
  {
    WireEdge(from, to, if kind == DeriveEdgeKind(KindAt(contents, from), KindAt(contents, to)) then Unstated else kind)
  }

  ghost function EncodedNodes(contents: map<string, Content>, order: seq<string>): seq<WireNode>
    requires forall id :: id in order ==> id in contents
  {
    seq(|order|, i requires 0 <= i < |order| => EncodeNode(contents[order[i]]))
  }

  function KindOn(edges: EdgeMap, e: (string, string)): EdgeKind
  {
    if e in edges then edges[e] else Unstated
  }

  ghost function EncodedEdges(contents: map<string, Content>, edges: EdgeMap, order: seq<(string, string)>): seq<WireEdge>
  {
    seq(|order|, i requires 0 <= i < |order| => EncodeEdge(contents, order[i].0, order[i].1, KindOn(edges, order[i])))
  }

  /** Nodes in ID order, edges in (from, to) order: a function of content alone. */
  ghost function Encode(contents: map<string, Content>, edges: EdgeMap): Payload
  {
    LessIsStrictTotal();
    PairOrder();
    var ids, pairs := SortedSeq(Less, contents.Keys), SortedSeq(PairLess, edges.Keys);
    assert forall id :: id in ids ==> id in Elems(ids);
    Payload(EncodedNodes(contents, ids), EncodedEdges(contents, edges, pairs))
  }

  // ----- Decoding

  /** The nodes minted so far, and the identity each stated wire ID stands for. */
  datatype Roster = Roster(contents: map<string, Content>, names: map<string, string>)

  /** A stated wire ID stands for what its node minted; a second meaning is refused. */
  function Claim(names: map<string, string>, wireId: string, id: string): Decode<map<string, string>>
  {
    if wireId == "" then Good(names)
    else if wireId in names && names[wireId] != id then Bad(WireIdConflict)
    else Good(names[wireId := id])
  }

  ghost function DecodeNode(gate: Gate, d: Roster, w: WireNode): Decode<Roster>
  {
    if gate(w).None? then Bad(BadNode)
    else
      var c := gate(w).value;
      if c.id == "" then Bad(EmptyIdentity)
      else
        match Claim(d.names, w.id, c.id)
        case Bad(error) => Bad(error)
        case Good(names) => Good(Roster(Folded(d.contents, c), names))
  }

  ghost function DecodeNodes(gate: Gate, nodes: seq<WireNode>): Decode<Roster>
  {
    if nodes == [] then Good(Roster(map[], map[]))
    else
      match DecodeNodes(gate, nodes[..|nodes| - 1])
      case Bad(error) => Bad(error)
      case Good(d) => DecodeNode(gate, d, nodes[|nodes| - 1])
  }

  /** A node also answers to its own identity, unless a wire ID already claims that name. */
  ghost function AllNames(d: Roster): map<string, string>
  {
    map x | x in d.names.Keys + d.contents.Keys :: if x in d.names then d.names[x] else x
  }

  ghost function Effective(contents: map<string, Content>, e: WireEdge, a: string, b: string): EdgeKind
  {
    if e.kind == Unstated then DeriveEdgeKind(KindAt(contents, a), KindAt(contents, b)) else e.kind
  }

  ghost function DecodeEdge(contents: map<string, Content>, names: map<string, string>, edges: EdgeMap, e: WireEdge): Decode<EdgeMap>
  {
    if e.from !in names || e.to !in names then Bad(UnknownEndpoint)
    else
      var a, b := names[e.from], names[e.to];
      Good(if a == b then edges else WithEdge(edges, a, b, Effective(contents, e, a, b)))
  }

  ghost function DecodeEdges(contents: map<string, Content>, names: map<string, string>, edges: seq<WireEdge>): Decode<EdgeMap>
  {
    if edges == [] then Good(map[])
    else
      match DecodeEdges(contents, names, edges[..|edges| - 1])
      case Bad(error) => Bad(error)
      case Good(m) => DecodeEdge(contents, names, m, edges[|edges| - 1])
  }

  ghost function DecodePayload(gate: Gate, p: Payload): Decode<(map<string, Content>, EdgeMap)>
  {
    match DecodeNodes(gate, p.nodes)
    case Bad(error) => Bad(error)
    case Good(d) =>
      match DecodeEdges(d.contents, AllNames(d), p.edges)
      case Bad(error) => Bad(error)
      case Good(m) => Good((d.contents, m))
  }

  /** The literal null is an empty graph. */
  datatype Document = NullDocument | GraphDocument(payload: Payload)

  ghost function DecodeDocument(gate: Gate, doc: Document): Decode<(map<string, Content>, EdgeMap)>
  {
    match doc
    case NullDocument => Good((map[], map[]))
    case GraphDocument(p) => DecodePayload(gate, p)
  }

  // ----- What an accepted node list means

  /** The identity a wire node mints; empty when it mints none. */
  ghost function IdOf(gate: Gate, w: WireNode): string
  {
    if gate(w).Some? then gate(w).value.id else ""
  }

  ghost function KindOf(gate: Gate, w: WireNode): NodeKind
  {
    if gate(w).Some? then gate(w).value.kind else ManifestKind
  }

  /** Every node mints an identity, and one wire ID never stands for two of them. */
  ghost predicate Acceptable(gate: Gate, nodes: seq<WireNode>)
  {
    && (forall w :: w in nodes ==> IdOf(gate, w) != "")
    && (forall w, x :: w in nodes && x in nodes && w.id == x.id && w.id != "" ==> IdOf(gate, w) == IdOf(gate, x))
  }

  /** Identities of different kinds never meet. */
  ghost predicate KindsDisjoint(gate: Gate)
  {
    forall w, x :: IdOf(gate, w) != "" && IdOf(gate, w) == IdOf(gate, x) ==> KindOf(gate, w) == KindOf(gate, x)
  }

  ghost predicate MintedBy(gate: Gate, nodes: seq<WireNode>, id: string)
  {
    exists w :: w in nodes && IdOf(gate, w) == id
  }

  ghost predicate StatedBy(nodes: seq<WireNode>, x: string)
  {
    x != "" && exists w :: w in nodes && w.id == x
  }

  /** The roster holds the minted identities, and resolves each stated wire ID to what its node minted. */
  ghost predicate Names(gate: Gate, nodes: seq<WireNode>, d: Roster)
  {
    && (forall id :: id in d.contents <==> MintedBy(gate, nodes, id))
    && (forall x :: x in d.names <==> StatedBy(nodes, x))
    && (forall w :: w in nodes && w.id in d.names ==> d.names[w.id] == IdOf(gate, w))
    && (KindsDisjoint(gate) ==> forall w :: w in nodes ==> KindAt(d.contents, IdOf(gate, w)) == KindOf(gate, w))
  }

  lemma {:induction false} NodesAccepted(gate: Gate, nodes: seq<WireNode>)
    ensures DecodeNodes(gate, nodes).Good? <==> Acceptable(gate, nodes)
    ensures DecodeNodes(gate, nodes).Good? ==> Names(gate, nodes, DecodeNodes(gate, nodes).value)
    decreases |nodes|
  {
    if nodes != [] {
      var front, last := nodes[..|nodes| - 1], nodes[|nodes| - 1];
      assert nodes == front + [last];
      NodesAccepted(gate, front);
      if Acceptable(gate, nodes) {
        assert Acceptable(gate, front);
      }
      if DecodeNodes(gate, front).Good? {
        OneMore(gate, front, last, DecodeNodes(gate, front).value);
        if Acceptable(gate, nodes) {
          NamesGrow(gate, front, last, DecodeNodes(gate, front).value);
        }
      }
    }
  }

  /** What a wire ID already stands for decides whether one more node using it is accepted. */
  lemma Claimed(gate: Gate, front: seq<WireNode>, d: Roster, x: string)
    requires Names(gate, front, d)
    ensures x in d.names ==> exists w :: w in front && w.id == x && x != "" && IdOf(gate, w) == d.names[x]
    ensures forall w :: w in front && w.id == x && x != "" ==> x in d.names && IdOf(gate, w) == d.names[x]
  {
    hide KindsDisjoint;
    if x in d.names {
      assert StatedBy(front, x);
      var w :| w in front && w.id == x;
    }
    forall w | w in front && w.id == x && x != "" ensures x in d.names && IdOf(gate, w) == d.names[x] {
      assert StatedBy(front, x);
    }
  }

  lemma OneMore(gate: Gate, front: seq<WireNode>, last: WireNode, d: Roster)
    requires Acceptable(gate, front) && Names(gate, front, d)
    ensures DecodeNode(gate, d, last).Good? <==> Acceptable(gate, front + [last])
  {
    hide Names;
    Claimed(gate, front, d, last.id);
    var nodes := front + [last];
    assert last in nodes && forall w :: w in nodes <==> w in front || w == last;
  }

  lemma NamesGrow(gate: Gate, front: seq<WireNode>, last: WireNode, d: Roster)
    requires Acceptable(gate, front + [last]) && Names(gate, front, d) && DecodeNode(gate, d, last).Good?
    ensures Names(gate, front + [last], DecodeNode(gate, d, last).value)
  {
    hide FoldContent;
    hide StatedBy;
    hide MintedBy;
    MembersGrow(gate, front, last);
    if KindsDisjoint(gate) {
      KindsGrow(gate, front, last, d);
    }
    NamesResolve(gate, front, last, d);
  }

  lemma NamesResolve(gate: Gate, front: seq<WireNode>, last: WireNode, d: Roster)
    requires Acceptable(gate, front + [last]) && Names(gate, front, d) && DecodeNode(gate, d, last).Good?
    ensures var names := DecodeNode(gate, d, last).value.names;
            forall w :: w in front + [last] && w.id in names ==> names[w.id] == IdOf(gate, w)
  {
    hide FoldContent;
    var names := DecodeNode(gate, d, last).value.names;
    forall w | w in front + [last] && w.id in names ensures names[w.id] == IdOf(gate, w) {
      assert last in front + [last];
      assert w in front || w == last;
    }
  }

  lemma MembersGrow(gate: Gate, front: seq<WireNode>, last: WireNode)
    ensures forall w :: w in front + [last] <==> w in front || w == last
    ensures forall id :: MintedBy(gate, front + [last], id) <==> MintedBy(gate, front, id) || id == IdOf(gate, last)
    ensures forall x :: StatedBy(front + [last], x) <==> StatedBy(front, x) || (x != "" && x == last.id)
  {
    var nodes := front + [last];
    assert forall w :: w in nodes <==> w in front || w == last;
    forall id ensures MintedBy(gate, nodes, id) <==> MintedBy(gate, front, id) || id == IdOf(gate, last) {
      assert last in nodes;
    }
    forall x ensures StatedBy(nodes, x) <==> StatedBy(front, x) || (x != "" && x == last.id) {
      assert last in nodes;
    }
  }

  lemma KindsGrow(gate: Gate, front: seq<WireNode>, last: WireNode, d: Roster)
    requires KindsDisjoint(gate) && Names(gate, front, d) && IdOf(gate, last) != ""
    ensures forall w :: w in front + [last] ==> KindAt(Folded(d.contents, gate(last).value), IdOf(gate, w)) == KindOf(gate, w)
  {
    var id := IdOf(gate, last);
    if id in d.contents {
      assert MintedBy(gate, front, id);
      var x :| x in front && IdOf(gate, x) == id;
    }
    forall w | w in front + [last] ensures KindAt(Folded(d.contents, gate(last).value), IdOf(gate, w)) == KindOf(gate, w) {
      if w in front {
        assert MintedBy(gate, front, IdOf(gate, w));
      }
    }
  }

  // ----- What an accepted edge list means

  /** The edge joins identities `a` and `b` once wire IDs are resolved. */
  ghost predicate Lands(names: map<string, string>, e: WireEdge, a: string, b: string)
  {
    e.from in names && e.to in names && names[e.from] == a && names[e.to] == b && a != b
  }

  /** Some wire edge states kind `k` between `a` and `b`. */
  ghost predicate Contributes(contents: map<string, Content>, names: map<string, string>, edges: seq<WireEdge>, a: string, b: string, k: EdgeKind)
  {
    exists e :: e in edges && Lands(names, e, a, b) && Effective(contents, e, a, b) == k
  }

  /** The first wire edge between `a` and `b` states kind `k`. */
  ghost predicate Leads(contents: map<string, Content>, names: map<string, string>, edges: seq<WireEdge>, a: string, b: string, k: EdgeKind)
  {
    exists i :: 0 <= i < |edges| && Lands(names, edges[i], a, b) && Effective(contents, edges[i], a, b) == k
             && forall j :: 0 <= j < i ==> !Lands(names, edges[j], a, b)
  }

  ghost predicate EdgeMeans(contents: map<string, Content>, names: map<string, string>, edges: seq<WireEdge>, m: EdgeMap, a: string, b: string)
  {
    && (((a, b) in m) <==> exists e :: e in edges && Lands(names, e, a, b))
    && ((a, b) in m && Contributes(contents, names, edges, a, b, DependsOn) ==> m[(a, b)] == DependsOn)
    && ((a, b) in m && !Contributes(contents, names, edges, a, b, DependsOn) ==> Leads(contents, names, edges, a, b, m[(a, b)]))
  }

  lemma {:induction false} EdgesAccepted(contents: map<string, Content>, names: map<string, string>, edges: seq<WireEdge>)
    ensures DecodeEdges(contents, names, edges).Good? <==> forall e :: e in edges ==> e.from in names && e.to in names
    ensures DecodeEdges(contents, names, edges).Good? ==>
              forall a, b :: EdgeMeans(contents, names, edges, DecodeEdges(contents, names, edges).value, a, b)
    decreases |edges|
  {
    if edges != [] {
      var front, last := edges[..|edges| - 1], edges[|edges| - 1];
      assert edges == front + [last];
      EdgesAccepted(contents, names, front);
      if DecodeEdges(contents, names, edges).Good? {
        forall a, b ensures EdgeMeans(contents, names, edges, DecodeEdges(contents, names, edges).value, a, b) {
          EdgeMeansGrows(contents, names, front, last, DecodeEdges(contents, names, front).value, a, b);
        }
      }
    }
  }

  lemma EdgeMeansGrows(contents: map<string, Content>, names: map<string, string>, front: seq<WireEdge>,
                                          last: WireEdge, m: EdgeMap, a: string, b: string)
    requires EdgeMeans(contents, names, front, m, a, b) && DecodeEdge(contents, names, m, last).Good?
    ensures EdgeMeans(contents, names, front + [last], DecodeEdge(contents, names, m, last).value, a, b)
  {
    var edges := front + [last];
    assert forall e :: e in edges <==> e in front || e == last;
    var k := Effective(contents, last, a, b);
    ContributesGrow(contents, names, front, last, a, b, DependsOn);
    if (a, b) in m {
      if !Contributes(contents, names, edges, a, b, DependsOn) {
        LeadsStays(contents, names, front, last, a, b, m[(a, b)]);
      }
    } else if Lands(names, last, a, b) {
      assert edges[|front|] == last;
      assert forall j :: 0 <= j < |front| ==> edges[j] in front;
      assert Leads(contents, names, edges, a, b, k);
    }
  }

  lemma ContributesGrow(contents: map<string, Content>, names: map<string, string>, front: seq<WireEdge>,
                                           last: WireEdge, a: string, b: string, k: EdgeKind)
    ensures Contributes(contents, names, front + [last], a, b, k) <==>
            Contributes(contents, names, front, a, b, k) || (Lands(names, last, a, b) && Effective(contents, last, a, b) == k)
  {
    assert last in front + [last];
    assert forall e :: e in front + [last] <==> e in front || e == last;
  }

  lemma LeadsStays(contents: map<string, Content>, names: map<string, string>, front: seq<WireEdge>,
                                      last: WireEdge, a: string, b: string, k: EdgeKind)
    requires Leads(contents, names, front, a, b, k)
    ensures Leads(contents, names, front + [last], a, b, k)
  {
    var i :| 0 <= i < |front| && Lands(names, front[i], a, b) && Effective(contents, front[i], a, b) == k
             && forall j :: 0 <= j < i ==> !Lands(names, front[j], a, b);
    var edges := front + [last];
    assert edges[i] == front[i] && forall j :: 0 <= j < i ==> edges[j] == front[j];
  }

  /** A name is a wire ID some node states, or an identity some node mints; a stated wire ID stands for what its node
      mints, and any other name for itself. */
  lemma NamesMean(gate: Gate, nodes: seq<WireNode>, d: Roster, x: string)
    requires DecodeNodes(gate, nodes) == Good(d)
    ensures x in AllNames(d) <==>
            (x != "" && exists w :: w in nodes && w.id == x) || exists w :: w in nodes && gate(w).Some? && gate(w).value.id == x
    ensures forall w :: w in nodes && w.id != "" ==> gate(w).Some? && w.id in AllNames(d) && AllNames(d)[w.id] == gate(w).value.id
    ensures x in AllNames(d) && (forall w :: w in nodes ==> w.id != x) ==> AllNames(d)[x] == x
  {
    NodesAccepted(gate, nodes);
    hide KindsDisjoint;
    assert StatedBy(nodes, x) <==> x != "" && exists w :: w in nodes && w.id == x;
    assert x in d.contents <==> MintedBy(gate, nodes, x);
    forall w | w in nodes && w.id != "" ensures gate(w).Some? && w.id in AllNames(d) && AllNames(d)[w.id] == gate(w).value.id {
      assert IdOf(gate, w) != "" && StatedBy(nodes, w.id);
    }
    if MintedBy(gate, nodes, x) {
      var w :| w in nodes && IdOf(gate, w) == x;
      assert x != "";
    }
  }

  /** The first node that cannot be taken decides the error: it mints nothing, or an empty identity, or another identity
      than an earlier node of the same wire ID. */
  ghost predicate FailsAt(gate: Gate, nodes: seq<WireNode>, i: nat, error: DecodeError)
    requires i < |nodes|
  {
    && Acceptable(gate, nodes[..i])
    && if gate(nodes[i]).None? then error == BadNode
       else if gate(nodes[i]).value.id == "" then error == EmptyIdentity
       else
         && error == WireIdConflict && nodes[i].id != ""
         && exists w :: w in nodes[..i] && w.id == nodes[i].id && gate(w).Some? && gate(w).value.id != gate(nodes[i]).value.id
  }

  lemma {:induction false} FirstFailureDecides(gate: Gate, nodes: seq<WireNode>)
    requires DecodeNodes(gate, nodes).Bad?
    ensures exists i :: 0 <= i < |nodes| && FailsAt(gate, nodes, i, DecodeNodes(gate, nodes).error)
    decreases |nodes|
  {
    var front, last := nodes[..|nodes| - 1], nodes[|nodes| - 1];
    NodesAccepted(gate, front);
    hide Acceptable, Names;
    if DecodeNodes(gate, front).Bad? {
      FirstFailureDecides(gate, front);
      var i :| 0 <= i < |front| && FailsAt(gate, front, i, DecodeNodes(gate, front).error);
      assert nodes[..i] == front[..i] && nodes[i] == front[i];
      assert FailsAt(gate, nodes, i, DecodeNodes(gate, nodes).error);
    } else {
      assert nodes[..|front|] == front && nodes[|front|] == last;
      Claimed(gate, front, DecodeNodes(gate, front).value, last.id);
      assert FailsAt(gate, nodes, |front|, DecodeNodes(gate, nodes).error);
    }
  }

  // ----- Kinds on the wire

  /** A wire edge with no kind describes a module in a manifest, and claims a dependency everywhere else. */
  ghost predicate ClaimsDependency(contents: map<string, Content>, e: WireEdge, a: string, b: string)
    requires a in contents && b in contents
  {
    e.kind == DependsOn || (e.kind == Unstated && !(contents[a].kind == ManifestKind && contents[b].kind == ModuleKind))
  }

  /** Between two decoded nodes a claim wins, and otherwise the first wire edge says what is recorded. */
  lemma WireKindsMean(gate: Gate, p: Payload, d: Roster, a: string, b: string)
    requires DecodeNodes(gate, p.nodes) == Good(d) && DecodePayload(gate, p).Good? && a in d.contents && b in d.contents
    ensures var m := DecodePayload(gate, p).value.1;
            && ((a, b) in m <==> exists e :: e in p.edges && Lands(AllNames(d), e, a, b))
            && ((a, b) in m ==>
                  if exists e :: e in p.edges && Lands(AllNames(d), e, a, b) && ClaimsDependency(d.contents, e, a, b)
                  then m[(a, b)] == DependsOn
                  else exists i :: 0 <= i < |p.edges| && FirstBetween(AllNames(d), p.edges, a, b, i)
                                   && m[(a, b)] == if p.edges[i].kind == Unstated then Describes else p.edges[i].kind)
  {
    var names := AllNames(d);
    EdgesAccepted(d.contents, names, p.edges);
    var m := DecodeEdges(d.contents, names, p.edges).value;
    assert EdgeMeans(d.contents, names, p.edges, m, a, b);
    hide DecodeNodes, DecodeEdges, AllNames;
    assert Contributes(d.contents, names, p.edges, a, b, DependsOn) <==>
           exists e :: e in p.edges && Lands(names, e, a, b) && ClaimsDependency(d.contents, e, a, b);
    if (a, b) in m && !Contributes(d.contents, names, p.edges, a, b, DependsOn) {
      var i :| 0 <= i < |p.edges| && Lands(names, p.edges[i], a, b) && Effective(d.contents, p.edges[i], a, b) == m[(a, b)]
               && forall j :: 0 <= j < i ==> !Lands(names, p.edges[j], a, b);
      assert p.edges[i] in p.edges && FirstBetween(names, p.edges, a, b, i);
    }
  }

  ghost predicate FirstBetween(names: map<string, string>, edges: seq<WireEdge>, a: string, b: string, i: nat)
    requires i < |edges|
  {
    Lands(names, edges[i], a, b) && forall j :: 0 <= j < i ==> !Lands(names, edges[j], a, b)
  }

  /** What is written: nodes in strictly increasing ID order, a dependency's scopes as a sorted list without repeats and
      everything else as it is; edges in increasing order of their ends, each with its kind unless the ends imply it. */
  ghost predicate Written(contents: map<string, Content>, edges: EdgeMap, p: Payload)
  {
    NodesListed(contents, p.nodes) && EdgesListed(contents, edges, p.edges)
  }

  ghost predicate NodesListed(contents: map<string, Content>, nodes: seq<WireNode>)
  {
    && (forall i, j :: 0 <= i < j < |nodes| ==> Less(nodes[i].id, nodes[j].id))
    && (forall id :: id in contents <==> exists i :: 0 <= i < |nodes| && nodes[i].id == id)
    && (forall i :: 0 <= i < |nodes| && nodes[i].id in contents ==> NodeWritten(contents[nodes[i].id], nodes[i].content))
  }

  ghost predicate EdgesListed(contents: map<string, Content>, edges: EdgeMap, wire: seq<WireEdge>)
  {
    && (forall i, j :: 0 <= i < j < |wire| ==>
          Less(wire[i].from, wire[j].from) || (wire[i].from == wire[j].from && Less(wire[i].to, wire[j].to)))
    && (forall e :: e in edges <==> exists i :: 0 <= i < |wire| && (wire[i].from, wire[i].to) == e)
    && (forall i :: 0 <= i < |wire| && (wire[i].from, wire[i].to) in edges ==> EdgeWritten(contents, edges, wire[i]))
  }

  ghost predicate NodeWritten(c: Content, w: Content)
  {
    && w == c.(scopes := w.scopes) && (c.kind != DependencyKind ==> w == c)
    && (c.kind == DependencyKind ==> Distinct(w.scopes) && Sorted(w.scopes) && forall s :: s in w.scopes <==> s in c.scopes)
  }

  ghost predicate EdgeWritten(contents: map<string, Content>, edges: EdgeMap, w: WireEdge)
    requires (w.from, w.to) in edges
  {
    var kind := edges[(w.from, w.to)];
    var describes := w.from in contents && w.to in contents && contents[w.from].kind == ManifestKind && contents[w.to].kind == ModuleKind;
    w.kind == if kind == (if describes then Describes else DependsOn) then Unstated else kind
  }

  lemma EncodeMeans(contents: map<string, Content>, edges: EdgeMap)
    requires Encodable(contents, edges)
    ensures Written(contents, edges, Encode(contents, edges))
  {
    LessIsStrictTotal();
    PairOrder();
    var ids, pairs := SortedSeq(Less, contents.Keys), SortedSeq(PairLess, edges.Keys);
    SortedSeqIncreases(Less, contents.Keys);
    SortedSeqIncreases(PairLess, edges.Keys);
    assert (forall id :: id in ids <==> id in Elems(ids)) && forall e :: e in pairs <==> e in Elems(pairs);
    var p := Encode(contents, edges);
    hide Increasing, EncodedNodes, EncodedEdges, PairLess, NodesListed, EdgesListed;
    NodesWritten(contents, ids, p.nodes);
    EdgesWritten(contents, edges, pairs, p.edges);
  }

  lemma NodesWritten(contents: map<string, Content>, ids: seq<string>, nodes: seq<WireNode>)
    requires (forall id :: id in ids <==> id in contents) && (forall id :: id in contents ==> contents[id].id == id)
    requires Increasing(Less, ids) && nodes == EncodedNodes(contents, ids)
    ensures NodesListed(contents, nodes)
  {
    forall i | 0 <= i < |nodes| ensures ids[i] in contents && nodes[i].id == ids[i] && NodeWritten(contents[ids[i]], nodes[i].content) {
      assert ids[i] in ids;
      NodeIsWritten(contents[ids[i]]);
    }
    hide EncodeNode, NodeWritten, EncodedNodes;
    forall id | id in contents ensures exists i :: 0 <= i < |nodes| && nodes[i].id == id {
      var i :| 0 <= i < |ids| && ids[i] == id;
      assert nodes[i].id == id;
    }
  }

  lemma NodeIsWritten(c: Content)
    ensures EncodeNode(c).id == c.id && NodeWritten(c, EncodeNode(c).content)
  {
  }

  lemma EdgesWritten(contents: map<string, Content>, edges: EdgeMap, pairs: seq<(string, string)>, wire: seq<WireEdge>)
    requires Encodable(contents, edges)
    requires (forall e :: e in pairs <==> e in edges) && Increasing(PairLess, pairs) && wire == EncodedEdges(contents, edges, pairs)
    ensures EdgesListed(contents, edges, wire)
  {
    forall i | 0 <= i < |wire| ensures pairs[i] in edges && (wire[i].from, wire[i].to) == pairs[i] && EdgeWritten(contents, edges, wire[i]) {
      assert pairs[i] in pairs;
      EdgeIsWritten(contents, edges, pairs[i]);
    }
    hide EdgeWritten, EncodedEdges, Encodable;
    forall e | e in edges ensures exists i :: 0 <= i < |wire| && (wire[i].from, wire[i].to) == e {
      var i :| 0 <= i < |pairs| && pairs[i] == e;
      assert (wire[i].from, wire[i].to) == e;
    }
  }

  lemma EdgeIsWritten(contents: map<string, Content>, edges: EdgeMap, e: (string, string))
    requires e in edges && Encodable(contents, edges)
    ensures var w := EncodeEdge(contents, e.0, e.1, KindOn(edges, e)); (w.from, w.to) == e && EdgeWritten(contents, edges, w)
  {
    assert e == (e.0, e.1);
  }

  // ----- Decoding inverts encoding

  /** A graph's content as the encoder finds it. */
  ghost predicate Encodable(contents: map<string, Content>, edges: EdgeMap)
  {
    && WellFormed(View(contents.Keys, edges))
    && forall id :: id in contents ==> contents[id].id == id && id != ""
  }

  /** The node codec keeps identity and kind. */
  ghost predicate RoundTrips(gate: Gate, contents: map<string, Content>)
  {
    forall id :: id in contents ==>
      && gate(EncodeNode(contents[id])).Some?
      && gate(EncodeNode(contents[id])).value.id == id
      && gate(EncodeNode(contents[id])).value.kind == contents[id].kind
  }

  /** The node a gate makes of an encoded one. */
  ghost function Reminted(gate: Gate, contents: map<string, Content>, id: string): Content
    requires RoundTrips(gate, contents) && id in contents
  {
    gate(EncodeNode(contents[id])).value
  }

  ghost function RemintedRoster(gate: Gate, contents: map<string, Content>, ids: set<string>): Roster
    requires RoundTrips(gate, contents) && ids <= contents.Keys
  {
    Roster(map id | id in ids :: Reminted(gate, contents, id), map id | id in ids :: id)
  }

  lemma RemintOne(gate: Gate, contents: map<string, Content>, ids: set<string>, id: string)
    requires RoundTrips(gate, contents) && ids <= contents.Keys && id in contents && id !in ids
    requires contents[id].id == id && id != ""
    ensures DecodeNode(gate, RemintedRoster(gate, contents, ids), EncodeNode(contents[id])) ==
            Good(RemintedRoster(gate, contents, ids + {id}))
  {
    hide FoldContent;
    var d, d' := RemintedRoster(gate, contents, ids), RemintedRoster(gate, contents, ids + {id});
    assert d'.contents == d.contents[id := Reminted(gate, contents, id)];
    assert d'.names == d.names[id := id];
  }

  lemma {:induction false} DecodeEncodedNodes(gate: Gate, contents: map<string, Content>, order: seq<string>)
    requires RoundTrips(gate, contents) && (forall id :: id in order ==> id in contents && contents[id].id == id && id != "")
    requires Distinct(order)
    ensures DecodeNodes(gate, EncodedNodes(contents, order)) == Good(RemintedRoster(gate, contents, Elems(order)))
    decreases |order|
  {
    hide DecodeNode;
    hide EncodeNode;
    if order == [] {
      assert RemintedRoster(gate, contents, Elems(order)) == Roster(map[], map[]);
    } else {
      var front, last := order[..|order| - 1], order[|order| - 1];
      assert order == front + [last];
      assert Elems(order) == Elems(front) + {last};
      DecodeEncodedNodes(gate, contents, front);
      assert EncodedNodes(contents, order)[..|order| - 1] == EncodedNodes(contents, front);
      RemintOne(gate, contents, Elems(front), last);
    }
  }

  /** Both tables give every identity the same kind. */
  ghost predicate SameKinds(a: map<string, Content>, b: map<string, Content>)
  {
    forall x :: KindAt(a, x) == KindAt(b, x)
  }

  lemma DecodeOneEdge(contents: map<string, Content>, minted: map<string, Content>, names: map<string, string>,
                                         edges: EdgeMap, keys: set<(string, string)>, e: (string, string))
    requires e in edges && e !in keys && e.0 in names && e.1 in names && names[e.0] == e.0 && names[e.1] == e.1
    requires e.0 != e.1 && edges[e] != Unstated && SameKinds(contents, minted)
    ensures DecodeEdge(minted, names, Only(edges, keys), EncodeEdge(contents, e.0, e.1, edges[e])) ==
            Good(Only(edges, keys + {e}))
  {
    assert e == (e.0, e.1);
    assert Only(edges, keys + {e}) == Only(edges, keys)[e := edges[e]];
  }

  lemma {:induction false} DecodeEncodedEdges(contents: map<string, Content>, minted: map<string, Content>, names: map<string, string>,
                                              edges: EdgeMap, order: seq<(string, string)>)
    requires forall e :: e in order ==> e in edges && e.0 in names && e.1 in names && names[e.0] == e.0 && names[e.1] == e.1
    requires forall e :: e in edges ==> e.0 != e.1 && edges[e] != Unstated
    requires SameKinds(contents, minted) && Distinct(order)
    ensures DecodeEdges(minted, names, EncodedEdges(contents, edges, order)) == Good(Only(edges, Elems(order)))
    decreases |order|
  {
    hide DecodeEdge;
    hide EncodeEdge;
    hide SameKinds;
    if order == [] {
      assert Only(edges, Elems(order)) == map[];
    } else {
      var front, last := order[..|order| - 1], order[|order| - 1];
      assert order == front + [last];
      assert Elems(order) == Elems(front) + {last};
      DecodeEncodedEdges(contents, minted, names, edges, front);
      assert EncodedEdges(contents, edges, order)[..|order| - 1] == EncodedEdges(contents, edges, front);
      DecodeOneEdge(contents, minted, names, edges, Elems(front), last);
    }
  }

  lemma IncreasingDistinct<K(!new)>(lt: (K, K) -> bool, keys: set<K>)
    requires StrictTotalOrder(lt)
    ensures Distinct(SortedSeq(lt, keys)) && Elems(SortedSeq(lt, keys)) == keys
    ensures forall k :: k in SortedSeq(lt, keys) <==> k in keys
  {
    SortedSeqIncreases(lt, keys);
    assert forall k :: k in SortedSeq(lt, keys) <==> k in Elems(SortedSeq(lt, keys));
  }

  lemma DecodeEncodedLists(gate: Gate, contents: map<string, Content>, edges: EdgeMap,
                                              ids: seq<string>, pairs: seq<(string, string)>)
    requires Encodable(contents, edges) && RoundTrips(gate, contents)
    requires Distinct(ids) && Distinct(pairs) && Elems(ids) == contents.Keys && Elems(pairs) == edges.Keys
    requires (forall id :: id in ids <==> id in contents) && forall e :: e in pairs <==> e in edges
    ensures DecodePayload(gate, Payload(EncodedNodes(contents, ids), EncodedEdges(contents, edges, pairs))) ==
            Good((RemintedRoster(gate, contents, contents.Keys).contents, edges))
  {
    hide *;
    var d := RemintedRoster(gate, contents, contents.Keys);
    EncodableMeans(contents, edges);
    DecodeEncodedNodes(gate, contents, ids);
    OwnNames(gate, contents);
    DecodeEncodedEdges(contents, d.contents, d.names, edges, pairs);
    RestrictedAll(edges, Elems(pairs));
    PayloadOf(gate, Payload(EncodedNodes(contents, ids), EncodedEdges(contents, edges, pairs)), d, edges);
  }

  lemma EncodableMeans(contents: map<string, Content>, edges: EdgeMap)
    requires Encodable(contents, edges)
    ensures forall id :: id in contents ==> contents[id].id == id && id != ""
    ensures forall e :: e in edges ==> e.0 in contents && e.1 in contents && e.0 != e.1 && edges[e] != Unstated
  {
  }

  lemma RestrictedAll(edges: EdgeMap, keys: set<(string, string)>)
    requires keys == edges.Keys
    ensures Only(edges, keys) == edges
  {
  }

  lemma OwnNames(gate: Gate, contents: map<string, Content>)
    requires RoundTrips(gate, contents)
    ensures var d := RemintedRoster(gate, contents, contents.Keys);
            && AllNames(d) == d.names && SameKinds(contents, d.contents)
            && d.names.Keys == contents.Keys && forall x :: x in d.names ==> d.names[x] == x
  {
  }

  lemma PayloadOf(gate: Gate, p: Payload, d: Roster, m: EdgeMap)
    requires DecodeNodes(gate, p.nodes) == Good(d) && DecodeEdges(d.contents, AllNames(d), p.edges) == Good(m)
    ensures DecodePayload(gate, p) == Good((d.contents, m))
  {
  }

  /** Every node, edge and kind comes back, although derivable kinds were never written. */
  lemma DecodeInvertsEncode(gate: Gate, contents: map<string, Content>, edges: EdgeMap)
    requires Encodable(contents, edges) && RoundTrips(gate, contents)
    ensures DecodePayload(gate, Encode(contents, edges)) ==
            Good((map id | id in contents :: Reminted(gate, contents, id), edges))
  {
    LessIsStrictTotal();
    PairOrder();
    IncreasingDistinct(Less, contents.Keys);
    IncreasingDistinct(PairLess, edges.Keys);
    DecodeEncodedLists(gate, contents, edges, SortedSeq(Less, contents.Keys), SortedSeq(PairLess, edges.Keys));
    assert RemintedRoster(gate, contents, contents.Keys).contents == map id | id in contents :: Reminted(gate, contents, id);
  }

  /** Equal payloads mean equal identities, kinds and edges. */
  lemma EncodeIsInjective(gate: Gate, a: map<string, Content>, ea: EdgeMap, b: map<string, Content>, eb: EdgeMap)
    requires Encodable(a, ea) && RoundTrips(gate, a) && Encodable(b, eb) && RoundTrips(gate, b)
    requires Encode(a, ea) == Encode(b, eb)
    ensures a.Keys == b.Keys && ea == eb && forall id :: id in a ==> a[id].kind == b[id].kind
  {
    hide Encode;
    hide DecodePayload;
    hide EncodeNode;
    DecodeInvertsEncode(gate, a, ea);
    DecodeInvertsEncode(gate, b, eb);
    var da, db := map id | id in a :: Reminted(gate, a, id), map id | id in b :: Reminted(gate, b, id);
    assert da == db && ea == eb;
    assert a.Keys == da.Keys && b.Keys == db.Keys;
    forall id | id in a ensures a[id].kind == b[id].kind {
      assert da[id] == db[id];
      assert da[id].kind == a[id].kind && db[id].kind == b[id].kind;
    }
  }

  // ----- Order of the payload's lists

  /** What each accepted node states, as a table of its own. */
  ghost function Singles(gate: Gate, nodes: seq<WireNode>): seq<map<string, Content>>
  {
    KeyedFold.Flat((w: WireNode) => Single(gate, w), nodes)
  }

  ghost function Single(gate: Gate, w: WireNode): seq<map<string, Content>>
  {
    if gate(w).Some? then [map[gate(w).value.id := gate(w).value]] else []
  }

  lemma SinglesPermuted(gate: Gate, a: seq<WireNode>, b: seq<WireNode>)
    requires multiset(a) == multiset(b)
    ensures multiset(Singles(gate, a)) == multiset(Singles(gate, b))
  {
    KeyedFold.FlatPermuted((w: WireNode) => Single(gate, w), a, b);
  }

  lemma SingleMembers(gate: Gate, nodes: seq<WireNode>)
    ensures forall t :: t in Singles(gate, nodes) ==> exists w :: w in nodes && gate(w).Some? && t == map[gate(w).value.id := gate(w).value]
  {
    KeyedFold.FlatMembers((w: WireNode) => Single(gate, w), nodes);
  }

  /** The nodes decoded are the tables of one node each, merged one after another. */
  lemma {:induction false} RosterIsMerged(gate: Gate, nodes: seq<WireNode>)
    requires DecodeNodes(gate, nodes).Good?
    ensures DecodeNodes(gate, nodes).value.contents == MergedRecords(Singles(gate, nodes))
    decreases |nodes|
  {
    if nodes != [] {
      var front, last := nodes[..|nodes| - 1], nodes[|nodes| - 1];
      RosterIsMerged(gate, front);
      var c := gate(last).value;
      RecordsSnoc(Singles(gate, front), map[c.id := c]);
      OneRecord(MergedRecords(Singles(gate, front)), c);
    }
  }

  lemma SinglesAgree(gate: Gate, nodes: seq<WireNode>)
    requires KindsDisjoint(gate) && Acceptable(gate, nodes)
    ensures KindsAgree(Singles(gate, nodes))
  {
    SingleMembers(gate, nodes);
    forall s: map<string, Content>, t: map<string, Content>, id | s in Singles(gate, nodes) && t in Singles(gate, nodes) && id in s && id in t ensures s[id].kind == t[id].kind {
      var w :| w in nodes && gate(w).Some? && s == map[gate(w).value.id := gate(w).value];
      var x :| x in nodes && gate(x).Some? && t == map[gate(x).value.id := gate(x).value];
      assert IdOf(gate, w) == IdOf(gate, x) && KindOf(gate, w) == KindOf(gate, x);
    }
  }

  /** The same identities, kinds and edges, and the same about every dependency. */
  ghost predicate SameMeaning(x: (map<string, Content>, EdgeMap), y: (map<string, Content>, EdgeMap))
  {
    && x.0.Keys == y.0.Keys && x.1 == y.1
    && forall id :: id in x.0 && id in y.0 ==> SameRecord(x.0[id], y.0[id])
  }

  lemma SameRecords(gate: Gate, a: seq<WireNode>, b: seq<WireNode>)
    requires KindsDisjoint(gate) && multiset(a) == multiset(b) && Acceptable(gate, a)
    requires DecodeNodes(gate, a).Good? && DecodeNodes(gate, b).Good?
    ensures var x, y := DecodeNodes(gate, a).value.contents, DecodeNodes(gate, b).value.contents;
            forall id :: id in x && id in y ==> SameRecord(x[id], y[id])
  {
    var x, y := DecodeNodes(gate, a).value.contents, DecodeNodes(gate, b).value.contents;
    RosterIsMerged(gate, a);
    RosterIsMerged(gate, b);
    SinglesPermuted(gate, a, b);
    SinglesAgree(gate, a);
    forall id | id in x && id in y ensures SameRecord(x[id], y[id]) {
      TablesAlike(Singles(gate, a), Singles(gate, b), id);
    }
  }

  ghost predicate SameLists(p: Payload, q: Payload)
  {
    multiset(p.nodes) == multiset(q.nodes) && multiset(p.edges) == multiset(q.edges)
  }

  lemma SameNodesSayTheSame(gate: Gate, a: seq<WireNode>, b: seq<WireNode>)
    requires forall w :: w in a <==> w in b
    ensures forall x :: StatedBy(a, x) <==> StatedBy(b, x)
    ensures forall x :: MintedBy(gate, a, x) <==> MintedBy(gate, b, x)
  {
  }

  /** Two rosters of the same nodes resolve every name alike. */
  lemma SameNames(gate: Gate, a: seq<WireNode>, b: seq<WireNode>, da: Roster, db: Roster)
    requires KindsDisjoint(gate) && forall w :: w in a <==> w in b
    requires Names(gate, a, da) && Names(gate, b, db)
    ensures da.contents.Keys == db.contents.Keys && da.names == db.names && AllNames(da) == AllNames(db)
    ensures SameKinds(da.contents, db.contents)
  {
    hide KindsDisjoint;
    SameNodesSayTheSame(gate, a, b);
    forall x | x in da.names ensures x in db.names && da.names[x] == db.names[x] {
      WhoStated(gate, a, b, da, db, x);
    }
    forall x ensures KindAt(da.contents, x) == KindAt(db.contents, x) {
      if x in da.contents {
        WhoMinted(gate, a, b, da, db, x);
      }
    }
  }

  lemma WhoStated(gate: Gate, a: seq<WireNode>, b: seq<WireNode>, da: Roster, db: Roster, x: string)
    requires (forall w :: w in a <==> w in b) && Names(gate, a, da) && Names(gate, b, db) && x in da.names
    ensures x in db.names && da.names[x] == db.names[x]
  {
    hide IdOf;
    hide KindOf;
    hide KindsDisjoint;
    assert StatedBy(a, x);
    var w :| w in a && w.id == x;
    assert StatedBy(b, x);
  }

  lemma WhoMinted(gate: Gate, a: seq<WireNode>, b: seq<WireNode>, da: Roster, db: Roster, x: string)
    requires KindsDisjoint(gate) && (forall w :: w in a <==> w in b) && Names(gate, a, da) && Names(gate, b, db) && x in da.contents
    ensures KindAt(da.contents, x) == KindAt(db.contents, x)
  {
    hide IdOf;
    hide KindOf;
    hide KindAt;
    assert MintedBy(gate, a, x);
    var w :| w in a && IdOf(gate, w) == x;
  }

  /** The kinds stated between any two identities settle: one is a dependency claim, or all agree. */
  ghost predicate Settles(contents: map<string, Content>, names: map<string, string>, edges: seq<WireEdge>)
  {
    forall a, b, k, l {:trigger Contributes(contents, names, edges, a, b, k), Contributes(contents, names, edges, a, b, l)} ::
      Contributes(contents, names, edges, a, b, k) && Contributes(contents, names, edges, a, b, l) ==>
        k == l || Contributes(contents, names, edges, a, b, DependsOn)
  }

  lemma SettledMap(ca: map<string, Content>, cb: map<string, Content>, names: map<string, string>,
                                      a: seq<WireEdge>, b: seq<WireEdge>)
    requires (SameKinds(ca, cb)) && multiset(a) == multiset(b)
    requires Settles(ca, names, a)
    ensures DecodeEdges(ca, names, a).Good? <==> DecodeEdges(cb, names, b).Good?
    ensures DecodeEdges(ca, names, a).Good? ==> DecodeEdges(ca, names, a).value == DecodeEdges(cb, names, b).value
  {
    KeyedFold.SameMembers(a, b);
    EdgesAccepted(ca, names, a);
    EdgesAccepted(cb, names, b);
    if DecodeEdges(ca, names, a).Good? {
      var ma, mb := DecodeEdges(ca, names, a).value, DecodeEdges(cb, names, b).value;
      forall e ensures e in ma <==> e in mb {
        assert e == (e.0, e.1);
        assert EdgeMeans(ca, names, a, ma, e.0, e.1);
        assert EdgeMeans(cb, names, b, mb, e.0, e.1);
      }
      forall e | e in ma ensures ma[e] == mb[e] {
        assert e == (e.0, e.1);
        assert EdgeMeans(ca, names, a, ma, e.0, e.1);
        assert EdgeMeans(cb, names, b, mb, e.0, e.1);
        SettledKind(ca, cb, names, a, b, ma, mb, e.0, e.1);
      }
    }
  }

  lemma SettledKind(ca: map<string, Content>, cb: map<string, Content>, names: map<string, string>,
                                       a: seq<WireEdge>, b: seq<WireEdge>, ma: EdgeMap, mb: EdgeMap, x: string, y: string)
    requires (SameKinds(ca, cb)) && (forall e :: e in a <==> e in b)
    requires EdgeMeans(ca, names, a, ma, x, y) && EdgeMeans(cb, names, b, mb, x, y) && (x, y) in ma && (x, y) in mb
    requires Settles(ca, names, a)
    ensures ma[(x, y)] == mb[(x, y)]
  {
    forall k ensures Contributes(ca, names, a, x, y, k) <==> Contributes(cb, names, b, x, y, k) {
      assert forall e :: Effective(ca, e, x, y) == Effective(cb, e, x, y);
    }
    if !Contributes(ca, names, a, x, y, DependsOn) {
      assert Leads(ca, names, a, x, y, ma[(x, y)]) && Leads(cb, names, b, x, y, mb[(x, y)]);
      LeaderContributes(ca, names, a, x, y, ma[(x, y)]);
      LeaderContributes(cb, names, b, x, y, mb[(x, y)]);
    }
  }

  lemma LeaderContributes(contents: map<string, Content>, names: map<string, string>, edges: seq<WireEdge>, a: string, b: string, k: EdgeKind)
    requires Leads(contents, names, edges, a, b, k)
    ensures Contributes(contents, names, edges, a, b, k)
  {
    var i :| 0 <= i < |edges| && Lands(names, edges[i], a, b) && Effective(contents, edges[i], a, b) == k;
    assert edges[i] in edges;
  }

  /** Kinds in the vocabulary always settle. */
  lemma VocabularySettles(contents: map<string, Content>, names: map<string, string>, edges: seq<WireEdge>)
    requires forall e :: e in edges ==> InVocabulary(e.kind)
    ensures Settles(contents, names, edges)
  {
  }

  lemma SettledPayload(gate: Gate, p: Payload, q: Payload, d: Roster)
    requires KindsDisjoint(gate) && SameLists(p, q) && DecodeNodes(gate, p.nodes) == Good(d)
    requires Settles(d.contents, AllNames(d), p.edges)
    ensures DecodePayload(gate, p).Good? <==> DecodePayload(gate, q).Good?
    ensures DecodePayload(gate, p).Good? ==> SameMeaning(DecodePayload(gate, p).value, DecodePayload(gate, q).value)
  {
    hide Names;
    hide Settles;
    KeyedFold.SameMembers(p.nodes, q.nodes);
    NodesAccepted(gate, p.nodes);
    NodesAccepted(gate, q.nodes);
    assert Acceptable(gate, q.nodes);
    var dq := DecodeNodes(gate, q.nodes).value;
    SameNames(gate, p.nodes, q.nodes, d, dq);
    SettledMap(d.contents, dq.contents, AllNames(d), p.edges, q.edges);
    SameRecords(gate, p.nodes, q.nodes);
  }

  /** Neither list's order decides whether a payload is accepted, nor its identities or edges, nor what it says of a
      dependency beyond the fields the first witness fills. */
  lemma DecodeIgnoresOrder(gate: Gate, p: Payload, q: Payload)
    requires KindsDisjoint(gate) && SameLists(p, q) && forall e :: e in p.edges ==> InVocabulary(e.kind)
    ensures DecodePayload(gate, p).Good? <==> DecodePayload(gate, q).Good?
    ensures DecodePayload(gate, p).Good? ==> SameMeaning(DecodePayload(gate, p).value, DecodePayload(gate, q).value)
  {
    KeyedFold.SameMembers(p.nodes, q.nodes);
    NodesAccepted(gate, p.nodes);
    NodesAccepted(gate, q.nodes);
    if Acceptable(gate, p.nodes) {
      var d := DecodeNodes(gate, p.nodes).value;
      VocabularySettles(d.contents, AllNames(d), p.edges);
      SettledPayload(gate, p, q, d);
    }
  }

  /** The payload with one edge moved to the front. */
  ghost function Promoted(edges: seq<WireEdge>, i: nat): (out: seq<WireEdge>)
    requires i < |edges|
    ensures multiset(out) == multiset(edges)
  {
    assert edges == edges[..i] + [edges[i]] + edges[i + 1..];
    [edges[i]] + edges[..i] + edges[i + 1..]
  }

  /** With no dependency claim, whichever kind stands first is the one recorded. */
  lemma FrontDecides(contents: map<string, Content>, names: map<string, string>, edges: seq<WireEdge>,
                                        e: WireEdge, a: string, b: string)
    requires DecodeEdges(contents, names, edges).Good? && |edges| > 0 && edges[0] == e
    requires Lands(names, e, a, b) && !Contributes(contents, names, edges, a, b, DependsOn)
    ensures (a, b) in DecodeEdges(contents, names, edges).value
    ensures DecodeEdges(contents, names, edges).value[(a, b)] == Effective(contents, e, a, b)
  {
    var m := DecodeEdges(contents, names, edges).value;
    EdgesAccepted(contents, names, edges);
    assert EdgeMeans(contents, names, edges, m, a, b);
    assert e in edges;
    var i :| 0 <= i < |edges| && Lands(names, edges[i], a, b) && Effective(contents, edges[i], a, b) == m[(a, b)]
             && forall j :: 0 <= j < i ==> !Lands(names, edges[j], a, b);
    assert i == 0;
  }

  lemma UnsettledDiffers(contents: map<string, Content>, names: map<string, string>, edges: seq<WireEdge>)
    returns (other: seq<WireEdge>)
    requires DecodeEdges(contents, names, edges).Good? && !Settles(contents, names, edges)
    ensures multiset(other) == multiset(edges)
    ensures DecodeEdges(contents, names, other) != DecodeEdges(contents, names, edges)
  {
    var a, b, k, l :| Contributes(contents, names, edges, a, b, k) && Contributes(contents, names, edges, a, b, l)
                      && k != l && !Contributes(contents, names, edges, a, b, DependsOn);
    var e :| e in edges && Lands(names, e, a, b) && Effective(contents, e, a, b) == k;
    var f :| f in edges && Lands(names, f, a, b) && Effective(contents, f, a, b) == l;
    var i :| 0 <= i < |edges| && edges[i] == e;
    var j :| 0 <= j < |edges| && edges[j] == f;
    var x, y := Promoted(edges, i), Promoted(edges, j);
    FrontOf(contents, names, edges, x, e, a, b);
    FrontOf(contents, names, edges, y, f, a, b);
    other := if DecodeEdges(contents, names, x) != DecodeEdges(contents, names, edges) then x else y;
  }

  lemma FrontOf(contents: map<string, Content>, names: map<string, string>, edges: seq<WireEdge>, moved: seq<WireEdge>,
                                   e: WireEdge, a: string, b: string)
    requires DecodeEdges(contents, names, edges).Good? && multiset(moved) == multiset(edges) && |moved| > 0 && moved[0] == e
    requires Lands(names, e, a, b) && !Contributes(contents, names, edges, a, b, DependsOn)
    ensures DecodeEdges(contents, names, moved).Good? && (a, b) in DecodeEdges(contents, names, moved).value
    ensures DecodeEdges(contents, names, moved).value[(a, b)] == Effective(contents, e, a, b)
  {
    KeyedFold.SameMembers(moved, edges);
    EdgesAccepted(contents, names, edges);
    EdgesAccepted(contents, names, moved);
    FrontDecides(contents, names, moved, e, a, b);
  }

  /** Any reordering of the two lists decodes to the same identities, edges and dependencies. */
  ghost predicate OrderFree(gate: Gate, p: Payload)
    requires DecodePayload(gate, p).Good?
  {
    forall q :: SameLists(p, q) ==> DecodePayload(gate, q).Good? && SameMeaning(DecodePayload(gate, p).value, DecodePayload(gate, q).value)
  }

  /** Beyond the vocabulary the promise holds exactly when the stated kinds settle. */
  lemma OrderFreeIffSettled(gate: Gate, p: Payload, d: Roster)
    requires KindsDisjoint(gate) && DecodePayload(gate, p).Good? && DecodeNodes(gate, p.nodes) == Good(d)
    ensures OrderFree(gate, p) <==> Settles(d.contents, AllNames(d), p.edges)
  {
    if Settles(d.contents, AllNames(d), p.edges) {
      forall q | SameLists(p, q)
        ensures DecodePayload(gate, q).Good? && SameMeaning(DecodePayload(gate, p).value, DecodePayload(gate, q).value)
      {
        SettledPayload(gate, p, q, d);
      }
    } else {
      var other := UnsettledDiffers(d.contents, AllNames(d), p.edges);
      KeyedFold.SameMembers(p.edges, other);
      EdgesAccepted(d.contents, AllNames(d), p.edges);
      EdgesAccepted(d.contents, AllNames(d), other);
      assert SameLists(p, p.(edges := other));
    }
  }

  /** Two nodes, and two edges between them whose kinds no vocabulary ranks: the one that arrives first is kept. */
  lemma UnknownKindsKeepOrder(gate: Gate, u: WireNode, w: WireNode)
    requires gate(u).Some? && gate(w).Some? && gate(u).value.id == u.id && gate(w).value.id == w.id
    requires u.id != "" && w.id != "" && u.id != w.id
    ensures var one, two := WireEdge(u.id, w.id, OtherKind("x")), WireEdge(u.id, w.id, OtherKind("y"));
            var p, q := Payload([u, w], [one, two]), Payload([u, w], [two, one]);
            && SameLists(p, q) && DecodePayload(gate, p).Good? && DecodePayload(gate, q).Good?
            && DecodePayload(gate, p).value.1 == map[(u.id, w.id) := OtherKind("x")]
            && DecodePayload(gate, q).value.1 == map[(u.id, w.id) := OtherKind("y")]
  {
    var one, two := WireEdge(u.id, w.id, OtherKind("x")), WireEdge(u.id, w.id, OtherKind("y"));
    TwoNodes(gate, u, w);
    var d := DecodeNodes(gate, [u, w]).value;
    hide DecodeNodes;
    hide DecodeEdges;
    TwoEdges(d.contents, AllNames(d), one, two);
    TwoEdges(d.contents, AllNames(d), two, one);
    var edges: seq<WireEdge>, swapped: seq<WireEdge> := [one, two], [two, one];
    assert edges == [one] + [two] && swapped == [two] + [one];
    assert multiset(edges) == multiset(swapped);
  }

  lemma TwoNodes(gate: Gate, u: WireNode, w: WireNode)
    requires gate(u).Some? && gate(w).Some? && gate(u).value.id == u.id && gate(w).value.id == w.id
    requires u.id != "" && w.id != "" && u.id != w.id
    ensures DecodeNodes(gate, [u, w]).Good? && var d := DecodeNodes(gate, [u, w]).value;
            u.id in AllNames(d) && w.id in AllNames(d) && AllNames(d)[u.id] == u.id && AllNames(d)[w.id] == w.id
  {
    assert [u, w][..1] == [u] && [u][..0] == [];
    assert DecodeNodes(gate, [u]) == Good(Roster(Folded(map[], gate(u).value), map[u.id := u.id]));
  }

  lemma TwoEdges(contents: map<string, Content>, names: map<string, string>, first: WireEdge, second: WireEdge)
    requires first.from == second.from && first.to == second.to && first.from != first.to
    requires first.from in names && first.to in names && names[first.from] == first.from && names[first.to] == first.to
    requires first.kind.OtherKind? && second.kind.OtherKind?
    ensures DecodeEdges(contents, names, [first, second]) == Good(map[(first.from, first.to) := first.kind])
  {
    assert [first, second][..1] == [first] && [first][..0] == [];
    var m: EdgeMap := map[(first.from, first.to) := first.kind];
    assert DecodeEdges(contents, names, [first]) == Good(m);
    assert WithEdge(m, first.from, first.to, second.kind) == m;
  }
}

/** The encoder and decoder of model/json.go over the slot table. */
module Codec {
  import opened Orders
  import opened MergeClasses
  import opened Scopes
  import opened EdgeKinds
  import opened Nodes
  import opened Views
  import opened SlotTables
  import opened Graphs
  import opened Payloads

  /** The content table describes every live slot. */
  ghost predicate Files(nodes: seq<Node?>, contents: map<string, Content>)
    reads nodes
  {
    forall s: nat :: Live(nodes, s) ==> IdAt(nodes, s) in contents && contents[IdAt(nodes, s)] == nodes[s].Contents()
  }

  lemma GraphIsEncodable(g: Graph)
    requires g.Valid()
    ensures Encodable(g.ContentMap(), g.Edges()) && g.ContentMap().Keys == g.indexByID.Keys
    ensures Files(g.nodes, g.ContentMap())
  {
    g.AbsWellFormed();
    assert g.ContentMap().Keys == g.indexByID.Keys;
  }

  method EncodeNodeWire(node: Node) returns (wire: WireNode)
    ensures wire == EncodeNode(node.Contents())
  {
    if node.kind == DependencyKind {
      var scopes := CanonicalScopeSet(node.scopes);
      wire := WireNode(node.id, node.Contents().(scopes := scopes));
    } else {
      wire := WireNode(node.id, node.Contents());
    }
  }

  lemma InIds(nodes: seq<Node?>, slots: seq<nat>)
    requires forall i :: 0 <= i < |slots| ==> Live(nodes, slots[i])
    ensures |IdsAt(nodes, slots)| == |slots|
    ensures forall i :: 0 <= i < |slots| ==> slots[i] < |nodes| && nodes[slots[i]] != null && IdsAt(nodes, slots)[i] == IdAt(nodes, slots[i])
    ensures forall i :: 0 <= i < |slots| ==> Live(nodes, slots[i])
    ensures forall id :: id in IdsAt(nodes, slots) <==> exists i :: 0 <= i < |slots| && IdAt(nodes, slots[i]) == id
  {
    var ids := IdsAt(nodes, slots);
    assert forall i :: 0 <= i < |slots| ==> ids[i] == IdAt(nodes, slots[i]);
  }

  /** The edges leaving one node, in the order of their targets. */
  ghost function RowPairs(all: EdgeMap, id: string): seq<(string, string)>
  {
    var kids := ChildIds(all, id);
    seq(|kids|, i requires 0 <= i < |kids| => (id, kids[i]))
  }

  lemma RowPairsMeans(all: EdgeMap, id: string)
    ensures forall e :: e in RowPairs(all, id) <==> e in all && e.0 == id
    ensures Increasing(PairLess, RowPairs(all, id))
  {
    LessIsStrictTotal();
    var targets := set e | e in all && e.0 == id :: e.1;
    var kids, row := ChildIds(all, id), RowPairs(all, id);
    IncreasingDistinct(Less, targets);
    SortedSeqIncreases(Less, targets);
    forall e ensures e in row <==> e in all && e.0 == id {
      if e in row {
        var i :| 0 <= i < |row| && row[i] == e;
        assert kids[i] in targets;
        var f :| f in all && f.0 == id && f.1 == kids[i];
        assert f == e;
      }
      if e in all && e.0 == id {
        assert e.1 in targets;
        var i :| 0 <= i < |kids| && kids[i] == e.1;
        assert row[i] == (e.0, e.1) == e;
      }
    }
  }

  /** The rows of the first `i` nodes, laid end to end, are in edge order. */
  ghost predicate RowsDone(contents: map<string, Content>, all: EdgeMap, ids: seq<string>, i: nat,
                           pairs: seq<(string, string)>, edges: seq<WireEdge>)
  {
    && i <= |ids| && Increasing(Less, ids) && Increasing(PairLess, pairs)
    && (forall e :: e in pairs <==> e in all && e.0 in ids[..i])
    && edges == EncodedEdges(contents, all, pairs)
  }

  lemma NoRows(contents: map<string, Content>, all: EdgeMap, ids: seq<string>)
    requires Increasing(Less, ids)
    ensures RowsDone(contents, all, ids, 0, [], [])
  {
  }

  lemma RowAdded(contents: map<string, Content>, all: EdgeMap, ids: seq<string>, i: nat,
                                    pairs: seq<(string, string)>, edges: seq<WireEdge>)
    requires i < |ids| && RowsDone(contents, all, ids, i, pairs, edges)
    ensures RowsDone(contents, all, ids, i + 1, pairs + RowPairs(all, ids[i]),
                     edges + EncodedEdges(contents, all, RowPairs(all, ids[i])))
  {
    hide EncodeEdge;
    hide RowPairs;
    var row := RowPairs(all, ids[i]);
    RowPairsMeans(all, ids[i]);
    RowsIncrease(ids, i, pairs, row);
    RowMembers(all, ids, i, pairs, row);
    EncodedConcat(contents, all, pairs, row);
  }

  lemma RowMembers(all: EdgeMap, ids: seq<string>, i: nat, pairs: seq<(string, string)>, row: seq<(string, string)>)
    requires i < |ids| && (forall e :: e in pairs <==> e in all && e.0 in ids[..i]) && forall e :: e in row <==> e in all && e.0 == ids[i]
    ensures forall e :: e in pairs + row <==> e in all && e.0 in ids[..i + 1]
  {
    TakeSnoc(ids, i);
    assert forall x :: x in ids[..i + 1] <==> x in ids[..i] || x == ids[i];
  }

  lemma EncodedConcat(contents: map<string, Content>, all: EdgeMap, a: seq<(string, string)>, b: seq<(string, string)>)
    ensures EncodedEdges(contents, all, a + b) == EncodedEdges(contents, all, a) + EncodedEdges(contents, all, b)
  {
    hide EncodeEdge;
    var ea, eb := EncodedEdges(contents, all, a), EncodedEdges(contents, all, b);
    forall i | 0 <= i < |a + b| ensures EncodedEdges(contents, all, a + b)[i] == (ea + eb)[i] {
    }
  }

  lemma RowsIncrease(ids: seq<string>, i: nat, pairs: seq<(string, string)>, row: seq<(string, string)>)
    requires i < |ids| && Increasing(Less, ids) && Increasing(PairLess, pairs) && Increasing(PairLess, row)
    requires (forall e :: e in pairs ==> e.0 in ids[..i]) && forall e :: e in row ==> e.0 == ids[i]
    ensures Increasing(PairLess, pairs + row)
  {
    forall k, l | 0 <= k < |pairs| && 0 <= l < |row| ensures PairLess(pairs[k], row[l]) {
      assert pairs[k] in pairs && row[l] in row;
      var j :| 0 <= j < i && ids[j] == pairs[k].0;
    }
  }

  lemma RowsComplete(contents: map<string, Content>, all: EdgeMap, nodes: seq<Node?>, order: seq<nat>, ids: seq<string>,
                                        pairs: seq<(string, string)>, edges: seq<WireEdge>)
    requires RowsDone(contents, all, ids, |ids|, pairs, edges) && Encodable(contents, all)
    requires InIdOrder(nodes, order, ids, contents.Keys)
    ensures forall id :: id in ids ==> id in contents
    ensures Payload(EncodedNodes(contents, ids), edges) == Encode(contents, all)
  {
    hide EncodedNodes;
    hide EncodedEdges;
    TakeAll(ids);
    LessIsStrictTotal();
    PairOrder();
    OnlySort(Less, contents.Keys, ids);
    OnlySort(PairLess, all.Keys, pairs);
  }

  /** `ids` are the identities of all nodes in increasing order, `order` the slots that hold them. */
  ghost predicate InIdOrder(nodes: seq<Node?>, order: seq<nat>, ids: seq<string>, all: set<string>)
  {
    && ids == IdsAt(nodes, order) && |ids| == |order| && Increasing(Less, ids)
    && (forall i :: 0 <= i < |order| ==> Live(nodes, order[i]) && ids[i] == IdAt(nodes, order[i]))
    && (forall id :: id in ids <==> id in all)
  }

  lemma OrderListsIds(index: map<string, nat>, nodes: seq<Node?>, order: seq<nat>)
    requires IndexOk(index, nodes) && SlotsInOrder(nodes, order) && forall s: nat :: s in order <==> Live(nodes, s)
    ensures InIdOrder(nodes, order, IdsAt(nodes, order), index.Keys)
  {
    var ids := IdsAt(nodes, order);
    InIds(nodes, order);
    forall id | id in index ensures id in ids {
      assert Live(nodes, index[id]);
      assert index[id] in order;
      var i :| 0 <= i < |order| && order[i] == index[id];
      assert ids[i] == id;
    }
  }

  lemma NodeContents(nodes: seq<Node?>, order: seq<nat>, contents: map<string, Content>, ids: seq<string>)
    requires Files(nodes, contents) && InIdOrder(nodes, order, ids, contents.Keys)
    ensures |ids| == |order| && forall i :: 0 <= i < |order| ==>
              order[i] < |nodes| && nodes[order[i]] != null && ids[i] in contents && contents[ids[i]] == nodes[order[i]].Contents()
    ensures forall id :: id in ids ==> id in contents
  {
    hide IdsAt;
    hide IdAt;
  }

  lemma EncodedNodesAre(contents: map<string, Content>, ids: seq<string>, wires: seq<WireNode>)
    requires |wires| == |ids| && forall i :: 0 <= i < |ids| ==> ids[i] in contents && wires[i] == EncodeNode(contents[ids[i]])
    ensures forall id :: id in ids ==> id in contents
    ensures wires == EncodedNodes(contents, ids)
  {
    hide EncodeNode;
    forall i | 0 <= i < |ids| ensures wires[i] == EncodedNodes(contents, ids)[i] {
    }
  }

  method EncodeNodes(nodes: seq<Node?>, order: seq<nat>, ghost contents: map<string, Content>, ghost ids: seq<string>)
    returns (wires: seq<WireNode>)
    requires Files(nodes, contents) && InIdOrder(nodes, order, ids, contents.Keys)
    ensures (forall id :: id in ids ==> id in contents) && wires == EncodedNodes(contents, ids)
  {
    hide *;
    NodeContents(nodes, order, contents, ids);
    wires := [];
    for i := 0 to |order|
      invariant |wires| == i && forall j :: 0 <= j < i ==> wires[j] == EncodeNode(contents[ids[j]])
    {
      var wire := EncodeNodeWire(nodes[order[i]]);
      wires := wires + [wire];
    }
    EncodedNodesAre(contents, ids, wires);
  }

  method EncodeRow(g: Graph, at: nat, ghost contents: map<string, Content>, ghost all: EdgeMap) returns (row: seq<WireEdge>)
    requires g.Valid() && Files(g.nodes, contents) && all == g.Edges() && Live(g.nodes, at)
    ensures row == EncodedEdges(contents, all, RowPairs(all, IdAt(g.nodes, at)))
  {
    hide *;
    RowPairsMeans(all, IdAt(g.nodes, at));
    var slots := g.ChildSlots(at);
    ghost var pairs := RowPairs(all, IdAt(g.nodes, at));
    SlotsArePairs(g, at, slots);
    RecordedKinds(g, at, slots, contents);
    row := [];
    for i := 0 to |slots|
      invariant |row| == i && forall j :: 0 <= j < i ==> row[j] == EncodeEdge(contents, pairs[j].0, pairs[j].1, KindOn(all, pairs[j]))
    {
      var from, to := g.nodes[at], g.nodes[slots[i]];
      var kind := g.outgoing[at][slots[i]];
      var edge := WireEdge(from.id, to.id, if kind == DeriveEdgeKind(from.kind, to.kind) then Unstated else kind);
      row := row + [edge];
    }
    EncodedAre(contents, all, pairs, row);
  }

  lemma EncodedAre(contents: map<string, Content>, all: EdgeMap, pairs: seq<(string, string)>, row: seq<WireEdge>)
    requires |row| == |pairs|
    requires forall j :: 0 <= j < |row| ==> row[j] == EncodeEdge(contents, pairs[j].0, pairs[j].1, KindOn(all, pairs[j]))
    ensures row == EncodedEdges(contents, all, pairs)
  {
  }

  /** What the slot table stores for each child is the edge and the kind the payload states. */
  lemma RecordedKinds(g: Graph, at: nat, slots: seq<nat>, contents: map<string, Content>)
    requires g.Valid() && Files(g.nodes, contents) && Live(g.nodes, at)
    requires forall i :: 0 <= i < |slots| ==> Live(g.nodes, slots[i]) && (IdAt(g.nodes, at), IdAt(g.nodes, slots[i])) in g.Edges()
    ensures at < |g.outgoing| && at < |g.nodes| && g.nodes[at] != null
    ensures forall i :: 0 <= i < |slots| ==>
              && slots[i] in g.outgoing[at] && slots[i] < |g.nodes| && g.nodes[slots[i]] != null
              && var from, to := g.nodes[at], g.nodes[slots[i]];
                 var kind := g.outgoing[at][slots[i]];
                 WireEdge(from.id, to.id, if kind == DeriveEdgeKind(from.kind, to.kind) then Unstated else kind)
                 == EncodeEdge(contents, IdAt(g.nodes, at), IdAt(g.nodes, slots[i]), KindOn(g.Edges(), (IdAt(g.nodes, at), IdAt(g.nodes, slots[i]))))
  {
    hide TableOk;
    g.TableLengths();
    forall i | 0 <= i < |slots|
      ensures slots[i] in g.outgoing[at] && g.outgoing[at][slots[i]] == g.Edges()[(IdAt(g.nodes, at), IdAt(g.nodes, slots[i]))]
    {
      g.ArcIsEdge(at, slots[i]);
    }
  }

  lemma SlotsArePairs(g: Graph, at: nat, slots: seq<nat>)
    requires g.Valid() && Live(g.nodes, at) && SlotsInOrder(g.nodes, slots)
    requires forall j: nat :: j in slots <==> Live(g.nodes, j) && Edge(g.Abs(), IdAt(g.nodes, at), IdAt(g.nodes, j))
    ensures var pairs := RowPairs(g.Edges(), IdAt(g.nodes, at));
            |pairs| == |slots| && forall i :: 0 <= i < |slots| ==>
              Live(g.nodes, slots[i]) && pairs[i] == (IdAt(g.nodes, at), IdAt(g.nodes, slots[i])) && pairs[i] in g.Edges()
  {
    hide TableOk;
    hide RowPairs;
    g.AbsWellFormed();
    g.IndexTable();
    PairsOfSlots(g.indexByID, g.nodes, g.Abs(), IdAt(g.nodes, at), slots);
  }

  lemma PairsOfSlots(index: map<string, nat>, nodes: seq<Node?>, v: View, id: string, slots: seq<nat>)
    requires IndexOk(index, nodes) && WellFormed(v) && v.ids == index.Keys && SlotsInOrder(nodes, slots)
    requires forall j: nat :: j in slots <==> Live(nodes, j) && Edge(v, id, IdAt(nodes, j))
    ensures var pairs := RowPairs(v.edges, id);
            |pairs| == |slots| && forall i :: 0 <= i < |slots| ==>
              Live(nodes, slots[i]) && pairs[i] == (id, IdAt(nodes, slots[i])) && pairs[i] in v.edges
  {
    hide RowPairs;
    var pairs, mine := RowPairs(v.edges, id), SlotPairs(nodes, id, slots);
    RowPairsMeans(v.edges, id);
    SlotPairsMean(index, nodes, v, id, slots);
    PairOrder();
    assert Elems(mine) == Elems(pairs);
    IncreasingIsUnique(PairLess, mine, pairs);
    assert forall i :: 0 <= i < |pairs| ==> pairs[i] in pairs;
  }

  ghost function SlotPairs(nodes: seq<Node?>, id: string, slots: seq<nat>): seq<(string, string)>
  {
    seq(|slots|, i requires 0 <= i < |slots| => (id, IdAt(nodes, slots[i])))
  }

  lemma SlotPairsMean(index: map<string, nat>, nodes: seq<Node?>, v: View, id: string, slots: seq<nat>)
    requires IndexOk(index, nodes) && WellFormed(v) && v.ids == index.Keys && SlotsInOrder(nodes, slots)
    requires forall j: nat :: j in slots <==> Live(nodes, j) && Edge(v, id, IdAt(nodes, j))
    ensures var mine := SlotPairs(nodes, id, slots);
            Increasing(PairLess, mine) && forall e :: e in mine <==> e in v.edges && e.0 == id
  {
    var mine := SlotPairs(nodes, id, slots);
    forall e | e in mine ensures e in v.edges && e.0 == id {
      var i :| 0 <= i < |mine| && mine[i] == e;
      assert slots[i] in slots;
    }
    forall e | e in v.edges && e.0 == id ensures e in mine {
      assert e == (id, e.1) && Edge(v, id, e.1) && e.1 in v.ids;
      assert Live(nodes, index[e.1]);
      assert index[e.1] in slots;
      var i :| 0 <= i < |slots| && slots[i] == index[e.1];
      assert mine[i] == e;
    }
  }

  lemma SlotsOfIds(nodes: seq<Node?>, order: seq<nat>, ids: seq<string>, all: set<string>)
    requires InIdOrder(nodes, order, ids, all)
    ensures |ids| == |order| && Increasing(Less, ids)
    ensures forall i :: 0 <= i < |order| ==> Live(nodes, order[i]) && ids[i] == IdAt(nodes, order[i])
  {
  }

  method EncodeEdges(g: Graph, order: seq<nat>, ghost contents: map<string, Content>, ghost all: EdgeMap,
                     ghost ids: seq<string>) returns (edges: seq<WireEdge>, ghost pairs: seq<(string, string)>)
    requires g.Valid() && Files(g.nodes, contents) && all == g.Edges() && InIdOrder(g.nodes, order, ids, contents.Keys)
    ensures RowsDone(contents, all, ids, |ids|, pairs, edges)
  {
    SlotsOfIds(g.nodes, order, ids, contents.Keys);
    hide *;
    edges, pairs := [], [];
    NoRows(contents, all, ids);
    for i := 0 to |order|
      invariant RowsDone(contents, all, ids, i, pairs, edges)
    {
      var row := EncodeRow(g, order[i], contents, all);
      RowAdded(contents, all, ids, i, pairs, edges);
      edges, pairs := edges + row, pairs + RowPairs(all, ids[i]);
    }
  }

  method OrderedSlots(g: Graph) returns (order: seq<nat>, ghost ids: seq<string>)
    requires g.Valid()
    ensures InIdOrder(g.nodes, order, ids, g.ContentMap().Keys)
  {
    hide InIdOrder;
    g.IndexTable();
    GraphIsEncodable(g);
    order := g.SortedIndices();
    ids := IdsAt(g.nodes, order);
    OrderListsIds(g.indexByID, g.nodes, order);
  }

  /** The payload is a function of the graph's content: slot history leaves no trace in it. */
  method Marshal(g: Graph) returns (p: Payload)
    requires g.Valid()
    ensures p == Encode(g.ContentMap(), g.Edges()) && Written(g.ContentMap(), g.Edges(), p)
  {
    hide *;
    GraphIsEncodable(g);
    EncodeMeans(g.ContentMap(), g.Edges());
    var order, ids := OrderedSlots(g);
    ghost var contents, all := g.ContentMap(), g.Edges();
    var nodes := EncodeNodes(g.nodes, order, contents, ids);
    var edges, pairs := EncodeEdges(g, order, contents, all, ids);
    RowsComplete(contents, all, g.nodes, order, ids, pairs, edges);
    p := Payload(nodes, edges);
  }

  // ----- Decoding

  lemma ValuesAfter(before: map<string, Node>, after: map<string, Node>, node: Node, mine: set<Node>)
    requires before.Values <= mine && node in mine && (after == before || after == before[node.id := node])
    ensures after.Values <= mine
  {
    forall n | n in after.Values ensures n in mine {
      var id :| id in after && after[id] == n;
      assert id in before && before[id] == n ==> n in before.Values;
    }
  }

  /** One minted node joins the graph, or folds into the node already there. */
  method InsertMinted(out: Graph, c: Content, ghost mine: set<Node>) returns (r: Decode<string>, ghost mine': set<Node>)
    requires out.Valid() && out.NodeMap().Values <= mine
    modifies out, mine
    ensures out.Valid() && out.Edges() == old(out.Edges())
    ensures out.NodeMap().Values <= mine' && mine <= mine' && fresh(mine' - mine)
    ensures r == if c.id == "" then Bad(EmptyIdentity) else Good(c.id)
    ensures c.id != "" ==> out.ContentMap() == Folded(old(out.ContentMap()), c)
  {
    hide *;
    ghost var before := out.ContentMap();
    var node := new Node(c);
    assert out.ContentMap() == before;
    mine' := mine + {node};
    var inserted := out.InsertNode(node);
    out.NodesFiled();
    ValuesAfter(old(out.NodeMap()), out.NodeMap(), node, mine');
    r := if inserted.Failure? then Bad(EmptyIdentity) else Good(inserted.value.id);
  }

  lemma {:induction false} BadPrefix(gate: Gate, nodes: seq<WireNode>, i: nat)
    requires i <= |nodes| && DecodeNodes(gate, nodes[..i]).Bad?
    ensures DecodeNodes(gate, nodes) == DecodeNodes(gate, nodes[..i])
    decreases |nodes| - i
  {
    if i < |nodes| {
      assert nodes[..i + 1][..i] == nodes[..i];
      BadPrefix(gate, nodes, i + 1);
    } else {
      TakeAll(nodes);
    }
  }

  lemma {:induction false} BadEdgePrefix(contents: map<string, Content>, names: map<string, string>, edges: seq<WireEdge>, i: nat)
    requires i <= |edges| && DecodeEdges(contents, names, edges[..i]).Bad?
    ensures DecodeEdges(contents, names, edges) == DecodeEdges(contents, names, edges[..i])
    decreases |edges| - i
  {
    if i < |edges| {
      assert edges[..i + 1][..i] == edges[..i];
      BadEdgePrefix(contents, names, edges, i + 1);
    } else {
      TakeAll(edges);
    }
  }

  lemma NextNode(gate: Gate, nodes: seq<WireNode>, i: nat)
    requires i < |nodes| && DecodeNodes(gate, nodes[..i]).Good?
    ensures DecodeNodes(gate, nodes[..i + 1]) == DecodeNode(gate, DecodeNodes(gate, nodes[..i]).value, nodes[i])
  {
    assert nodes[..i + 1][..i] == nodes[..i];
  }

  lemma NextEdge(contents: map<string, Content>, names: map<string, string>, edges: seq<WireEdge>, i: nat)
    requires i < |edges| && DecodeEdges(contents, names, edges[..i]).Good?
    ensures DecodeEdges(contents, names, edges[..i + 1]) ==
            DecodeEdge(contents, names, DecodeEdges(contents, names, edges[..i]).value, edges[i])
  {
    assert edges[..i + 1][..i] == edges[..i];
  }

  lemma NoNodes(gate: Gate, nodes: seq<WireNode>, out: Graph)
    requires out.Valid() && out.NodeMap() == map[]
    ensures DecodeNodes(gate, nodes[..0]) == Good(Roster(out.ContentMap(), map[]))
    ensures out.ContentMap() == map[]
  {
    out.ContentsFiled();
  }

  lemma DecodeNodeIs(gate: Gate, d: Roster, w: WireNode)
    ensures gate(w).None? ==> DecodeNode(gate, d, w) == Bad(BadNode)
    ensures gate(w).Some? && gate(w).value.id == "" ==> DecodeNode(gate, d, w) == Bad(EmptyIdentity)
    ensures gate(w).Some? && gate(w).value.id != "" && Claim(d.names, w.id, gate(w).value.id).Bad? ==>
              DecodeNode(gate, d, w) == Bad(Claim(d.names, w.id, gate(w).value.id).error)
    ensures gate(w).Some? && gate(w).value.id != "" && Claim(d.names, w.id, gate(w).value.id).Good? ==>
              DecodeNode(gate, d, w) == Good(Roster(Folded(d.contents, gate(w).value), Claim(d.names, w.id, gate(w).value.id).value))
  {
  }

  lemma AliasAdded(contents: map<string, Content>, c: Content, aliases: seq<string>)
    requires forall x :: x in aliases <==> x in contents
    ensures forall x :: x in aliases + [c.id] <==> x in Folded(contents, c)
  {
  }

  method DecodeNodeList(out: Graph, nodes: seq<WireNode>, gate: Gate)
    returns (r: Decode<(map<string, string>, seq<string>)>, ghost mine: set<Node>)
    requires out.Valid() && out.NodeMap() == map[] && out.Edges() == map[]
    modifies out
    ensures out.Valid() && out.Edges() == map[]
    ensures out.NodeMap().Values <= mine && fresh(mine)
    ensures r.Bad? ==> DecodeNodes(gate, nodes) == Bad(r.error)
    ensures r.Good? ==> DecodeNodes(gate, nodes) == Good(Roster(out.ContentMap(), r.value.0))
                        && forall x :: x in r.value.1 <==> x in out.ContentMap()
  {
    hide *;
    var names: map<string, string>, aliases: seq<string> := map[], [];
    mine := {};
    NoNodes(gate, nodes, out);
    for i := 0 to |nodes|
      invariant out.Valid() && out.Edges() == map[] && out.NodeMap().Values <= mine && fresh(mine)
      invariant DecodeNodes(gate, nodes[..i]) == Good(Roster(out.ContentMap(), names))
      invariant forall x :: x in aliases <==> x in out.ContentMap()
    {
      NextNode(gate, nodes, i);
      ghost var d := Roster(out.ContentMap(), names);
      DecodeNodeIs(gate, d, nodes[i]);
      var minted := gate(nodes[i]);
      if minted.None? {
        BadPrefix(gate, nodes, i + 1);
        return Bad(BadNode), mine;
      }
      var inserted;
      inserted, mine := InsertMinted(out, minted.value, mine);
      if inserted.Bad? {
        BadPrefix(gate, nodes, i + 1);
        return Bad(inserted.error), mine;
      }
      var claimed := Claim(names, nodes[i].id, inserted.value);
      if claimed.Bad? {
        BadPrefix(gate, nodes, i + 1);
        return Bad(claimed.error), mine;
      }
      names := claimed.value;
      AliasAdded(d.contents, minted.value, aliases);
      aliases := aliases + [inserted.value];
    }
    TakeAll(nodes);
    return Good((names, aliases)), mine;
  }

  method FillAliases(names: map<string, string>, aliases: seq<string>, ghost d: Roster) returns (all: map<string, string>)
    requires names == d.names && forall x :: x in aliases <==> x in d.contents
    ensures all == AllNames(d)
  {
    all := names;
    for i := 0 to |aliases|
      invariant forall x :: x in all <==> x in names || x in aliases[..i]
      invariant forall x :: x in all ==> all[x] == if x in names then names[x] else x
    {
      TakeSnoc(aliases, i);
      if aliases[i] !in all {
        all := all[aliases[i] := aliases[i]];
      }
    }
    TakeAll(aliases);
  }

  lemma NamesAreNodes(gate: Gate, nodes: seq<WireNode>, d: Roster)
    requires DecodeNodes(gate, nodes) == Good(d)
    ensures forall x :: x in AllNames(d) ==> AllNames(d)[x] in d.contents
  {
    NodesAccepted(gate, nodes);
    forall x | x in d.names ensures d.names[x] in d.contents {
      assert StatedBy(nodes, x);
      var w :| w in nodes && w.id == x;
      assert MintedBy(gate, nodes, IdOf(gate, w));
    }
  }

  lemma DecodeEdgeIs(g: Graph, names: map<string, string>, e: WireEdge)
    requires g.Valid()
    ensures e.from !in names || e.to !in names ==> DecodeEdge(g.ContentMap(), names, g.Edges(), e) == Bad(UnknownEndpoint)
    ensures e.from in names && e.to in names && names[e.from] == names[e.to] ==>
              DecodeEdge(g.ContentMap(), names, g.Edges(), e) == Good(g.Edges())
    ensures e.from in names && e.to in names && names[e.from] != names[e.to] && names[e.from] in g.NodeMap() && names[e.to] in g.NodeMap() ==>
              DecodeEdge(g.ContentMap(), names, g.Edges(), e) ==
              Good(WithEdge(g.Edges(), names[e.from], names[e.to], if e.kind == Unstated
                            then DeriveEdgeKind(g.NodeMap()[names[e.from]].kind, g.NodeMap()[names[e.to]].kind) else e.kind))
  {
    g.ContentsFiled();
    hide TableOk;
    hide SlotTables.ContentsOf;
  }

  method DecodeEdgeList(out: Graph, edges: seq<WireEdge>, names: map<string, string>) returns (r: Option<DecodeError>)
    requires out.Valid() && out.Edges() == map[] && forall x :: x in names ==> names[x] in out.NodeMap()
    modifies out
    ensures out.Valid() && out.NodeMap() == old(out.NodeMap()) && out.ContentMap() == old(out.ContentMap())
    ensures DecodeEdges(old(out.ContentMap()), names, edges) == if r.Some? then Bad(r.value) else Good(out.Edges())
  {
    hide *;
    ghost var contents := out.ContentMap();
    NoEdges(contents, names, edges);
    for i := 0 to |edges|
      invariant out.Valid() && out.NodeMap() == old(out.NodeMap()) && out.ContentMap() == contents
      invariant DecodeEdges(contents, names, edges[..i]) == Good(out.Edges())
    {
      NextEdge(contents, names, edges, i);
      DecodeEdgeIs(out, names, edges[i]);
      out.NodesFiled();
      if edges[i].from !in names || edges[i].to !in names {
        BadEdgePrefix(contents, names, edges, i + 1);
        return Some(UnknownEndpoint);
      }
      var from, to := names[edges[i].from], names[edges[i].to];
      if from != to {
        var added := out.AddTypedEdge(from, to, edges[i].kind);
      }
    }
    TakeAll(edges);
    return None;
  }

  lemma NoEdges(contents: map<string, Content>, names: map<string, string>, edges: seq<WireEdge>)
    ensures DecodeEdges(contents, names, edges[..0]) == Good(map[])
  {
  }

  lemma PayloadIs(gate: Gate, p: Payload)
    ensures DecodePayload(gate, p) ==
            if DecodeNodes(gate, p.nodes).Bad? then Bad(DecodeNodes(gate, p.nodes).error)
            else
              var d := DecodeNodes(gate, p.nodes).value;
              var m := DecodeEdges(d.contents, AllNames(d), p.edges);
              if m.Bad? then Bad(m.error) else Good((d.contents, m.value))
  {
  }

  /** The receiver is overwritten only when the whole payload decodes. */
  method Unmarshal(g: Graph, doc: Document, gate: Gate) returns (r: Option<DecodeError>)
    modifies g
    ensures DecodeDocument(gate, doc).Bad? ==> r == Some(DecodeDocument(gate, doc).error) && unchanged(g)
    ensures DecodeDocument(gate, doc).Good? ==> r == None && g.Valid() && (g.ContentMap(), g.Edges()) == DecodeDocument(gate, doc).value
  {
    hide *;
    DocumentIs(gate, doc);
    var out := new Graph();
    out.ContentsFiled();
    if doc == NullDocument {
      g.Overwrite(out);
      return None;
    }
    r := DecodeInto(out, doc.payload, gate);
    if r.None? {
      g.Overwrite(out);
    }
  }

  lemma DocumentIs(gate: Gate, doc: Document)
    ensures DecodeDocument(gate, doc) == if doc == NullDocument then Good((map[], map[])) else DecodePayload(gate, doc.payload)
  {
  }

  /** Nodes, then names, then edges, into an empty graph. */
  method DecodeInto(out: Graph, p: Payload, gate: Gate) returns (r: Option<DecodeError>)
    requires out.Valid() && out.NodeMap() == map[] && out.Edges() == map[]
    modifies out
    ensures r.None? ==> out.Valid() && DecodePayload(gate, p) == Good((out.ContentMap(), out.Edges()))
    ensures r.Some? ==> DecodePayload(gate, p) == Bad(r.value)
  {
    hide *;
    PayloadIs(gate, p);
    var decoded, mine := DecodeNodeList(out, p.nodes, gate);
    if decoded.Bad? {
      return Some(decoded.error);
    }
    ghost var d := Roster(out.ContentMap(), decoded.value.0);
    out.ContentsFiled();
    NamesAreNodes(gate, p.nodes, d);
    var names := FillAliases(decoded.value.0, decoded.value.1, d);
    r := DecodeEdgeList(out, p.edges, names);
  }
}
