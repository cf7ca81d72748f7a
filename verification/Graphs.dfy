/** What a graph means, with no slots in it: identities and kinded edges between them. */
module Views {
  import opened Orders
  import opened EdgeKinds

  type EdgeMap = map<(string, string), EdgeKind>

  datatype View = View(ids: set<string>, edges: EdgeMap)

  ghost predicate WellFormed(v: View)
  {
    forall e :: e in v.edges ==> e.0 in v.ids && e.1 in v.ids && e.0 != e.1 && v.edges[e] != Unstated
  }

  ghost predicate Edge(v: View, a: string, b: string)
  {
    (a, b) in v.edges
  }

  lemma NoEdgesAt(v: View, id: string)
    requires WellFormed(v) && id !in v.ids
    ensures WithoutNode(v.edges, id) == v.edges
  {
  }

  lemma NoKey<K, V>(m: map<K, V>, k: K)
    requires k !in m
    ensures m - {k} == m
  {
  }

  /** The identities an identity points at, in order. */
  ghost function ChildIds(all: EdgeMap, id: string): seq<string>
  {
    LessIsStrictTotal();
    SortedSeq(Less, (set e | e in all && e.0 == id :: e.1))
  }

  /** The edge map after one stated or derived kind is added between two nodes. */
  ghost function WithEdge(edges: EdgeMap, from: string, to: string, kind: EdgeKind): EdgeMap
  {
    edges[(from, to) := if (from, to) in edges then MergeEdgeKind(edges[(from, to)], kind) else kind]
  }

  /** The edges of a map with keys in `keys`. */
  ghost function Only(edges: EdgeMap, keys: set<(string, string)>): EdgeMap
  {
    map e | e in edges && e in keys :: edges[e]
  }

  ghost function WithoutNode(edges: EdgeMap, id: string): EdgeMap
  {
    map e | e in edges && e.0 != id && e.1 != id :: edges[e]
  }
}

/** The slot table of model/graph.go on values: its invariant, what it means, and what each
    primitive update does to both. */
module SlotTables {
  import opened Orders
  import opened EdgeKinds
  import opened Nodes
  import opened Views

  type Adjacency = seq<map<nat, EdgeKind>>

  ghost predicate Live(nodes: seq<Node?>, i: nat)
  {
    i < |nodes| && nodes[i] != null
  }

  /** The ID index and the live slots name each other. */
  ghost predicate IndexOk(index: map<string, nat>, nodes: seq<Node?>)
  {
    && (forall id :: id in index ==> Live(nodes, index[id]) && nodes[index[id]].id == id)
    && (forall i :: 0 <= i < |nodes| && nodes[i] != null ==>
          nodes[i].id != "" && nodes[i].id in index && index[nodes[i].id] == i)
  }

  /** The ID a live slot holds. */
  function IdAt(nodes: seq<Node?>, slot: nat): string
  {
    if slot < |nodes| && nodes[slot] != null then nodes[slot].id else ""
  }

  /** The IDs some slots hold, in turn. */
  ghost function IdsAt(nodes: seq<Node?>, slots: seq<nat>): seq<string>
  {
    seq(|slots|, i requires 0 <= i < |slots| => IdAt(nodes, slots[i]))
  }

  ghost function LiveSlots(nodes: seq<Node?>): set<nat>
  {
    set s: nat | s < |nodes| && Live(nodes, s)
  }

  /** Live slots in strictly increasing ID order. */
  ghost predicate SlotsInOrder(nodes: seq<Node?>, slots: seq<nat>)
  {
    && (forall i :: 0 <= i < |slots| ==> Live(nodes, slots[i]))
    && (forall i, j :: 0 <= i < j < |slots| ==> Less(IdAt(nodes, slots[i]), IdAt(nodes, slots[j])))
  }

  ghost predicate AliveOk(nodes: seq<Node?>, alive: seq<bool>)
  {
    |alive| == |nodes| && forall i :: 0 <= i < |nodes| ==> (alive[i] <==> nodes[i] != null)
  }

  /** The free list is the dead slots, each once. */
  ghost predicate FreeOk(nodes: seq<Node?>, free: seq<nat>)
  {
    && (forall k :: 0 <= k < |free| ==> free[k] < |nodes| && nodes[free[k]] == null)
    && (forall k, l :: 0 <= k < l < |free| ==> free[k] != free[l])
    && (forall i :: 0 <= i < |nodes| && nodes[i] == null ==> i in free)
  }

  ghost predicate Arc(table: Adjacency, i: nat, j: nat)
  {
    i < |table| && j in table[i]
  }

  /** Incoming mirrors outgoing kind for kind; no self-edge, no dead slot, no unstated kind. */
  ghost predicate EdgesOk(nodes: seq<Node?>, outgoing: Adjacency, incoming: Adjacency)
  {
    && |outgoing| == |incoming| == |nodes|
    && (forall i: nat, j: nat :: Arc(outgoing, i, j) ==>
          && Live(nodes, i) && Live(nodes, j) && i != j && outgoing[i][j] != Unstated
          && Arc(incoming, j, i) && incoming[j][i] == outgoing[i][j])
    && (forall i: nat, j: nat :: Arc(incoming, j, i) ==> Arc(outgoing, i, j))
  }

  ghost predicate TableOk(index: map<string, nat>, nodes: seq<Node?>, alive: seq<bool>,
                          outgoing: Adjacency, incoming: Adjacency, free: seq<nat>, size: int)
  {
    && IndexOk(index, nodes) && AliveOk(nodes, alive) && FreeOk(nodes, free)
    && EdgesOk(nodes, outgoing, incoming) && size == |index|
  }

  ghost function NodesOf(index: map<string, nat>, nodes: seq<Node?>): map<string, Node>
    requires IndexOk(index, nodes)
  {
    map id | id in index :: nodes[index[id]]
  }

  ghost function ContentsOf(index: map<string, nat>, nodes: seq<Node?>): map<string, Content>
    reads nodes
    requires IndexOk(index, nodes)
  {
    map id | id in index :: nodes[index[id]].Contents()
  }

  ghost predicate Joined(index: map<string, nat>, outgoing: Adjacency, a: string, b: string)
  {
    a in index && b in index && Arc(outgoing, index[a], index[b])
  }

  ghost function EdgesOf(index: map<string, nat>, outgoing: Adjacency): EdgeMap
  {
    map a, b | a in index && b in index && Joined(index, outgoing, a, b) :: (a, b) := outgoing[index[a]][index[b]]
  }

  /** The table after one adjacency entry is written, or dropped. */
  function Put(table: Adjacency, i: nat, j: nat, kind: EdgeKind): Adjacency
    requires i < |table|
  {
    var row: map<nat, EdgeKind> := table[i];
    table[i := row[j := kind]]
  }

  function Drop(table: Adjacency, i: nat, j: nat): Adjacency
    requires i < |table|
  {
    var row: map<nat, EdgeKind> := table[i];
    table[i := row - {j}]
  }

  lemma EdgesAfterPut(index: map<string, nat>, nodes: seq<Node?>, outgoing: Adjacency, a: string, b: string, kind: EdgeKind)
    requires IndexOk(index, nodes) && |outgoing| == |nodes| && a in index && b in index
    ensures EdgesOf(index, Put(outgoing, index[a], index[b], kind)) == EdgesOf(index, outgoing)[(a, b) := kind]
  {
    var after := Put(outgoing, index[a], index[b], kind);
    forall x, y ensures Joined(index, after, x, y) <==> (x, y) == (a, b) || Joined(index, outgoing, x, y) {
    }
  }

  lemma EdgesAfterCut(index: map<string, nat>, nodes: seq<Node?>, outgoing: Adjacency, a: string, b: string)
    requires IndexOk(index, nodes) && |outgoing| == |nodes| && a in index && b in index
    ensures EdgesOf(index, Drop(outgoing, index[a], index[b])) == EdgesOf(index, outgoing) - {(a, b)}
  {
    var after := Drop(outgoing, index[a], index[b]);
    forall x, y ensures Joined(index, after, x, y) <==> (x, y) != (a, b) && Joined(index, outgoing, x, y) {
    }
  }

  lemma PutKeepsEdges(nodes: seq<Node?>, outgoing: Adjacency, incoming: Adjacency, i: nat, j: nat, kind: EdgeKind)
    requires EdgesOk(nodes, outgoing, incoming) && Live(nodes, i) && Live(nodes, j) && i != j && kind != Unstated
    ensures EdgesOk(nodes, Put(outgoing, i, j, kind), Put(incoming, j, i, kind))
  {
    var out', in' := Put(outgoing, i, j, kind), Put(incoming, j, i, kind);
    forall x: nat, y: nat
      ensures Arc(out', x, y) <==> (x, y) == (i, j) || Arc(outgoing, x, y)
      ensures Arc(in', y, x) <==> (x, y) == (i, j) || Arc(incoming, y, x)
    {
    }
  }

  lemma CutKeepsEdges(nodes: seq<Node?>, outgoing: Adjacency, incoming: Adjacency, i: nat, j: nat)
    requires EdgesOk(nodes, outgoing, incoming) && Live(nodes, i) && Live(nodes, j)
    ensures EdgesOk(nodes, Drop(outgoing, i, j), Drop(incoming, j, i))
  {
    var out', in' := Drop(outgoing, i, j), Drop(incoming, j, i);
    forall x: nat, y: nat
      ensures Arc(out', x, y) <==> (x, y) != (i, j) && Arc(outgoing, x, y)
      ensures Arc(in', y, x) <==> (x, y) != (i, j) && Arc(incoming, y, x)
    {
    }
  }

  /** A dead slot has no edges, so filling it adds a node and nothing else. */
  lemma FillSlot(index: map<string, nat>, nodes: seq<Node?>, outgoing: Adjacency, incoming: Adjacency, slot: nat, node: Node)
    requires IndexOk(index, nodes) && EdgesOk(nodes, outgoing, incoming)
    requires slot < |nodes| && nodes[slot] == null && node.id != "" && node.id !in index
    ensures IndexOk(index[node.id := slot], nodes[slot := node])
    ensures EdgesOk(nodes[slot := node], outgoing[slot := map[]], incoming[slot := map[]])
    ensures NodesOf(index[node.id := slot], nodes[slot := node]) == NodesOf(index, nodes)[node.id := node]
    ensures EdgesOf(index[node.id := slot], outgoing[slot := map[]]) == EdgesOf(index, outgoing)
  {
    FillNodes(index, nodes, slot, node);
    hide IndexOk, NodesOf;
    FillEdges(nodes, outgoing, incoming, slot, node);
    hide EdgesOk;
    FillMeaning(index, nodes, outgoing, slot, node);
  }

  lemma FillNodes(index: map<string, nat>, nodes: seq<Node?>, slot: nat, node: Node)
    requires IndexOk(index, nodes) && slot < |nodes| && nodes[slot] == null && node.id != "" && node.id !in index
    ensures IndexOk(index[node.id := slot], nodes[slot := node])
    ensures NodesOf(index[node.id := slot], nodes[slot := node]) == NodesOf(index, nodes)[node.id := node]
    ensures forall id :: id in index ==> index[id] < |nodes| && index[id] != slot
  {
  }

  /** No arc starts or ends at a dead slot, so emptying its row takes none away. */
  lemma FillEdges(nodes: seq<Node?>, outgoing: Adjacency, incoming: Adjacency, slot: nat, node: Node)
    requires EdgesOk(nodes, outgoing, incoming) && slot < |nodes| && nodes[slot] == null
    ensures EdgesOk(nodes[slot := node], outgoing[slot := map[]], incoming[slot := map[]])
    ensures |outgoing| == |nodes| && forall i: nat, j: nat :: Arc(outgoing[slot := map[]], i, j) <==> Arc(outgoing, i, j)
    ensures forall i: nat, j: nat :: Arc(outgoing, i, j) ==> i != slot && j != slot
  {
    var out', in', nodes' := outgoing[slot := map[]], incoming[slot := map[]], nodes[slot := node];
    forall i: nat, j: nat
      ensures Arc(out', i, j) <==> Arc(outgoing, i, j)
      ensures Arc(in', j, i) <==> Arc(incoming, j, i)
      ensures Arc(outgoing, i, j) ==> i != slot && j != slot
    {
    }
    forall i: nat | Live(nodes, i) ensures Live(nodes', i) {
    }
  }

  lemma FillMeaning(index: map<string, nat>, nodes: seq<Node?>, outgoing: Adjacency, slot: nat, node: Node)
    requires |outgoing| == |nodes| && slot < |nodes| && node.id !in index
    requires forall id :: id in index ==> index[id] < |nodes| && index[id] != slot
    requires forall i: nat, j: nat :: Arc(outgoing[slot := map[]], i, j) <==> Arc(outgoing, i, j)
    requires forall i: nat, j: nat :: Arc(outgoing, i, j) ==> i != slot && j != slot
    ensures EdgesOf(index[node.id := slot], outgoing[slot := map[]]) == EdgesOf(index, outgoing)
  {
    var out', index' := outgoing[slot := map[]], index[node.id := slot];
    forall x, y ensures Joined(index', out', x, y) <==> Joined(index, outgoing, x, y)
                ensures Joined(index, outgoing, x, y) ==> x in index && y in index && out'[index'[x]][index'[y]] == outgoing[index[x]][index[y]]
    {
      StillJoined(index, outgoing, slot, node.id, x, y);
    }
    hide Joined;
    assert forall x, y :: (x, y) in EdgesOf(index, outgoing) <==> Joined(index, outgoing, x, y);
  }

  lemma StillJoined(index: map<string, nat>, outgoing: Adjacency, slot: nat, id: string, x: string, y: string)
    requires slot < |outgoing| && id !in index && forall z :: z in index ==> index[z] < |outgoing| && index[z] != slot
    requires forall i: nat, j: nat :: Arc(outgoing[slot := map[]], i, j) <==> Arc(outgoing, i, j)
    requires forall i: nat, j: nat :: Arc(outgoing, i, j) ==> i != slot && j != slot
    ensures Joined(index[id := slot], outgoing[slot := map[]], x, y) <==> Joined(index, outgoing, x, y)
    ensures Joined(index, outgoing, x, y) ==>
              outgoing[slot := map[]][index[id := slot][x]][index[id := slot][y]] == outgoing[index[x]][index[y]]
  {
    var out', index' := outgoing[slot := map[]], index[id := slot];
    if x in index' && y in index' {
      assert Arc(out', index'[x], index'[y]) <==> Arc(outgoing, index'[x], index'[y]);
    }
  }

  /** The tables with every arc at `slot` detached. */
  ghost predicate Detached(table: Adjacency, slot: nat, after: Adjacency)
  {
    && |after| == |table| && slot < |table| && after[slot] == map[]
    && forall i :: 0 <= i < |table| && i != slot ==> after[i] == table[i] - {slot}
  }

  lemma DetachedArcs(table: Adjacency, slot: nat, after: Adjacency)
    requires Detached(table, slot, after)
    ensures forall i: nat, j: nat :: Arc(after, i, j) <==> i != slot && j != slot && Arc(table, i, j)
    ensures forall i: nat, j: nat :: Arc(after, i, j) ==> after[i][j] == table[i][j]
  {
  }

  /** Emptying a slot whose edges are detached removes a node and its edges. */
  lemma EmptySlotKeeps(index: map<string, nat>, nodes: seq<Node?>, outgoing: Adjacency, incoming: Adjacency, id: string,
                       out': Adjacency, in': Adjacency)
    requires IndexOk(index, nodes) && EdgesOk(nodes, outgoing, incoming) && id in index
    requires Detached(outgoing, index[id], out') && Detached(incoming, index[id], in')
    ensures IndexOk(index - {id}, nodes[index[id] := null])
    ensures EdgesOk(nodes[index[id] := null], out', in')
    ensures NodesOf(index - {id}, nodes[index[id] := null]) == NodesOf(index, nodes) - {id}
  {
    DetachedArcs(outgoing, index[id], out');
    DetachedArcs(incoming, index[id], in');
  }

  lemma EmptySlotMeans(index: map<string, nat>, nodes: seq<Node?>, outgoing: Adjacency, id: string, out': Adjacency)
    requires IndexOk(index, nodes) && id in index && Detached(outgoing, index[id], out')
    ensures EdgesOf(index - {id}, out') == WithoutNode(EdgesOf(index, outgoing), id)
  {
    DetachedArcs(outgoing, index[id], out');
    forall x, y ensures Joined(index - {id}, out', x, y) <==> x != id && y != id && Joined(index, outgoing, x, y) {
    }
  }
}

/** The slot table as the mutable object of model/graph.go. */
module Graphs {
  import opened Orders
  import opened EdgeKinds
  import opened Nodes
  import opened Views
  import opened SlotTables

  datatype GraphError = NilNode | EmptyNodeId | NodeAlreadyExists | NodeNotFound | SelfDependency | CycleDetected
  datatype Outcome = Ok | Fail(error: GraphError)
  datatype Result<+T> = Success(value: T) | Failure(error: GraphError)

  /** What a graph says: what each node holds, and the kind of each edge. */
  datatype Plain = Plain(contents: map<string, Content>, edges: EdgeMap)

  /** One pair is recorded and no other changes. A new pair takes the kind stated, and with none stated describes a
      module in a manifest and claims a dependency otherwise; on a pair already there a claim on either side wins, and
      without one the old kind stands. */
  ghost predicate Records(before: EdgeMap, after: EdgeMap, e: (string, string), stated: EdgeKind, from: NodeKind, to: NodeKind)
  {
    && after.Keys == before.Keys + {e} && (forall f :: f in before && f != e ==> after[f] == before[f])
    && var claims := stated == DependsOn || (stated == Unstated && !(from == ManifestKind && to == ModuleKind));
       if e in before then after[e] == if claims then DependsOn else before[e]
       else if claims then after[e] == DependsOn
       else after[e] == if stated == Unstated then Describes else stated
  }

  lemma EdgeRecorded(edges: EdgeMap, e: (string, string), stated: EdgeKind, from: NodeKind, to: NodeKind)
    requires e in edges ==> edges[e] != Unstated
    ensures Records(edges, WithEdge(edges, e.0, e.1, if stated == Unstated then DeriveEdgeKind(from, to) else stated), e, stated, from, to)
  {
  }

  /** `list` is the table's own nodes for exactly `ids`, in ID order. */
  ghost predicate Listed(list: seq<Node>, table: map<string, Node>, ids: set<string>)
  {
    && (forall i :: 0 <= i < |list| ==> list[i].id in ids && list[i].id in table && table[list[i].id] == list[i])
    && (forall id :: id in ids ==> exists i :: 0 <= i < |list| && list[i].id == id)
    && (forall i, j :: 0 <= i < j < |list| ==> Less(list[i].id, list[j].id))
  }

  class Graph {
    var indexByID: map<string, nat>
    var nodes: seq<Node?>
    var alive: seq<bool>
    var outgoing: seq<map<nat, EdgeKind>>
    var incoming: seq<map<nat, EdgeKind>>
    var free: seq<nat>
    var size: int

    ghost predicate Valid()
      reads this
    {
      TableOk(indexByID, nodes, alive, outgoing, incoming, free, size)
    }

    ghost function NodeMap(): map<string, Node>
      reads this
      requires Valid()
    {
      NodesOf(indexByID, nodes)
    }

    /** What each identity's node holds. */
    ghost function ContentMap(): map<string, Content>
      reads this, nodes
      requires Valid()
    {
      ContentsOf(indexByID, nodes)
    }

    ghost function Edges(): EdgeMap
      reads this
    {
      EdgesOf(indexByID, outgoing)
    }

    ghost function Abs(): View
      reads this
    {
      View(indexByID.Keys, Edges())
    }

    ghost function Children(id: string): set<string>
      reads this
    {
      set b | b in indexByID && (id, b) in Edges()
    }

    ghost function Parents(id: string): set<string>
      reads this
    {
      set a | a in indexByID && (a, id) in Edges()
    }

    ghost function IdsOfKind(kind: NodeKind): set<string>
      reads this
      requires Valid()
    {
      set id | id in indexByID && NodeMap()[id].kind == kind
    }

    constructor ()
      ensures Valid() && NodeMap() == map[] && Edges() == map[]
    {
      indexByID, nodes, alive, outgoing, incoming, free, size := map[], [], [], [], [], [], 0;
    }

    constructor FromTable(index: map<string, nat>, nodes: seq<Node?>, alive: seq<bool>,
                          outgoing: Adjacency, incoming: Adjacency, free: seq<nat>, size: int)
      requires TableOk(index, nodes, alive, outgoing, incoming, free, size)
      ensures Valid()
      ensures indexByID == index && this.nodes == nodes && this.alive == alive && this.outgoing == outgoing
      ensures this.incoming == incoming && this.free == free && this.size == size
    {
      indexByID, this.nodes, this.alive := index, nodes, alive;
      this.outgoing, this.incoming, this.free, this.size := outgoing, incoming, free, size;
    }

    lemma AbsWellFormed()
      requires Valid()
      ensures WellFormed(Abs()) && Abs() == View(indexByID.Keys, Edges())
    {
      forall e | e in Edges() ensures e.0 != e.1 && Edges()[e] != Unstated {
        assert Joined(indexByID, outgoing, e.0, e.1);
      }
    }

    // ----- Readers

    /** Every node is filed under its own ID. */
    lemma NodesFiled()
      requires Valid()
      ensures forall id :: id in NodeMap() ==> NodeMap()[id].id == id && id != ""
      ensures NodeMap().Keys == indexByID.Keys
    {
    }

    /** A slot-level arc is an edge between the identities the slots hold. */
    lemma ArcIsEdge(i: nat, j: nat)
      requires Valid() && Live(nodes, i) && Live(nodes, j)
      ensures Arc(outgoing, i, j) <==> (nodes[i].id, nodes[j].id) in Edges()
      ensures Arc(incoming, j, i) <==> (nodes[i].id, nodes[j].id) in Edges()
      ensures Arc(outgoing, i, j) ==> outgoing[i][j] == Edges()[(nodes[i].id, nodes[j].id)]
    {
      assert Joined(indexByID, outgoing, nodes[i].id, nodes[j].id) <==> Arc(outgoing, i, j);
    }

    lemma TableLengths()
      requires Valid()
      ensures |outgoing| == |incoming| == |nodes| && size == |Abs().ids|
    {
      assert |indexByID.Keys| == |indexByID|;
    }

    lemma SlotsAreRows()
      requires Valid()
      ensures forall id :: id in indexByID ==> indexByID[id] < |outgoing|
    {
    }

    lemma EdgeTables()
      requires Valid()
      ensures EdgesOk(nodes, outgoing, incoming)
    {
    }

    lemma IndexTable()
      requires Valid()
      ensures IndexOk(indexByID, nodes)
    {
    }

    /** Distinct live slots hold distinct IDs. */
    lemma SlotOfId(i: nat)
      requires Valid() && Live(nodes, i)
      ensures IdAt(nodes, i) in indexByID && indexByID[IdAt(nodes, i)] == i && NodeMap()[IdAt(nodes, i)] == nodes[i]
    {
    }

    lemma SlotOfIndex(id: string)
      requires Valid() && id in indexByID
      ensures Live(nodes, indexByID[id]) && IdAt(nodes, indexByID[id]) == id
    {
    }

    /** The slots a slot points at, sorted by ID. */
    method ChildSlots(at: nat) returns (slots: seq<nat>)
      requires Valid() && Live(nodes, at)
      ensures SlotsInOrder(nodes, slots)
      ensures forall j: nat :: j in slots <==> Live(nodes, j) && Edge(Abs(), IdAt(nodes, at), IdAt(nodes, j))
    {
      assert forall j :: j in outgoing[at] ==> Arc(outgoing, at, j);
      slots := SortedSlots(nodes, outgoing[at].Keys);
      forall j: nat | Live(nodes, j) ensures j in slots <==> Edge(Abs(), IdAt(nodes, at), IdAt(nodes, j)) {
        ArcIsEdge(at, j);
      }
    }

    /** The slots that point at a slot, as the map they are stored in. */
    lemma ParentSlots(at: nat)
      requires Valid() && Live(nodes, at)
      ensures forall i: nat :: i in incoming[at] <==> Live(nodes, i) && Edge(Abs(), IdAt(nodes, i), IdAt(nodes, at))
    {
      assert forall i :: i in incoming[at] ==> Arc(incoming, at, i);
      forall i: nat | Live(nodes, i) ensures i in incoming[at] <==> Edge(Abs(), IdAt(nodes, i), IdAt(nodes, at)) {
        ArcIsEdge(i, at);
      }
    }

    /** The nodes a node points at, sorted by ID. */
    method DirectDependencies(id: string) returns (r: Result<seq<Node>>)
      requires Valid()
      ensures id !in indexByID <==> r == Failure(NodeNotFound)
      ensures id in indexByID ==> r.Success?
      ensures r.Success? ==> Listed(r.value, NodeMap(), Children(id))
    {
      if id !in indexByID {
        return Failure(NodeNotFound);
      }
      var at := indexByID[id];
      assert forall j :: j in outgoing[at] ==> Arc(outgoing, at, j);
      var slots := SortedSlots(nodes, outgoing[at].Keys);
      var list := NodesAt(slots);
      forall b | b in indexByID ensures (id, b) in Edges() <==> indexByID[b] in slots {
        ArcIsEdge(at, indexByID[b]);
      }
      SlotsListed(slots, list, Children(id));
      return Success(list);
    }

    /** The nodes that point at a node, sorted by ID. */
    method Dependents(id: string) returns (r: Result<seq<Node>>)
      requires Valid()
      ensures id !in indexByID <==> r == Failure(NodeNotFound)
      ensures id in indexByID ==> r.Success?
      ensures r.Success? ==> Listed(r.value, NodeMap(), Parents(id))
    {
      if id !in indexByID {
        return Failure(NodeNotFound);
      }
      var at := indexByID[id];
      assert forall j :: j in incoming[at] ==> Arc(incoming, at, j);
      var slots := SortedSlots(nodes, incoming[at].Keys);
      var list := NodesAt(slots);
      forall a | a in indexByID ensures (a, id) in Edges() <==> indexByID[a] in slots {
        ArcIsEdge(indexByID[a], at);
      }
      SlotsListed(slots, list, Parents(id));
      return Success(list);
    }

    lemma SlotsListed(slots: seq<nat>, list: seq<Node>, ids: set<string>)
      requires Valid() && SlotsInOrder(nodes, slots)
      requires |list| == |slots| && forall i :: 0 <= i < |slots| ==> Live(nodes, slots[i]) && list[i] == nodes[slots[i]]
      requires ids <= indexByID.Keys && forall b :: b in indexByID ==> (b in ids <==> indexByID[b] in slots)
      ensures Listed(list, NodeMap(), ids)
    {
      forall i | 0 <= i < |list| ensures list[i].id in indexByID && indexByID[list[i].id] == slots[i] {
        assert Live(nodes, slots[i]);
      }
      forall id | id in ids ensures exists i :: 0 <= i < |list| && list[i].id == id {
        var i :| 0 <= i < |slots| && slots[i] == indexByID[id];
        assert list[i].id == id;
      }
      assert forall i :: 0 <= i < |list| ==> list[i].id == IdAt(nodes, slots[i]);
    }

    method NodesAt(slots: seq<nat>) returns (list: seq<Node>)
      requires forall i :: 0 <= i < |slots| ==> Live(nodes, slots[i])
      ensures |list| == |slots| && forall i :: 0 <= i < |slots| ==> Live(nodes, slots[i]) && list[i] == nodes[slots[i]]
    {
      list := [];
      for i := 0 to |slots|
        invariant |list| == i && forall j :: 0 <= j < i ==> list[j] == nodes[slots[j]]
      {
        list := list + [nodes[slots[i]]];
      }
    }

    /** Every live slot, sorted by ID. */
    method SortedIndices() returns (slots: seq<nat>)
      requires Valid()
      ensures SlotsInOrder(nodes, slots)
      ensures forall s: nat :: s in slots <==> Live(nodes, s)
    {
      var live := set id | id in indexByID :: indexByID[id];
      slots := SortedSlots(nodes, live);
      forall s: nat | Live(nodes, s) ensures s in live {
        assert nodes[s].id in indexByID;
      }
    }

    /** Every dependency node, sorted by ID. */
    method DependencyNodes() returns (list: seq<Node>)
      requires Valid()
      ensures Listed(list, NodeMap(), IdsOfKind(DependencyKind))
    {
      var slots := SortedIndices();
      var deps := OfKind(nodes, slots, DependencyKind);
      list := NodesAt(deps);
      forall id | id in indexByID ensures NodeMap()[id].kind == DependencyKind <==> indexByID[id] in deps {
        assert Live(nodes, indexByID[id]);
      }
      SlotsListed(deps, list, IdsOfKind(DependencyKind));
    }

    // ----- Mutators

    /** The field writes that end a mutator. */
    method Install(index: map<string, nat>, nodes: seq<Node?>, alive: seq<bool>,
                   outgoing: Adjacency, incoming: Adjacency, free: seq<nat>, size: int)
      requires TableOk(index, nodes, alive, outgoing, incoming, free, size)
      modifies this
      ensures Valid() && indexByID == index && this.nodes == nodes && this.outgoing == outgoing
      ensures NodeMap() == NodesOf(index, nodes) && Edges() == EdgesOf(index, outgoing) && ContentMap() == ContentsOf(index, nodes)
    {
      indexByID, this.nodes, this.alive := index, nodes, alive;
      this.outgoing, this.incoming, this.free, this.size := outgoing, incoming, free, size;
    }

    /** Takes over the table of another graph. */
    method Overwrite(out: Graph)
      requires out.Valid()
      modifies this
      ensures Valid() && ContentMap() == old(out.ContentMap()) && NodeMap() == old(out.NodeMap()) && Edges() == old(out.Edges())
    {
      indexByID, nodes, alive := out.indexByID, out.nodes, out.alive;
      outgoing, incoming, free, size := out.outgoing, out.incoming, out.free, out.size;
    }

    /** A dead slot taken off the free list, or a new one at the end of the table. */
    method NextSlot() returns (slot: nat)
      requires Valid()
      modifies this`nodes, this`alive, this`outgoing, this`incoming, this`free
      ensures IndexOk(indexByID, nodes) && AliveOk(nodes, alive) && EdgesOk(nodes, outgoing, incoming)
      ensures slot < |nodes| && nodes[slot] == null && slot !in free
      ensures FreeOk(nodes, free + [slot])
      ensures |outgoing| == |incoming| == |alive| == |nodes| && size == |indexByID|
      ensures NodesOf(indexByID, nodes) == old(NodeMap()) && EdgesOf(indexByID, outgoing) == old(Edges())
      ensures ContentsOf(indexByID, nodes) == old(ContentMap())
    {
      hide *;
      Unfolded();
      Parts(indexByID, nodes, alive, outgoing, incoming, free, size);
      var n := |free|;
      if n > 0 {
        slot := free[n - 1];
        FreeTail(nodes, free);
        free := free[..n - 1];
        return;
      }
      slot := |nodes|;
      GrowTable(indexByID, nodes, outgoing, incoming);
      GrowFree(nodes, alive, free);
      nodes := nodes + [null];
      alive := alive + [false];
      outgoing := outgoing + [map[]];
      incoming := incoming + [map[]];
    }

    /** Fills a slot with a node whose identity is new. */
    method Place(node: Node)
      requires Valid() && node.id != "" && node.id !in indexByID
      modifies this
      ensures Valid() && NodeMap() == old(NodeMap())[node.id := node] && Edges() == old(Edges())
      ensures ContentMap() == old(ContentMap())[node.id := node.Contents()]
    {
      hide *;
      Unfolded();
      var idx := NextSlot();
      FillTable(indexByID, nodes, alive, outgoing, incoming, free, size, idx, node);
      ContentsFilled(indexByID, nodes, idx, node);
      Install(indexByID[node.id := idx], nodes[idx := node], alive[idx := true],
              outgoing[idx := map[]], incoming[idx := map[]], free, size + 1);
    }

    lemma ContentsFiled()
      requires Valid()
      ensures ContentMap().Keys == NodeMap().Keys && forall id :: id in NodeMap() ==> ContentMap()[id] == NodeMap()[id].Contents()
    {
    }

    method AddNode(node: Node?) returns (r: Outcome)
      requires Valid()
      modifies this
      ensures Valid() && Edges() == old(Edges())
      ensures r == if node == null then Fail(NilNode)
                   else if node.id == "" then Fail(EmptyNodeId)
                   else if node.id in old(NodeMap()) then Fail(NodeAlreadyExists)
                   else Ok
      ensures r != Ok ==> unchanged(this)
      ensures NodeMap() == if r == Ok then old(NodeMap())[node.id := node] else old(NodeMap())
      ensures ContentMap() == if r == Ok then old(ContentMap())[node.id := node.Contents()] else old(ContentMap())
    {
      NodesFiled();
      hide *;
      if node == null {
        return Fail(NilNode);
      }
      if node.id == "" {
        return Fail(EmptyNodeId);
      }
      if node.id in indexByID {
        return Fail(NodeAlreadyExists);
      }
      Place(node);
      return Ok;
    }

    function Lookup(id: string): (n: Node?)
      reads this
      requires Valid()
      ensures n != null <==> id in indexByID
      ensures n != null ==> NodeMap()[id] == n && n.id == id
    {
      if id in indexByID then nodes[indexByID[id]] else null
    }

    /** Fold-by-identity insertion: a known identity folds into the survivor, which is returned. */
    method InsertNode(node: Node?) returns (r: Result<Node>)
      requires Valid()
      modifies this, NodeMap().Values
      ensures Valid() && Edges() == old(Edges())
      ensures node != null && node.id != "" ==> node.id in NodeMap()
      ensures r == if node == null then Failure(NilNode) else if node.id == "" then Failure(EmptyNodeId) else Success(NodeMap()[node.id])
      ensures NodeMap() == if node != null && node.id != "" && node.id !in old(NodeMap()) then old(NodeMap())[node.id := node] else old(NodeMap())
      ensures ContentMap() == if node != null && node.id != "" then Folded(old(ContentMap()), old(node.Contents())) else old(ContentMap())
    {
      NodesFiled();
      ContentsFiled();
      hide *;
      if node == null {
        return Failure(NilNode);
      }
      if node.id == "" {
        return Failure(EmptyNodeId);
      }
      var existing := Lookup(node.id);
      if existing == null {
        AddFirst(node);
        return Success(node);
      }
      FoldInto(existing, node);
      return Success(existing);
    }

    /** The first witness of an identity becomes its node. */
    method AddFirst(node: Node)
      requires Valid() && node.id != "" && node.id !in NodeMap()
      modifies this
      ensures Valid() && Edges() == old(Edges()) && NodeMap() == old(NodeMap())[node.id := node]
      ensures ContentMap() == Folded(old(ContentMap()), node.Contents())
    {
      ContentsFiled();
      hide *;
      FoldedNew(ContentMap(), node.Contents());
      var added := AddNode(node);
    }

    /** Folds a witness into the node that holds its identity. */
    method FoldInto(existing: Node, node: Node)
      requires Valid() && node.id in NodeMap() && NodeMap()[node.id] == existing
      modifies existing
      ensures Valid() && Edges() == old(Edges())
      ensures ContentMap() == Folded(old(ContentMap()), old(node.Contents()))
    {
      NodesFiled();
      ContentsFiled();
      hide *;
      ghost var before, later := ContentMap(), node.Contents();
      existing.FoldFrom(node);
      ContentsFiled();
      FoldedIs(before, ContentMap(), later);
    }

    lemma FoldedNew(before: map<string, Content>, c: Content)
      requires c.id !in before
      ensures Folded(before, c) == before[c.id := c]
    {
    }

    lemma FoldedIs(before: map<string, Content>, after: map<string, Content>, c: Content)
      requires after.Keys == before.Keys + {c.id} && c.id in before
      requires forall id :: id in before && id != c.id ==> after[id] == before[id]
      requires after[c.id] == FoldContent(before[c.id], c)
      ensures after == Folded(before, c)
    {
    }

    lemma EdgeLookup(a: string, b: string)
      requires Valid() && a in indexByID && b in indexByID
      ensures indexByID[a] < |outgoing| && |outgoing| == |incoming| == |nodes|
      ensures (a, b) in Edges() <==> indexByID[b] in outgoing[indexByID[a]]
      ensures (a, b) in Edges() ==> Edges()[(a, b)] == outgoing[indexByID[a]][indexByID[b]]
    {
      assert (a, b) in Edges() <==> Joined(indexByID, outgoing, a, b);
    }

    lemma EdgeWillRecord(a: string, b: string, kind: EdgeKind)
      requires Valid() && a in indexByID && b in indexByID
      ensures Live(nodes, indexByID[a]) && Live(nodes, indexByID[b])
      ensures a in NodeMap() && NodeMap()[a] == nodes[indexByID[a]] && b in NodeMap() && NodeMap()[b] == nodes[indexByID[b]]
      ensures var from, to := nodes[indexByID[a]].kind, nodes[indexByID[b]].kind;
              Records(Edges(), WithEdge(Edges(), a, b, if kind == Unstated then DeriveEdgeKind(from, to) else kind), (a, b), kind, from, to)
    {
      AbsWellFormed();
      SlotOfIndex(a);
      SlotOfIndex(b);
      EdgeRecorded(Edges(), (a, b), kind, nodes[indexByID[a]].kind, nodes[indexByID[b]].kind);
    }

    method AddTypedEdge(fromID: string, toID: string, kind: EdgeKind) returns (r: Outcome)
      requires Valid()
      modifies this
      ensures Valid() && indexByID == old(indexByID) && nodes == old(nodes)
      ensures NodeMap() == old(NodeMap()) && ContentMap() == old(ContentMap())
      ensures r == if fromID == toID then Fail(SelfDependency)
                   else if fromID !in indexByID || toID !in indexByID then Fail(NodeNotFound)
                   else Ok
      ensures r != Ok ==> unchanged(this)
      ensures r == Ok ==> Edges() == WithEdge(old(Edges()), fromID, toID,
                            if kind == Unstated then DeriveEdgeKind(NodeMap()[fromID].kind, NodeMap()[toID].kind) else kind)
      ensures r == Ok ==> fromID in NodeMap() && toID in NodeMap()
                          && Records(old(Edges()), Edges(), (fromID, toID), kind, NodeMap()[fromID].kind, NodeMap()[toID].kind)
    {
      hide EdgesOk;
      hide FreeOk;
      hide AliveOk;
      hide EdgesOf;
      hide Records;
      if fromID == toID {
        return Fail(SelfDependency);
      }
      if fromID !in indexByID || toID !in indexByID {
        return Fail(NodeNotFound);
      }
      EdgeLookup(fromID, toID);
      EdgeWillRecord(fromID, toID, kind);
      var from, to := indexByID[fromID], indexByID[toID];
      var stated := if kind == Unstated then DeriveEdgeKind(nodes[from].kind, nodes[to].kind) else kind;
      if to in outgoing[from] {
        stated := MergeEdgeKind(outgoing[from][to], stated);
      }
      PutTable(indexByID, nodes, alive, outgoing, incoming, free, size, fromID, toID, stated);
      Install(indexByID, nodes, alive, Put(outgoing, from, to, stated), Put(incoming, to, from, stated), free, size);
      return Ok;
    }

    method AddEdge(fromID: string, toID: string) returns (r: Outcome)
      requires Valid()
      modifies this
      ensures Valid() && indexByID == old(indexByID) && NodeMap() == old(NodeMap())
      ensures r == if fromID == toID then Fail(SelfDependency)
                   else if fromID !in indexByID || toID !in indexByID then Fail(NodeNotFound)
                   else Ok
      ensures r != Ok ==> unchanged(this)
      ensures r == Ok ==> Edges() == WithEdge(old(Edges()), fromID, toID, DeriveEdgeKind(NodeMap()[fromID].kind, NodeMap()[toID].kind))
      ensures r == Ok ==> fromID in NodeMap() && toID in NodeMap()
                          && Records(old(Edges()), Edges(), (fromID, toID), Unstated, NodeMap()[fromID].kind, NodeMap()[toID].kind)
    {
      r := AddTypedEdge(fromID, toID, Unstated);
    }

    function EdgeKindOf(fromID: string, toID: string): (kind: EdgeKind)
      reads this
      requires Valid()
      ensures kind == if (fromID, toID) in Edges() then Edges()[(fromID, toID)] else Unstated
    {
      assert (fromID, toID) in Edges() <==> Joined(indexByID, outgoing, fromID, toID);
      if fromID in indexByID && toID in indexByID && indexByID[toID] in outgoing[indexByID[fromID]]
      then outgoing[indexByID[fromID]][indexByID[toID]] else Unstated
    }

    method RemoveEdge(fromID: string, toID: string) returns (existed: bool)
      requires Valid()
      modifies this
      ensures Valid() && indexByID == old(indexByID) && NodeMap() == old(NodeMap()) && ContentMap() == old(ContentMap())
      ensures existed == ((fromID, toID) in old(Edges()))
      ensures Edges() == old(Edges()) - {(fromID, toID)}
    {
      hide EdgesOk;
      hide FreeOk;
      hide AliveOk;
      if fromID !in indexByID || toID !in indexByID {
        return false;
      }
      EdgeLookup(fromID, toID);
      var from, to := indexByID[fromID], indexByID[toID];
      if to !in outgoing[from] {
        return false;
      }
      DropTable(indexByID, nodes, alive, outgoing, incoming, free, size, fromID, toID);
      Install(indexByID, nodes, alive, Drop(outgoing, from, to), Drop(incoming, to, from), free, size);
      return true;
    }

    /** Removing what is not there changes nothing. */
    lemma WithoutNone(id: string)
      requires Valid() && id !in indexByID
      ensures NodeMap() - {id} == NodeMap() && ContentMap() - {id} == ContentMap() && WithoutNode(Edges(), id) == Edges()
    {
      NodesFiled();
      ContentsFiled();
      AbsWellFormed();
      hide *;
      NoKey(NodeMap(), id);
      NoKey(ContentMap(), id);
      NoEdgesAt(View(indexByID.Keys, Edges()), id);
    }

    /** Removes a node with every edge that touches it; its slot joins the free list. */
    method RemoveNode(id: string) returns (existed: bool)
      requires Valid()
      modifies this
      ensures Valid()
      ensures existed == (id in old(indexByID))
      ensures NodeMap() == old(NodeMap()) - {id} && ContentMap() == old(ContentMap()) - {id}
      ensures Edges() == WithoutNode(old(Edges()), id)
    {
      hide *;
      if id !in indexByID {
        WithoutNone(id);
        return false;
      }
      Unfolded();
      SlotOfIndex(id);
      var idx := indexByID[id];
      var out', in' := DetachSlot(idx);
      EmptyTable(indexByID, nodes, alive, outgoing, incoming, free, size, id, out', in');
      ContentsRemoved(indexByID, nodes, id);
      Install(indexByID - {id}, nodes[idx := null], alive[idx := false], out', in', free + [idx], size - 1);
      return true;
    }

    /** What the specification functions read off the fields. */
    lemma Unfolded()
      requires Valid()
      ensures TableOk(indexByID, nodes, alive, outgoing, incoming, free, size) && IndexOk(indexByID, nodes)
      ensures NodeMap() == NodesOf(indexByID, nodes) && Edges() == EdgesOf(indexByID, outgoing)
      ensures ContentMap() == ContentsOf(indexByID, nodes)
    {
    }

    /** Both tables with every edge at a slot taken out. */
    method DetachSlot(idx: nat) returns (out': Adjacency, in': Adjacency)
      requires Valid() && Live(nodes, idx)
      ensures |alive| == |nodes| && idx < |nodes| && Detached(outgoing, idx, out') && Detached(incoming, idx, in')
    {
      in' := Detach(outgoing, incoming, idx);
      out' := Detach(incoming, outgoing, idx);
    }

    /** A deep copy with the same slot layout: every node is fresh and equal to the one it copies. */
    method Clone() returns (clone: Graph)
      requires Valid()
      ensures fresh(clone) && clone.Valid()
      ensures clone.indexByID == indexByID && clone.alive == alive && clone.free == free && |clone.nodes| == |nodes|
      ensures clone.outgoing == outgoing && clone.incoming == incoming
      ensures clone.Edges() == Edges() && clone.ContentMap() == ContentMap()
      ensures fresh(clone.NodeMap().Values)
    {
      hide *;
      Unfolded();
      var copies := CloneNodes();
      CopiesKeepTable(indexByID, nodes, copies, alive, free, outgoing, incoming, size);
      CopiesKeepContents(indexByID, nodes, copies);
      clone := new Graph.FromTable(indexByID, copies, alive, outgoing, incoming, free, size);
      clone.Unfolded();
      clone.NodesAreStored();
    }

    lemma NodesAreStored()
      requires Valid()
      ensures forall n :: n in NodeMap().Values ==> n in nodes
    {
    }

    method CloneNodes() returns (copies: seq<Node?>)
      ensures |copies| == |nodes|
      ensures forall j :: 0 <= j < |nodes| ==> (copies[j] == null <==> nodes[j] == null)
      ensures forall j :: 0 <= j < |nodes| && copies[j] != null ==>
                fresh(copies[j]) && copies[j].id == nodes[j].id && copies[j].Contents() == nodes[j].Contents()
    {
      copies := [];
      for i := 0 to |nodes|
        invariant |copies| == i
        invariant forall j :: 0 <= j < i ==> (copies[j] == null <==> nodes[j] == null)
        invariant forall j :: 0 <= j < i && copies[j] != null ==>
                    fresh(copies[j]) && copies[j].id == nodes[j].id && copies[j].Contents() == nodes[j].Contents()
      {
        var copy: Node? := null;
        if nodes[i] != null {
          copy := nodes[i].CloneNode();
        }
        copies := copies + [copy];
      }
    }
  }

  method MinSlot(nodes: seq<Node?>, slots: set<nat>) returns (m: nat)
    requires slots != {} && forall s :: s in slots ==> Live(nodes, s)
    requires forall s, t :: s in slots && t in slots && s != t ==> IdAt(nodes, s) != IdAt(nodes, t)
    ensures m in slots && forall s :: s in slots && s != m ==> Less(IdAt(nodes, m), IdAt(nodes, s))
  {
    m :| m in slots;
    var todo := slots - {m};
    while todo != {}
      invariant m in slots && m !in todo && todo <= slots
      invariant forall s :: s in slots && s !in todo && s != m ==> Less(IdAt(nodes, m), IdAt(nodes, s))
      decreases todo
    {
      var s :| s in todo;
      todo := todo - {s};
      LessTotal(IdAt(nodes, m), IdAt(nodes, s));
      if Less(IdAt(nodes, s), IdAt(nodes, m)) {
        forall t | t in slots && t !in todo && t != m && t != s ensures Less(IdAt(nodes, s), IdAt(nodes, t)) {
          LessTransitive(IdAt(nodes, s), IdAt(nodes, m), IdAt(nodes, t));
        }
        m := s;
      }
    }
  }

  lemma NoSlots(nodes: seq<Node?>)
    ensures SlotsInOrder(nodes, [])
  {
  }

  lemma AppendInOrder(nodes: seq<Node?>, out: seq<nat>, m: nat)
    requires SlotsInOrder(nodes, out) && Live(nodes, m) && forall s :: s in out ==> Less(IdAt(nodes, s), IdAt(nodes, m))
    ensures SlotsInOrder(nodes, out + [m])
  {
    assert forall i :: 0 <= i < |out| ==> out[i] in out;
  }

  /** Stands in for the sort by ID of a set of live slots. */
  method SortedSlots(nodes: seq<Node?>, slots: set<nat>) returns (out: seq<nat>)
    requires forall s :: s in slots ==> Live(nodes, s)
    requires forall s, t :: s in slots && t in slots && s != t ==> IdAt(nodes, s) != IdAt(nodes, t)
    ensures SlotsInOrder(nodes, out)
    ensures forall s :: s in out <==> s in slots
  {
    hide SlotsInOrder;
    out := [];
    NoSlots(nodes);
    var todo := slots;
    while todo != {}
      invariant todo <= slots && SlotsInOrder(nodes, out)
      invariant forall s :: s in slots <==> s in out || s in todo
      invariant forall s, t :: s in out && t in todo ==> Less(IdAt(nodes, s), IdAt(nodes, t))
      decreases todo
    {
      var m := MinSlot(nodes, todo);
      AppendInOrder(nodes, out, m);
      out := out + [m];
      todo := todo - {m};
    }
  }

  method OfKind(nodes: seq<Node?>, slots: seq<nat>, kind: NodeKind) returns (out: seq<nat>)
    requires SlotsInOrder(nodes, slots)
    ensures SlotsInOrder(nodes, out)
    ensures forall s: nat :: s in out <==> s in slots && s < |nodes| && nodes[s] != null && nodes[s].kind == kind
  {
    out := [];
    for i := 0 to |slots|
      invariant SlotsInOrder(nodes, out)
      invariant forall s: nat :: s in out <==> s in slots[..i] && s < |nodes| && nodes[s] != null && nodes[s].kind == kind
    {
      assert slots[..i + 1] == slots[..i] + [slots[i]];
      forall s | s in out ensures Less(IdAt(nodes, s), IdAt(nodes, slots[i])) {
        var j :| 0 <= j < i && slots[j] == s;
      }
      if nodes[slots[i]].kind == kind {
        AppendInOrder(nodes, out, slots[i]);
        out := out + [slots[i]];
      }
    }
    assert slots[..|slots|] == slots;
  }

  /** Drops `idx` from the entry of each slot `idx` is joined to, and empties its own. */
  method Detach(facing: Adjacency, adjacency: Adjacency, idx: nat) returns (after: Adjacency)
    requires |facing| == |adjacency| && idx < |facing|
    requires forall j: nat :: Arc(facing, idx, j) <==> Arc(adjacency, j, idx)
    ensures Detached(adjacency, idx, after)
  {
    after := adjacency;
    var row: map<nat, EdgeKind> := facing[idx];
    var todo := row.Keys;
    assert forall j :: j in row ==> Arc(facing, idx, j);
    while todo != {}
      invariant todo <= row.Keys && |after| == |adjacency|
      invariant forall j: nat :: j < |adjacency| ==>
                  after[j] == if j in row && j !in todo then adjacency[j] - {idx} else adjacency[j]
      decreases todo
    {
      var j :| j in todo;
      assert Arc(adjacency, j, idx);
      after := Drop(after, j, idx);
      todo := todo - {j};
    }
    forall j: nat | j < |adjacency| && j !in row ensures adjacency[j] - {idx} == adjacency[j] {
      assert !Arc(facing, idx, j);
      assert !Arc(adjacency, j, idx);
    }
    after := after[idx := map[]];
  }

  lemma Parts(index: map<string, nat>, nodes: seq<Node?>, alive: seq<bool>,
                                 outgoing: Adjacency, incoming: Adjacency, free: seq<nat>, size: int)
    requires TableOk(index, nodes, alive, outgoing, incoming, free, size)
    ensures IndexOk(index, nodes) && AliveOk(nodes, alive) && FreeOk(nodes, free) && EdgesOk(nodes, outgoing, incoming)
    ensures |outgoing| == |incoming| == |alive| == |nodes| && size == |index|
  {
  }

  lemma FreeTail(nodes: seq<Node?>, free: seq<nat>)
    requires FreeOk(nodes, free) && |free| > 0
    ensures free[|free| - 1] < |nodes| && nodes[free[|free| - 1]] == null && free[|free| - 1] !in free[..|free| - 1]
    ensures FreeOk(nodes, free[..|free| - 1] + [free[|free| - 1]])
  {
    assert free == free[..|free| - 1] + [free[|free| - 1]];
  }

  lemma GrowTable(index: map<string, nat>, nodes: seq<Node?>, outgoing: Adjacency, incoming: Adjacency)
    requires IndexOk(index, nodes) && EdgesOk(nodes, outgoing, incoming)
    ensures IndexOk(index, nodes + [null]) && EdgesOk(nodes + [null], outgoing + [map[]], incoming + [map[]])
    ensures NodesOf(index, nodes + [null]) == NodesOf(index, nodes)
    ensures EdgesOf(index, outgoing + [map[]]) == EdgesOf(index, outgoing)
    ensures ContentsOf(index, nodes + [null]) == ContentsOf(index, nodes)
  {
    GrowNodes(index, nodes);
    hide *;
    GrowEdges(nodes, outgoing, incoming);
    GrowMeaning(index, nodes, outgoing);
  }

  lemma GrowNodes(index: map<string, nat>, nodes: seq<Node?>)
    requires IndexOk(index, nodes)
    ensures IndexOk(index, nodes + [null]) && NodesOf(index, nodes + [null]) == NodesOf(index, nodes)
    ensures ContentsOf(index, nodes + [null]) == ContentsOf(index, nodes)
    ensures forall id :: id in index ==> index[id] < |nodes|
  {
  }

  lemma GrowArcs(table: Adjacency)
    ensures forall i: nat, j: nat :: Arc(table + [map[]], i, j) <==> Arc(table, i, j)
  {
  }

  lemma GrowEdges(nodes: seq<Node?>, outgoing: Adjacency, incoming: Adjacency)
    requires EdgesOk(nodes, outgoing, incoming)
    ensures EdgesOk(nodes + [null], outgoing + [map[]], incoming + [map[]]) && |outgoing| == |nodes|
  {
    GrowArcs(outgoing);
    GrowArcs(incoming);
  }

  lemma GrowMeaning(index: map<string, nat>, nodes: seq<Node?>, outgoing: Adjacency)
    requires |outgoing| == |nodes| && forall id :: id in index ==> index[id] < |nodes|
    ensures EdgesOf(index, outgoing + [map[]]) == EdgesOf(index, outgoing)
  {
    forall x, y ensures Joined(index, outgoing + [map[]], x, y) <==> Joined(index, outgoing, x, y) {
    }
  }

  lemma GrowFree(nodes: seq<Node?>, alive: seq<bool>, free: seq<nat>)
    requires FreeOk(nodes, free) && AliveOk(nodes, alive) && free == []
    ensures FreeOk(nodes + [null], free + [|nodes|]) && AliveOk(nodes + [null], alive + [false])
    ensures |nodes| !in free
  {
    assert |nodes| in free + [|nodes|];
  }

  lemma FillFree(nodes: seq<Node?>, free: seq<nat>, slot: nat, node: Node)
    requires FreeOk(nodes, free + [slot]) && slot !in free && slot < |nodes|
    ensures FreeOk(nodes[slot := node], free)
  {
    var taken := free + [slot];
    forall k | 0 <= k < |free| ensures free[k] < |nodes| && nodes[slot := node][free[k]] == null {
      assert taken[k] == free[k];
    }
    forall k, l | 0 <= k < l < |free| ensures free[k] != free[l] {
      assert taken[k] == free[k] && taken[l] == free[l];
    }
  }

  lemma FillTable(index: map<string, nat>, nodes: seq<Node?>, alive: seq<bool>, outgoing: Adjacency, incoming: Adjacency,
                  free: seq<nat>, size: int, slot: nat, node: Node)
    requires IndexOk(index, nodes) && AliveOk(nodes, alive) && EdgesOk(nodes, outgoing, incoming) && size == |index|
    requires FreeOk(nodes, free + [slot]) && slot !in free && slot < |nodes| && nodes[slot] == null
    requires node.id != "" && node.id !in index
    ensures TableOk(index[node.id := slot], nodes[slot := node], alive[slot := true],
                    outgoing[slot := map[]], incoming[slot := map[]], free, size + 1)
    ensures IndexOk(index[node.id := slot], nodes[slot := node])
    ensures NodesOf(index[node.id := slot], nodes[slot := node]) == NodesOf(index, nodes)[node.id := node]
    ensures EdgesOf(index[node.id := slot], outgoing[slot := map[]]) == EdgesOf(index, outgoing)
  {
    FillSlot(index, nodes, outgoing, incoming, slot, node);
    FillFree(nodes, free, slot, node);
    FillAlive(nodes, alive, slot, node);
    assert |index[node.id := slot]| == |index| + 1;
  }

  lemma FillAlive(nodes: seq<Node?>, alive: seq<bool>, slot: nat, node: Node)
    requires AliveOk(nodes, alive) && slot < |nodes|
    ensures AliveOk(nodes[slot := node], alive[slot := true])
  {
  }

  lemma PutTable(index: map<string, nat>, nodes: seq<Node?>, alive: seq<bool>, outgoing: Adjacency, incoming: Adjacency,
                 free: seq<nat>, size: int, a: string, b: string, kind: EdgeKind)
    requires TableOk(index, nodes, alive, outgoing, incoming, free, size)
    requires a in index && b in index && a != b && kind != Unstated
    ensures TableOk(index, nodes, alive, Put(outgoing, index[a], index[b], kind), Put(incoming, index[b], index[a], kind), free, size)
    ensures EdgesOf(index, Put(outgoing, index[a], index[b], kind)) == EdgesOf(index, outgoing)[(a, b) := kind]
  {
    EdgesAfterPut(index, nodes, outgoing, a, b, kind);
    PutKeepsEdges(nodes, outgoing, incoming, index[a], index[b], kind);
  }

  lemma DropTable(index: map<string, nat>, nodes: seq<Node?>, alive: seq<bool>, outgoing: Adjacency, incoming: Adjacency,
                  free: seq<nat>, size: int, a: string, b: string)
    requires TableOk(index, nodes, alive, outgoing, incoming, free, size) && a in index && b in index
    ensures TableOk(index, nodes, alive, Drop(outgoing, index[a], index[b]), Drop(incoming, index[b], index[a]), free, size)
    ensures EdgesOf(index, Drop(outgoing, index[a], index[b])) == EdgesOf(index, outgoing) - {(a, b)}
  {
    EdgesAfterCut(index, nodes, outgoing, a, b);
    CutKeepsEdges(nodes, outgoing, incoming, index[a], index[b]);
  }

  lemma EmptyFree(index: map<string, nat>, nodes: seq<Node?>, alive: seq<bool>, free: seq<nat>, id: string)
    requires IndexOk(index, nodes) && AliveOk(nodes, alive) && FreeOk(nodes, free) && id in index
    ensures FreeOk(nodes[index[id] := null], free + [index[id]])
    ensures AliveOk(nodes[index[id] := null], alive[index[id] := false])
    ensures |index - {id}| == |index| - 1
  {
    var slot := index[id];
    assert forall i :: i in free ==> i in free + [slot];
    assert slot in free + [slot];
    assert (index - {id}).Keys == index.Keys - {id};
  }

  lemma EmptyTable(index: map<string, nat>, nodes: seq<Node?>, alive: seq<bool>, outgoing: Adjacency, incoming: Adjacency,
                   free: seq<nat>, size: int, id: string, out': Adjacency, in': Adjacency)
    requires TableOk(index, nodes, alive, outgoing, incoming, free, size) && id in index
    requires Detached(outgoing, index[id], out') && Detached(incoming, index[id], in')
    ensures TableOk(index - {id}, nodes[index[id] := null], alive[index[id] := false], out', in', free + [index[id]], size - 1)
    ensures NodesOf(index - {id}, nodes[index[id] := null]) == NodesOf(index, nodes) - {id}
    ensures EdgesOf(index - {id}, out') == WithoutNode(EdgesOf(index, outgoing), id)
  {
    EmptySlotKeeps(index, nodes, outgoing, incoming, id, out', in');
    EmptySlotMeans(index, nodes, outgoing, id, out');
    EmptyFree(index, nodes, alive, free, id);
  }

  lemma ContentsFilled(index: map<string, nat>, nodes: seq<Node?>, slot: nat, node: Node)
    requires IndexOk(index, nodes) && slot < |nodes| && nodes[slot] == null && node.id !in index
    requires IndexOk(index[node.id := slot], nodes[slot := node])
    ensures ContentsOf(index[node.id := slot], nodes[slot := node]) == ContentsOf(index, nodes)[node.id := node.Contents()]
  {
  }

  lemma ContentsRemoved(index: map<string, nat>, nodes: seq<Node?>, id: string)
    requires IndexOk(index, nodes) && id in index
    ensures IndexOk(index - {id}, nodes[index[id] := null])
    ensures ContentsOf(index - {id}, nodes[index[id] := null]) == ContentsOf(index, nodes) - {id}
  {
  }

  lemma CopiesKeepContents(index: map<string, nat>, nodes: seq<Node?>, copies: seq<Node?>)
    requires IndexOk(index, nodes) && IndexOk(index, copies) && |copies| == |nodes|
    requires forall j :: 0 <= j < |nodes| && copies[j] != null && nodes[j] != null ==> copies[j].Contents() == nodes[j].Contents()
    ensures ContentsOf(index, copies) == ContentsOf(index, nodes)
  {
  }

  lemma CopiesKeepTable(index: map<string, nat>, nodes: seq<Node?>, copies: seq<Node?>, alive: seq<bool>, free: seq<nat>,
                        outgoing: Adjacency, incoming: Adjacency, size: int)
    requires |copies| == |nodes| && forall j :: 0 <= j < |nodes| ==> (copies[j] == null <==> nodes[j] == null)
    requires forall j :: 0 <= j < |nodes| && copies[j] != null ==> copies[j].id == nodes[j].id
    requires TableOk(index, nodes, alive, outgoing, incoming, free, size)
    ensures TableOk(index, copies, alive, outgoing, incoming, free, size) && IndexOk(index, copies)
  {
    forall i: nat ensures Live(nodes, i) <==> Live(copies, i) {
    }
  }
}
