/** Whole histories of a graph: whatever the sequence of operations, the slot table is a plain
    node map and a plain edge map, and its payload depends on nothing else. */
module Histories {
  import opened EdgeKinds
  import opened Nodes
  import opened Views
  import opened Graphs
  import opened Payloads
  import opened Codec

  datatype Command =
    | Add(content: Content)
    | Insert(content: Content)
    | Join(from: string, to: string, kind: EdgeKind)
    | Cut(from: string, to: string)
    | Remove(id: string)
    | Copy

  /** What one command does to the two plain maps. */
  ghost function Step(p: Plain, c: Command): Plain
  {
    match c
    case Add(n) => if n.id == "" || n.id in p.contents then p else p.(contents := p.contents[n.id := n])
    case Insert(n) => if n.id == "" then p else p.(contents := Folded(p.contents, n))
    case Join(a, b, kind) =>
      if a == b || a !in p.contents || b !in p.contents then p
      else p.(edges := WithEdge(p.edges, a, b,
                if kind == Unstated then DeriveEdgeKind(p.contents[a].kind, p.contents[b].kind) else kind))
    case Cut(a, b) => p.(edges := p.edges - {(a, b)})
    case Remove(id) => Plain(p.contents - {id}, WithoutNode(p.edges, id))
    case Copy => p
  }

  ghost function Run(commands: seq<Command>): Plain
  {
    if commands == [] then Plain(map[], map[])
    else Step(Run(commands[..|commands| - 1]), commands[|commands| - 1])
  }

  /** Endpoints present, no self-edge, every kind stated, every node under its own identity. */
  lemma {:induction false} RunsStayEncodable(commands: seq<Command>)
    ensures Encodable(Run(commands).contents, Run(commands).edges)
    decreases |commands|
  {
    if commands != [] {
      RunsStayEncodable(commands[..|commands| - 1]);
      StepStaysEncodable(Run(commands[..|commands| - 1]), commands[|commands| - 1]);
    }
  }

  lemma StepStaysEncodable(p: Plain, c: Command)
    requires Encodable(p.contents, p.edges)
    ensures Encodable(Step(p, c).contents, Step(p, c).edges)
  {
  }

  /** Every payload written after any history decodes to that history's nodes and edges. */
  lemma RunsRoundTrip(commands: seq<Command>, gate: Gate)
    requires RoundTrips(gate, Run(commands).contents)
    ensures var p := Run(commands);
            DecodePayload(gate, Encode(p.contents, p.edges)) ==
            Good((map id | id in p.contents :: Reminted(gate, p.contents, id), p.edges))
  {
    RunsStayEncodable(commands);
    DecodeInvertsEncode(gate, Run(commands).contents, Run(commands).edges);
  }

  method Execute(g: Graph, c: Command, ghost mine: set<Node>) returns (next: Graph, ghost mine': set<Node>)
    requires g.Valid() && g.NodeMap().Values <= mine
    modifies g, mine
    ensures next.Valid() && next.NodeMap().Values <= mine' && mine <= mine' && fresh(mine' - mine) && (next == g || fresh(next))
    ensures Plain(next.ContentMap(), next.Edges()) == Step(old(Plain(g.ContentMap(), g.Edges())), c)
  {
    hide SlotTables.TableOk;
    hide SlotTables.ContentsOf;
    hide SlotTables.NodesOf;
    hide SlotTables.EdgesOf;
    hide Folded;
    hide WithEdge;
    hide WithoutNode;
    next, mine' := g, mine;
    g.NodesFiled();
    g.ContentsFiled();
    ghost var before := g.NodeMap();
    match c
    case Add(content) =>
      var node := new Node(content);
      mine' := mine + {node};
      var added := g.AddNode(node);
      ValuesAfter(before, g.NodeMap(), node, mine');
    case Insert(content) =>
      var node := new Node(content);
      mine' := mine + {node};
      var added := g.InsertNode(node);
      ValuesAfter(before, g.NodeMap(), node, mine');
    case Join(from, to, kind) =>
      var added := g.AddTypedEdge(from, to, kind);
    case Cut(from, to) =>
      var existed := g.RemoveEdge(from, to);
    case Remove(id) =>
      var existed := g.RemoveNode(id);
    case Copy =>
      next := g.Clone();
      mine' := mine + next.NodeMap().Values;
  }

  /** The slot table refines the plain maps over every sequence of operations. */
  method Replay(commands: seq<Command>) returns (g: Graph)
    ensures g.Valid() && Plain(g.ContentMap(), g.Edges()) == Run(commands)
  {
    hide SlotTables.TableOk;
    g := new Graph();
    assert Plain(g.ContentMap(), g.Edges()) == Run(commands[..0]);
    hide Graph.ContentMap, Graph.NodeMap, Graph.Edges, Graph.Valid, Step;
    ghost var mine: set<Node> := {};
    for i := 0 to |commands|
      invariant g.Valid() && fresh(g) && g.NodeMap().Values <= mine && fresh(mine)
      invariant Plain(g.ContentMap(), g.Edges()) == Run(commands[..i])
    {
      assert commands[..i + 1][..i] == commands[..i];
      g, mine := Execute(g, commands[i], mine);
    }
    assert commands[..|commands|] == commands;
  }
}
