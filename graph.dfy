/**
 * The typed graph that the playground draws: nodes of four types and edges
 * between them. `AddNode`, `AddEdge` and their plural forms append.
 */
module Graph {
  import opened Wrappers

  datatype NodeType = EntityNode | RelationNode | PermissionNode | LogicNode

  /** The `Type` string of a node. */
  function TypeName(t: NodeType): string {
    match t
    case EntityNode => "entity"
    case RelationNode => "relation"
    case PermissionNode => "permission"
    case LogicNode => "logic"
  }

  /**
   * A node ID: a formatted path, or a globally unique `xid`, modelled by the
   * serial number at which the generator produced it.
   */
  datatype NodeId = Named(text: string) | Xid(serial: nat)

  datatype Node = Node(typ: NodeType, id: NodeId, nodeLabel: string)

  /** An edge with its optional extra datum (a leaf's exclusion flag). */
  datatype Edge = Edge(from: Node, to: Node, extra: Option<bool>)

  datatype Graph = Graph(nodes: seq<Node>, edges: seq<Edge>)

  const EmptyGraph := Graph([], [])

  function AddNode(g: Graph, n: Node): Graph {
    g.(nodes := g.nodes + [n])
  }

  function AddEdge(g: Graph, from: Node, to: Node, extra: Option<bool>): Graph {
    g.(edges := g.edges + [Edge(from, to, extra)])
  }

  function AddNodes(g: Graph, ns: seq<Node>): Graph {
    g.(nodes := g.nodes + ns)
  }

  function AddEdges(g: Graph, es: seq<Edge>): Graph {
    g.(edges := g.edges + es)
  }

  /** `g` followed by `h`: what `AddNodes(h.Nodes())` and `AddEdges(h.Edges())` make of `g`. */
  function Append(g: Graph, h: Graph): Graph {
    Graph(g.nodes + h.nodes, g.edges + h.edges)
  }

  lemma AppendAssociative(a: Graph, b: Graph, c: Graph)
    ensures Append(Append(a, b), c) == Append(a, Append(b, c))
  {
    assert (a.nodes + b.nodes) + c.nodes == a.nodes + (b.nodes + c.nodes);
    assert (a.edges + b.edges) + c.edges == a.edges + (b.edges + c.edges);
  }
}
