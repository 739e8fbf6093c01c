/**
 * What the schema-to-graph builder guarantees: when it fails, the logic node
 * IDs it draws, the shape of every entity's part of the graph, and the choice
 * of a relation's main reference.
 */
module BuilderProperties {
  import opened Wrappers
  import opened SchemaDefinition
  import opened Graph
  import opened BuilderSpec

  /* ---------------- Failure ---------------- */

  /** Every tuple-to-userset leaf under `child` names a relation declared in `entity`. */
  predicate Resolved(entity: EntityDefinition, child: Child)
    decreases child
  {
    match child
    case Rewrite(_, children) => forall i :: 0 <= i < |children| ==> Resolved(entity, children[i])
    case Leaf(_, TupleToUserSet(tupleSet, _)) => GetRelationByName(entity, tupleSet).Some?
    case _ => true
  }

  predicate AllResolved(entity: EntityDefinition, children: seq<Child>) {
    forall i :: 0 <= i < |children| ==> Resolved(entity, children[i])
  }

  /** Every permission of every entity is resolved within its own entity. */
  predicate SchemaResolved(entities: seq<EntityDefinition>) {
    forall i, j :: 0 <= i < |entities| && 0 <= j < |entities[i].permissions| ==>
      Resolved(entities[i], entities[i].permissions[j].child)
  }

  lemma {:induction false} ChildGraphSucceedsIff(entity: EntityDefinition, from: Node, child: Child, xid: nat)
    ensures ChildGraph(entity, from, child, xid).err.None? <==> Resolved(entity, child)
    decreases child
  {
    match child
    case Rewrite(op, children) =>
      ActionGraphSucceedsIff(entity, Node(LogicNode, Xid(xid), OperationName(op)), children, xid + 1);
    case Leaf(_, _) =>
    case NoChildType =>
  }

  /** A list of children builds exactly when each child is resolved. */
  lemma {:induction false} ActionGraphSucceedsIff(entity: EntityDefinition, from: Node, children: seq<Child>, xid: nat)
    ensures ActionGraph(entity, from, children, xid).err.None? <==> AllResolved(entity, children)
    decreases children
  {
    if children != [] {
      var n := |children| - 1;
      var prev := ActionGraph(entity, from, children[..n], xid);
      ActionGraphSucceedsIff(entity, from, children[..n], xid);
      assert AllResolved(entity, children) <==> AllResolved(entity, children[..n]) && Resolved(entity, children[n]);
      if prev.err.None? {
        ChildGraphSucceedsIff(entity, from, children[n], prev.xid);
      }
    }
  }

  lemma {:induction false} PermissionsGraphSucceedsIff(entity: EntityDefinition, permissions: seq<PermissionDefinition>, xid: nat)
    ensures PermissionsGraph(entity, permissions, xid).err.None? <==>
      forall j :: 0 <= j < |permissions| ==> Resolved(entity, permissions[j].child)
  {
    if permissions != [] {
      var n := |permissions| - 1;
      var prev := PermissionsGraph(entity, permissions[..n], xid);
      PermissionsGraphSucceedsIff(entity, permissions[..n], xid);
      if prev.err.None? {
        var p := permissions[n];
        ActionGraphSucceedsIff(entity, PermissionNodeOf(entity, p), [p.child], prev.xid);
        assert AllResolved(entity, [p.child]) <==> Resolved(entity, p.child);
      }
      assert (forall j :: 0 <= j < |permissions| ==> Resolved(entity, permissions[j].child)) <==>
        (forall j :: 0 <= j < n ==> Resolved(entity, permissions[..n][j].child)) && Resolved(entity, permissions[n].child);
    }
  }

  /**
   * `SchemaToGraph` fails exactly when some permission holds a
   * tuple-to-userset over a relation its entity does not declare, and then
   * returns the empty graph with `RELATION_DEFINITION_NOT_FOUND`.
   */
  lemma {:induction false} SchemaGraphSucceedsIff(entities: seq<EntityDefinition>, xid: nat)
    ensures SchemaGraph(entities, xid).err.None? <==> SchemaResolved(entities)
    ensures SchemaGraph(entities, xid).err.Some? ==>
      SchemaGraph(entities, xid).graph == EmptyGraph && SchemaGraph(entities, xid).err == Some(RelationDefinitionNotFound)
  {
    if entities != [] {
      var n := |entities| - 1;
      var prev := SchemaGraph(entities[..n], xid);
      SchemaGraphSucceedsIff(entities[..n], xid);
      if prev.err.None? {
        PermissionsGraphSucceedsIff(entities[n], entities[n].permissions, prev.xid);
      }
      assert SchemaResolved(entities) <==> (SchemaResolved(entities[..n]) &&
        forall j :: 0 <= j < |entities[n].permissions| ==> Resolved(entities[n], entities[n].permissions[j].child));
    }
  }

  /* ---------------- Logic node IDs ---------------- */

  /**
   * Every `xid` among `nodes` was drawn in `[lo, hi)`, and no two nodes share
   * an `xid`.
   */
  predicate FreshXids(nodes: seq<Node>, lo: nat, hi: nat) {
    (forall i :: 0 <= i < |nodes| && nodes[i].id.Xid? ==> lo <= nodes[i].id.serial < hi) &&
    (forall i, j :: 0 <= i < j < |nodes| && nodes[i].id.Xid? ==> nodes[i].id != nodes[j].id)
  }

  /** Every node is a `logic` node with an `xid`. */
  predicate AllLogic(nodes: seq<Node>) {
    forall i :: 0 <= i < |nodes| ==> nodes[i].typ == LogicNode && nodes[i].id.Xid?
  }

  lemma FreshXidsAppend(a: seq<Node>, b: seq<Node>, lo: nat, mid: nat, hi: nat)
    requires FreshXids(a, lo, mid) && FreshXids(b, mid, hi) && lo <= mid <= hi
    ensures FreshXids(a + b, lo, hi)
  {
    var c := a + b;
    forall i, j | 0 <= i < j < |c| && c[i].id.Xid?
      ensures c[i].id != c[j].id
    {
      if j < |a| {
        assert c[i] == a[i] && c[j] == a[j];
      } else if i >= |a| {
        assert c[i] == b[i - |a|] && c[j] == b[j - |a|];
      } else {
        assert c[i] == a[i] && c[j] == b[j - |a|];
      }
    }
  }

  lemma {:induction false} ChildGraphXids(entity: EntityDefinition, from: Node, child: Child, xid: nat)
    ensures var r := ChildGraph(entity, from, child, xid);
      FreshXids(r.graph.nodes, xid, r.xid) && AllLogic(r.graph.nodes)
    decreases child
  {
    match child
    case Rewrite(op, children) =>
      var rw := Node(LogicNode, Xid(xid), OperationName(op));
      var sub := ActionGraph(entity, rw, children, xid + 1);
      ActionGraphXids(entity, rw, children, xid + 1);
      if sub.err.None? {
        FreshXidsAppend([rw], sub.graph.nodes, xid, xid + 1, sub.xid);
      }
    case Leaf(_, _) =>
    case NoChildType =>
  }

  /**
   * The logic nodes a rewrite tree adds carry `xid`s drawn from the serials
   * the build consumed, all distinct.
   */
  lemma {:induction false} ActionGraphXids(entity: EntityDefinition, from: Node, children: seq<Child>, xid: nat)
    ensures var r := ActionGraph(entity, from, children, xid);
      FreshXids(r.graph.nodes, xid, r.xid) && AllLogic(r.graph.nodes)
    decreases children
  {
    if children != [] {
      var n := |children| - 1;
      var prev := ActionGraph(entity, from, children[..n], xid);
      ActionGraphXids(entity, from, children[..n], xid);
      if prev.err.None? {
        var step := ChildGraph(entity, from, children[n], prev.xid);
        ChildGraphXids(entity, from, children[n], prev.xid);
        if step.err.None? {
          FreshXidsAppend(prev.graph.nodes, step.graph.nodes, xid, prev.xid, step.xid);
        }
      }
    }
  }

  lemma PermissionGraphXids(entity: EntityDefinition, p: PermissionDefinition, xid: nat)
    ensures var r := PermissionGraph(entity, p, xid);
      FreshXids(r.graph.nodes, xid, r.xid)
  {
    var ac := PermissionNodeOf(entity, p);
    var ag := ActionGraph(entity, ac, [p.child], xid);
    ActionGraphXids(entity, ac, [p.child], xid);
    if ag.err.None? {
      FreshXidsAppend([ac], ag.graph.nodes, xid, xid, ag.xid);
    }
  }

  lemma {:induction false} PermissionsGraphXids(entity: EntityDefinition, permissions: seq<PermissionDefinition>, xid: nat)
    ensures var r := PermissionsGraph(entity, permissions, xid);
      FreshXids(r.graph.nodes, xid, r.xid)
  {
    if permissions != [] {
      var n := |permissions| - 1;
      var prev := PermissionsGraph(entity, permissions[..n], xid);
      PermissionsGraphXids(entity, permissions[..n], xid);
      if prev.err.None? {
        var step := PermissionGraph(entity, permissions[n], prev.xid);
        PermissionGraphXids(entity, permissions[n], prev.xid);
        if step.err.None? {
          FreshXidsAppend(prev.graph.nodes, step.graph.nodes, xid, prev.xid, step.xid);
        }
      }
    }
  }

  lemma EntityGraphXids(entity: EntityDefinition, xid: nat)
    ensures var r := EntityGraph(entity, xid);
      FreshXids(r.graph.nodes, xid, r.xid)
  {
    var perms := PermissionsGraph(entity, entity.permissions, xid);
    PermissionsGraphXids(entity, entity.permissions, xid);
    if perms.err.None? {
      var head := EntityHead(entity).nodes;
      assert forall i :: 0 <= i < |head| ==> head[i].id.Named?;
      FreshXidsAppend(head, perms.graph.nodes, xid, xid, perms.xid);
    }
  }

  /**
   * No two nodes of a schema graph share an `xid`, and every `xid` in it was
   * drawn during the build.
   */
  lemma {:induction false} SchemaGraphXids(entities: seq<EntityDefinition>, xid: nat)
    ensures var r := SchemaGraph(entities, xid);
      FreshXids(r.graph.nodes, xid, r.xid)
  {
    if entities != [] {
      var n := |entities| - 1;
      var prev := SchemaGraph(entities[..n], xid);
      SchemaGraphXids(entities[..n], xid);
      if prev.err.None? {
        var step := EntityGraph(entities[n], prev.xid);
        EntityGraphXids(entities[n], prev.xid);
        if step.err.None? {
          FreshXidsAppend(prev.graph.nodes, step.graph.nodes, xid, prev.xid, step.xid);
        }
      }
    }
  }

  /* ---------------- Size of a rewrite tree's graph ---------------- */

  /** The rewrites under `child`, itself included. */
  function RewriteCount(child: Child): nat
    decreases child
  {
    match child
    case Rewrite(_, children) => 1 + RewriteCountAll(children)
    case _ => 0
  }

  function RewriteCountAll(children: seq<Child>): nat
    decreases children
  {
    if children == [] then 0
    else RewriteCountAll(children[..|children| - 1]) + RewriteCount(children[|children| - 1])
  }

  /** The rewrites and the set leaves under `child`: one incoming edge each. */
  function EdgeCount(child: Child): nat
    decreases child
  {
    match child
    case Rewrite(_, children) => 1 + EdgeCountAll(children)
    case Leaf(_, NoLeafType) => 0
    case Leaf(_, _) => 1
    case NoChildType => 0
  }

  function EdgeCountAll(children: seq<Child>): nat
    decreases children
  {
    if children == [] then 0
    else EdgeCountAll(children[..|children| - 1]) + EdgeCount(children[|children| - 1])
  }

  lemma {:induction false} ChildGraphSize(entity: EntityDefinition, from: Node, child: Child, xid: nat)
    ensures var r := ChildGraph(entity, from, child, xid);
      r.err.None? ==>
        |r.graph.nodes| == RewriteCount(child) && |r.graph.edges| == EdgeCount(child) &&
        r.xid == xid + RewriteCount(child)
    decreases child
  {
    match child
    case Rewrite(op, children) =>
      ActionGraphSize(entity, Node(LogicNode, Xid(xid), OperationName(op)), children, xid + 1);
    case Leaf(_, _) =>
    case NoChildType =>
  }

  /**
   * A successful build adds one logic node per rewrite, and one edge per
   * rewrite and per leaf that is set, and draws one `xid` per rewrite.
   */
  lemma {:induction false} ActionGraphSize(entity: EntityDefinition, from: Node, children: seq<Child>, xid: nat)
    ensures var r := ActionGraph(entity, from, children, xid);
      r.err.None? ==>
        |r.graph.nodes| == RewriteCountAll(children) && |r.graph.edges| == EdgeCountAll(children) &&
        r.xid == xid + RewriteCountAll(children)
    decreases children
  {
    if children != [] {
      var n := |children| - 1;
      var prev := ActionGraph(entity, from, children[..n], xid);
      ActionGraphSize(entity, from, children[..n], xid);
      if prev.err.None? {
        ChildGraphSize(entity, from, children[n], prev.xid);
      }
    }
  }

  /* ---------------- Edge sources ---------------- */

  /** Every edge leaves `from` or a node of `g`. */
  predicate SourcesFrom(g: Graph, from: Node) {
    forall i :: 0 <= i < |g.edges| ==> g.edges[i].from == from || g.edges[i].from in g.nodes
  }

  /** Every edge leaves a node of `g`. */
  predicate SourcesPresent(g: Graph) {
    forall i :: 0 <= i < |g.edges| ==> g.edges[i].from in g.nodes
  }

  lemma SourcesFromAppend(g: Graph, h: Graph, from: Node)
    requires SourcesFrom(g, from) && SourcesFrom(h, from)
    ensures SourcesFrom(Append(g, h), from)
  {
    var a := Append(g, h);
    forall i | 0 <= i < |a.edges|
      ensures a.edges[i].from == from || a.edges[i].from in a.nodes
    {
      if i < |g.edges| {
        assert a.edges[i] == g.edges[i];
      } else {
        assert a.edges[i] == h.edges[i - |g.edges|];
      }
    }
  }

  lemma {:induction false} ChildGraphSources(entity: EntityDefinition, from: Node, child: Child, xid: nat)
    ensures SourcesFrom(ChildGraph(entity, from, child, xid).graph, from)
    decreases child
  {
    match child
    case Rewrite(op, children) =>
      var rw := Node(LogicNode, Xid(xid), OperationName(op));
      ActionGraphSources(entity, rw, children, xid + 1);
    case Leaf(_, _) =>
    case NoChildType =>
  }

  /** Every edge of a rewrite tree's graph leaves the parent node or one of the tree's logic nodes. */
  lemma {:induction false} ActionGraphSources(entity: EntityDefinition, from: Node, children: seq<Child>, xid: nat)
    ensures SourcesFrom(ActionGraph(entity, from, children, xid).graph, from)
    decreases children
  {
    if children != [] {
      var n := |children| - 1;
      var prev := ActionGraph(entity, from, children[..n], xid);
      ActionGraphSources(entity, from, children[..n], xid);
      if prev.err.None? {
        var step := ChildGraph(entity, from, children[n], prev.xid);
        ChildGraphSources(entity, from, children[n], prev.xid);
        if step.err.None? {
          SourcesFromAppend(prev.graph, step.graph, from);
        }
      }
    }
  }

  lemma {:induction false} PermissionsGraphSources(entity: EntityDefinition, permissions: seq<PermissionDefinition>, xid: nat)
    ensures SourcesFrom(PermissionsGraph(entity, permissions, xid).graph, EntityNodeOf(entity))
  {
    var en := EntityNodeOf(entity);
    if permissions != [] {
      var n := |permissions| - 1;
      var prev := PermissionsGraph(entity, permissions[..n], xid);
      PermissionsGraphSources(entity, permissions[..n], xid);
      if prev.err.None? {
        var p := permissions[n];
        var ac := PermissionNodeOf(entity, p);
        var ag := ActionGraph(entity, ac, [p.child], prev.xid);
        ActionGraphSources(entity, ac, [p.child], prev.xid);
        var step := PermissionGraph(entity, p, prev.xid);
        if step.err.None? {
          assert step.graph == Graph([ac] + ag.graph.nodes, [Edge(en, ac, None)] + ag.graph.edges);
          forall i | 0 <= i < |step.graph.edges|
            ensures step.graph.edges[i].from == en || step.graph.edges[i].from in step.graph.nodes
          {
            if i > 0 {
              assert step.graph.edges[i] == ag.graph.edges[i - 1];
            }
          }
          SourcesFromAppend(prev.graph, step.graph, en);
        }
      }
    }
  }

  /** Every edge of an entity's graph leaves one of its nodes. */
  lemma EntityGraphSources(entity: EntityDefinition, xid: nat)
    ensures SourcesPresent(EntityGraph(entity, xid).graph)
  {
    var en := EntityNodeOf(entity);
    var perms := PermissionsGraph(entity, entity.permissions, xid);
    PermissionsGraphSources(entity, entity.permissions, xid);
    if perms.err.None? {
      var head := EntityHead(entity);
      assert SourcesFrom(head, en);
      SourcesFromAppend(head, perms.graph, en);
      assert EntityGraph(entity, xid).graph.nodes[0] == en;
    }
  }

  /** Every edge of a schema graph leaves a node of that graph. */
  lemma {:induction false} SchemaGraphSources(entities: seq<EntityDefinition>, xid: nat)
    ensures SourcesPresent(SchemaGraph(entities, xid).graph)
  {
    if entities != [] {
      var n := |entities| - 1;
      var prev := SchemaGraph(entities[..n], xid);
      SchemaGraphSources(entities[..n], xid);
      if prev.err.None? {
        var step := EntityGraph(entities[n], prev.xid);
        EntityGraphSources(entities[n], prev.xid);
        if step.err.None? {
          var a := Append(prev.graph, step.graph);
          forall i | 0 <= i < |a.edges|
            ensures a.edges[i].from in a.nodes
          {
            if i < |prev.graph.edges| {
              assert a.edges[i] == prev.graph.edges[i];
            } else {
              assert a.edges[i] == step.graph.edges[i - |prev.graph.edges|];
            }
          }
        }
      }
    }
  }

  /* ---------------- The nodes of an entity ---------------- */

  /** The `entity` nodes among `nodes`, in order. */
  function EntityNodes(nodes: seq<Node>): seq<Node> {
    if nodes == [] then []
    else EntityNodes(nodes[..|nodes| - 1]) + (if nodes[|nodes| - 1].typ == EntityNode then [nodes[|nodes| - 1]] else [])
  }

  lemma {:induction false} EntityNodesAppend(a: seq<Node>, b: seq<Node>)
    ensures EntityNodes(a + b) == EntityNodes(a) + EntityNodes(b)
    decreases |b|
  {
    if b != [] {
      var n := |b| - 1;
      assert (a + b)[..|a + b| - 1] == a + b[..n];
      EntityNodesAppend(a, b[..n]);
    } else {
      assert a + b == a;
    }
  }

  lemma {:induction false} NoEntityNodes(nodes: seq<Node>)
    requires forall i :: 0 <= i < |nodes| ==> nodes[i].typ != EntityNode
    ensures EntityNodes(nodes) == []
  {
    if nodes != [] {
      NoEntityNodes(nodes[..|nodes| - 1]);
    }
  }

  predicate PermissionsAndLogic(nodes: seq<Node>) {
    forall i :: 0 <= i < |nodes| ==> nodes[i].typ == PermissionNode || nodes[i].typ == LogicNode
  }

  /** A permission's part of the graph holds only `permission` and `logic` nodes. */
  lemma {:induction false} PermissionsGraphNodeTypes(entity: EntityDefinition, permissions: seq<PermissionDefinition>, xid: nat)
    ensures PermissionsAndLogic(PermissionsGraph(entity, permissions, xid).graph.nodes)
  {
    if permissions != [] {
      var n := |permissions| - 1;
      var prev := PermissionsGraph(entity, permissions[..n], xid);
      PermissionsGraphNodeTypes(entity, permissions[..n], xid);
      if prev.err.None? {
        var p := permissions[n];
        var ac := PermissionNodeOf(entity, p);
        var ag := ActionGraph(entity, ac, [p.child], prev.xid);
        ActionGraphXids(entity, ac, [p.child], prev.xid);
        var step := PermissionGraph(entity, p, prev.xid);
        if step.err.None? {
          var nodes := prev.graph.nodes + ([ac] + ag.graph.nodes);
          assert PermissionsGraph(entity, permissions, xid).graph.nodes == nodes;
          forall i | 0 <= i < |nodes|
            ensures nodes[i].typ == PermissionNode || nodes[i].typ == LogicNode
          {
            if i < |prev.graph.nodes| {
              assert nodes[i] == prev.graph.nodes[i];
              assert PermissionsAndLogic(prev.graph.nodes);
            } else if i == |prev.graph.nodes| {
              assert nodes[i] == ac;
            } else {
              assert nodes[i] == ag.graph.nodes[i - |prev.graph.nodes| - 1];
              assert AllLogic(ag.graph.nodes);
            }
          }
        }
      }
    }
  }

  /**
   * A successful entity graph starts with the entity node `entity:<name>`,
   * followed by one `relation` node `entity:<name>:permission:<relation>` per
   * relation, each with the edge from the entity node.
   */
  lemma EntityGraphLayout(entity: EntityDefinition, xid: nat)
    requires EntityGraph(entity, xid).err.None?
    ensures var g := EntityGraph(entity, xid).graph;
      |g.nodes| >= 1 + |entity.relations| && |g.edges| >= |entity.relations| &&
      g.nodes[0] == Node(EntityNode, Named("entity:" + entity.name), entity.name) &&
      forall i :: 0 <= i < |entity.relations| ==>
        g.nodes[1 + i] == Node(RelationNode, Named("entity:" + entity.name + ":permission:" + entity.relations[i].name), entity.relations[i].name) &&
        g.edges[i] == Edge(g.nodes[0], g.nodes[1 + i], None)
  {
    var g := EntityGraph(entity, xid).graph;
    var rels := RelationsGraph(entity, entity.relations);
    var perms := PermissionsGraph(entity, entity.permissions, xid);
    assert g.nodes == [EntityNodeOf(entity)] + rels.nodes + perms.graph.nodes;
    assert g.edges == rels.edges + perms.graph.edges;
    forall i | 0 <= i < |entity.relations|
      ensures g.nodes[1 + i] == rels.nodes[i] && g.edges[i] == rels.edges[i]
    {
    }
  }

  /** An entity graph holds exactly one `entity` node: its first. */
  lemma EntityGraphOneEntityNode(entity: EntityDefinition, xid: nat)
    requires EntityGraph(entity, xid).err.None?
    ensures EntityNodes(EntityGraph(entity, xid).graph.nodes) == [EntityNodeOf(entity)]
  {
    var rels := RelationsGraph(entity, entity.relations);
    var perms := PermissionsGraph(entity, entity.permissions, xid);
    var en := EntityNodeOf(entity);
    assert EntityGraph(entity, xid).graph.nodes == [en] + rels.nodes + perms.graph.nodes;
    PermissionsGraphNodeTypes(entity, entity.permissions, xid);
    assert PermissionsAndLogic(perms.graph.nodes);
    NoEntityNodes(rels.nodes);
    NoEntityNodes(perms.graph.nodes);
    EntityNodesAppend([en], rels.nodes);
    EntityNodesAppend([en] + rels.nodes, perms.graph.nodes);
    assert EntityNodes([en]) == [en] by {
      assert [en][..0] == [];
    }
  }

  /** Each permission of a successful entity graph has its node and the edge from the entity node. */
  lemma {:induction false} PermissionsGraphHasPermissions(entity: EntityDefinition, permissions: seq<PermissionDefinition>, xid: nat)
    requires PermissionsGraph(entity, permissions, xid).err.None?
    ensures var g := PermissionsGraph(entity, permissions, xid).graph;
      forall j :: 0 <= j < |permissions| ==>
        PermissionNodeOf(entity, permissions[j]) in g.nodes &&
        Edge(EntityNodeOf(entity), PermissionNodeOf(entity, permissions[j]), None) in g.edges
  {
    if permissions != [] {
      var n := |permissions| - 1;
      var prev := PermissionsGraph(entity, permissions[..n], xid);
      PermissionsGraphHasPermissions(entity, permissions[..n], xid);
      var step := PermissionGraph(entity, permissions[n], prev.xid);
      var g := PermissionsGraph(entity, permissions, xid).graph;
      assert g == Append(prev.graph, step.graph);
      assert step.graph.nodes[0] == PermissionNodeOf(entity, permissions[n]);
      assert step.graph.edges[0] == Edge(EntityNodeOf(entity), PermissionNodeOf(entity, permissions[n]), None);
      forall j | 0 <= j < |permissions|
        ensures PermissionNodeOf(entity, permissions[j]) in g.nodes
        ensures Edge(EntityNodeOf(entity), PermissionNodeOf(entity, permissions[j]), None) in g.edges
      {
        if j < n {
          assert permissions[j] == permissions[..n][j];
        } else {
          assert g.nodes[|prev.graph.nodes|] == step.graph.nodes[0];
          assert g.edges[|prev.graph.edges|] == step.graph.edges[0];
        }
      }
    }
  }

  /**
   * Each permission of a successful entity graph has a `permission` node
   * `entity:<name>:permission:<permission>` with the edge from the entity node.
   */
  lemma EntityGraphHasPermissions(entity: EntityDefinition, xid: nat)
    requires EntityGraph(entity, xid).err.None?
    ensures var g := EntityGraph(entity, xid).graph;
      forall j :: 0 <= j < |entity.permissions| ==>
        var ac := Node(PermissionNode, Named("entity:" + entity.name + ":permission:" + entity.permissions[j].name), entity.permissions[j].name);
        ac in g.nodes && Edge(g.nodes[0], ac, None) in g.edges
  {
    var perms := PermissionsGraph(entity, entity.permissions, xid);
    PermissionsGraphHasPermissions(entity, entity.permissions, xid);
    var g := EntityGraph(entity, xid).graph;
    assert g == Append(EntityHead(entity), perms.graph);
    assert g.nodes[0] == EntityNodeOf(entity);
  }

  /** The entity node `entity:<name>` of each entity, in order. */
  function EntityNodeList(entities: seq<EntityDefinition>): (r: seq<Node>)
    ensures |r| == |entities|
    ensures forall i :: 0 <= i < |entities| ==> r[i] == Node(EntityNode, Named("entity:" + entities[i].name), entities[i].name)
  {
    seq(|entities|, i requires 0 <= i < |entities| => EntityNodeOf(entities[i]))
  }

  lemma EntityNodeListSnoc(entities: seq<EntityDefinition>)
    requires entities != []
    ensures EntityNodeList(entities) ==
      EntityNodeList(entities[..|entities| - 1]) + [EntityNodeOf(entities[|entities| - 1])]
  {
  }

  /** The `entity` nodes of a successful schema graph are those of its entities, one each, in order. */
  lemma {:induction false} SchemaGraphEntityNodes(entities: seq<EntityDefinition>, xid: nat)
    requires SchemaGraph(entities, xid).err.None?
    ensures EntityNodes(SchemaGraph(entities, xid).graph.nodes) == EntityNodeList(entities)
  {
    if entities != [] {
      var n := |entities| - 1;
      var prev := SchemaGraph(entities[..n], xid);
      SchemaGraphEntityNodes(entities[..n], xid);
      var step := EntityGraph(entities[n], prev.xid);
      assert SchemaGraph(entities, xid).graph.nodes == prev.graph.nodes + step.graph.nodes;
      EntityGraphOneEntityNode(entities[n], prev.xid);
      EntityNodesAppend(prev.graph.nodes, step.graph.nodes);
      EntityNodeListSnoc(entities);
    }
  }

  /* ---------------- GetMainReference ---------------- */

  /** A reference with no `#` in its type or relation, which is one whose string form has none. */
  predicate Plain(ref: RelationReference) {
    '#' !in ref.typ && '#' !in ref.relation
  }

  /** The main reference is the type of the first plain reference. */
  lemma {:induction false} MainReferenceIsFirstPlain(refs: seq<RelationReference>, k: nat)
    requires k < |refs| && Plain(refs[k])
    requires forall i :: 0 <= i < k ==> !Plain(refs[i])
    ensures MainReferenceOf(refs) == refs[k].typ
  {
    if k > 0 {
      assert !Plain(refs[0]);
      MainReferenceIsFirstPlain(refs[1..], k - 1);
    }
  }

  /** Without a plain reference the main reference is `user`. */
  lemma {:induction false} MainReferenceDefaultsToUser(refs: seq<RelationReference>)
    requires forall i :: 0 <= i < |refs| ==> !Plain(refs[i])
    ensures MainReferenceOf(refs) == User
  {
    if refs != [] {
      assert !Plain(refs[0]);
      MainReferenceDefaultsToUser(refs[1..]);
    }
  }

  /**
   * When no type or relation name contains `#` (DSL identifiers cannot), every
   * reference is plain, `type#relation` references included, so the main
   * reference is the first reference's type.
   */
  lemma MainReferenceOfIdentifiers(definition: RelationDefinition)
    requires forall i :: 0 <= i < |definition.relationReferences| ==>
      '#' !in definition.relationReferences[i].typ && '#' !in definition.relationReferences[i].relation
    ensures GetMainReference(definition) ==
      if definition.relationReferences == [] then User else definition.relationReferences[0].typ
  {
    var refs := definition.relationReferences;
    if refs != [] {
      MainReferenceIsFirstPlain(refs, 0);
    }
  }

  /** A schema with a single entity `a` and nothing in it builds one entity node and no edge. */
  lemma SingleEntitySchema(xid: nat)
    ensures SchemaGraph([EntityDefinition("a", [], [])], xid) ==
      Built(Graph([Node(EntityNode, Named("entity:a"), "a")], []), None, xid)
  {
    var e := EntityDefinition("a", [], []);
    var en := Node(EntityNode, Named("entity:a"), "a");
    assert [e][..0] == [];
    assert "entity:" + "a" == "entity:a";
    assert EntityNodeOf(e) == en;
    assert RelationsGraph(e, e.relations) == EmptyGraph;
    assert [en] + [] == [en];
    assert EntityHead(e) == Graph([en], []);
    assert EntityGraph(e, xid) == Built(Graph([en], []), None, xid);
  }
}
