/**
 * The schema-to-graph builder of the development playground: every entity
 * becomes an `entity` node, every relation a `relation` node, every
 * permission a `permission` node followed by the graph of its rewrite tree,
 * where each rewrite is a `logic` node with a fresh `xid` and each leaf an
 * edge to the relation it names.
 *
 * The `xid` generator is modelled by a serial counter that each builder takes
 * and returns; the builders are specified by the pure folds `ActionGraph`,
 * `PermissionsGraph`, `EntityGraph` and `SchemaGraph`, which the loop methods
 * `BuildActionGraph`, `EntityToGraph` and `SchemaToGraph` are proved to compute.
 */
module BuilderSpec {
  import opened Wrappers
  import opened SchemaDefinition
  import opened Graph

  /** `tuple.USER`, the main reference of a relation with no plain `@type`. */
  const User: string := "user"

  /** `ERROR_CODE_RELATION_DEFINITION_NOT_FOUND`, the builder's only error. */
  datatype GraphError = RelationDefinitionNotFound

  /** What a builder returns, together with the `xid` serial it leaves behind. */
  datatype Built = Built(graph: Graph, err: Option<GraphError>, xid: nat)

  /* ---------------- Nodes ---------------- */

  function EntityNodeOf(entity: EntityDefinition): Node {
    Node(EntityNode, Named("entity:" + entity.name), entity.name)
  }

  /** `entity:<entity>:permission:<name>`, the ID of relation and permission nodes alike. */
  function MemberId(entityName: string, name: string): NodeId {
    Named("entity:" + entityName + ":permission:" + name)
  }

  function RelationNodeOf(entity: EntityDefinition, re: RelationDefinition): Node {
    Node(RelationNode, MemberId(entity.name, re.name), re.name)
  }

  function PermissionNodeOf(entity: EntityDefinition, p: PermissionDefinition): Node {
    Node(PermissionNode, MemberId(entity.name, p.name), p.name)
  }

  /** The `relation` node a leaf points at: `relation` of entity `entityName`. */
  function LeafTarget(entityName: string, relation: string): Node {
    Node(RelationNode, MemberId(entityName, relation), relation)
  }

  /* ---------------- GetMainReference ---------------- */

  /**
   * The string form of a relation reference: the protobuf text format of the
   * message, `type:"<type>"` followed by ` relation:"<relation>"` when the
   * relation is set (the separator whitespace of that format is unspecified).
   */
  function ReferenceText(ref: RelationReference): (r: string)
    ensures '#' in r <==> '#' in ref.typ || '#' in ref.relation
  {
    var typePart := "type:\"" + ref.typ + "\"";
    var text := if ref.relation == "" then typePart else typePart + " relation:\"" + ref.relation + "\"";
    assert forall c :: c in typePart <==> c in "type:\"" || c in ref.typ || c in "\"";
    text
  }

  /** The type of the first reference whose string form has no `#`, else `user`. */
  function GetMainReference(definition: RelationDefinition): (r: string)
    ensures definition.relationReferences == [] ==> r == User
    ensures r == User || exists i :: 0 <= i < |definition.relationReferences| && r == definition.relationReferences[i].typ
  {
    MainReferenceOf(definition.relationReferences)
  }

  function MainReferenceOf(refs: seq<RelationReference>): (r: string)
    ensures r == User || exists i :: 0 <= i < |refs| && r == refs[i].typ
  {
    if refs == [] then User
    else if '#' !in ReferenceText(refs[0]) then refs[0].typ
    else MainReferenceOf(refs[1..])
  }

  /* ---------------- The pure builders ---------------- */

  /**
   * What `buildActionGraph` adds for one child of `from`, starting at serial
   * `xid`: a rewrite adds a fresh `logic` node, an edge to it and its
   * children's graph; a leaf adds one edge and no node; a tuple-to-userset
   * over an undeclared relation fails.
   */
  function ChildGraph(entity: EntityDefinition, from: Node, child: Child, xid: nat): (r: Built)
    ensures r.xid >= xid
    ensures r.err.Some? ==> r.graph == EmptyGraph && r.err == Some(RelationDefinitionNotFound)
    ensures child.Leaf? ==> r.xid == xid && |r.graph.nodes| == 0
    decreases child
  {
    match child
    case Rewrite(op, children) =>
      var rw := Node(LogicNode, Xid(xid), OperationName(op));
      var sub := ActionGraph(entity, rw, children, xid + 1);
      if sub.err.Some? then Built(EmptyGraph, sub.err, sub.xid)
      else Built(Graph([rw] + sub.graph.nodes, [Edge(from, rw, None)] + sub.graph.edges), None, sub.xid)
    case Leaf(exclusion, leafType) =>
      (match leafType
       case TupleToUserSet(tupleSet, computed) =>
         (match GetRelationByName(entity, tupleSet)
          case None => Built(EmptyGraph, Some(RelationDefinitionNotFound), xid)
          case Some(re) =>
            Built(Graph([], [Edge(from, LeafTarget(GetMainReference(re), computed), Some(exclusion))]), None, xid))
       case ComputedUserSet(relation) =>
         Built(Graph([], [Edge(from, LeafTarget(entity.name, relation), Some(exclusion))]), None, xid)
       case NoLeafType => Built(EmptyGraph, None, xid))
    case NoChildType => Built(EmptyGraph, None, xid)
  }

  /**
   * `buildActionGraph(entity, from, children)`: the children's graphs in
   * order, threading the serial; the first failure discards everything.
   */
  function ActionGraph(entity: EntityDefinition, from: Node, children: seq<Child>, xid: nat): (r: Built)
    ensures r.xid >= xid
    ensures r.err.Some? ==> r.graph == EmptyGraph && r.err == Some(RelationDefinitionNotFound)
    decreases children
  {
    if children == [] then Built(EmptyGraph, None, xid)
    else
      var prev := ActionGraph(entity, from, children[..|children| - 1], xid);
      if prev.err.Some? then prev
      else
        var step := ChildGraph(entity, from, children[|children| - 1], prev.xid);
        if step.err.Some? then step
        else Built(Append(prev.graph, step.graph), None, step.xid)
  }

  /** The relation loop of `EntityToGraph`: one node and one edge from the entity node per relation. */
  function RelationsGraph(entity: EntityDefinition, relations: seq<RelationDefinition>): (g: Graph)
    ensures |g.nodes| == |g.edges| == |relations|
    ensures forall i :: 0 <= i < |relations| ==>
      g.nodes[i] == RelationNodeOf(entity, relations[i]) &&
      g.edges[i] == Edge(EntityNodeOf(entity), g.nodes[i], None)
  {
    if relations == [] then EmptyGraph
    else
      var prev := RelationsGraph(entity, relations[..|relations| - 1]);
      var reNode := RelationNodeOf(entity, relations[|relations| - 1]);
      AddEdge(AddNode(prev, reNode), EntityNodeOf(entity), reNode, None)
  }

  /** What one permission adds: its node, the edge from the entity node, then its action graph. */
  function PermissionGraph(entity: EntityDefinition, p: PermissionDefinition, xid: nat): (r: Built)
    ensures r.xid >= xid
    ensures r.err.Some? ==> r.graph == EmptyGraph && r.err == Some(RelationDefinitionNotFound)
  {
    var ac := PermissionNodeOf(entity, p);
    var ag := ActionGraph(entity, ac, [p.child], xid);
    if ag.err.Some? then ag
    else Built(Graph([ac] + ag.graph.nodes, [Edge(EntityNodeOf(entity), ac, None)] + ag.graph.edges), None, ag.xid)
  }

  /** The permission loop of `EntityToGraph`. */
  function PermissionsGraph(entity: EntityDefinition, permissions: seq<PermissionDefinition>, xid: nat): (r: Built)
    ensures r.xid >= xid
    ensures r.err.Some? ==> r.graph == EmptyGraph && r.err == Some(RelationDefinitionNotFound)
  {
    if permissions == [] then Built(EmptyGraph, None, xid)
    else
      var prev := PermissionsGraph(entity, permissions[..|permissions| - 1], xid);
      if prev.err.Some? then prev
      else
        var step := PermissionGraph(entity, permissions[|permissions| - 1], prev.xid);
        if step.err.Some? then step
        else Built(Append(prev.graph, step.graph), None, step.xid)
  }

  /** The part of an entity's graph built before the permission loop. */
  function EntityHead(entity: EntityDefinition): Graph {
    Append(Graph([EntityNodeOf(entity)], []), RelationsGraph(entity, entity.relations))
  }

  /** `EntityToGraph(entity)`. */
  function EntityGraph(entity: EntityDefinition, xid: nat): (r: Built)
    ensures r.xid >= xid
    ensures r.err.Some? ==> r.graph == EmptyGraph && r.err == Some(RelationDefinitionNotFound)
  {
    var perms := PermissionsGraph(entity, entity.permissions, xid);
    if perms.err.Some? then perms
    else Built(Append(EntityHead(entity), perms.graph), None, perms.xid)
  }

  /** `SchemaToGraph`: the entities' graphs in order; the first failure discards everything. */
  function SchemaGraph(entities: seq<EntityDefinition>, xid: nat): (r: Built)
    ensures r.xid >= xid
    ensures r.err.Some? ==> r.graph == EmptyGraph && r.err == Some(RelationDefinitionNotFound)
  {
    if entities == [] then Built(EmptyGraph, None, xid)
    else
      var prev := SchemaGraph(entities[..|entities| - 1], xid);
      if prev.err.Some? then prev
      else
        var step := EntityGraph(entities[|entities| - 1], prev.xid);
        if step.err.Some? then step
        else Built(Append(prev.graph, step.graph), None, step.xid)
  }
}

/** The loops of `schema.go`, each proved to compute its pure fold. */
module Builder {
  import opened Wrappers
  import opened SchemaDefinition
  import opened Graph
  import opened BuilderSpec

  /** Once a prefix of the children fails, the whole list fails the same way. */
  lemma {:induction false} ActionGraphStopsAtError(entity: EntityDefinition, from: Node, children: seq<Child>, j: nat, xid: nat)
    requires j <= |children|
    requires ActionGraph(entity, from, children[..j], xid).err.Some?
    ensures ActionGraph(entity, from, children, xid) == ActionGraph(entity, from, children[..j], xid)
    decreases |children|
  {
    if j < |children| {
      var n := |children| - 1;
      assert children[..n][..j] == children[..j];
      ActionGraphStopsAtError(entity, from, children[..n], j, xid);
    } else {
      assert children[..j] == children;
    }
  }

  lemma {:induction false} PermissionsGraphStopsAtError(entity: EntityDefinition, permissions: seq<PermissionDefinition>, j: nat, xid: nat)
    requires j <= |permissions|
    requires PermissionsGraph(entity, permissions[..j], xid).err.Some?
    ensures PermissionsGraph(entity, permissions, xid) == PermissionsGraph(entity, permissions[..j], xid)
    decreases |permissions|
  {
    if j < |permissions| {
      var n := |permissions| - 1;
      assert permissions[..n][..j] == permissions[..j];
      PermissionsGraphStopsAtError(entity, permissions[..n], j, xid);
    } else {
      assert permissions[..j] == permissions;
    }
  }

  lemma {:induction false} SchemaGraphStopsAtError(entities: seq<EntityDefinition>, j: nat, xid: nat)
    requires j <= |entities|
    requires SchemaGraph(entities[..j], xid).err.Some?
    ensures SchemaGraph(entities, xid) == SchemaGraph(entities[..j], xid)
    decreases |entities|
  {
    if j < |entities| {
      var n := |entities| - 1;
      assert entities[..n][..j] == entities[..j];
      SchemaGraphStopsAtError(entities[..n], j, xid);
    } else {
      assert entities[..j] == entities;
    }
  }

  /** One more relation adds its node and the edge from the entity node. */
  lemma RelationsGraphStep(entity: EntityDefinition, i: nat)
    requires i < |entity.relations|
    ensures RelationsGraph(entity, entity.relations[..i + 1]) ==
      AddEdge(AddNode(RelationsGraph(entity, entity.relations[..i]), RelationNodeOf(entity, entity.relations[i])),
              EntityNodeOf(entity), RelationNodeOf(entity, entity.relations[i]), None)
  {
    assert entity.relations[..i + 1][..i] == entity.relations[..i];
  }

  /** One more permission after a successful prefix adds that permission's graph, or fails with it. */
  lemma PermissionsGraphStep(entity: EntityDefinition, i: nat, xid: nat)
    requires i < |entity.permissions|
    requires PermissionsGraph(entity, entity.permissions[..i], xid).err.None?
    ensures var prev := PermissionsGraph(entity, entity.permissions[..i], xid);
      var step := PermissionGraph(entity, entity.permissions[i], prev.xid);
      PermissionsGraph(entity, entity.permissions[..i + 1], xid) ==
        if step.err.Some? then step else Built(Append(prev.graph, step.graph), None, step.xid)
  {
    assert entity.permissions[..i + 1][..i] == entity.permissions[..i];
  }

  /** One more child after a successful prefix adds that child's graph, or fails with it. */
  lemma ActionGraphStep(entity: EntityDefinition, from: Node, children: seq<Child>, i: nat, xid: nat)
    requires i < |children|
    requires ActionGraph(entity, from, children[..i], xid).err.None?
    ensures var prev := ActionGraph(entity, from, children[..i], xid);
      var step := ChildGraph(entity, from, children[i], prev.xid);
      ActionGraph(entity, from, children[..i + 1], xid) ==
        if step.err.Some? then step else Built(Append(prev.graph, step.graph), None, step.xid)
  {
    assert children[..i + 1][..i] == children[..i];
  }

  /**
   * `buildActionGraph`: walks the children, adding each one's graph, and
   * returns the empty graph with the error as soon as one fails.
   */
  method BuildActionGraph(entity: EntityDefinition, from: Node, children: seq<Child>, xid: nat)
    returns (g: Graph, err: Option<GraphError>, next: nat)
    ensures Built(g, err, next) == ActionGraph(entity, from, children, xid)
    decreases children
  {
    g, err, next := EmptyGraph, None, xid;
    for i := 0 to |children|
      invariant ActionGraph(entity, from, children[..i], xid) == Built(g, None, next)
    {
      ActionGraphStep(entity, from, children, i, xid);
      var childErr;
      g, childErr, next := AddChild(entity, from, g, children[i], next);
      if childErr.Some? {
        ActionGraphStopsAtError(entity, from, children, i + 1, xid);
        return EmptyGraph, childErr, next;
      }
    }
    assert children[..|children|] == children;
  }

  /**
   * The body of `buildActionGraph`'s loop for one child: a rewrite adds a
   * logic node with the next serial, the edge to it and its children's graph;
   * a leaf adds the edge to the relation it names; a tuple-to-userset over an
   * undeclared relation fails.
   */
  method AddChild(entity: EntityDefinition, from: Node, g: Graph, child: Child, xid: nat)
    returns (g': Graph, err: Option<GraphError>, next: nat)
    ensures var step := ChildGraph(entity, from, child, xid);
      err == step.err && next == step.xid && (err.None? ==> g' == Append(g, step.graph))
    decreases child
  {
    g', err, next := g, None, xid;
    match child {
      case Rewrite(op, grandchildren) =>
        var rw := Node(LogicNode, Xid(next), OperationName(op));
        next := next + 1;
        g' := AddNode(g', rw);
        g' := AddEdge(g', from, rw, None);
        var ag;
        ag, err, next := BuildActionGraph(entity, rw, grandchildren, next);
        if err.Some? {
          return;
        }
        g' := AddNodes(g', ag.nodes);
        g' := AddEdges(g', ag.edges);
        assert g'.nodes == g.nodes + ([rw] + ag.nodes);
        assert g'.edges == g.edges + ([Edge(from, rw, None)] + ag.edges);
      case Leaf(exclusion, leafType) =>
        match leafType {
          case TupleToUserSet(tupleSet, computed) =>
            var re := GetRelationByName(entity, tupleSet);
            if re.None? {
              return g', Some(RelationDefinitionNotFound), next;
            }
            g' := AddEdge(g', from, LeafTarget(GetMainReference(re.value), computed), Some(exclusion));
          case ComputedUserSet(relation) =>
            g' := AddEdge(g', from, LeafTarget(entity.name, relation), Some(exclusion));
          case NoLeafType =>
        }
      case NoChildType =>
    }
  }

  /**
   * `EntityToGraph`: the entity node, a node and an edge per relation, then
   * each permission's graph; the first failing permission discards everything.
   */
  method EntityToGraph(entity: EntityDefinition, xid: nat) returns (g: Graph, err: Option<GraphError>, next: nat)
    ensures Built(g, err, next) == EntityGraph(entity, xid)
  {
    g := AddNode(EmptyGraph, EntityNodeOf(entity));
    g := AddRelations(entity, g);
    ghost var head, perms := g, EmptyGraph;
    err, next := None, xid;
    for i := 0 to |entity.permissions|
      invariant PermissionsGraph(entity, entity.permissions[..i], xid) == Built(perms, None, next)
      invariant g == Append(head, perms)
    {
      PermissionsGraphStep(entity, i, xid);
      ghost var step := PermissionGraph(entity, entity.permissions[i], next);
      var permissionErr;
      g, permissionErr, next := AddPermission(entity, g, entity.permissions[i], next);
      if permissionErr.Some? {
        PermissionsGraphStopsAtError(entity, entity.permissions, i + 1, xid);
        return EmptyGraph, permissionErr, next;
      }
      AppendAssociative(head, perms, step.graph);
      perms := Append(perms, step.graph);
    }
    assert entity.permissions[..|entity.permissions|] == entity.permissions;
  }

  /** The relation loop of `EntityToGraph`: a node and an edge from the entity node per relation. */
  method AddRelations(entity: EntityDefinition, g: Graph) returns (g': Graph)
    ensures g' == Append(g, RelationsGraph(entity, entity.relations))
  {
    g' := g;
    var enNode := EntityNodeOf(entity);
    for i := 0 to |entity.relations|
      invariant g' == Append(g, RelationsGraph(entity, entity.relations[..i]))
    {
      RelationsGraphStep(entity, i);
      var reNode := RelationNodeOf(entity, entity.relations[i]);
      g' := AddNode(g', reNode);
      g' := AddEdge(g', enNode, reNode, None);
    }
    assert entity.relations[..|entity.relations|] == entity.relations;
  }

  /**
   * The body of `EntityToGraph`'s permission loop: the permission node, the
   * edge from the entity node, then the action graph of the permission's child.
   */
  method AddPermission(entity: EntityDefinition, g: Graph, permission: PermissionDefinition, xid: nat)
    returns (g': Graph, err: Option<GraphError>, next: nat)
    ensures var step := PermissionGraph(entity, permission, xid);
      err == step.err && next == step.xid && (err.None? ==> g' == Append(g, step.graph))
  {
    var acNode := PermissionNodeOf(entity, permission);
    g' := AddNode(g, acNode);
    g' := AddEdge(g', EntityNodeOf(entity), acNode, None);
    var ag;
    ag, err, next := BuildActionGraph(entity, acNode, [permission.child], xid);
    if err.Some? {
      return;
    }
    g' := AddNodes(g', ag.nodes);
    g' := AddEdges(g', ag.edges);
    assert g'.nodes == g.nodes + ([acNode] + ag.nodes);
    assert g'.edges == g.edges + ([Edge(EntityNodeOf(entity), acNode, None)] + ag.edges);
  }

  /** `SchemaToGraph`: every entity's graph in order, or the empty graph and the first error. */
  method SchemaToGraph(schema: Schema, xid: nat) returns (g: Graph, err: Option<GraphError>, next: nat)
    ensures Built(g, err, next) == SchemaGraph(schema.entityDefinitions, xid)
  {
    var entities := schema.entityDefinitions;
    g, err, next := EmptyGraph, None, xid;
    for i := 0 to |entities|
      invariant SchemaGraph(entities[..i], xid) == Built(g, None, next)
    {
      assert entities[..i + 1][..i] == entities[..i];
      var eg, egErr, egNext := EntityToGraph(entities[i], next);
      next := egNext;
      if egErr.Some? {
        SchemaGraphStopsAtError(entities, i + 1, xid);
        return EmptyGraph, egErr, next;
      }
      g := AddNodes(g, eg.nodes);
      g := AddEdges(g, eg.edges);
    }
    assert entities[..|entities|] == entities;
  }
}
