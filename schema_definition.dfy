/**
 * The compiled schema that the graph builder reads: the entity, relation and
 * permission definitions with their rewrite trees (the `base/v1` protobuf
 * messages, which are not part of this model; their maps keyed by name are
 * modelled as sequences in iteration order).
 */
module SchemaDefinition {
  import opened Wrappers

  /** `@type` or `@type#relation` in a relation declaration. */
  datatype RelationReference = RelationReference(typ: string, relation: string)

  datatype RelationDefinition = RelationDefinition(name: string, relationReferences: seq<RelationReference>)

  /** `Rewrite.Operation`. */
  datatype Operation = OperationUnspecified | OperationUnion | OperationIntersection

  /** The `type` one-of of a leaf; `NoLeafType` is the unset one-of. */
  datatype LeafType =
    | ComputedUserSet(relation: string)
    | TupleToUserSet(tupleSet: string, computed: string)
    | NoLeafType

  /** The `type` one-of of a child; `NoChildType` is the unset one-of (or a nil child). */
  datatype Child =
    | Rewrite(operation: Operation, children: seq<Child>)
    | Leaf(exclusion: bool, leafType: LeafType)
    | NoChildType

  datatype PermissionDefinition = PermissionDefinition(name: string, child: Child)

  datatype EntityDefinition = EntityDefinition(
    name: string,
    relations: seq<RelationDefinition>,
    permissions: seq<PermissionDefinition>)

  datatype Schema = Schema(entityDefinitions: seq<EntityDefinition>)

  /** The enum's protobuf name, which labels a logic node. */
  function OperationName(op: Operation): string {
    match op
    case OperationUnspecified => "OPERATION_UNSPECIFIED"
    case OperationUnion => "OPERATION_UNION"
    case OperationIntersection => "OPERATION_INTERSECTION"
  }

  /**
   * `schema.GetRelationByNameInEntityDefinition`: the entity's relation of that
   * name (a map lookup in the source; the first match here).
   */
  function GetRelationByName(entity: EntityDefinition, name: string): (r: Option<RelationDefinition>)
    ensures r.Some? ==> r.value in entity.relations && r.value.name == name
    ensures r.None? <==> forall i :: 0 <= i < |entity.relations| ==> entity.relations[i].name != name
  {
    FirstNamed(entity.relations, name)
  }

  function FirstNamed(rs: seq<RelationDefinition>, name: string): (r: Option<RelationDefinition>)
    ensures r.Some? ==> r.value in rs && r.value.name == name
    ensures r.None? <==> forall i :: 0 <= i < |rs| ==> rs[i].name != name
  {
    if rs == [] then None
    else if rs[0].name == name then Some(rs[0])
    else FirstNamed(rs[1..], name)
  }
}
