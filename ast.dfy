/** The abstract syntax tree the schema parser builds. */
module Ast {
  import opened Tokens

  /**
   * An expression: a (possibly dotted, possibly `not`-prefixed) identifier,
   * or an infix `and`/`or` with its operator token and literal.
   */
  datatype Expression =
    | Identifier(prefix: Token, idents: seq<Token>)
    | Infix(op: Token, left: Expression, operator: string, right: Expression)

  /** `@type` or `@type#relation`; `relation` is the zero token when absent. */
  datatype RelationTypeStatement = RelationTypeStatement(sign: Token, typ: Token, relation: Token)

  datatype RelationStatement = RelationStatement(relation: Token, name: Token, relationTypes: seq<RelationTypeStatement>)

  datatype PermissionStatement = PermissionStatement(permission: Token, name: Token, expression: Expression)

  datatype EntityStatement = EntityStatement(
    entity: Token,
    name: Token,
    relationStatements: seq<RelationStatement>,
    permissionStatements: seq<PermissionStatement>)

  /** Whether a relational reference names a relation or a permission. */
  datatype RelationalReferenceType = RELATION | PERMISSION

  /**
   * The four reference tables: declared entities, relations with their
   * types, permissions, and every relation or permission with its kind.
   * Relation and permission keys are `entity#name`.
   */
  datatype References = References(
    entities: set<string>,
    relations: map<string, seq<RelationTypeStatement>>,
    actions: set<string>,
    relational: map<string, RelationalReferenceType>)

  const NoReferences := References({}, map[], {}, map[])

  datatype Schema = Schema(statements: seq<EntityStatement>, references: References)

  /** `utils.Key`: `entity#name`. */
  function Key(entity: string, name: string): string {
    entity + "#" + name
  }
}
