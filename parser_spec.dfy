/**
 * What each routine of the schema parser does, as a function from the parser
 * state before the call to its result and the state after it. The `Parser`
 * class is proved to follow these functions call by call.
 *
 * Every routine either succeeds and leaves `errors` as it was, or records
 * exactly one message and fails with `Error()`, the first message recorded
 * (`Steps`). Every routine reads the token stream forwards only, and the
 * measure `Measure` (remaining input, and whether `peek` and `current` are
 * past the end) never grows, which is what makes the parser's loops and its
 * mutual recursion terminate.
 */
module ParserSpec {
  import opened Wrappers
  import opened Tokens
  import opened Ast

  /* ---------------- Precedence ---------------- */

  const Lowest := 1
  const Logic := 2
  const Prefix := 3

  /** `precedences`: `and` and `or` bind at `LOGIC`, everything else at `LOWEST`. */
  function Precedence(k: TokenType): int {
    if k == And || k == Or then Logic else Lowest
  }

  /** The token types with a registered prefix function: identifiers and `not`. */
  predicate HasPrefixFn(k: TokenType) {
    k == Ident || k == Not
  }

  /** The token types with a registered infix function: `and` and `or`. */
  predicate HasInfixFn(k: TokenType) {
    k == And || k == Or
  }

  /* ---------------- State ---------------- */

  /** The messages the parser records (the line and column prefix is not modelled). */
  datatype ParseError =
    | DuplicationFound(key: string)
    | NoPrefixParseFn(kind: TokenType)
    | UnexpectedPeek(expected: seq<TokenType>, got: TokenType)
    | UnexpectedCurrent(expected: seq<TokenType>, got: TokenType)

  /** The parser's fields, with the lexer's token stream and position. */
  datatype PState = PState(
    tokens: seq<Token>,
    pos: nat,
    current: Token,
    peek: Token,
    errors: seq<ParseError>,
    refs: References)

  /** A routine's result and the state it leaves. */
  datatype Parsed<T> = Parsed(result: Result<T, ParseError>, state: PState)

  /** `NewParser`: nothing read yet, both tokens zero, no errors, empty tables. */
  function NewState(tokens: seq<Token>): PState {
    PState(tokens, 0, ZeroToken, ZeroToken, [], NoReferences)
  }

  /** `Error()`: nothing when no message was recorded, else the first one. */
  function Error(s: PState): (r: Option<ParseError>)
    ensures r.None? <==> s.errors == []
    ensures r.Some? ==> r.value == s.errors[0]
  {
    if |s.errors| == 0 then None else Some(s.errors[0])
  }

  function Remaining(s: PState): nat {
    if s.pos < |s.tokens| then |s.tokens| - s.pos else 0
  }

  /** Decreases with every token read, and once more as `EOF` reaches `peek` and then `current`. */
  function Measure(s: PState): nat {
    3 * Remaining(s) + (if s.peek.kind != Eof then 2 else 0) + (if s.current.kind != Eof then 1 else 0)
  }

  /**
   * A routine's contract with its caller: the token stream is the same and
   * read forwards, the measure does not grow, a success records nothing and
   * a failure records one message and returns the first one recorded.
   */
  predicate Steps<T>(s: PState, r: Parsed<T>) {
    r.state.tokens == s.tokens && s.pos <= r.state.pos && Measure(r.state) <= Measure(s) &&
    (r.result.Ok? ==> r.state.errors == s.errors) &&
    (r.result.Err? ==>
      |r.state.errors| == |s.errors| + 1 && r.state.errors[..|s.errors|] == s.errors &&
      r.result.error == r.state.errors[0])
  }

  /** Records `e` and fails with `Error()`. */
  function Fail<T>(s: PState, e: ParseError): (r: Parsed<T>)
    ensures Steps(s, r) && r.state == s.(errors := s.errors + [e])
  {
    var t := s.(errors := s.errors + [e]);
    assert t.errors[..|s.errors|] == s.errors;
    Parsed(Err(t.errors[0]), t)
  }

  /** `return nil, p.Error()` after a callee recorded its message. */
  function Failed<T>(s: PState): Parsed<T>
    requires |s.errors| > 0
  {
    Parsed(Err(s.errors[0]), s)
  }

  /* ---------------- next, expect ---------------- */

  /**
   * The lexer calls of `next`: reads from `pos` until a token that is not
   * ignored, returning it and the position after it.
   */
  function SkipIgnored(tokens: seq<Token>, pos: nat): (r: (Token, nat))
    ensures pos <= r.1 && !IsIgnored(r.0.kind)
    ensures (pos < r.1 <= |tokens| && r.0 == tokens[r.1 - 1]) ||
            (r.0 == EofToken && r.1 == if pos < |tokens| then |tokens| else pos)
    ensures forall i :: pos <= i < r.1 - 1 ==> IsIgnored(tokens[i].kind)
    decreases if pos < |tokens| then |tokens| - pos else 0
  {
    var (t, next) := LexNext(tokens, pos);
    if IsIgnored(t.kind) then SkipIgnored(tokens, next) else (t, next)
  }

  /**
   * `next`: reads past ignored tokens to the next token that is not ignored,
   * which becomes `peek`, while the old `peek` becomes `current`.
   */
  function Next(s: PState): (r: PState)
    ensures r == s.(pos := r.pos, current := s.peek, peek := r.peek)
    ensures s.pos <= r.pos && !IsIgnored(r.peek.kind)
    ensures Measure(r) <= Measure(s)
    ensures s.current.kind != Eof || s.peek.kind != Eof ==> Measure(r) < Measure(s)
  {
    var (t, pos) := SkipIgnored(s.tokens, s.pos);
    s.(pos := pos, current := s.peek, peek := t)
  }

  /** `expectAndNext`: advances when `peek` has type `k`, else records the mismatch. */
  function ExpectAndNext(s: PState, k: TokenType): (r: (bool, PState))
    ensures r.0 <==> s.peek.kind == k
    ensures r.0 ==> r.1 == Next(s)
    ensures !r.0 ==> r.1 == s.(errors := s.errors + [UnexpectedPeek([k], s.peek.kind)])
    ensures !r.0 ==> r.1.errors[..|s.errors|] == s.errors
  {
    if s.peek.kind == k then (true, Next(s))
    else (false, s.(errors := s.errors + [UnexpectedPeek([k], s.peek.kind)]))
  }

  /** `expect`: the same check without advancing. */
  function Expect(s: PState, k: TokenType): (r: (bool, PState))
    ensures r.0 <==> s.peek.kind == k
    ensures r.0 ==> r.1 == s
    ensures !r.0 ==> r.1 == s.(errors := s.errors + [UnexpectedPeek([k], s.peek.kind)])
    ensures !r.0 ==> r.1.errors[..|s.errors|] == s.errors
  {
    if s.peek.kind == k then (true, s)
    else (false, s.(errors := s.errors + [UnexpectedPeek([k], s.peek.kind)]))
  }

  /* ---------------- Reference tables ---------------- */

  /** The tables after declaring the entity `name`. */
  function WithEntity(refs: References, name: string): References {
    refs.(entities := refs.entities + {name})
  }

  /** The tables after declaring the relation `key` with its types. */
  function WithRelation(refs: References, key: string, types: seq<RelationTypeStatement>): References {
    refs.(relations := refs.relations[key := types], relational := refs.relational[key := RELATION])
  }

  /** The tables after declaring the permission `key`. */
  function WithPermission(refs: References, key: string): References {
    refs.(actions := refs.actions + {key}, relational := refs.relational[key := PERMISSION])
  }

  /** `setEntityReference`: a second declaration of an entity name is a duplication. */
  function SetEntityReference(s: PState, key: string): (r: Parsed<()>)
    ensures Steps(s, r) && r.state.pos == s.pos && r.state.current == s.current && r.state.peek == s.peek
    ensures r.result.Ok? <==> key !in s.refs.entities
    ensures r.result.Ok? ==> r.state.refs == WithEntity(s.refs, key)
    ensures r.result.Err? ==> r.state.refs == s.refs && r.state.errors == s.errors + [DuplicationFound(key)]
  {
    if key in s.refs.entities then Fail(s, DuplicationFound(key))
    else Parsed(Ok(()), s.(refs := WithEntity(s.refs, key)))
  }

  /**
   * `setRelationReference`: a relation key already declared as a relation or
   * a permission is a duplication; otherwise it is recorded with its types
   * and kind `RELATION`.
   */
  function SetRelationReference(s: PState, key: string, types: seq<RelationTypeStatement>): (r: Parsed<()>)
    ensures Steps(s, r) && r.state.pos == s.pos && r.state.current == s.current && r.state.peek == s.peek
    ensures r.result.Ok? <==> key !in s.refs.relations && key !in s.refs.relational
    ensures r.result.Ok? ==>
      r.state.refs == WithRelation(s.refs, key, types)
    ensures r.result.Err? ==> r.state.refs == s.refs && r.state.errors == s.errors + [DuplicationFound(key)]
  {
    if key in s.refs.relations then Fail(s, DuplicationFound(key))
    else if key in s.refs.relational then Fail(s, DuplicationFound(key))
    else Parsed(Ok(()), s.(refs := WithRelation(s.refs, key, types)))
  }

  /**
   * `setPermissionReference`: a permission key already declared as a
   * permission or a relation is a duplication; otherwise it is recorded with
   * kind `PERMISSION`.
   */
  function SetPermissionReference(s: PState, key: string): (r: Parsed<()>)
    ensures Steps(s, r) && r.state.pos == s.pos && r.state.current == s.current && r.state.peek == s.peek
    ensures r.result.Ok? <==> key !in s.refs.actions && key !in s.refs.relational
    ensures r.result.Ok? ==>
      r.state.refs == WithPermission(s.refs, key)
    ensures r.result.Err? ==> r.state.refs == s.refs && r.state.errors == s.errors + [DuplicationFound(key)]
  {
    if key in s.refs.actions then Fail(s, DuplicationFound(key))
    else if key in s.refs.relational then Fail(s, DuplicationFound(key))
    else Parsed(Ok(()), s.(refs := WithPermission(s.refs, key)))
  }

  /* ---------------- Identifiers ---------------- */

  /**
   * The loop of `parseIdentifier`: while `peek` is `.`, step over it and take
   * the identifier after it. Returns the segments read, in order.
   */
  function DotSegments(s: PState): (r: (PState, seq<Token>))
    ensures r.0 == s.(pos := r.0.pos, current := r.0.current, peek := r.0.peek)
    ensures s.pos <= r.0.pos && Measure(r.0) <= Measure(s) && r.0.peek.kind != Dot
    ensures r.1 == [] ==> r.0 == s
    ensures r.1 != [] ==> r.0.current == r.1[|r.1| - 1]
    decreases Measure(s)
  {
    if s.peek.kind != Dot then (s, [])
    else
      var s2 := Next(Next(s));
      var r := DotSegments(s2);
      (r.0, [s2.current] + r.1)
  }

  /** `parseIdentifier`: the current token and each dotted segment after it. */
  function ParseIdentifier(s: PState): (r: Parsed<Expression>)
    ensures Steps(s, r) && r.result.Ok? && r.state.refs == s.refs
    ensures r.result.value.Identifier? && r.result.value.prefix == ZeroToken
    ensures |r.result.value.idents| >= 1 && r.result.value.idents[0] == s.current
    ensures r.state.current == r.result.value.idents[|r.result.value.idents| - 1]
    ensures r.state.peek.kind != Dot
  {
    var (t, segments) := DotSegments(s);
    Parsed(Ok(Identifier(ZeroToken, [s.current] + segments)), t)
  }

  /** `parsePrefixExpression`: a `not` token, then the identifier after it. */
  function ParsePrefixExpression(s: PState): (r: Parsed<Expression>)
    ensures Steps(s, r) && r.result.Ok? && r.state.refs == s.refs
    ensures r.result.value.Identifier? && r.result.value.prefix == s.current
    ensures |r.result.value.idents| >= 1 && r.result.value.idents[0] == s.peek
    ensures r.state.peek.kind != Dot
  {
    var s1 := Next(s);
    var (t, segments) := DotSegments(s1);
    Parsed(Ok(Identifier(s.current, [s1.current] + segments)), t)
  }

  /** The registered prefix function of the current token. */
  function ParsePrefix(s: PState): (r: Parsed<Expression>)
    requires HasPrefixFn(s.current.kind)
    ensures Steps(s, r) && r.result.Ok? && r.state.refs == s.refs
  {
    if s.current.kind == Ident then ParseIdentifier(s) else ParsePrefixExpression(s)
  }

  /* ---------------- Expressions ---------------- */

  /**
   * `parseExpression(precedence)`: a parenthesised expression, or a prefix
   * expression followed by infix operators binding tighter than `precedence`.
   */
  function ParseExpression(s: PState, precedence: int): (r: Parsed<Expression>)
    ensures Steps(s, r) && r.state.refs == s.refs
    decreases Measure(s), 1
  {
    if s.current.kind == Lparen then ParseInnerParen(Next(s))
    else if !HasPrefixFn(s.current.kind) then Fail(s, NoPrefixParseFn(s.current.kind))
    else
      var p := ParsePrefix(s);
      ExprLoop(p.state, precedence, p.result.value)
  }

  /** The loop of `parseExpression`: fold infix operators onto `left` while they bind tighter. */
  function ExprLoop(s: PState, precedence: int, left: Expression): (r: Parsed<Expression>)
    ensures Steps(s, r) && r.state.refs == s.refs
    decreases Measure(s), 0
  {
    if s.peek.kind == Newline || !(precedence < Precedence(s.peek.kind)) then Parsed(Ok(left), s)
    else if !HasInfixFn(s.peek.kind) then Parsed(Ok(left), s)
    else
      var s1 := Next(s);
      var r := ParseInfix(s1, left);
      if r.result.Err? then Failed(r.state)
      else ExprLoop(r.state, precedence, r.result.value)
  }

  /**
   * `parseInfixExpression(left)`: the current operator, with `left` and the
   * expression after the operator parsed at the operator's precedence.
   */
  function ParseInfix(s: PState, left: Expression): (r: Parsed<Expression>)
    ensures Steps(s, r) && r.state.refs == s.refs
    ensures r.result.Ok? ==>
      r.result.value.Infix? && r.result.value.op == s.current && r.result.value.left == left &&
      r.result.value.operator == s.current.literal
    decreases Measure(s), 2
  {
    var precedence := Precedence(s.current.kind);
    var right := ParseExpression(Next(s), precedence);
    if right.result.Err? then Failed(right.state)
    else Parsed(Ok(Infix(s.current, left, s.current.literal, right.result.value)), right.state)
  }

  /** `parseInnerParen`: the expression after an opening parenthesis. */
  function ParseInnerParen(s: PState): (r: Parsed<Expression>)
    ensures Steps(s, r) && r.state.refs == s.refs
    decreases Measure(s), 3
  {
    if s.current.kind == Lparen then ParseExpression(s, Lowest)
    else if !HasPrefixFn(s.current.kind) then Fail(s, NoPrefixParseFn(s.current.kind))
    else
      var p := ParsePrefix(s);
      InnerLoop(p.state, p.result.value)
  }

  /**
   * The loop of `parseInnerParen`: until the current token is `)`, step onto
   * a `)` in `peek`, then fold the next infix operator onto `exp`, or stop
   * when `peek` has none.
   */
  function InnerLoop(s: PState, exp: Expression): (r: Parsed<Expression>)
    ensures Steps(s, r) && r.state.refs == s.refs
    decreases Measure(s), 0
  {
    if s.current.kind == Rparen then Parsed(Ok(exp), s)
    else
      var s1 := if s.peek.kind == Rparen then Next(s) else s;
      if !HasInfixFn(s1.peek.kind) then Parsed(Ok(exp), s1)
      else
        var r := ParseInfix(Next(s1), exp);
        if r.result.Err? then Failed(r.state)
        else InnerLoop(r.state, r.result.value)
  }

  /** Steps over `)` tokens in `current`. */
  function SkipRparens(s: PState): (r: PState)
    ensures r == s.(pos := r.pos, current := r.current, peek := r.peek)
    ensures s.pos <= r.pos && Measure(r) <= Measure(s) && r.current.kind != Rparen
    decreases Measure(s)
  {
    if s.current.kind == Rparen then SkipRparens(Next(s)) else s
  }

  /** `parseExpressionStatement`: an expression at `LOWEST`, then any closing parentheses after it. */
  function ParseExpressionStatement(s: PState): (r: Parsed<Expression>)
    ensures Steps(s, r) && r.state.refs == s.refs
  {
    var e := ParseExpression(s, Lowest);
    if e.result.Err? then Failed(e.state)
    else if e.state.peek.kind == Rparen then Parsed(e.result, SkipRparens(Next(e.state)))
    else e
  }

  /* ---------------- Statements ---------------- */

  /** `parseRelationTypeStatement`: `@type` or `@type#relation`. */
  function ParseRelationTypeStatement(s: PState): (r: Parsed<RelationTypeStatement>)
    ensures Steps(s, r) && r.state.refs == s.refs
    ensures r.result.Ok? ==> Measure(r.state) < Measure(s) && r.result.value.sign == s.peek
  {
    var (ok, s1) := ExpectAndNext(s, Sign);
    if !ok then Failed(s1)
    else
      var (ok2, s2) := ExpectAndNext(s1, Ident);
      if !ok2 then Failed(s2)
      else RelationTypeTail(s, s1.current, s2)
  }

  /** The part of `parseRelationTypeStatement` after `@type`: an optional `#relation`. */
  function RelationTypeTail(s: PState, sign: Token, s2: PState): (r: Parsed<RelationTypeStatement>)
    requires s2.tokens == s.tokens && s.pos <= s2.pos && Measure(s2) < Measure(s)
    requires s2.errors == s.errors && s2.refs == s.refs
    ensures Steps(s, r) && r.state.refs == s.refs
    ensures r.result.Ok? ==> Measure(r.state) < Measure(s) && r.result.value.sign == sign
  {
    if s2.peek.kind == Hash then
      var (ok3, s3) := ExpectAndNext(Next(s2), Ident);
      if !ok3 then Failed(s3)
      else Parsed(Ok(RelationTypeStatement(sign, s2.current, s3.current)), s3)
    else Parsed(Ok(RelationTypeStatement(sign, s2.current, ZeroToken)), s2)
  }

  /** The loop of `parseRelationStatement`: a relation type for each `@` in `peek`. */
  function RelationTypes(s: PState, types: seq<RelationTypeStatement>): (r: Parsed<seq<RelationTypeStatement>>)
    ensures Steps(s, r) && r.state.refs == s.refs
    ensures r.result.Ok? ==> |r.result.value| >= |types| && r.result.value[..|types|] == types
    ensures r.result.Ok? && s.peek.kind == Sign ==> |r.result.value| > |types| && Measure(r.state) < Measure(s)
    decreases Measure(s), 1
  {
    if s.peek.kind != Sign then Parsed(Ok(types), s)
    else TypesStep(s, ParseRelationTypeStatement(s), types)
  }

  /** One turn of the loop of `parseRelationStatement`, after the relation type `t` was parsed from `s`. */
  function TypesStep(s: PState, t: Parsed<RelationTypeStatement>, types: seq<RelationTypeStatement>)
    : (r: Parsed<seq<RelationTypeStatement>>)
    requires Steps(s, t) && t.state.refs == s.refs && (t.result.Ok? ==> Measure(t.state) < Measure(s))
    ensures Steps(s, r) && r.state.refs == s.refs
    ensures r.result.Ok? ==> |r.result.value| > |types| && r.result.value[..|types|] == types
    ensures r.result.Ok? ==> Measure(r.state) < Measure(s)
    decreases Measure(s), 0
  {
    if t.result.Err? then Failed(t.state)
    else
      var r := RelationTypes(t.state, types + [t.result.value]);
      assert r.result.Ok? ==> r.result.value[..|types|] == (types + [t.result.value])[..|types|];
      r
  }

  /**
   * `parseRelationStatement`: `relation name @type ...`. At least one type
   * must follow, and the key `entity#name` must be new among relations and
   * permissions; it is then recorded with its types as a `RELATION`.
   */
  function ParseRelationStatement(s: PState, entityName: string): (r: Parsed<RelationStatement>)
    ensures Steps(s, r)
    ensures r.result.Err? ==> r.state.refs == s.refs
    ensures r.result.Ok? ==>
      var key := Key(entityName, s.peek.literal);
      Measure(r.state) < Measure(s) && r.result.value.name == s.peek &&
      |r.result.value.relationTypes| >= 1 &&
      key !in s.refs.relations && key !in s.refs.relational &&
      r.state.refs == WithRelation(s.refs, key, r.result.value.relationTypes)
  {
    var (ok, s1) := ExpectAndNext(s, Ident);
    if !ok then Failed(s1)
    else
      var (ok2, s2) := Expect(s1, Sign);
      if !ok2 then Failed(s2)
      else RelationAdd(s, entityName, s1.current, RelationTypes(s2, []))
  }

  /**
   * The end of `parseRelationStatement`, after the relation types `types`
   * were parsed: record `entity#name` with them, unless it is a duplicate.
   */
  function RelationAdd(s: PState, entityName: string, name: Token, types: Parsed<seq<RelationTypeStatement>>)
    : (r: Parsed<RelationStatement>)
    requires Steps(s, types) && types.state.refs == s.refs
    requires types.result.Ok? ==> Measure(types.state) < Measure(s) && |types.result.value| >= 1
    ensures Steps(s, r)
    ensures r.result.Err? ==> r.state.refs == s.refs
    ensures r.result.Ok? ==>
      var key := Key(entityName, name.literal);
      Measure(r.state) < Measure(s) && r.result.value.name == name &&
      |r.result.value.relationTypes| >= 1 &&
      key !in s.refs.relations && key !in s.refs.relational &&
      r.state.refs == WithRelation(s.refs, key, r.result.value.relationTypes)
  {
    if types.result.Err? then Failed(types.state)
    else
      var added := SetRelationReference(types.state, Key(entityName, name.literal), types.result.value);
      if added.result.Err? then Parsed(Err(added.result.error), added.state)
      else Parsed(Ok(RelationStatement(s.current, name, types.result.value)), added.state)
  }

  /**
   * `parsePermissionStatement`: `permission name = expression`. The key
   * `entity#name` must be new among permissions and relations; it is
   * recorded as a `PERMISSION` before the expression is parsed, and stays
   * recorded when the expression then fails.
   */
  function ParsePermissionStatement(s: PState, entityName: string): (r: Parsed<PermissionStatement>)
    ensures Steps(s, r)
    ensures var key := Key(entityName, s.peek.literal);
      r.state.refs == s.refs ||
      (key !in s.refs.actions && key !in s.refs.relational && r.state.refs == WithPermission(s.refs, key))
    ensures r.result.Ok? ==>
      var key := Key(entityName, s.peek.literal);
      Measure(r.state) < Measure(s) && r.result.value.name == s.peek &&
      key !in s.refs.actions && key !in s.refs.relational &&
      r.state.refs == WithPermission(s.refs, key)
  {
    var (ok, s1) := ExpectAndNext(s, Ident);
    if !ok then Failed(s1)
    else
      var added := SetPermissionReference(s1, Key(entityName, s1.current.literal));
      if added.result.Err? then Parsed(Err(added.result.error), added.state)
      else PermissionBody(s, s1, added.state)
  }

  /** The part of `parsePermissionStatement` after the name is recorded: `=` and the expression. */
  function PermissionBody(s: PState, s1: PState, s2: PState): (r: Parsed<PermissionStatement>)
    requires Measure(s2) < Measure(s) && s2.errors == s.errors && s2.tokens == s.tokens && s.pos <= s2.pos
    ensures Steps(s, r) && r.state.refs == s2.refs
    ensures r.result.Ok? ==> Measure(r.state) < Measure(s) && r.result.value.name == s1.current
  {
    var (ok, s3) := ExpectAndNext(s2, Assign);
    if !ok then Failed(s3)
    else
      var e := ParseExpressionStatement(Next(s3));
      if e.result.Err? then Failed(e.state)
      else Parsed(Ok(PermissionStatement(s.current, s1.current, e.result.value)), e.state)
  }

  /**
   * The body loop of `parseEntityStatement`: until `}`, parse relations and
   * permissions and skip newlines and braces; `EOF` or any other token fails.
   */
  function EntityBody(s: PState, stmt: EntityStatement): (r: Parsed<EntityStatement>)
    ensures Steps(s, r)
    ensures r.result.Ok? ==>
      r.state.current.kind == Rbrace && r.result.value.name == stmt.name && r.result.value.entity == stmt.entity
    decreases Measure(s), 1
  {
    if s.current.kind == Rbrace then Parsed(Ok(stmt), s)
    else if s.current.kind == Eof then Fail(s, UnexpectedCurrent([Rbrace], Eof))
    else if s.current.kind == Relation then BodyRelation(s, stmt, ParseRelationStatement(s, stmt.name.literal))
    else if s.current.kind == Permission then BodyPermission(s, stmt, ParsePermissionStatement(s, stmt.name.literal))
    else if s.current.kind != Newline && s.current.kind != Lbrace then
      Fail(s, UnexpectedCurrent([Relation, Permission], s.current.kind))
    else EntityBody(Next(s), stmt)
  }

  /** The body loop after the relation statement `rel` was parsed from `s`: add it and go on. */
  function BodyRelation(s: PState, stmt: EntityStatement, rel: Parsed<RelationStatement>): (r: Parsed<EntityStatement>)
    requires Steps(s, rel) && (rel.result.Ok? ==> Measure(rel.state) < Measure(s))
    ensures Steps(s, r)
    ensures r.result.Ok? ==>
      r.state.current.kind == Rbrace && r.result.value.name == stmt.name && r.result.value.entity == stmt.entity
    decreases Measure(s), 0
  {
    if rel.result.Err? then Failed(rel.state)
    else EntityBody(Next(rel.state), stmt.(relationStatements := stmt.relationStatements + [rel.result.value]))
  }

  /** The body loop after the permission statement `perm` was parsed from `s`: add it and go on. */
  function BodyPermission(s: PState, stmt: EntityStatement, perm: Parsed<PermissionStatement>): (r: Parsed<EntityStatement>)
    requires Steps(s, perm) && (perm.result.Ok? ==> Measure(perm.state) < Measure(s))
    ensures Steps(s, r)
    ensures r.result.Ok? ==>
      r.state.current.kind == Rbrace && r.result.value.name == stmt.name && r.result.value.entity == stmt.entity
    decreases Measure(s), 0
  {
    if perm.result.Err? then Failed(perm.state)
    else EntityBody(Next(perm.state), stmt.(permissionStatements := stmt.permissionStatements + [perm.result.value]))
  }

  /**
   * `parseEntityStatement`: `entity name {` and its body; the entity name
   * must not have been declared before, and is recorded.
   */
  function ParseEntityStatement(s: PState): (r: Parsed<EntityStatement>)
    ensures Steps(s, r)
    ensures r.result.Ok? ==> Measure(r.state) < Measure(s) && r.result.value.name == s.peek
  {
    var (ok, s1) := ExpectAndNext(s, Ident);
    if !ok then Failed(s1)
    else
      var added := SetEntityReference(s1, s1.current.literal);
      if added.result.Err? then Parsed(Err(added.result.error), added.state)
      else EntityOpen(s, s1, added.state)
  }

  /** The part of `parseEntityStatement` after the name is recorded: `{` and the body. */
  function EntityOpen(s: PState, s1: PState, s2: PState): (r: Parsed<EntityStatement>)
    requires Measure(s2) < Measure(s) && s2.errors == s.errors && s2.tokens == s.tokens && s.pos <= s2.pos
    ensures Steps(s, r)
    ensures r.result.Ok? ==> Measure(r.state) < Measure(s) && r.result.value.name == s1.current
  {
    var (ok, s3) := ExpectAndNext(s2, Lbrace);
    if !ok then Failed(s3)
    else EntityBody(s3, EntityStatement(s.current, s1.current, [], []))
  }

  /** `parseStatement`: an entity statement, or nothing for any other token. */
  function ParseStatement(s: PState): (r: Parsed<Option<EntityStatement>>)
    ensures Steps(s, r)
    ensures r.result.Ok? && r.result.value.None? ==> r.state == s
    ensures r.result.Ok? && r.result.value.Some? ==> Measure(r.state) < Measure(s)
  {
    if s.current.kind == Entity then
      var e := ParseEntityStatement(s);
      if e.result.Err? then Parsed(Err(e.result.error), e.state)
      else Parsed(Ok(Some(e.result.value)), e.state)
    else Parsed(Ok(None), s)
  }

  /** The loop of `Parse`: a statement, then `next`, until `EOF`. */
  function ParseLoop(s: PState, stmts: seq<EntityStatement>): (r: Parsed<seq<EntityStatement>>)
    ensures Steps(s, r)
    ensures r.result.Ok? ==>
      r.state.current.kind == Eof && |r.result.value| >= |stmts| && r.result.value[..|stmts|] == stmts
    decreases Measure(s), 1
  {
    if s.current.kind == Eof then Parsed(Ok(stmts), s)
    else LoopStep(s, ParseStatement(s), stmts)
  }

  /** One turn of the loop of `Parse`, after the statement `st` was parsed from `s`. */
  function LoopStep(s: PState, st: Parsed<Option<EntityStatement>>, stmts: seq<EntityStatement>): (r: Parsed<seq<EntityStatement>>)
    requires s.current.kind != Eof && Steps(s, st)
    requires st.result.Ok? && st.result.value.None? ==> st.state == s
    requires st.result.Ok? && st.result.value.Some? ==> Measure(st.state) < Measure(s)
    ensures Steps(s, r)
    ensures r.result.Ok? ==>
      r.state.current.kind == Eof && |r.result.value| >= |stmts| && r.result.value[..|stmts|] == stmts
    decreases Measure(s), 0
  {
    if st.result.Err? then Failed(st.state)
    else
      var stmts' := if st.result.value.Some? then stmts + [st.result.value.value] else stmts;
      var r := ParseLoop(Next(st.state), stmts');
      assert r.result.Ok? ==> r.result.value[..|stmts|] == stmts'[..|stmts|];
      r
  }

  /**
   * `Parse`: every statement up to `EOF`, with the reference tables; the
   * first failure stops parsing and returns `Error()`.
   */
  function Parse(s: PState): (r: Parsed<Schema>)
    ensures Steps(s, r)
    ensures r.result.Ok? ==> r.result.value.references == r.state.refs && r.state.current.kind == Eof
  {
    var l := ParseLoop(s, []);
    if l.result.Err? then Failed(l.state)
    else Parsed(Ok(Schema(l.result.value, l.state.refs)), l.state)
  }
}
