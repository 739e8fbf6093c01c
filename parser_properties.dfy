/**
 * What parsing does to the reference tables, and how expressions group.
 *
 * The tables stay consistent (no key is both a relation and a permission),
 * nothing recorded is ever removed, every declaration a successful parse
 * returns is in the tables under its `entity#name` key, the entity names
 * are distinct and are exactly the entity table.
 */
module ParserProperties {
  import opened Wrappers
  import opened Tokens
  import opened Ast
  import opened ParserSpec

  /* ---------------- Reading tokens ---------------- */

  /**
   * `next` moves `peek` to `current` and reads to the next token that is not
   * ignored: every token it reads before that one is ignored, and that one
   * is either the token just before the new position or, once the input is
   * exhausted, `EOF`.
   */
  lemma NextSkipsIgnored(s: PState)
    ensures var r := Next(s);
      r.current == s.peek && !IsIgnored(r.peek.kind) && s.pos <= r.pos &&
      (forall i :: s.pos <= i < r.pos - 1 ==> IsIgnored(s.tokens[i].kind)) &&
      ((s.pos < r.pos <= |s.tokens| && r.peek == s.tokens[r.pos - 1]) ||
       (r.peek == EofToken && r.pos == if s.pos < |s.tokens| then |s.tokens| else s.pos))
  {
    var (t, pos) := SkipIgnored(s.tokens, s.pos);
    assert Next(s).pos == pos && Next(s).peek == t;
  }

  /* ---------------- Table invariants ---------------- */

  /**
   * The tables agree: every relation is a relational reference of kind
   * `RELATION`, every permission one of kind `PERMISSION`, and there are no
   * other relational references.
   */
  predicate RefsValid(refs: References) {
    (forall k :: k in refs.relations ==> k in refs.relational && refs.relational[k] == RELATION) &&
    (forall k :: k in refs.actions ==> k in refs.relational && refs.relational[k] == PERMISSION) &&
    (forall k :: k in refs.relational ==> k in refs.relations || k in refs.actions)
  }

  /** Nothing recorded in `a` is removed or changed in `b`. */
  predicate RefsGrow(a: References, b: References) {
    a.entities <= b.entities && a.actions <= b.actions &&
    (forall k :: k in a.relations ==> k in b.relations && b.relations[k] == a.relations[k]) &&
    (forall k :: k in a.relational ==> k in b.relational && b.relational[k] == a.relational[k])
  }

  /** What every parsing routine does to the tables: keeps them consistent and only adds. */
  predicate Keeps(a: References, b: References) {
    RefsGrow(a, b) && (RefsValid(a) ==> RefsValid(b))
  }

  lemma KeepsTransitive(a: References, b: References, c: References)
    requires Keeps(a, b) && Keeps(b, c)
    ensures Keeps(a, c)
  {
  }

  /** A relation key new to both relation tables keeps them consistent, and no key is then of both kinds. */
  lemma WithRelationKeeps(refs: References, key: string, types: seq<RelationTypeStatement>)
    requires key !in refs.relations && key !in refs.relational
    ensures Keeps(refs, WithRelation(refs, key, types))
  {
  }

  /** The same for a permission key. */
  lemma WithPermissionKeeps(refs: References, key: string)
    requires key !in refs.actions && key !in refs.relational
    ensures Keeps(refs, WithPermission(refs, key))
  {
  }

  /**
   * The tables index `stmt`: each of its relations is recorded under
   * `entity#relation` with its types, and each permission under
   * `entity#permission`.
   */
  predicate Indexed(stmt: EntityStatement, refs: References) {
    (forall rs :: rs in stmt.relationStatements ==>
      Key(stmt.name.literal, rs.name.literal) in refs.relations &&
      refs.relations[Key(stmt.name.literal, rs.name.literal)] == rs.relationTypes) &&
    (forall ps :: ps in stmt.permissionStatements ==> Key(stmt.name.literal, ps.name.literal) in refs.actions)
  }

  predicate AllIndexed(stmts: seq<EntityStatement>, refs: References) {
    forall st :: st in stmts ==> Indexed(st, refs)
  }

  lemma IndexedGrows(stmt: EntityStatement, a: References, b: References)
    requires Indexed(stmt, a) && RefsGrow(a, b)
    ensures Indexed(stmt, b)
  {
  }

  lemma IndexedAddRelation(stmt: EntityStatement, rs: RelationStatement, a: References, b: References)
    requires Indexed(stmt, a) && RefsGrow(a, b)
    requires Key(stmt.name.literal, rs.name.literal) in b.relations
    requires b.relations[Key(stmt.name.literal, rs.name.literal)] == rs.relationTypes
    ensures Indexed(stmt.(relationStatements := stmt.relationStatements + [rs]), b)
  {
  }

  lemma IndexedAddPermission(stmt: EntityStatement, ps: PermissionStatement, a: References, b: References)
    requires Indexed(stmt, a) && RefsGrow(a, b)
    requires Key(stmt.name.literal, ps.name.literal) in b.actions
    ensures Indexed(stmt.(permissionStatements := stmt.permissionStatements + [ps]), b)
  {
  }

  /* ---------------- Statements ---------------- */

  /** A relation statement keeps the tables and leaves entities and permissions alone. */
  lemma RelationStatementTables(s: PState, entityName: string)
    ensures var r := ParseRelationStatement(s, entityName);
      Keeps(s.refs, r.state.refs) && r.state.refs.entities == s.refs.entities
  {
    var r := ParseRelationStatement(s, entityName);
    if r.result.Ok? {
      WithRelationKeeps(s.refs, Key(entityName, s.peek.literal), r.result.value.relationTypes);
    }
  }

  /** A permission statement keeps the tables and leaves entities and relations alone. */
  lemma PermissionStatementTables(s: PState, entityName: string)
    ensures var r := ParsePermissionStatement(s, entityName);
      Keeps(s.refs, r.state.refs) && r.state.refs.entities == s.refs.entities
  {
    var r := ParsePermissionStatement(s, entityName);
    var key := Key(entityName, s.peek.literal);
    if r.state.refs != s.refs {
      WithPermissionKeeps(s.refs, key);
    }
  }

  /**
   * What an entity body does to the tables: keeps them, leaves the entity
   * table alone, and records each relation and permission it adds to the
   * statement under the statement's entity name.
   */
  predicate BodyKeeps(s: PState, stmt: EntityStatement, r: Parsed<EntityStatement>) {
    Keeps(s.refs, r.state.refs) && r.state.refs.entities == s.refs.entities &&
    (Indexed(stmt, s.refs) && r.result.Ok? ==> Indexed(r.result.value, r.state.refs))
  }

  lemma {:induction false} EntityBodyTables(s: PState, stmt: EntityStatement)
    ensures BodyKeeps(s, stmt, EntityBody(s, stmt))
    decreases Measure(s), 1
  {
    if s.current.kind == Rbrace || s.current.kind == Eof {
    } else if s.current.kind == Relation {
      RelationStatementTables(s, stmt.name.literal);
      BodyRelationTables(s, stmt, ParseRelationStatement(s, stmt.name.literal));
    } else if s.current.kind == Permission {
      PermissionStatementTables(s, stmt.name.literal);
      BodyPermissionTables(s, stmt, ParsePermissionStatement(s, stmt.name.literal));
    } else if s.current.kind == Newline || s.current.kind == Lbrace {
      EntityBodyTables(Next(s), stmt);
    }
  }

  lemma {:induction false} BodyRelationTables(s: PState, stmt: EntityStatement, rel: Parsed<RelationStatement>)
    requires Steps(s, rel) && (rel.result.Ok? ==> Measure(rel.state) < Measure(s))
    requires Keeps(s.refs, rel.state.refs) && rel.state.refs.entities == s.refs.entities
    requires rel.result.Ok? ==>
      var key := Key(stmt.name.literal, rel.result.value.name.literal);
      RefsGrow(s.refs, rel.state.refs) &&
      key in rel.state.refs.relations && rel.state.refs.relations[key] == rel.result.value.relationTypes
    ensures BodyKeeps(s, stmt, BodyRelation(s, stmt, rel))
    decreases Measure(s), 0
  {
    if rel.result.Ok? {
      var stmt' := stmt.(relationStatements := stmt.relationStatements + [rel.result.value]);
      var r := EntityBody(Next(rel.state), stmt');
      EntityBodyTables(Next(rel.state), stmt');
      KeepsTransitive(s.refs, rel.state.refs, r.state.refs);
      if Indexed(stmt, s.refs) {
        IndexedAddRelation(stmt, rel.result.value, s.refs, rel.state.refs);
      }
    }
  }

  lemma {:induction false} BodyPermissionTables(s: PState, stmt: EntityStatement, perm: Parsed<PermissionStatement>)
    requires Steps(s, perm) && (perm.result.Ok? ==> Measure(perm.state) < Measure(s))
    requires Keeps(s.refs, perm.state.refs) && perm.state.refs.entities == s.refs.entities
    requires perm.result.Ok? ==> Key(stmt.name.literal, perm.result.value.name.literal) in perm.state.refs.actions
    ensures BodyKeeps(s, stmt, BodyPermission(s, stmt, perm))
    decreases Measure(s), 0
  {
    if perm.result.Ok? {
      var stmt' := stmt.(permissionStatements := stmt.permissionStatements + [perm.result.value]);
      var r := EntityBody(Next(perm.state), stmt');
      EntityBodyTables(Next(perm.state), stmt');
      KeepsTransitive(s.refs, perm.state.refs, r.state.refs);
      if Indexed(stmt, s.refs) {
        IndexedAddPermission(stmt, perm.result.value, s.refs, perm.state.refs);
      }
    }
  }

  /**
   * An entity statement keeps the tables; when it succeeds its name was not
   * declared before, it is the one name added to the entity table, and its
   * relations and permissions are recorded.
   */
  lemma EntityStatementTables(s: PState)
    ensures var r := ParseEntityStatement(s);
      Keeps(s.refs, r.state.refs) &&
      (r.result.Ok? ==>
        s.peek.literal !in s.refs.entities &&
        r.state.refs.entities == s.refs.entities + {s.peek.literal} &&
        Indexed(r.result.value, r.state.refs))
  {
    var (ok, s1) := ExpectAndNext(s, Ident);
    if ok {
      var added := SetEntityReference(s1, s1.current.literal);
      if added.result.Ok? {
        SameMeasure(s1, added.state);
        EntityOpenTables(s, s1, added.state);
      }
    }
  }

  lemma SameMeasure(a: PState, b: PState)
    requires a.tokens == b.tokens && a.pos == b.pos && a.current == b.current && a.peek == b.peek
    ensures Measure(a) == Measure(b)
  {
  }

  /** Declaring a new entity name keeps the tables. */
  lemma WithEntityKeeps(refs: References, name: string)
    ensures Keeps(refs, WithEntity(refs, name))
  {
  }

  /**
   * The `{` and body of an entity statement whose name was just declared:
   * the tables are kept, the name is the one entity added, and what the body
   * declares is recorded.
   */
  lemma EntityOpenTables(s: PState, s1: PState, s2: PState)
    requires Measure(s2) < Measure(s) && s2.errors == s.errors && s2.tokens == s.tokens && s.pos <= s2.pos
    requires s2.refs == WithEntity(s.refs, s1.current.literal)
    ensures var r := EntityOpen(s, s1, s2);
      Keeps(s.refs, r.state.refs) && r.state.refs.entities == s.refs.entities + {s1.current.literal} &&
      (r.result.Ok? ==> Indexed(r.result.value, r.state.refs))
  {
    WithEntityKeeps(s.refs, s1.current.literal);
    var (ok, s3) := ExpectAndNext(s2, Lbrace);
    if ok {
      var body := EntityBody(s3, EntityStatement(s.current, s1.current, [], []));
      EntityBodyTables(s3, EntityStatement(s.current, s1.current, [], []));
      KeepsTransitive(s.refs, s2.refs, body.state.refs);
    }
  }

  /* ---------------- Parse ---------------- */

  /** The entity names declared by `stmts`. */
  function NameSet(stmts: seq<EntityStatement>): (r: set<string>)
    ensures forall i :: 0 <= i < |stmts| ==> stmts[i].name.literal in r
  {
    if stmts == [] then {} else NameSet(stmts[..|stmts| - 1]) + {stmts[|stmts| - 1].name.literal}
  }

  /** No two statements declare the same entity name. */
  predicate DistinctNames(stmts: seq<EntityStatement>) {
    forall i, j :: 0 <= i < j < |stmts| ==> stmts[i].name.literal != stmts[j].name.literal
  }

  /** What the loop of `Parse` has established about the statements parsed so far. */
  predicate LoopInvariant(stmts: seq<EntityStatement>, refs: References) {
    DistinctNames(stmts) && NameSet(stmts) <= refs.entities && AllIndexed(stmts, refs)
  }

  lemma LoopInvariantStep(stmts: seq<EntityStatement>, stmt: EntityStatement, a: References, b: References)
    requires LoopInvariant(stmts, a) && Keeps(a, b)
    requires stmt.name.literal !in a.entities && b.entities == a.entities + {stmt.name.literal}
    requires Indexed(stmt, b)
    ensures LoopInvariant(stmts + [stmt], b)
    ensures NameSet(stmts + [stmt]) == NameSet(stmts) + {stmt.name.literal}
  {
    assert (stmts + [stmt])[..|stmts|] == stmts;
    forall st | st in stmts
      ensures Indexed(st, b)
    {
      IndexedGrows(st, a, b);
    }
  }

  /**
   * The loop of `Parse` keeps the tables, and what it returns beyond
   * `stmts` are statements with new, distinct names that are exactly the
   * names added to the entity table, each indexed in the tables.
   */
  /** What the loop of `Parse` establishes from `s` and `stmts`. */
  predicate LoopKeeps(s: PState, r: Parsed<seq<EntityStatement>>) {
    Keeps(s.refs, r.state.refs) &&
    (r.result.Ok? ==>
      LoopInvariant(r.result.value, r.state.refs) &&
      r.state.refs.entities == s.refs.entities + NameSet(r.result.value))
  }

  /** What a statement parsed from `s` establishes about the tables. */
  predicate StatementKeeps(s: PState, st: Parsed<Option<EntityStatement>>) {
    Keeps(s.refs, st.state.refs) &&
    (st.result.Ok? && st.result.value.Some? ==>
      var stmt := st.result.value.value;
      stmt.name.literal !in s.refs.entities &&
      st.state.refs.entities == s.refs.entities + {stmt.name.literal} &&
      Indexed(stmt, st.state.refs))
  }

  lemma StatementTables(s: PState)
    ensures StatementKeeps(s, ParseStatement(s))
  {
    EntityStatementTables(s);
  }

  lemma {:induction false} ParseLoopTables(s: PState, stmts: seq<EntityStatement>)
    requires LoopInvariant(stmts, s.refs)
    ensures LoopKeeps(s, ParseLoop(s, stmts))
    decreases Measure(s), 1
  {
    if s.current.kind != Eof {
      StatementTables(s);
      LoopStepTables(s, ParseStatement(s), stmts);
    }
  }

  lemma {:induction false} LoopStepTables(s: PState, st: Parsed<Option<EntityStatement>>, stmts: seq<EntityStatement>)
    requires s.current.kind != Eof && Steps(s, st)
    requires st.result.Ok? && st.result.value.None? ==> st.state == s
    requires st.result.Ok? && st.result.value.Some? ==> Measure(st.state) < Measure(s)
    requires LoopInvariant(stmts, s.refs) && StatementKeeps(s, st)
    ensures LoopKeeps(s, LoopStep(s, st, stmts))
    decreases Measure(s), 0
  {
    if st.result.Ok? {
      if st.result.value.None? {
        ParseLoopTables(Next(s), stmts);
      } else {
        var stmt := st.result.value.value;
        var r := ParseLoop(Next(st.state), stmts + [stmt]);
        LoopInvariantStep(stmts, stmt, s.refs, st.state.refs);
        ParseLoopTables(Next(st.state), stmts + [stmt]);
        KeepsTransitive(s.refs, st.state.refs, r.state.refs);
        if r.result.Ok? {
          var v := r.result.value;
          assert v[|stmts|] == (stmts + [stmt])[|stmts|];
          assert stmt.name.literal in NameSet(v);
        }
      }
    }
  }

  /**
   * Parsing with a new parser: at most one message is recorded, and a
   * failure returns it; the tables are consistent; on success the entity
   * names are distinct, the entity table holds exactly them, and every
   * relation and permission is recorded under `entity#name`.
   */
  lemma ParseFromNewParser(tokens: seq<Token>)
    ensures var r := Parse(NewState(tokens));
      RefsValid(r.state.refs) &&
      (r.result.Ok? ==> r.state.errors == []) &&
      (r.result.Err? ==> r.state.errors == [r.result.error]) &&
      (r.result.Ok? ==>
        DistinctNames(r.result.value.statements) &&
        r.result.value.references.entities == NameSet(r.result.value.statements) &&
        AllIndexed(r.result.value.statements, r.result.value.references))
  {
    ParseLoopTables(NewState(tokens), []);
  }

  /* ---------------- Entity bodies ---------------- */

  /**
   * Inside an entity body, reaching `EOF` before `}` fails, and so does any
   * token other than a relation, a permission, a newline or a brace.
   */
  lemma EntityBodyRejects(s: PState, stmt: EntityStatement)
    requires s.current.kind == Eof || !(s.current.kind in {Rbrace, Relation, Permission, Newline, Lbrace})
    ensures var r := EntityBody(s, stmt);
      var expected := if s.current.kind == Eof then [Rbrace] else [Relation, Permission];
      r.result.Err? && r.state == s.(errors := s.errors + [UnexpectedCurrent(expected, s.current.kind)])
  {
  }

  /* ---------------- Expressions ---------------- */

  /**
   * The right operand of `and` and `or` is parsed at `LOGIC`, and no
   * operator binds tighter than that, so without parentheses it is a single
   * identifier: operator chains group to the left.
   */
  lemma LogicOperandIsAtom(s: PState)
    requires s.current.kind != Lparen
    ensures var r := ParseExpression(s, Logic);
      r.result.Ok? ==> r.result.value.Identifier? && r.state.peek == ParsePrefix(s).state.peek
  {
    if HasPrefixFn(s.current.kind) {
      var p := ParsePrefix(s);
      assert ExprLoop(p.state, Logic, p.result.value) == Parsed(Ok(p.result.value), p.state);
    }
  }

  /** `next` over a token that is not ignored reads exactly that token. */
  lemma NextReads(s: PState)
    requires s.pos < |s.tokens| && !IsIgnored(s.tokens[s.pos].kind)
    ensures Next(s) == s.(pos := s.pos + 1, current := s.peek, peek := s.tokens[s.pos])
  {
    assert SkipIgnored(s.tokens, s.pos) == (s.tokens[s.pos], s.pos + 1);
  }

  /** `next` at the end of the stream reads `EOF`. */
  lemma NextAtEnd(s: PState)
    requires s.pos >= |s.tokens|
    ensures Next(s) == s.(current := s.peek, peek := EofToken)
  {
  }

  /** Two calls of `next` over two tokens that are not ignored make them `current` and `peek`. */
  lemma TwoReads(s: PState)
    requires s.pos + 2 <= |s.tokens|
    requires !IsIgnored(s.tokens[s.pos].kind) && !IsIgnored(s.tokens[s.pos + 1].kind)
    ensures Next(Next(s)) == s.(pos := s.pos + 2, current := s.tokens[s.pos], peek := s.tokens[s.pos + 1])
  {
    NextReads(s);
    NextReads(Next(s));
  }

  /** A parser state with nothing recorded, its lexer at `pos`. */
  function At(tokens: seq<Token>, pos: nat, current: Token, peek: Token): PState {
    PState(tokens, pos, current, peek, [], NoReferences)
  }

  /** A plain identifier expression of one segment. */
  function Plain(t: Token): Expression {
    Identifier(ZeroToken, [t])
  }

  /** An identifier with no `.` after it is parsed as itself, and the parser stays where it is. */
  lemma PlainIdentifier(t: PState)
    requires t.current.kind == Tokens.Ident && t.peek.kind != Dot
    ensures ParsePrefix(t) == Parsed(Ok(Plain(t.current)), t)
  {
    assert DotSegments(t) == (t, []);
    assert [t.current] + [] == [t.current];
  }

  /** The loop of `parseExpression` stops at a `peek` that does not bind tighter. */
  lemma ExprLoopStops(s: PState, precedence: int, left: Expression)
    requires !(precedence < Precedence(s.peek.kind))
    ensures ExprLoop(s, precedence, left) == Parsed(Ok(left), s)
  {
  }

  /** An operator followed by a plain identifier: the infix node over `left` and that identifier. */
  lemma InfixOverIdentifier(s: PState, t: PState, left: Expression)
    requires HasInfixFn(s.current.kind) && t == Next(s)
    requires t.current.kind == Tokens.Ident && t.peek.kind != Dot
    ensures ParseInfix(s, left) == Parsed(Ok(Infix(s.current, left, s.current.literal, Plain(t.current))), t)
  {
    PlainIdentifier(t);
    ExprLoopStops(t, Logic, Plain(t.current));
  }

  /**
   * One turn of the `parseExpression` loop over `op ident`, where `op` binds
   * tighter than the current precedence: `left` becomes the left operand of
   * `op`, and the loop goes on after the identifier.
   */
  lemma ExprLoopFolds(s: PState, s1: PState, s2: PState, precedence: int, left: Expression)
    requires s1 == Next(s) && s2 == Next(s1)
    requires s.peek.kind != Newline && precedence < Precedence(s.peek.kind) && HasInfixFn(s.peek.kind)
    requires s2.current.kind == Tokens.Ident && s2.peek.kind != Dot
    ensures ExprLoop(s, precedence, left) ==
      ExprLoop(s2, precedence, Infix(s.peek, left, s.peek.literal, Plain(s2.current)))
  {
    InfixOverIdentifier(s1, s2, left);
  }

  /** An identifier is the current token and the segments `DotSegments` reads after it. */
  lemma IdentifierSegments(s: PState)
    requires s.current.kind == Tokens.Ident
    ensures ParsePrefix(s) == Parsed(Ok(Identifier(ZeroToken, [s.current] + DotSegments(s).1)), DotSegments(s).0)
  {
  }

  /** At a `.`, `DotSegments` takes the identifier after it and goes on from there. */
  lemma DotSegmentsStep(s: PState, s1: PState, s2: PState)
    requires s.peek.kind == Dot && s1 == Next(s) && s2 == Next(s1)
    ensures DotSegments(s) == (DotSegments(s2).0, [s2.current] + DotSegments(s2).1)
  {
  }

  /** `a op b op c`: three identifiers joined by two logic operators (`and` or `or`). */
  predicate LogicChain(a: Token, op1: Token, b: Token, op2: Token, c: Token) {
    a.kind == Tokens.Ident && b.kind == Tokens.Ident && c.kind == Tokens.Ident &&
    HasInfixFn(op1.kind) && HasInfixFn(op2.kind)
  }

  /**
   * `and` and `or` bind equally and group to the left: `a or b and c` parses
   * as `(a or b) and c`, and `a and b or c` as `(a and b) or c`.
   */
  lemma LogicGroupsLeft(a: Token, op1: Token, b: Token, op2: Token, c: Token)
    requires LogicChain(a, op1, b, op2, c)
    ensures ParseExpression(Next(Next(NewState([a, op1, b, op2, c]))), Lowest).result ==
      Ok(Infix(op2, Infix(op1, Plain(a), op1.literal, Plain(b)), op2.literal, Plain(c)))
  {
    var ts := [a, op1, b, op2, c];
    ChainStates(a, op1, b, op2, c);
    ChainFrom(a, op1, b, op2, c);
  }

  /** The same, from the state in which `a` is current. */
  lemma ChainFrom(a: Token, op1: Token, b: Token, op2: Token, c: Token)
    requires LogicChain(a, op1, b, op2, c)
    ensures var ts := [a, op1, b, op2, c];
      ParseExpression(At(ts, 2, a, op1), Lowest) ==
      Parsed(Ok(Infix(op2, Infix(op1, Plain(a), op1.literal, Plain(b)), op2.literal, Plain(c))), At(ts, 5, c, EofToken))
  {
    var ts := [a, op1, b, op2, c];
    PlainIdentifier(At(ts, 2, a, op1));
    ChainLoop(a, op1, b, op2, c, Plain(a));
  }

  /** The loop of `parseExpression` over `op b op c`, after `a`. */
  lemma ChainLoop(a: Token, op1: Token, b: Token, op2: Token, c: Token, left: Expression)
    requires LogicChain(a, op1, b, op2, c)
    ensures var ts := [a, op1, b, op2, c];
      ExprLoop(At(ts, 2, a, op1), Lowest, left) ==
      Parsed(Ok(Infix(op2, Infix(op1, left, op1.literal, Plain(b)), op2.literal, Plain(c))), At(ts, 5, c, EofToken))
  {
    var ab := Infix(op1, left, op1.literal, Plain(b));
    ChainFirst(a, op1, b, op2, c, left);
    ChainSecond(a, op1, b, op2, c, ab);
  }

  /** The first turn of that loop folds `a op b`. */
  lemma ChainFirst(a: Token, op1: Token, b: Token, op2: Token, c: Token, left: Expression)
    requires LogicChain(a, op1, b, op2, c)
    ensures var ts := [a, op1, b, op2, c];
      ExprLoop(At(ts, 2, a, op1), Lowest, left) ==
      ExprLoop(At(ts, 4, b, op2), Lowest, Infix(op1, left, op1.literal, Plain(b)))
  {
    var ts := [a, op1, b, op2, c];
    var s2, s3, s4 := At(ts, 2, a, op1), At(ts, 3, op1, b), At(ts, 4, b, op2);
    NextReads(s2);
    NextReads(s3);
    ExprLoopFolds(s2, s3, s4, Lowest, left);
  }

  /** The second turn folds `(a op b) op c`, and the loop stops at the end. */
  lemma ChainSecond(a: Token, op1: Token, b: Token, op2: Token, c: Token, left: Expression)
    requires LogicChain(a, op1, b, op2, c)
    ensures var ts := [a, op1, b, op2, c];
      ExprLoop(At(ts, 4, b, op2), Lowest, left) ==
      Parsed(Ok(Infix(op2, left, op2.literal, Plain(c))), At(ts, 5, c, EofToken))
  {
    var ts := [a, op1, b, op2, c];
    var s4, s5, end := At(ts, 4, b, op2), At(ts, 5, op2, c), At(ts, 5, c, EofToken);
    NextReads(s4);
    NextAtEnd(s5);
    ExprLoopFolds(s4, s5, end, Lowest, left);
    ExprLoopStops(end, Lowest, Infix(op2, left, op2.literal, Plain(c)));
  }

  /** The states `next` walks through over five tokens none of which is ignored. */
  lemma ChainStates(a: Token, op1: Token, b: Token, op2: Token, c: Token)
    requires !IsIgnored(a.kind) && !IsIgnored(op1.kind) && !IsIgnored(b.kind) && !IsIgnored(op2.kind) && !IsIgnored(c.kind)
    ensures var ts := [a, op1, b, op2, c];
      && Next(Next(NewState(ts))) == At(ts, 2, a, op1)
      && Next(At(ts, 2, a, op1)) == At(ts, 3, op1, b)
      && Next(At(ts, 3, op1, b)) == At(ts, 4, b, op2)
      && Next(At(ts, 4, b, op2)) == At(ts, 5, op2, c)
      && Next(At(ts, 5, op2, c)) == At(ts, 5, c, EofToken)
  {
    var ts := [a, op1, b, op2, c];
    TwoReads(NewState(ts));
    NextReads(At(ts, 2, a, op1));
    NextReads(At(ts, 3, op1, b));
    NextReads(At(ts, 4, b, op2));
    NextAtEnd(At(ts, 5, op2, c));
  }

  /** `x.y.z`: three identifiers joined by dots. */
  predicate DottedChain(x: Token, d1: Token, y: Token, d2: Token, z: Token) {
    x.kind == Tokens.Ident && y.kind == Tokens.Ident && z.kind == Tokens.Ident && d1.kind == Dot && d2.kind == Dot
  }

  /** `x.y.z` is one identifier with the three segments in order. */
  lemma DottedIdentifier(x: Token, d1: Token, y: Token, d2: Token, z: Token)
    requires DottedChain(x, d1, y, d2, z)
    ensures ParseExpression(Next(Next(NewState([x, d1, y, d2, z]))), Lowest).result ==
      Ok(Identifier(ZeroToken, [x, y, z]))
  {
    ChainStates(x, d1, y, d2, z);
    DottedFrom(x, d1, y, d2, z);
  }

  /** The same, from the state in which `x` is current. */
  lemma DottedFrom(x: Token, d1: Token, y: Token, d2: Token, z: Token)
    requires DottedChain(x, d1, y, d2, z)
    ensures var ts := [x, d1, y, d2, z];
      ParseExpression(At(ts, 2, x, d1), Lowest) == Parsed(Ok(Identifier(ZeroToken, [x, y, z])), At(ts, 5, z, EofToken))
  {
    var ts := [x, d1, y, d2, z];
    DottedSegments(x, d1, y, d2, z);
    IdentifierSegments(At(ts, 2, x, d1));
    ExprLoopStops(At(ts, 5, z, EofToken), Lowest, Identifier(ZeroToken, [x, y, z]));
  }

  /** The segments after `x` in `x.y.z`. */
  lemma DottedSegments(x: Token, d1: Token, y: Token, d2: Token, z: Token)
    requires DottedChain(x, d1, y, d2, z)
    ensures var ts := [x, d1, y, d2, z];
      DotSegments(At(ts, 2, x, d1)) == (At(ts, 5, z, EofToken), [y, z])
    ensures [x] + [y, z] == [x, y, z]
  {
    DottedFirst(x, d1, y, d2, z);
    DottedSecond(x, d1, y, d2, z);
    assert [y] + [z] == [y, z];
    assert [x] + [y, z] == [x, y, z];
  }

  /** The first `.` takes `y`. */
  lemma DottedFirst(x: Token, d1: Token, y: Token, d2: Token, z: Token)
    requires DottedChain(x, d1, y, d2, z)
    ensures var ts := [x, d1, y, d2, z];
      DotSegments(At(ts, 2, x, d1)) == (DotSegments(At(ts, 4, y, d2)).0, [y] + DotSegments(At(ts, 4, y, d2)).1)
  {
    var ts := [x, d1, y, d2, z];
    var s2, s3, s4 := At(ts, 2, x, d1), At(ts, 3, d1, y), At(ts, 4, y, d2);
    NextReads(s2);
    NextReads(s3);
    DotSegmentsStep(s2, s3, s4);
  }

  /** The second `.` takes `z`, and the segments end there. */
  lemma DottedSecond(x: Token, d1: Token, y: Token, d2: Token, z: Token)
    requires DottedChain(x, d1, y, d2, z)
    ensures var ts := [x, d1, y, d2, z];
      DotSegments(At(ts, 4, y, d2)) == (At(ts, 5, z, EofToken), [z])
  {
    var ts := [x, d1, y, d2, z];
    var s4, s5, end := At(ts, 4, y, d2), At(ts, 5, d2, z), At(ts, 5, z, EofToken);
    NextReads(s4);
    NextAtEnd(s5);
    DotSegmentsStep(s4, s5, end);
    assert DotSegments(end) == (end, []);
    assert [z] + [] == [z];
  }
}
