/**
 * The schema parser as the object the source has: the current and peek
 * tokens, the error list and the four reference tables are fields updated
 * in place, and each routine is a method proved to do what its function in
 * `ParserSpec` says, given the state before the call.
 */
module DslParser {
  import opened Wrappers
  import opened Tokens
  import opened Ast
  import S = ParserSpec

  /** Concatenation regroups: the dotted-identifier loops append one segment at a time. */
  lemma Concat(a: seq<Token>, b: seq<Token>, c: seq<Token>)
    ensures (a + b) + c == a + (b + c)
  {
  }

  class Parser {
    const l: Lexer
    var currentToken: Token
    var peekToken: Token
    var errors: seq<S.ParseError>
    var entityReferences: set<string>
    var relationReferences: map<string, seq<RelationTypeStatement>>
    var actionReferences: set<string>
    var relationalReferences: map<string, RelationalReferenceType>

    /** The parser and its lexer as one value. */
    function State(): S.PState
      reads this, l
    {
      S.PState(l.tokens, l.pos, currentToken, peekToken, errors,
               References(entityReferences, relationReferences, actionReferences, relationalReferences))
    }

    /** `NewParser`: a lexer over `tokens`, no tokens read, no errors and empty tables. */
    constructor(tokens: seq<Token>)
      ensures State() == S.NewState(tokens) && fresh(l)
    {
      l := new Lexer(tokens);
      currentToken := ZeroToken;
      peekToken := ZeroToken;
      errors := [];
      entityReferences := {};
      relationReferences := map[];
      actionReferences := {};
      relationalReferences := map[];
    }

    /** `Error`: none while no message is recorded, else the first message. */
    function Error(): (r: Option<S.ParseError>)
      reads this
      ensures r == S.Error(State())
    {
      if |errors| == 0 then None else Some(errors[0])
    }

    /* ---------------- Tokens ---------------- */

    method Next()
      modifies this, l
      ensures State() == S.Next(old(State()))
    {
      ghost var s := State();
      while true
        invariant State() == s.(pos := l.pos)
        invariant S.SkipIgnored(l.tokens, l.pos) == S.SkipIgnored(s.tokens, s.pos)
        decreases if l.pos < |l.tokens| then |l.tokens| - l.pos else 0
      {
        var peek := l.NextToken();
        if !IsIgnored(peek.kind) {
          currentToken := peekToken;
          peekToken := peek;
          break;
        }
      }
    }

    method ExpectAndNext(k: TokenType) returns (ok: bool)
      modifies this, l
      ensures (ok, State()) == S.ExpectAndNext(old(State()), k)
    {
      if peekToken.kind == k {
        Next();
        return true;
      }
      PeekError(k);
      return false;
    }

    method Expect(k: TokenType) returns (ok: bool)
      modifies this
      ensures (ok, State()) == S.Expect(old(State()), k)
    {
      if peekToken.kind == k {
        return true;
      }
      PeekError(k);
      return false;
    }

    /* ---------------- Errors ---------------- */

    method DuplicationError(key: string)
      modifies this
      ensures State() == old(State()).(errors := old(errors) + [S.DuplicationFound(key)])
    {
      errors := errors + [S.DuplicationFound(key)];
    }

    method NoPrefixParseFnError(k: TokenType)
      modifies this
      ensures State() == old(State()).(errors := old(errors) + [S.NoPrefixParseFn(k)])
    {
      errors := errors + [S.NoPrefixParseFn(k)];
    }

    method PeekError(k: TokenType)
      modifies this
      ensures State() == old(State()).(errors := old(errors) + [S.UnexpectedPeek([k], old(peekToken).kind)])
    {
      errors := errors + [S.UnexpectedPeek([k], peekToken.kind)];
    }

    method CurrentError(expected: seq<TokenType>)
      modifies this
      ensures State() == old(State()).(errors := old(errors) + [S.UnexpectedCurrent(expected, old(currentToken).kind)])
    {
      errors := errors + [S.UnexpectedCurrent(expected, currentToken.kind)];
    }

    /* ---------------- Reference tables ---------------- */

    method SetEntityReference(key: string) returns (res: Result<(), S.ParseError>)
      modifies this
      ensures S.Parsed(res, State()) == S.SetEntityReference(old(State()), key)
    {
      if key in entityReferences {
        DuplicationError(key);
        return Err(errors[0]);
      }
      entityReferences := entityReferences + {key};
      return Ok(());
    }

    method SetRelationReference(key: string, types: seq<RelationTypeStatement>) returns (res: Result<(), S.ParseError>)
      modifies this
      ensures S.Parsed(res, State()) == S.SetRelationReference(old(State()), key, types)
    {
      if key in relationReferences {
        DuplicationError(key);
        return Err(errors[0]);
      }
      if key in relationalReferences {
        DuplicationError(key);
        return Err(errors[0]);
      }
      relationReferences := relationReferences[key := types];
      relationalReferences := relationalReferences[key := RELATION];
      return Ok(());
    }

    method SetPermissionReference(key: string) returns (res: Result<(), S.ParseError>)
      modifies this
      ensures S.Parsed(res, State()) == S.SetPermissionReference(old(State()), key)
    {
      if key in actionReferences {
        DuplicationError(key);
        return Err(errors[0]);
      }
      if key in relationalReferences {
        DuplicationError(key);
        return Err(errors[0]);
      }
      actionReferences := actionReferences + {key};
      relationalReferences := relationalReferences[key := PERMISSION];
      return Ok(());
    }

    /* ---------------- Expressions ---------------- */

    /** `parseIdentifier`. */
    method ParseIdentifier() returns (res: Result<Expression, S.ParseError>)
      modifies this, l
      ensures S.Parsed(res, State()) == S.ParseIdentifier(old(State()))
    {
      var idents := [currentToken];
      ghost var first := idents;
      ghost var target := S.DotSegments(State());
      while peekToken.kind == Dot
        invariant S.DotSegments(State()).0 == target.0
        invariant idents + S.DotSegments(State()).1 == first + target.1
        decreases S.Measure(State())
      {
        ghost var before := S.DotSegments(State()).1;
        Next();
        Next();
        ghost var after := S.DotSegments(State()).1;
        assert before == [currentToken] + after;
        Concat(idents, [currentToken], after);
        idents := idents + [currentToken];
      }
      assert idents == idents + S.DotSegments(State()).1;
      return Ok(Identifier(ZeroToken, idents));
    }

    /** `parsePrefixExpression`. */
    method ParsePrefixExpression() returns (res: Result<Expression, S.ParseError>)
      modifies this, l
      ensures S.Parsed(res, State()) == S.ParsePrefixExpression(old(State()))
    {
      var prefix := currentToken;
      Next();
      var idents := [currentToken];
      ghost var first := idents;
      ghost var target := S.DotSegments(State());
      while peekToken.kind == Dot
        invariant S.DotSegments(State()).0 == target.0
        invariant idents + S.DotSegments(State()).1 == first + target.1
        decreases S.Measure(State())
      {
        ghost var before := S.DotSegments(State()).1;
        Next();
        Next();
        ghost var after := S.DotSegments(State()).1;
        assert before == [currentToken] + after;
        Concat(idents, [currentToken], after);
        idents := idents + [currentToken];
      }
      assert idents == idents + S.DotSegments(State()).1;
      return Ok(Identifier(prefix, idents));
    }

    /** The prefix function registered for the current token type. */
    method ParsePrefix() returns (res: Result<Expression, S.ParseError>)
      requires S.HasPrefixFn(currentToken.kind)
      modifies this, l
      ensures S.Parsed(res, State()) == S.ParsePrefix(old(State()))
    {
      if currentToken.kind == Ident {
        res := ParseIdentifier();
      } else {
        res := ParsePrefixExpression();
      }
    }

    /** `parseExpression`. */
    method ParseExpression(precedence: int) returns (res: Result<Expression, S.ParseError>)
      modifies this, l
      ensures S.Parsed(res, State()) == S.ParseExpression(old(State()), precedence)
      decreases S.Measure(State()), 1
    {
      if currentToken.kind == Lparen {
        Next();
        res := ParseInnerParen();
        return;
      }
      if !S.HasPrefixFn(currentToken.kind) {
        NoPrefixParseFnError(currentToken.kind);
        return Err(errors[0]);
      }
      var prefix := ParsePrefix();
      var exp := prefix.value;
      ghost var target := S.ExprLoop(State(), precedence, exp);
      while peekToken.kind != Newline && precedence < S.Precedence(peekToken.kind)
        invariant S.ExprLoop(State(), precedence, exp) == target
        invariant S.Measure(State()) <= S.Measure(old(State()))
        decreases S.Measure(State())
      {
        if !S.HasInfixFn(peekToken.kind) {
          return Ok(exp);
        }
        Next();
        var infix := ParseInfixExpression(exp);
        if infix.Err? {
          return Err(errors[0]);
        }
        exp := infix.value;
      }
      return Ok(exp);
    }

    /** `parseInfixExpression`. */
    method ParseInfixExpression(left: Expression) returns (res: Result<Expression, S.ParseError>)
      modifies this, l
      ensures S.Parsed(res, State()) == S.ParseInfix(old(State()), left)
      decreases S.Measure(State()), 2
    {
      var op := currentToken;
      var precedence := S.Precedence(currentToken.kind);
      Next();
      var right := ParseExpression(precedence);
      if right.Err? {
        return Err(errors[0]);
      }
      return Ok(Infix(op, left, op.literal, right.value));
    }

    /** `parseInnerParen`. */
    method ParseInnerParen() returns (res: Result<Expression, S.ParseError>)
      modifies this, l
      ensures S.Parsed(res, State()) == S.ParseInnerParen(old(State()))
      decreases S.Measure(State()), 3
    {
      if currentToken.kind == Lparen {
        res := ParseExpression(S.Lowest);
        return;
      }
      if !S.HasPrefixFn(currentToken.kind) {
        NoPrefixParseFnError(currentToken.kind);
        return Err(errors[0]);
      }
      var prefix := ParsePrefix();
      var exp := prefix.value;
      ghost var target := S.InnerLoop(State(), exp);
      while currentToken.kind != Rparen
        invariant S.InnerLoop(State(), exp) == target
        invariant S.Measure(State()) <= S.Measure(old(State()))
        decreases S.Measure(State())
      {
        if peekToken.kind == Rparen {
          Next();
        }
        if !S.HasInfixFn(peekToken.kind) {
          return Ok(exp);
        }
        Next();
        var infix := ParseInfixExpression(exp);
        if infix.Err? {
          return Err(errors[0]);
        }
        exp := infix.value;
      }
      return Ok(exp);
    }

    /** `parseExpressionStatement`. */
    method ParseExpressionStatement() returns (res: Result<Expression, S.ParseError>)
      modifies this, l
      ensures S.Parsed(res, State()) == S.ParseExpressionStatement(old(State()))
    {
      res := ParseExpression(S.Lowest);
      if res.Err? {
        return Err(errors[0]);
      }
      if peekToken.kind == Rparen {
        Next();
        ghost var target := S.SkipRparens(State());
        while currentToken.kind == Rparen
          invariant S.SkipRparens(State()) == target
          decreases S.Measure(State())
        {
          Next();
        }
      }
    }

    /* ---------------- Statements ---------------- */

    /** `parseRelationTypeStatement`. */
    method ParseRelationTypeStatement() returns (res: Result<RelationTypeStatement, S.ParseError>)
      modifies this, l
      ensures S.Parsed(res, State()) == S.ParseRelationTypeStatement(old(State()))
    {
      var ok := ExpectAndNext(Sign);
      if !ok {
        return Err(errors[0]);
      }
      var sign := currentToken;
      ok := ExpectAndNext(Ident);
      if !ok {
        return Err(errors[0]);
      }
      var typ := currentToken;
      var relation := ZeroToken;
      if peekToken.kind == Hash {
        Next();
        ok := ExpectAndNext(Ident);
        if !ok {
          return Err(errors[0]);
        }
        relation := currentToken;
      }
      return Ok(RelationTypeStatement(sign, typ, relation));
    }

    /** `parseRelationStatement`. */
    method ParseRelationStatement(entityName: string) returns (res: Result<RelationStatement, S.ParseError>)
      modifies this, l
      ensures S.Parsed(res, State()) == S.ParseRelationStatement(old(State()), entityName)
    {
      var relation := currentToken;
      var ok := ExpectAndNext(Ident);
      if !ok {
        return Err(errors[0]);
      }
      var name := currentToken;
      ok := Expect(Sign);
      if !ok {
        return Err(errors[0]);
      }
      var types: seq<RelationTypeStatement> := [];
      ghost var target := S.RelationTypes(State(), types);
      while peekToken.kind == Sign
        invariant S.RelationTypes(State(), types) == target
        decreases S.Measure(State())
      {
        var t := ParseRelationTypeStatement();
        if t.Err? {
          return Err(errors[0]);
        }
        types := types + [t.value];
      }
      var added := SetRelationReference(Key(entityName, name.literal), types);
      if added.Err? {
        return Err(added.error);
      }
      return Ok(RelationStatement(relation, name, types));
    }

    /** `parsePermissionStatement`. */
    method ParsePermissionStatement(entityName: string) returns (res: Result<PermissionStatement, S.ParseError>)
      modifies this, l
      ensures S.Parsed(res, State()) == S.ParsePermissionStatement(old(State()), entityName)
    {
      var permission := currentToken;
      var ok := ExpectAndNext(Ident);
      if !ok {
        return Err(errors[0]);
      }
      var name := currentToken;
      var added := SetPermissionReference(Key(entityName, name.literal));
      if added.Err? {
        return Err(added.error);
      }
      ok := ExpectAndNext(Assign);
      if !ok {
        return Err(errors[0]);
      }
      Next();
      var e := ParseExpressionStatement();
      if e.Err? {
        return Err(errors[0]);
      }
      return Ok(PermissionStatement(permission, name, e.value));
    }

    /** `parseEntityStatement`, with its body loop. */
    method ParseEntityStatement() returns (res: Result<EntityStatement, S.ParseError>)
      modifies this, l
      ensures S.Parsed(res, State()) == S.ParseEntityStatement(old(State()))
    {
      var entity := currentToken;
      var ok := ExpectAndNext(Ident);
      if !ok {
        return Err(errors[0]);
      }
      var name := currentToken;
      var added := SetEntityReference(name.literal);
      if added.Err? {
        return Err(added.error);
      }
      ok := ExpectAndNext(Lbrace);
      if !ok {
        return Err(errors[0]);
      }
      var stmt := EntityStatement(entity, name, [], []);
      ghost var target := S.EntityBody(State(), stmt);
      while currentToken.kind != Rbrace
        invariant S.EntityBody(State(), stmt) == target
        invariant stmt.name == name
        decreases S.Measure(State())
      {
        if currentToken.kind == Eof {
          CurrentError([Rbrace]);
          return Err(errors[0]);
        }
        if currentToken.kind == Relation {
          var relation := ParseRelationStatement(name.literal);
          if relation.Err? {
            return Err(errors[0]);
          }
          stmt := stmt.(relationStatements := stmt.relationStatements + [relation.value]);
        } else if currentToken.kind == Permission {
          var permission := ParsePermissionStatement(name.literal);
          if permission.Err? {
            return Err(errors[0]);
          }
          stmt := stmt.(permissionStatements := stmt.permissionStatements + [permission.value]);
        } else if currentToken.kind != Newline && currentToken.kind != Lbrace && currentToken.kind != Rbrace {
          CurrentError([Relation, Permission]);
          return Err(errors[0]);
        }
        Next();
      }
      return Ok(stmt);
    }

    /** `parseStatement`. */
    method ParseStatement() returns (res: Result<Option<EntityStatement>, S.ParseError>)
      modifies this, l
      ensures S.Parsed(res, State()) == S.ParseStatement(old(State()))
    {
      if currentToken.kind == Entity {
        var e := ParseEntityStatement();
        if e.Err? {
          return Err(e.error);
        }
        return Ok(Some(e.value));
      }
      return Ok(None);
    }

    /** `Parse`: statements until `EOF`, then the schema with the reference tables. */
    method Parse() returns (res: Result<Schema, S.ParseError>)
      modifies this, l
      ensures S.Parsed(res, State()) == S.Parse(old(State()))
    {
      var statements: seq<EntityStatement> := [];
      ghost var target := S.ParseLoop(State(), statements);
      while currentToken.kind != Eof
        invariant S.ParseLoop(State(), statements) == target
        decreases S.Measure(State())
      {
        var stmt := ParseStatement();
        if stmt.Err? {
          return Err(errors[0]);
        }
        if stmt.value.Some? {
          statements := statements + [stmt.value.value];
        }
        Next();
      }
      return Ok(Schema(statements, References(entityReferences, relationReferences, actionReferences, relationalReferences)));
    }
  }
}
