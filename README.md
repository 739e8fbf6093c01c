# Permify core, modelled in Dafny

This project models five pieces of the Permify authorization service (Go) and
proves what they guarantee.

- **The schema DSL parser** (`pkg/dsl/parser/parser.go`). It is a Pratt parser
  over a token stream. It reads `entity name { relation ... permission = expr }`
  declarations, where an expression uses `and`, `or`, a `not` prefix,
  parentheses and dotted identifiers. While parsing it fills four reference
  tables: entities, relations with their types, permissions, and the relational
  table that gives every `entity#name` key its kind. It rejects duplicates.
  - `ParserSpec` (parser_spec.dfy) states each routine as a function from the
    parser state before the call to its result and the state after it.
  - `DslParser.Parser` (parser.dfy) is the parser as the source has it: a
    class whose fields are updated in place, with a lexer object. Each method is
    proved to compute its `ParserSpec` function.
  - `ParserProperties` (parser_properties.dfy) proves what parsing does to the
    tables and how expressions group.
- **The schema-to-graph builder** (`pkg/development/graph/schema.go`). It turns
  entity, relation and permission definitions into typed nodes and edges for
  the playground.
  - `BuilderSpec` holds the pure folds.
  - `Builder` holds the loop methods, each proved to compute its fold.
  - `BuilderProperties` proves when the build fails, which `xid`s it draws, the
    size and layout of the graph, and how the main reference is chosen.
- **Continuation tokens** (`internal/repositories/memory/utils/pagination.go`).
  A token is standard base64 over the token's value, as in section 4 of RFC
  4648 (`Base64`, `Pagination`).
- **Keyset pagination** in the in-memory relationship reader
  (`internal/repositories/memory/relationshipReader.go`, module
  `RelationshipReader`). It decodes a lower bound from the page token, sorts
  the rows by ID and returns one page, with a token for the first row left
  out. Go's `strconv` conversions it uses are in `Decimal`.
- **The append-only tuple, subject and entity collections**
  (`pkg/database/collections.go`, module `Collections`).

Design decisions that apply throughout:

- **Lexer.** The lexer is given as the token sequence it would produce. Past
  the end it returns `EOF` for ever. `IsIgnored` (whitespace and comments)
  stands for `token.IsIgnores`.
- **Termination.** Every parser routine reads forwards only. A measure
  (remaining tokens, plus whether `peek` and `current` are past the end) never
  grows, which is what makes the parser's loops and its mutual recursion
  terminate.
- **Errors.** An error message is a datatype value carrying the key or the
  token types, without the line and column prefix.
- **Protobuf maps.** Maps of definitions keyed by name are sequences in
  iteration order.
- **`xid`.** An `xid` is the serial number at which the generator produced it;
  the builders take the serial and return the next one.
- **Row lookup.** The memdb lookup and filter iterator are one given outcome:
  a lookup error, or the objects the filtered iterator yields, in order.
- **Sorting.** `sort.Slice` by ID is the unique ascending ordering of the rows.
  The rows' IDs come from one auto-increment generator, so they are distinct.

Three facts about the code of the graph builder shape what the model proves:

- Edge targets can dangle. A leaf's edge goes to a `relation` node that is
  built on the spot and never added to the graph
  (`pkg/development/graph/schema.go:92-102`). So the model proves that every
  edge leaves a node of the graph (`SchemaGraphSources`), not that it arrives
  at one, and that there is one edge per rewrite and per set leaf
  (`ActionGraphSize`).
- Node IDs can repeat. Relation and permission nodes share the ID format
  `entity:<e>:permission:<name>` (`pkg/development/graph/schema.go:40, 50`).
  The model keeps that format.
- A tuple-to-userset edge always targets the first reference's type.
  `GetMainReference` looks for `#` in the protobuf text of a reference
  (`type:"…" relation:"…"`), which no DSL identifier contains, so the test
  never fires: for `@organization#member` the target is `organization`
  (`MainReferenceOfIdentifiers`).

## Model

| member | source | states |
|---|---|---|
| Tokens.LexNext | pkg/dsl/parser/parser.go:164 | the lexer yields the token at its position and moves past it, or `EOF` without moving once the input is exhausted |
| Tokens.Lexer.NextToken | pkg/dsl/parser/parser.go:164 | the lexer object's read updates its position exactly as `LexNext` says |
| Tokens.Lexer.constructor | pkg/dsl/parser/parser.go:77 | a new lexer starts at the first token |
| ParserSpec.Error | pkg/dsl/parser/parser.go:204-211 | no error exactly when no message was recorded, otherwise the first message |
| ParserSpec.Fail | pkg/dsl/parser/parser.go:646-673 | recording a message appends exactly it, changes nothing else, and the routine returns the first message |
| ParserSpec.SkipIgnored | pkg/dsl/parser/parser.go:161-175 | reads forwards to a token that is not ignored: every token skipped is ignored, and the result is the last token read or `EOF` at the end |
| ParserSpec.Next | pkg/dsl/parser/parser.go:161-175 | the old `peek` becomes `current`, the new `peek` is not ignored, only the position and the two tokens change, and the measure decreases unless both tokens are `EOF` |
| ParserSpec.ExpectAndNext | pkg/dsl/parser/parser.go:441-450 | succeeds exactly when `peek` has the type, then advances; otherwise records the mismatch of the expected type and the `peek` type, keeping earlier messages |
| ParserSpec.Expect | pkg/dsl/parser/parser.go:453-461 | the same check without advancing: success leaves the state unchanged |
| ParserSpec.SetEntityReference | pkg/dsl/parser/parser.go:99-112 | succeeds exactly when the name is not yet an entity and then adds it; a duplicate records a duplication message and leaves the tables unchanged |
| ParserSpec.SetRelationReference | pkg/dsl/parser/parser.go:115-135 | succeeds exactly when the key is neither a relation nor a relational reference, then records its types and kind `RELATION`; a duplicate changes no table |
| ParserSpec.SetPermissionReference | pkg/dsl/parser/parser.go:138-158 | succeeds exactly when the key is neither a permission nor a relational reference, then records it with kind `PERMISSION`; a duplicate changes no table |
| ParserSpec.DotSegments | pkg/dsl/parser/parser.go:621-625 | stops at a `peek` that is not `.`, moves only forwards, reads nothing when there is no dot, and otherwise ends on the last segment read |
| ParserSpec.ParseIdentifier | pkg/dsl/parser/parser.go:617-628 | always succeeds with an identifier that starts with the current token, has no prefix, ends on the token now current, and is not followed by `.` |
| ParserSpec.ParsePrefixExpression | pkg/dsl/parser/parser.go:551-567 | always succeeds with an identifier whose prefix is the `not` token and whose first segment is the token after it |
| ParserSpec.ParsePrefix | pkg/dsl/parser/parser.go:472-482 | the registered prefix function of an identifier or `not` always succeeds and changes no table |
| ParserSpec.ParseExpression | pkg/dsl/parser/parser.go:464-501 | keeps to the routine contract (same stream read forwards, measure not growing, one message on failure) and changes no table |
| ParserSpec.ExprLoop | pkg/dsl/parser/parser.go:484-500 | the operator loop keeps to the routine contract and changes no table |
| ParserSpec.ParseInfix | pkg/dsl/parser/parser.go:575-593 | a success is an infix node whose operator token is the current one, whose left operand is the given one and whose operator text is the token's literal |
| ParserSpec.ParseInnerParen | pkg/dsl/parser/parser.go:505-546 | keeps to the routine contract and changes no table |
| ParserSpec.InnerLoop | pkg/dsl/parser/parser.go:524-545 | the parenthesis loop keeps to the routine contract and changes no table |
| ParserSpec.SkipRparens | pkg/dsl/parser/parser.go:431-433 | moves only forwards and stops at a current token that is not `)` |
| ParserSpec.ParseExpressionStatement | pkg/dsl/parser/parser.go:418-438 | keeps to the routine contract and changes no table |
| ParserSpec.ParseRelationTypeStatement | pkg/dsl/parser/parser.go:355-380 | a success has the `@` token that was in `peek` as its sign and strictly decreases the measure; no table changes |
| ParserSpec.RelationTypeTail | pkg/dsl/parser/parser.go:369-379 | the optional `#relation` keeps the sign and the routine contract |
| ParserSpec.RelationTypes | pkg/dsl/parser/parser.go:334-342 | the type loop only extends the types read so far, and reads at least one more when `peek` is `@` |
| ParserSpec.TypesStep | pkg/dsl/parser/parser.go:336-341 | one turn of the type loop adds at least one type after those read so far and decreases the measure |
| ParserSpec.ParseRelationStatement | pkg/dsl/parser/parser.go:318-352 | a success has at least one type and a key `entity#name` that was neither a relation nor a relational reference, now recorded with those types; a failure changes no table |
| ParserSpec.RelationAdd | pkg/dsl/parser/parser.go:344-351 | recording the parsed relation succeeds exactly as `ParseRelationStatement` promises |
| ParserSpec.ParsePermissionStatement | pkg/dsl/parser/parser.go:383-415 | the tables are unchanged, or the new key `entity#name` is recorded as a permission (it stays recorded when the expression then fails); a success always recorded it |
| ParserSpec.PermissionBody | pkg/dsl/parser/parser.go:399-414 | after the name is recorded, `=` and the expression keep the tables and return a statement with that name |
| ParserSpec.EntityBody | pkg/dsl/parser/parser.go:280-311 | a success ends on `}` and keeps the entity's keyword and name |
| ParserSpec.BodyRelation | pkg/dsl/parser/parser.go:289-294 | after a relation statement the body loop keeps the same promise |
| ParserSpec.BodyPermission | pkg/dsl/parser/parser.go:295-300 | after a permission statement the body loop keeps the same promise |
| ParserSpec.ParseEntityStatement | pkg/dsl/parser/parser.go:260-315 | a success is named by the identifier that was in `peek` and decreases the measure |
| ParserSpec.EntityOpen | pkg/dsl/parser/parser.go:275-314 | after the name is recorded, `{` and the body return a statement with that name |
| ParserSpec.ParseStatement | pkg/dsl/parser/parser.go:247-257 | any token other than `entity` yields nothing and leaves the state unchanged; an entity statement decreases the measure |
| ParserSpec.ParseLoop | pkg/dsl/parser/parser.go:219-234 | a success ends on `EOF` and only extends the statements parsed so far |
| ParserSpec.LoopStep | pkg/dsl/parser/parser.go:221-233 | one turn of the statement loop keeps the same promise |
| ParserSpec.Parse | pkg/dsl/parser/parser.go:214-244 | a success ends on `EOF` and returns the parser's tables as the schema's references |
| DslParser.Parser.constructor | pkg/dsl/parser/parser.go:74-96 | a new parser has read nothing, holds zero tokens, no errors and empty tables |
| DslParser.Parser.Error | pkg/dsl/parser/parser.go:204-211 | the object's `Error` is `ParserSpec.Error` of its state |
| DslParser.Parser.Next | pkg/dsl/parser/parser.go:161-175 | the in-place loop over the lexer leaves the state `ParserSpec.Next` gives |
| DslParser.Parser.ExpectAndNext | pkg/dsl/parser/parser.go:441-450 | the result and new state are those of `ParserSpec.ExpectAndNext` |
| DslParser.Parser.Expect | pkg/dsl/parser/parser.go:453-461 | the result and new state are those of `ParserSpec.Expect` |
| DslParser.Parser.DuplicationError | pkg/dsl/parser/parser.go:646-649 | appends the duplication message for the key and changes nothing else |
| DslParser.Parser.NoPrefixParseFnError | pkg/dsl/parser/parser.go:654-657 | appends the missing-prefix message for the type and changes nothing else |
| DslParser.Parser.PeekError | pkg/dsl/parser/parser.go:662-665 | appends the expected-next message with the `peek` type and changes nothing else |
| DslParser.Parser.CurrentError | pkg/dsl/parser/parser.go:670-673 | appends the expected-current message with the current type and changes nothing else |
| DslParser.Parser.SetEntityReference | pkg/dsl/parser/parser.go:99-112 | the in-place table update is `ParserSpec.SetEntityReference` |
| DslParser.Parser.SetRelationReference | pkg/dsl/parser/parser.go:115-135 | the in-place table update is `ParserSpec.SetRelationReference` |
| DslParser.Parser.SetPermissionReference | pkg/dsl/parser/parser.go:138-158 | the in-place table update is `ParserSpec.SetPermissionReference` |
| DslParser.Parser.ParseIdentifier | pkg/dsl/parser/parser.go:617-628 | the dot loop computes `ParserSpec.ParseIdentifier` |
| DslParser.Parser.ParsePrefixExpression | pkg/dsl/parser/parser.go:551-567 | the dot loop computes `ParserSpec.ParsePrefixExpression` |
| DslParser.Parser.ParsePrefix | pkg/dsl/parser/parser.go:472-482 | the prefix dispatch computes `ParserSpec.ParsePrefix` |
| DslParser.Parser.ParseExpression | pkg/dsl/parser/parser.go:464-501 | the operator loop computes `ParserSpec.ParseExpression` |
| DslParser.Parser.ParseInfixExpression | pkg/dsl/parser/parser.go:575-593 | computes `ParserSpec.ParseInfix` |
| DslParser.Parser.ParseInnerParen | pkg/dsl/parser/parser.go:505-546 | the parenthesis loop computes `ParserSpec.ParseInnerParen` |
| DslParser.Parser.ParseExpressionStatement | pkg/dsl/parser/parser.go:418-438 | computes `ParserSpec.ParseExpressionStatement` |
| DslParser.Parser.ParseRelationTypeStatement | pkg/dsl/parser/parser.go:355-380 | computes `ParserSpec.ParseRelationTypeStatement` |
| DslParser.Parser.ParseRelationStatement | pkg/dsl/parser/parser.go:318-352 | the type loop computes `ParserSpec.ParseRelationStatement` |
| DslParser.Parser.ParsePermissionStatement | pkg/dsl/parser/parser.go:383-415 | computes `ParserSpec.ParsePermissionStatement` |
| DslParser.Parser.ParseEntityStatement | pkg/dsl/parser/parser.go:260-315 | the body loop computes `ParserSpec.ParseEntityStatement` |
| DslParser.Parser.ParseStatement | pkg/dsl/parser/parser.go:247-257 | computes `ParserSpec.ParseStatement` |
| DslParser.Parser.Parse | pkg/dsl/parser/parser.go:214-244 | the statement loop computes `ParserSpec.Parse` |
| ParserProperties.NextSkipsIgnored | pkg/dsl/parser/parser.go:161-175 | after `next`, `current` is the old `peek`; every token skipped is ignored; the new `peek` is the first token that is not ignored, or `EOF` with the input exhausted |
| ParserProperties.NextReads | pkg/dsl/parser/parser.go:161-175 | over a token that is not ignored, `next` reads exactly that token |
| ParserProperties.NextAtEnd | pkg/dsl/parser/parser.go:161-175 | at the end of the input `next` makes `peek` `EOF` |
| ParserProperties.TwoReads | pkg/dsl/parser/parser.go:161-175 | two calls of `next` over two tokens that are not ignored make them `current` and `peek` |
| ParserProperties.WithEntityKeeps | pkg/dsl/parser/parser.go:99-112 | declaring an entity keeps the tables consistent and removes nothing |
| ParserProperties.WithRelationKeeps | pkg/dsl/parser/parser.go:115-135 | recording a new relation key keeps the tables consistent (no key of both kinds) and removes nothing |
| ParserProperties.WithPermissionKeeps | pkg/dsl/parser/parser.go:138-158 | recording a new permission key keeps the tables consistent and removes nothing |
| ParserProperties.IndexedGrows | pkg/dsl/parser/parser.go:99-158 | what the tables record about a statement stays recorded as they grow |
| ParserProperties.IndexedAddRelation | pkg/dsl/parser/parser.go:294 | a relation added to an entity statement is recorded under `entity#relation` with its types |
| ParserProperties.IndexedAddPermission | pkg/dsl/parser/parser.go:300 | a permission added to an entity statement is recorded under `entity#permission` |
| ParserProperties.RelationStatementTables | pkg/dsl/parser/parser.go:318-352 | a relation statement keeps the tables consistent, removes nothing and leaves the entity table alone |
| ParserProperties.PermissionStatementTables | pkg/dsl/parser/parser.go:383-415 | a permission statement keeps the tables consistent, removes nothing and leaves the entity table alone |
| ParserProperties.EntityBodyTables | pkg/dsl/parser/parser.go:280-311 | an entity body keeps the tables and records every relation and permission it adds under the entity's name |
| ParserProperties.BodyRelationTables | pkg/dsl/parser/parser.go:289-294 | the same after a relation statement |
| ParserProperties.BodyPermissionTables | pkg/dsl/parser/parser.go:295-300 | the same after a permission statement |
| ParserProperties.EntityStatementTables | pkg/dsl/parser/parser.go:260-315 | an entity statement keeps the tables; a success had a name not declared before, adds exactly that name, and records its relations and permissions |
| ParserProperties.EntityOpenTables | pkg/dsl/parser/parser.go:275-314 | the `{` and body after a fresh name keep the tables, add only that name, and record the body's declarations |
| ParserProperties.LoopInvariantStep | pkg/dsl/parser/parser.go:227-229 | appending a statement with a new name, recorded in the tables, keeps the names distinct and equal to the entity table |
| ParserProperties.StatementTables | pkg/dsl/parser/parser.go:247-257 | a statement keeps the tables, and one that is an entity statement adds exactly its new name and is recorded |
| ParserProperties.ParseLoopTables | pkg/dsl/parser/parser.go:219-234 | the statement loop keeps the tables, and the statements it returns have distinct names that are exactly the entity table, each recorded |
| ParserProperties.LoopStepTables | pkg/dsl/parser/parser.go:221-233 | one turn of the statement loop keeps the same promise |
| ParserProperties.ParseFromNewParser | pkg/dsl/parser/parser.go:214-244 | parsing with a new parser leaves consistent tables and records at most one message, which a failure returns; a success has distinct entity names, exactly the entity table, with every relation and permission recorded under `entity#name` |
| ParserProperties.EntityBodyRejects | pkg/dsl/parser/parser.go:281-308 | in an entity body, `EOF` fails expecting `}`, and any token other than relation, permission, newline or brace fails expecting relation or permission |
| ParserProperties.LogicOperandIsAtom | pkg/dsl/parser/parser.go:583-586 | the right operand of `and` and `or`, parsed at `LOGIC` without parentheses, is a single identifier: nothing binds tighter |
| ParserProperties.PlainIdentifier | pkg/dsl/parser/parser.go:617-628 | an identifier not followed by `.` parses as itself without moving |
| ParserProperties.ExprLoopStops | pkg/dsl/parser/parser.go:485 | the operator loop stops at a `peek` that does not bind tighter |
| ParserProperties.InfixOverIdentifier | pkg/dsl/parser/parser.go:575-593 | an operator followed by a plain identifier builds the infix node over the given left operand and that identifier |
| ParserProperties.ExprLoopFolds | pkg/dsl/parser/parser.go:485-497 | one turn of the operator loop makes everything parsed so far the left operand of the next operator |
| ParserProperties.IdentifierSegments | pkg/dsl/parser/parser.go:617-628 | an identifier is the current token followed by the segments the dot loop reads |
| ParserProperties.DotSegmentsStep | pkg/dsl/parser/parser.go:621-625 | at a `.`, the dot loop takes the identifier after it first, then the rest |
| ParserProperties.LogicGroupsLeft | pkg/dsl/parser/parser.go:485-497 | `a op b op c` with `and` or `or` parses as `(a op b) op c`, so `a or b and c` is `(a or b) and c` |
| ParserProperties.ChainFrom | pkg/dsl/parser/parser.go:464-501 | the same chain, parsed from the state in which `a` is current, ends after `c` |
| ParserProperties.ChainLoop | pkg/dsl/parser/parser.go:485-497 | the operator loop after `a` folds both operators to the left |
| ParserProperties.ChainFirst | pkg/dsl/parser/parser.go:485-497 | its first turn makes `a op b` the left operand |
| ParserProperties.ChainSecond | pkg/dsl/parser/parser.go:485-497 | its second turn folds `c` on and the loop stops at `EOF` |
| ParserProperties.ChainStates | pkg/dsl/parser/parser.go:161-175 | the states `next` walks through over five tokens none of which is ignored |
| ParserProperties.DottedIdentifier | pkg/dsl/parser/parser.go:617-628 | `x.y.z` parses as one identifier with segments `[x, y, z]` in order |
| ParserProperties.DottedFrom | pkg/dsl/parser/parser.go:464-501 | the same from the state in which `x` is current, ending after `z` |
| ParserProperties.DottedSegments | pkg/dsl/parser/parser.go:621-625 | the dot loop after `x` reads `y` then `z` |
| ParserProperties.DottedFirst | pkg/dsl/parser/parser.go:621-625 | the first `.` takes `y` |
| ParserProperties.DottedSecond | pkg/dsl/parser/parser.go:621-625 | the second `.` takes `z` and the loop ends at `EOF` |
| Base64.Sextet | internal/repositories/memory/utils/pagination.go:30 | an alphabet character is never padding or a line break |
| Base64.SextetValue | internal/repositories/memory/utils/pagination.go:36 | a character with a 6-bit value is the character of that value |
| Base64.SextetInverse | internal/repositories/memory/utils/pagination.go:36 | every 6-bit value is read back from its character |
| Base64.Encode | internal/repositories/memory/utils/pagination.go:30 | the encoding has length `4 * ceil(n / 3)` and holds only alphabet characters and padding |
| Base64.BlockInAlphabet | internal/repositories/memory/utils/pagination.go:30 | a full block encodes to four alphabet characters |
| Base64.EncodeSplit | internal/repositories/memory/utils/pagination.go:30 | the encoding of more than three bytes is the first block's quad followed by the encoding of the rest |
| Base64.StripNewlines | internal/repositories/memory/utils/pagination.go:36 | the decoder's view of the input holds no carriage return or line feed |
| Base64.StripNewlinesOfEncoded | internal/repositories/memory/utils/pagination.go:36 | text without line breaks is its own view |
| Base64.Decode | internal/repositories/memory/utils/pagination.go:36-39 | `DecodeString` succeeds exactly on valid text: whole padded quads of the standard alphabet once line breaks are dropped; the bytes it returns are given by `RoundTrip` and the `Decode…Bytes` lemmas |
| Base64.DecodeQuadsSucceedsIffValid | internal/repositories/memory/utils/pagination.go:36 | quad decoding succeeds exactly on whole quads with padding only at the very end |
| Base64.DecodeSucceedsIffValid | internal/repositories/memory/utils/pagination.go:36-39 | `DecodeString` succeeds exactly on valid text; anything else is a corrupt-input error |
| Base64.DecodeRejectsPartialQuad | internal/repositories/memory/utils/pagination.go:36-39 | text whose length without line breaks is not a multiple of four is refused |
| Base64.DecodeBlock | internal/repositories/memory/utils/pagination.go:36 | a full quad decodes back to its three bytes |
| Base64.DecodeOneByte | internal/repositories/memory/utils/pagination.go:36 | the padded quad of one byte decodes to that byte |
| Base64.DecodeTwoBytes | internal/repositories/memory/utils/pagination.go:36 | the padded quad of two bytes decodes to them |
| Base64.DecodeThreeBytes | internal/repositories/memory/utils/pagination.go:36 | the quad of three bytes decodes to them |
| Base64.DecodeQuadsEncode | internal/repositories/memory/utils/pagination.go:28-42 | quad decoding inverts encoding for every byte string |
| Base64.DecodeQuadsEncodeStep | internal/repositories/memory/utils/pagination.go:28-42 | the round trip extends by one leading block |
| Base64.DecodeQuadsCons | internal/repositories/memory/utils/pagination.go:36 | decoding a full first quad and a valid rest concatenates their bytes |
| Base64.RoundTrip | internal/repositories/memory/utils/pagination.go:28-42 | `DecodeString(EncodeToString(s)) == s` for every byte string |
| Decimal.FormatUint | internal/repositories/memory/relationshipReader.go:110 | the numeral is non-empty, all decimal digits, without a leading zero |
| Decimal.ParseUint | internal/repositories/memory/relationshipReader.go:76 | succeeds exactly on a non-empty all-digit text whose value fits in 64 bits |
| Decimal.DigitsValueOfFormat | internal/repositories/memory/relationshipReader.go:110 | the value of the formatted numeral is the number |
| Decimal.ParseFormatRoundTrip | internal/repositories/memory/relationshipReader.go:76 | parsing the numeral of any 64-bit value gives the value back |
| Pagination.Encode | internal/repositories/memory/utils/pagination.go:27-31 | a token encodes to base64 text of length `4 * ceil(n / 3)`; the Noop token encodes to the empty Noop token |
| Pagination.Decode | internal/repositories/memory/utils/pagination.go:34-42 | decoding succeeds exactly on valid base64; a Noop encoded token always decodes to the Noop token |
| Pagination.RoundTrip | internal/repositories/memory/utils/pagination.go:27-42 | decoding the encoding of a token gives the token back |
| Pagination.StringIsValue | internal/repositories/memory/utils/pagination.go:80-83 | `String()` of an encoded token is its stored value, and of a Noop one is empty |
| Pagination.NewContinuousToken | internal/repositories/memory/utils/pagination.go:20-25 | a token holding exactly the given value, whose encoding decodes back to it |
| Pagination.NewNoopContinuousToken | internal/repositories/memory/utils/pagination.go:59-64 | the empty Noop token; it encodes to the empty Noop text and decodes back to itself |
| Pagination.String | internal/repositories/memory/utils/pagination.go:45-48 | the text of an encoded token is its stored value, and decoding it succeeds exactly when that value is valid base64; the text of a Noop token is empty |
| Pagination.NoopRoundTrip | internal/repositories/memory/utils/pagination.go:59-83 | the Noop token encodes to the empty text and decodes to a Noop token without error |
| Collections.SubjectsOf | pkg/database/collections.go:40-46 | one subject per tuple, position by position |
| Collections.TupleIterator.constructor | pkg/database/collections.go:24-26 | the iterator holds exactly the given tuples |
| Collections.SubjectIterator.constructor | pkg/database/collections.go:67-69 | the iterator holds exactly the given subjects |
| Collections.EntityIterator.constructor | pkg/database/collections.go:101-103 | the iterator holds exactly the given entities |
| Collections.TupleCollection.constructor | pkg/database/collections.go:13-20 | the collection holds exactly the given tuples, none for no arguments |
| Collections.TupleCollection.CreateTupleIterator | pkg/database/collections.go:23-27 | a new iterator over exactly the collection's current tuples |
| Collections.TupleCollection.GetTuples | pkg/database/collections.go:30-32 | the tuples in insertion order |
| Collections.TupleCollection.Add | pkg/database/collections.go:35-37 | appends the tuple at the end and changes nothing else |
| Collections.TupleCollection.ToSubjectCollection | pkg/database/collections.go:40-46 | a new collection of the same length whose element `i` is tuple `i`'s subject |
| Collections.SubjectCollection.constructor | pkg/database/collections.go:56-63 | the collection holds exactly the given subjects, none for no arguments |
| Collections.SubjectCollection.CreateSubjectIterator | pkg/database/collections.go:66-70 | a new iterator over exactly the collection's current subjects |
| Collections.SubjectCollection.GetSubjects | pkg/database/collections.go:73-75 | the subjects in insertion order |
| Collections.SubjectCollection.Add | pkg/database/collections.go:78-80 | appends the subject at the end and changes nothing else |
| Collections.EntityCollection.constructor | pkg/database/collections.go:90-97 | the collection holds exactly the given entities, none for no arguments |
| Collections.EntityCollection.CreateEntityIterator | pkg/database/collections.go:100-104 | a new iterator over exactly the collection's current entities |
| Collections.EntityCollection.GetEntities | pkg/database/collections.go:107-109 | the entities in insertion order |
| Collections.EntityCollection.Add | pkg/database/collections.go:112-114 | appends the entity at the end and changes nothing else |
| RelationshipReader.ToTuples | internal/repositories/memory/relationshipReader.go:108 | one tuple per row, position by position |
| RelationshipReader.ToTuple | internal/repositories/memory/relationshipReader.go:108 | the tuple carries the row's entity type and ID, its relation, and its subject type, ID and relation; the row's ID and tenant are dropped |
| RelationshipReader.LowerBound | internal/repositories/memory/relationshipReader.go:69-80 | the empty token is bound 0; a token that is not base64 gives the decoder's error; a decoded value that is not an unsigned 64-bit decimal gives `INVALID_CONTINUOUS_TOKEN`; otherwise the bound is that value |
| RelationshipReader.Insert | internal/repositories/memory/relationshipReader.go:100-102 | inserting a row with a new ID into rows sorted by ID keeps them sorted and adds exactly that row |
| RelationshipReader.ConsSorted | internal/repositories/memory/relationshipReader.go:100-102 | a row below all of a sorted sequence can go in front of it |
| RelationshipReader.HeadBelowInsert | internal/repositories/memory/relationshipReader.go:100-102 | inserting above the head of sorted rows leaves the head below everything |
| RelationshipReader.HeadNotInRest | internal/repositories/memory/relationshipReader.go:100-102 | with distinct IDs, no row of the tail has the head's ID |
| RelationshipReader.SortById | internal/repositories/memory/relationshipReader.go:100-102 | the rows in strictly ascending ID order, a permutation of the input |
| RelationshipReader.Qualifying | internal/repositories/memory/relationshipReader.go:106-108 | only rows at or above the bound, no more than the input |
| RelationshipReader.Rows | internal/repositories/memory/relationshipReader.go:92-97 | the relation tuples the iterator yields, in order |
| RelationshipReader.QualifyingPrefix | internal/repositories/memory/relationshipReader.go:106-108 | the rows that qualify among a prefix are a prefix of the rows that qualify |
| RelationshipReader.QualifyingStep | internal/repositories/memory/relationshipReader.go:106-108 | one more row adds itself exactly when it reaches the bound |
| RelationshipReader.RowsAppend | internal/repositories/memory/relationshipReader.go:93-97 | one more object that is a row extends the rows by its tuple |
| RelationshipReader.ToTuplesAppend | internal/repositories/memory/relationshipReader.go:108 | one more row extends the tuples by its tuple |
| RelationshipReader.PageAtOverflow | internal/repositories/memory/relationshipReader.go:109-110 | the row that makes the page overflow is the first row left out, and the page is the qualifying rows before it |
| RelationshipReader.QualifyingConcat | internal/repositories/memory/relationshipReader.go:106-108 | qualifying distributes over concatenation |
| RelationshipReader.QualifyingAll | internal/repositories/memory/relationshipReader.go:106-108 | rows all at or above the bound all qualify |
| RelationshipReader.QualifyingNone | internal/repositories/memory/relationshipReader.go:106-108 | rows all below the bound do not qualify |
| RelationshipReader.FirstAtLeast | internal/repositories/memory/relationshipReader.go:106-107 | every row before the index is below the bound, and the row at it reaches the bound |
| RelationshipReader.FirstAtLeastUnique | internal/repositories/memory/relationshipReader.go:106-107 | that index is the only one with this property |
| RelationshipReader.QualifyingIsSuffix | internal/repositories/memory/relationshipReader.go:100-108 | over rows sorted by ID the qualifying rows are everything from the first one that reaches the bound |
| RelationshipReader.QualifyingMembers | internal/repositories/memory/relationshipReader.go:106-108 | a row qualifies exactly when it is one of the rows and reaches the bound |
| RelationshipReader.SortedSuffix | internal/repositories/memory/relationshipReader.go:100-102 | a suffix of sorted rows is sorted |
| RelationshipReader.SortedPrefix | internal/repositories/memory/relationshipReader.go:100-102 | a prefix of sorted rows is sorted |
| RelationshipReader.SortedBelow | internal/repositories/memory/relationshipReader.go:100-102 | in sorted rows every earlier row has a smaller ID |
| RelationshipReader.PageRowsBound | internal/repositories/memory/relationshipReader.go:104-111 | a page holds at most `PageSize` rows, the first of the qualifying ones, and has no next row exactly when it holds them all |
| RelationshipReader.PageRows | internal/repositories/memory/relationshipReader.go:106-111 | the page is the prefix of the qualifying rows of length `min(qualifying, PageSize)` |
| RelationshipReader.NextId | internal/repositories/memory/relationshipReader.go:109-110 | a row is left out exactly when the page is not all the qualifying rows, and its ID is at or above the bound |
| RelationshipReader.PageToken | internal/repositories/memory/relationshipReader.go:110-115 | no row left out gives the Noop token; a left-out ID gives an encoded token from which the next read's lower bound is decoded as exactly that ID |
| RelationshipReader.Page | internal/repositories/memory/relationshipReader.go:104-115 | at most `PageSize` tuples; the token is Noop exactly when the page holds every qualifying row, and otherwise reads back as the ID of the first qualifying row left out |
| RelationshipReader.PageRowsOrdered | internal/repositories/memory/relationshipReader.go:100-108 | the rows of a page are in strictly ascending ID order and all at or above the bound |
| RelationshipReader.PageIsCompleteWhenSmall | internal/repositories/memory/relationshipReader.go:115 | when at most `PageSize` rows qualify, the page holds all of them with the Noop token |
| RelationshipReader.OverflowTokenDecodesToOmittedId | internal/repositories/memory/relationshipReader.go:110 | the token of an overflowing page decodes to the ID of the first qualifying row left out |
| RelationshipReader.ResumeAtOmitted | internal/repositories/memory/relationshipReader.go:69-110 | a read from that ID qualifies exactly the qualifying rows from the first omitted one on |
| RelationshipReader.NextPageStartsAtFirstOmitted | internal/repositories/memory/relationshipReader.go:109-111 | the page and the rows the next token's read qualifies make up all qualifying rows: none skipped, none repeated |
| RelationshipReader.QueryRelationships | internal/repositories/memory/relationshipReader.go:37-61 | a lookup error gives `EXECUTION`; an object that is not a row gives `TYPE_CONVERSATION`; otherwise the iterator ranges over every row's tuple in iteration order |
| RelationshipReader.CollectRows | internal/repositories/memory/relationshipReader.go:90-98 | the loop succeeds exactly when every object is a row, and then collects them in order |
| RelationshipReader.TakePage | internal/repositories/memory/relationshipReader.go:104-115 | the page loop returns the tuples of the page and the ID of the first qualifying row left out |
| RelationshipReader.ReadRelationships | internal/repositories/memory/relationshipReader.go:64-115 | token errors, lookup errors and non-row objects give their errors with no collection and the Noop token; otherwise the collection and token are the page of the rows sorted by ID from the decoded bound |
| SchemaDefinition.GetRelationByName | pkg/development/graph/schema.go:88 | finds a relation of the entity with that name, and none exactly when the entity has no such relation |
| SchemaDefinition.FirstNamed | pkg/development/graph/schema.go:88 | the same search over a list of relations |
| BuilderSpec.ReferenceText | pkg/development/graph/schema.go:114 | a reference's string form holds `#` exactly when its type or relation does |
| BuilderSpec.MainReferenceOf | pkg/development/graph/schema.go:112-119 | the main reference is `user` or the type of one of the references |
| BuilderSpec.GetMainReference | pkg/development/graph/schema.go:112-119 | a definition without references gives `user`; otherwise the result is `user` or the type of one of its references, the first plain one by `MainReferenceIsFirstPlain` |
| BuilderSpec.ChildGraph | pkg/development/graph/schema.go:68-106 | a child never gives back serials; a failure is `RELATION_DEFINITION_NOT_FOUND` with the empty graph; a leaf adds no node and draws no `xid` |
| BuilderSpec.ActionGraph | pkg/development/graph/schema.go:66-109 | a child list never gives back serials, and a failure is the error with the empty graph |
| BuilderSpec.RelationsGraph | pkg/development/graph/schema.go:37-45 | one node and one edge per relation: node `i` is relation `i`'s node, and edge `i` goes from the entity node to it |
| BuilderSpec.PermissionGraph | pkg/development/graph/schema.go:48-60 | a permission's part never gives back serials, and a failure is the error with the empty graph |
| BuilderSpec.PermissionsGraph | pkg/development/graph/schema.go:47-61 | the same for the permission loop |
| BuilderSpec.EntityGraph | pkg/development/graph/schema.go:29-63 | the same for an entity |
| BuilderSpec.SchemaGraph | pkg/development/graph/schema.go:16-26 | the same for a schema |
| Builder.ActionGraphStopsAtError | pkg/development/graph/schema.go:79-81 | once a prefix of the children fails, the whole list fails the same way |
| Builder.PermissionsGraphStopsAtError | pkg/development/graph/schema.go:55-58 | once a prefix of the permissions fails, the whole loop fails the same way |
| Builder.SchemaGraphStopsAtError | pkg/development/graph/schema.go:18-21 | once a prefix of the entities fails, the whole schema fails the same way |
| Builder.RelationsGraphStep | pkg/development/graph/schema.go:37-45 | one more relation appends its node and the edge from the entity node |
| Builder.PermissionsGraphStep | pkg/development/graph/schema.go:47-61 | one more permission after a successful prefix appends that permission's graph, or fails with it |
| Builder.ActionGraphStep | pkg/development/graph/schema.go:67-107 | one more child after a successful prefix appends that child's graph, or fails with it |
| Builder.BuildActionGraph | pkg/development/graph/schema.go:66-109 | the loop computes `ActionGraph`: graph, error and the next serial |
| Builder.AddChild | pkg/development/graph/schema.go:68-106 | the loop body for one child appends that child's graph, or fails with its error |
| Builder.EntityToGraph | pkg/development/graph/schema.go:29-63 | the loops compute `EntityGraph` |
| Builder.AddRelations | pkg/development/graph/schema.go:37-45 | the relation loop appends `RelationsGraph` |
| Builder.AddPermission | pkg/development/graph/schema.go:48-60 | the permission loop body appends that permission's graph, or fails with its error |
| Builder.SchemaToGraph | pkg/development/graph/schema.go:16-26 | the loop computes `SchemaGraph` |
| BuilderProperties.ChildGraphSucceedsIff | pkg/development/graph/schema.go:87-91 | a child builds exactly when every tuple-to-userset under it names a relation its entity declares |
| BuilderProperties.ActionGraphSucceedsIff | pkg/development/graph/schema.go:66-109 | a child list builds exactly when every child does |
| BuilderProperties.PermissionsGraphSucceedsIff | pkg/development/graph/schema.go:47-61 | the permissions build exactly when each permission's rewrite tree does |
| BuilderProperties.SchemaGraphSucceedsIff | pkg/development/graph/schema.go:16-26 | `SchemaToGraph` fails exactly when some permission has a tuple-to-userset over a relation its entity does not declare, and then returns the empty graph with `RELATION_DEFINITION_NOT_FOUND` |
| BuilderProperties.FreshXidsAppend | pkg/development/graph/schema.go:72 | `xid`s drawn in consecutive serial ranges stay distinct together |
| BuilderProperties.ChildGraphXids | pkg/development/graph/schema.go:70-74 | a child adds only logic nodes, each with a distinct `xid` drawn during its build |
| BuilderProperties.ActionGraphXids | pkg/development/graph/schema.go:66-109 | a rewrite tree adds only logic nodes with distinct `xid`s drawn during its build |
| BuilderProperties.PermissionGraphXids | pkg/development/graph/schema.go:48-60 | a permission's `xid`s are distinct and drawn during its build |
| BuilderProperties.PermissionsGraphXids | pkg/development/graph/schema.go:47-61 | the same for the permission loop |
| BuilderProperties.EntityGraphXids | pkg/development/graph/schema.go:29-63 | the same for an entity |
| BuilderProperties.SchemaGraphXids | pkg/development/graph/schema.go:16-26 | no two nodes of a schema graph share an `xid`, and every one was drawn during the build |
| BuilderProperties.ChildGraphSize | pkg/development/graph/schema.go:68-106 | a successful child adds one logic node per rewrite, one edge per rewrite and per set leaf, and draws one `xid` per rewrite |
| BuilderProperties.ActionGraphSize | pkg/development/graph/schema.go:66-109 | the same for a child list |
| BuilderProperties.ChildGraphSources | pkg/development/graph/schema.go:76-102 | every edge of a child's graph leaves the parent or one of its logic nodes |
| BuilderProperties.ActionGraphSources | pkg/development/graph/schema.go:66-109 | every edge of a rewrite tree's graph leaves the parent node or one of the tree's nodes |
| BuilderProperties.PermissionsGraphSources | pkg/development/graph/schema.go:47-61 | every edge of the permission loop's graph leaves the entity node or one of its nodes |
| BuilderProperties.EntityGraphSources | pkg/development/graph/schema.go:29-63 | every edge of an entity's graph leaves one of its nodes |
| BuilderProperties.SchemaGraphSources | pkg/development/graph/schema.go:16-26 | every edge of a schema graph leaves one of its nodes |
| BuilderProperties.PermissionsGraphNodeTypes | pkg/development/graph/schema.go:47-61 | the permission loop adds only `permission` and `logic` nodes |
| BuilderProperties.EntityGraphLayout | pkg/development/graph/schema.go:30-45 | a successful entity graph starts with the node `entity:<name>`, then one `relation` node `entity:<name>:permission:<relation>` per relation, each with the edge from the entity node |
| BuilderProperties.EntityGraphOneEntityNode | pkg/development/graph/schema.go:30-35 | an entity graph holds exactly one `entity` node |
| BuilderProperties.PermissionsGraphHasPermissions | pkg/development/graph/schema.go:47-54 | each permission has its node and the edge from the entity node |
| BuilderProperties.EntityGraphHasPermissions | pkg/development/graph/schema.go:47-54 | each permission of a successful entity graph has the node `entity:<name>:permission:<permission>` with the edge from the entity node |
| BuilderProperties.SchemaGraphEntityNodes | pkg/development/graph/schema.go:16-26 | the `entity` nodes of a successful schema graph are its entities' nodes, one each, in order |
| BuilderProperties.MainReferenceIsFirstPlain | pkg/development/graph/schema.go:112-119 | the main reference is the type of the first reference with no `#` |
| BuilderProperties.MainReferenceDefaultsToUser | pkg/development/graph/schema.go:118 | without such a reference the main reference is `user` |
| BuilderProperties.MainReferenceOfIdentifiers | pkg/development/graph/schema.go:112-119 | when no name holds `#`, the main reference is the first reference's type, or `user` when there is none |
| BuilderProperties.SingleEntitySchema | pkg/development/graph/schema.go:16-26 | a schema of one empty entity builds exactly one entity node and no edge |

## Left out

- The lexer is not part of this model. It is given as the token sequence it
  would produce, and `token.IsIgnores` as a fixed predicate over token types.
- Error text is not modelled: a message is its datatype value, without the
  line and column prefix.
- The `nil` checks that create missing reference maps (parser.go:100-103,
  116-119, 139-142) are not modelled. `NewParser` always creates the maps, so
  the checks never fire.
- The prefix and infix function maps are a fixed dispatch on the token type:
  identifiers and `not`, and `and` and `or`. `NewParser` registers exactly
  these and nothing else changes them.
- `utils.Key` is not part of this model. It is taken to be `entity#name`.
- `ParserSpec.ParseExpression`, `ParserSpec.ExprLoop`,
  `ParserSpec.ParseInnerParen`, `ParserSpec.InnerLoop` and
  `ParserSpec.ParseExpressionStatement`: their own contracts state only the
  routine contract and the unchanged tables. The expressions they build are
  stated by the expression lemmas of `ParserProperties`.
- The expression lemmas cover single operator chains, dotted identifiers and
  the operand of `and` and `or`. Nested parentheses are specified by
  `ParserSpec.ParseInnerParen` but have no lemma about their shape.
- Several parser loops are split into a function for the loop and one for a
  turn of it (`TypesStep`, `LoopStep`, `BodyRelation`, `BodyPermission`,
  `RelationTypeTail`, `RelationAdd`, `EntityOpen`, `PermissionBody`). Together
  they compute what the single Go function does.
- memdb's `Get`, `LowerBound` and `FilterQuery` are not part of this model.
  Their combined outcome is a given lookup result.
- `sort.Slice` is modelled by its result, the rows in ascending ID order; the
  in-place permutation steps are not modelled. `ReadRelationships` requires
  distinct row IDs, which the store's ID generator provides.
- `RelationshipReader.TakePage` returns the page's tuples and the ID of the
  first row left out. `ReadRelationships` then builds the collection and the
  token, where the Go loop returns them directly from inside the loop.
- The page size is a natural number. The conversion `int(pagination.PageSize())`
  cannot overflow for it.
- Go's string to byte conversions are the identity on the byte sequence.
- The Go iterator types are the snapshot of the slice they capture; their
  `HasNext`/`GetNext` methods are not part of this model.
- The offset that `base64.CorruptInputError` carries is not modelled.
- The builder's protobuf maps are modelled as sequences in iteration order. Go
  does not fix that order, so the model fixes one.
- `xid.New()` is a serial counter. The model proves only that logic node IDs are
  distinct and fresh, not their text.
- `BuilderSpec.ReferenceText`: the protobuf text form of a relation reference
  is `type:"…"` plus ` relation:"…"` when set. The generated `String()` is not
  part of this model, and its whitespace is unspecified. The lemmas use only
  that the text holds `#` exactly when the type or the relation does.
- The `Graph` type's `AddNode`, `AddEdge`, `AddNodes` and `AddEdges` are not
  part of this model beyond appending to the node and edge lists.
- The parts of the repository outside these five files are not modelled:
  servers, storage back ends, engines, the playground UI and the sharing
  action.
