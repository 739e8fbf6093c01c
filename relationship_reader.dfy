/**
 * The in-memory relationship reader (internal/repositories/memory/relationshipReader.go).
 * The memdb index lookup and the filter iterator are abstracted as a given
 * lookup outcome: either a lookup error or the sequence of objects the
 * filtered iterator yields, in its order.
 */
module RelationshipReader {
  import opened Wrappers
  import Base64
  import Decimal
  import Pagination
  import opened Collections

  type bytes = seq<Base64.byte>

  /** A stored row of the relation tuples table; `id` comes from an auto-increment generator. */
  datatype RelationTuple = RelationTuple(
    id: Decimal.uint64,
    tenantId: string,
    entityType: string,
    entityId: string,
    relation: string,
    subjectType: string,
    subjectId: string,
    subjectRelation: string)

  /** An object yielded by the memdb iterator: a relation tuple, or anything else. */
  datatype Object = Row(tuple: RelationTuple) | Foreign

  /** The outcome of `txn.Get` / `txn.LowerBound` followed by the filter iterator. */
  type Lookup = Option<seq<Object>>

  /** `database.Pagination`: the page token text and the page size. */
  datatype PaginationRequest = PaginationRequest(token: bytes, pageSize: nat)

  datatype ReadError =
    | CorruptToken            // the base64 decoder's own error, returned as is
    | InvalidContinuousToken  // ERROR_CODE_INVALID_CONTINUOUS_TOKEN
    | Execution               // ERROR_CODE_EXECUTION
    | TypeConversation        // ERROR_CODE_TYPE_CONVERSATION

  /** `RelationTuple.ToTuple`: the row's columns, without its ID and tenant. */
  function ToTuple(t: RelationTuple): (r: Tuple)
    ensures r.entity.typ == t.entityType && r.entity.id == t.entityId
    ensures r.relation == t.relation
    ensures r.subject.typ == t.subjectType && r.subject.id == t.subjectId && r.subject.relation == t.subjectRelation
  {
    Tuple(Entity(t.entityType, t.entityId), t.relation, Subject(t.subjectType, t.subjectId, t.subjectRelation))
  }

  function ToTuples(ts: seq<RelationTuple>): (r: seq<Tuple>)
    ensures |r| == |ts|
    ensures forall i :: 0 <= i < |ts| ==> r[i] == ToTuple(ts[i])
  {
    if ts == [] then [] else ToTuples(ts[..|ts| - 1]) + [ToTuple(ts[|ts| - 1])]
  }

  // ---------------------------------------------------------------------------
  // The lower bound encoded in the page token

  /**
   * The empty token means "from the start"; any other token must be base64
   * whose decoded text is an unsigned 64-bit decimal.
   */
  function LowerBound(token: bytes): (r: Result<Decimal.uint64, ReadError>)
    ensures token == [] ==> r == Ok(0)
    ensures token != [] && Base64.Decode(token).None? ==> r == Err(CorruptToken)
    ensures token != [] && Base64.Decode(token).Some? ==>
      r == (match Decimal.ParseUint(Base64.Decode(token).value)
            case None => Err(InvalidContinuousToken)
            case Some(n) => Ok(n))
    ensures r.Err? ==> r.error == CorruptToken || r.error == InvalidContinuousToken
  {
    if token == [] then Ok(0)
    else
      match Pagination.Decode(Pagination.EncodedContinuousToken(token))
      case Err(_) => Err(CorruptToken)
      case Ok(t) =>
        match Decimal.ParseUint(t.value)
        case None => Err(InvalidContinuousToken)
        case Some(n) => Ok(n)
  }

  // ---------------------------------------------------------------------------
  // Sorting by ID (Go's sort.Slice)

  predicate SortedById(s: seq<RelationTuple>) {
    forall i, j :: 0 <= i < j < |s| ==> s[i].id < s[j].id
  }

  predicate DistinctIds(s: seq<RelationTuple>) {
    forall i, j :: 0 <= i < j < |s| ==> s[i].id != s[j].id
  }

  function Insert(x: RelationTuple, s: seq<RelationTuple>): (r: seq<RelationTuple>)
    requires SortedById(s)
    requires forall k :: 0 <= k < |s| ==> s[k].id != x.id
    ensures SortedById(r)
    ensures multiset(r) == multiset(s) + multiset{x}
  {
    if s == [] then [x]
    else if x.id < s[0].id then
      ConsSorted(x, s);
      [x] + s
    else
      var rest := Insert(x, s[1..]);
      HeadBelowInsert(x, s, rest);
      ConsSorted(s[0], rest);
      [s[0]] + rest
  }

  /** A sorted sequence stays sorted with an element below all of it in front. */
  lemma ConsSorted(h: RelationTuple, s: seq<RelationTuple>)
    requires SortedById(s)
    requires forall k :: 0 <= k < |s| ==> h.id < s[k].id
    ensures SortedById([h] + s)
  {
    forall i, j | 0 <= i < j < |[h] + s|
      ensures ([h] + s)[i].id < ([h] + s)[j].id
    {
      if i > 0 {
        assert ([h] + s)[i] == s[i - 1];
      }
      assert ([h] + s)[j] == s[j - 1];
    }
  }

  /** Inserting above the head of a sorted sequence leaves the head below everything. */
  lemma HeadBelowInsert(x: RelationTuple, s: seq<RelationTuple>, rest: seq<RelationTuple>)
    requires |s| > 0 && SortedById(s) && s[0].id < x.id
    requires multiset(rest) == multiset(s[1..]) + multiset{x}
    ensures forall k :: 0 <= k < |rest| ==> s[0].id < rest[k].id
    ensures multiset([s[0]] + rest) == multiset(s) + multiset{x}
  {
    assert s == [s[0]] + s[1..];
    forall k | 0 <= k < |rest|
      ensures s[0].id < rest[k].id
    {
      assert rest[k] in multiset(rest);
      if rest[k] != x {
        assert rest[k] in multiset(s[1..]);
      }
    }
  }

  /**
   * The rows ordered by ascending ID. The IDs are distinct, so this is the one
   * ordering any sorting algorithm produces, stable or not.
   */
  function SortById(s: seq<RelationTuple>): (r: seq<RelationTuple>)
    requires DistinctIds(s)
    ensures SortedById(r)
    ensures multiset(r) == multiset(s)
  {
    if s == [] then []
    else
      var rest := SortById(s[1..]);
      HeadNotInRest(s, rest);
      Insert(s[0], rest)
  }

  /** Under distinct IDs, no row sorted from the tail has the head's ID. */
  lemma HeadNotInRest(s: seq<RelationTuple>, rest: seq<RelationTuple>)
    requires |s| > 0 && DistinctIds(s) && multiset(rest) == multiset(s[1..])
    ensures DistinctIds(s[1..])
    ensures forall k :: 0 <= k < |rest| ==> rest[k].id != s[0].id
    ensures multiset(rest) + multiset{s[0]} == multiset(s)
  {
    assert s == [s[0]] + s[1..];
    forall k | 0 <= k < |rest|
      ensures rest[k].id != s[0].id
    {
      assert rest[k] in multiset(s[1..]);
      var j :| 0 <= j < |s[1..]| && s[1..][j] == rest[k];
    }
  }

  // ---------------------------------------------------------------------------
  // The page

  /** The rows at or above the lower bound, in order. */
  function Qualifying(s: seq<RelationTuple>, lowerBound: int): (r: seq<RelationTuple>)
    ensures |r| <= |s|
    ensures forall i :: 0 <= i < |r| ==> r[i].id >= lowerBound
  {
    if s == [] then []
    else if s[|s| - 1].id >= lowerBound then Qualifying(s[..|s| - 1], lowerBound) + [s[|s| - 1]]
    else Qualifying(s[..|s| - 1], lowerBound)
  }

  /** The rows of the page: at most `pageSize` rows from the lower bound on. */
  function PageRows(sorted: seq<RelationTuple>, lowerBound: int, pageSize: nat): (r: seq<RelationTuple>)
    ensures r <= Qualifying(sorted, lowerBound)
    ensures |r| == if |Qualifying(sorted, lowerBound)| <= pageSize then |Qualifying(sorted, lowerBound)| else pageSize
  {
    var q := Qualifying(sorted, lowerBound);
    if |q| > pageSize then q[..pageSize] else q
  }

  /** The ID of the first qualifying row the page leaves out, if it leaves one out. */
  function NextId(sorted: seq<RelationTuple>, lowerBound: int, pageSize: nat): (r: Option<Decimal.uint64>)
    ensures r.None? <==> PageRows(sorted, lowerBound, pageSize) == Qualifying(sorted, lowerBound)
    ensures r.Some? ==> r.value >= lowerBound
  {
    var q := Qualifying(sorted, lowerBound);
    if |q| > pageSize then Some(q[pageSize].id) else None
  }

  /** The token for the next page: the encoded decimal ID, or the Noop token when nothing is left out. */
  function PageToken(next: Option<Decimal.uint64>): (r: Pagination.EncodedContinuousToken)
    ensures next.None? ==> r == Pagination.NoopEncodedContinuousToken([])
    ensures next.Some? ==> r.EncodedContinuousToken? && LowerBound(Pagination.String(r)) == Ok(next.value)
  {
    match next
    case Some(id) =>
      var numeral := Decimal.FormatUint(id);
      Pagination.RoundTrip(numeral);
      Decimal.ParseFormatRoundTrip(id);
      Pagination.Encode(Pagination.NewContinuousToken(numeral))
    case None => Pagination.Encode(Pagination.NewNoopContinuousToken())
  }

  /** The page of at most `pageSize` rows starting at the lower bound, and the token for the next page. */
  function Page(sorted: seq<RelationTuple>, lowerBound: int, pageSize: nat)
    : (r: (seq<Tuple>, Pagination.EncodedContinuousToken))
    ensures |r.0| <= pageSize
    ensures r.1.NoopEncodedContinuousToken? <==> |r.0| == |Qualifying(sorted, lowerBound)|
    ensures r.1.EncodedContinuousToken? ==>
      |Qualifying(sorted, lowerBound)| > pageSize &&
      LowerBound(Pagination.String(r.1)) == Ok(Qualifying(sorted, lowerBound)[pageSize].id)
  {
    (ToTuples(PageRows(sorted, lowerBound, pageSize)), PageToken(NextId(sorted, lowerBound, pageSize)))
  }

  function Rows(objects: seq<Object>): (r: seq<RelationTuple>)
    requires forall k :: 0 <= k < |objects| ==> objects[k].Row?
    ensures |r| == |objects|
    ensures forall i :: 0 <= i < |objects| ==> r[i] == objects[i].tuple
  {
    if objects == [] then [] else Rows(objects[..|objects| - 1]) + [objects[|objects| - 1].tuple]
  }

  predicate AllRows(objects: seq<Object>) {
    forall k :: 0 <= k < |objects| ==> objects[k].Row?
  }

  /** What the store guarantees of the rows it yields: IDs from one generator. */
  predicate DistinctRowIds(objects: seq<Object>) {
    forall i, j :: 0 <= i < j < |objects| && objects[i].Row? && objects[j].Row? ==>
      objects[i].tuple.id != objects[j].tuple.id
  }

  lemma {:induction false} QualifyingPrefix(s: seq<RelationTuple>, i: nat, lowerBound: int)
    requires i <= |s|
    ensures Qualifying(s[..i], lowerBound) <= Qualifying(s, lowerBound)
    decreases |s|
  {
    if i < |s| {
      assert s[..|s| - 1][..i] == s[..i];
      QualifyingPrefix(s[..|s| - 1], i, lowerBound);
    } else {
      assert s[..i] == s;
    }
  }

  lemma QualifyingStep(s: seq<RelationTuple>, i: nat, lowerBound: int)
    requires i < |s|
    ensures Qualifying(s[..i + 1], lowerBound) ==
      Qualifying(s[..i], lowerBound) + (if s[i].id >= lowerBound then [s[i]] else [])
  {
    assert s[..i + 1][..i] == s[..i];
  }

  /** Dropping the element just appended gives back the sequence before it. */
  lemma TakeBeforeLast<T>(a: seq<T>, x: T)
    ensures (a + [x])[..|a|] == a
  {
  }

  /** One more object that is a row extends the rows read so far by its tuple. */
  lemma RowsAppend(objects: seq<Object>, i: nat)
    requires i < |objects| && AllRows(objects[..i]) && objects[i].Row?
    ensures AllRows(objects[..i + 1])
    ensures Rows(objects[..i + 1]) == Rows(objects[..i]) + [objects[i].tuple]
  {
    assert objects[..i + 1][..i] == objects[..i];
  }

  lemma ToTuplesAppend(a: seq<RelationTuple>, x: RelationTuple)
    ensures ToTuples(a + [x]) == ToTuples(a) + [ToTuple(x)]
  {
    assert (a + [x])[..|a|] == a;
  }

  /** The row that makes the page overflow is the first row left out. */
  lemma PageAtOverflow(tup: seq<RelationTuple>, i: nat, lowerBound: int, pageSize: nat)
    requires i < |tup| && tup[i].id >= lowerBound
    requires |Qualifying(tup[..i], lowerBound)| == pageSize
    ensures PageRows(tup, lowerBound, pageSize) == Qualifying(tup[..i], lowerBound)
    ensures NextId(tup, lowerBound, pageSize) == Some(tup[i].id)
  {
    var q := Qualifying(tup, lowerBound);
    QualifyingStep(tup, i, lowerBound);
    QualifyingPrefix(tup, i + 1, lowerBound);
    assert Qualifying(tup[..i + 1], lowerBound) == q[..pageSize + 1];
    assert q[..pageSize] == Qualifying(tup[..i], lowerBound);
  }

  lemma {:induction false} QualifyingConcat(a: seq<RelationTuple>, b: seq<RelationTuple>, lowerBound: int)
    ensures Qualifying(a + b, lowerBound) == Qualifying(a, lowerBound) + Qualifying(b, lowerBound)
    decreases |b|
  {
    if b == [] {
      assert a + b == a;
    } else {
      var b' := b[..|b| - 1];
      assert (a + b)[..|a + b| - 1] == a + b';
      QualifyingConcat(a, b', lowerBound);
    }
  }

  lemma {:induction false} QualifyingAll(s: seq<RelationTuple>, lowerBound: int)
    requires forall i :: 0 <= i < |s| ==> s[i].id >= lowerBound
    ensures Qualifying(s, lowerBound) == s
  {
    if s != [] {
      var init := s[..|s| - 1];
      QualifyingAll(init, lowerBound);
      assert s == init + [s[|s| - 1]];
    }
  }

  lemma {:induction false} QualifyingNone(s: seq<RelationTuple>, lowerBound: int)
    requires forall i :: 0 <= i < |s| ==> s[i].id < lowerBound
    ensures Qualifying(s, lowerBound) == []
  {
    if s != [] {
      QualifyingNone(s[..|s| - 1], lowerBound);
    }
  }

  /** The index of the first row at or above the bound, or |s| when there is none. */
  function FirstAtLeast(s: seq<RelationTuple>, lowerBound: int): (k: nat)
    ensures k <= |s|
    ensures forall i :: 0 <= i < k ==> s[i].id < lowerBound
    ensures k < |s| ==> s[k].id >= lowerBound
  {
    if s == [] then 0
    else if s[0].id >= lowerBound then 0
    else 1 + FirstAtLeast(s[1..], lowerBound)
  }

  /** Over rows sorted by ID the qualifying rows are a suffix: everything from the first one on. */
  lemma QualifyingIsSuffix(s: seq<RelationTuple>, lowerBound: int)
    requires SortedById(s)
    ensures Qualifying(s, lowerBound) == s[FirstAtLeast(s, lowerBound)..]
  {
    var k := FirstAtLeast(s, lowerBound);
    var below, rest := s[..k], s[k..];
    TakeDrop(s, k);
    forall i | 0 <= i < |below|
      ensures below[i].id < lowerBound
    {
      assert below[i] == s[i];
    }
    forall i | 0 <= i < |rest|
      ensures rest[i].id >= lowerBound
    {
      assert rest[i] == s[k + i];
      assert i == 0 || s[k].id < s[k + i].id;
    }
    QualifyingConcat(below, rest, lowerBound);
    QualifyingNone(below, lowerBound);
    QualifyingAll(rest, lowerBound);
  }

  /** A row qualifies exactly when it is one of the rows and reaches the bound. */
  lemma QualifyingMembers(s: seq<RelationTuple>, lowerBound: int, x: RelationTuple)
    requires SortedById(s)
    ensures x in Qualifying(s, lowerBound) <==> x in s && x.id >= lowerBound
  {
    QualifyingIsSuffix(s, lowerBound);
    var k := FirstAtLeast(s, lowerBound);
    if x in s && x.id >= lowerBound {
      var j :| 0 <= j < |s| && s[j] == x;
      assert j >= k;
      assert s[k..][j - k] == x;
    }
  }

  lemma SortedSuffix(s: seq<RelationTuple>, k: nat)
    requires SortedById(s) && k <= |s|
    ensures SortedById(s[k..])
  {
  }

  /** A page holds at most `pageSize` rows, the first of the qualifying ones. */
  lemma PageRowsBound(sorted: seq<RelationTuple>, lowerBound: int, pageSize: nat)
    ensures |PageRows(sorted, lowerBound, pageSize)| <= pageSize
    ensures PageRows(sorted, lowerBound, pageSize) <= Qualifying(sorted, lowerBound)
    ensures NextId(sorted, lowerBound, pageSize).None? <==> PageRows(sorted, lowerBound, pageSize) == Qualifying(sorted, lowerBound)
  {
  }

  /**
   * The rows of a page over rows sorted by ID are in strictly ascending ID
   * order and all at or above the bound.
   */
  lemma PageRowsOrdered(sorted: seq<RelationTuple>, lowerBound: int, pageSize: nat)
    requires SortedById(sorted)
    ensures SortedById(PageRows(sorted, lowerBound, pageSize))
    ensures forall i :: 0 <= i < |PageRows(sorted, lowerBound, pageSize)| ==>
      PageRows(sorted, lowerBound, pageSize)[i].id >= lowerBound
  {
    var q := Qualifying(sorted, lowerBound);
    QualifyingIsSuffix(sorted, lowerBound);
    SortedSuffix(sorted, FirstAtLeast(sorted, lowerBound));
    if |q| > pageSize {
      SortedPrefix(q, pageSize);
    }
  }

  lemma SortedPrefix(s: seq<RelationTuple>, k: nat)
    requires SortedById(s) && k <= |s|
    ensures SortedById(s[..k])
  {
  }

  /** When no more than `pageSize` rows qualify, the page holds all of them and the Noop token. */
  lemma PageIsCompleteWhenSmall(sorted: seq<RelationTuple>, lowerBound: int, pageSize: nat)
    requires |Qualifying(sorted, lowerBound)| <= pageSize
    ensures Page(sorted, lowerBound, pageSize) ==
      (ToTuples(Qualifying(sorted, lowerBound)), Pagination.NoopEncodedContinuousToken([]))
  {
  }

  lemma FirstAtLeastUnique(s: seq<RelationTuple>, lowerBound: int, j: nat)
    requires j <= |s|
    requires forall i :: 0 <= i < j ==> s[i].id < lowerBound
    requires j < |s| ==> s[j].id >= lowerBound
    ensures FirstAtLeast(s, lowerBound) == j
  {
  }

  /** The token of an overflowing page decodes to the ID of the first row left out. */
  lemma OverflowTokenDecodesToOmittedId(sorted: seq<RelationTuple>, lowerBound: int, pageSize: nat)
    requires |Qualifying(sorted, lowerBound)| > pageSize
    ensures LowerBound(Pagination.String(Page(sorted, lowerBound, pageSize).1)) ==
      Ok(Qualifying(sorted, lowerBound)[pageSize].id)
  {
    var id := Qualifying(sorted, lowerBound)[pageSize].id;
    var numeral := Decimal.FormatUint(id);
    Pagination.RoundTrip(numeral);
    Decimal.ParseFormatRoundTrip(id);
    assert Pagination.String(Page(sorted, lowerBound, pageSize).1) == Base64.Encode(numeral);
  }

  /** Over rows sorted by ID, a read from the first omitted row's ID qualifies exactly the rows from it on. */
  lemma ResumeAtOmitted(sorted: seq<RelationTuple>, lowerBound: int, pageSize: nat)
    requires SortedById(sorted)
    requires |Qualifying(sorted, lowerBound)| > pageSize
    ensures var q := Qualifying(sorted, lowerBound);
      Qualifying(sorted, q[pageSize].id) == q[pageSize..]
  {
    var q := Qualifying(sorted, lowerBound);
    QualifyingIsSuffix(sorted, lowerBound);
    var k := FirstAtLeast(sorted, lowerBound);
    var j := k + pageSize;
    assert q[pageSize] == sorted[j];
    SortedBelow(sorted, j);
    FirstAtLeastUnique(sorted, sorted[j].id, j);
    QualifyingIsSuffix(sorted, sorted[j].id);
    DropDrop(sorted, k, pageSize);
    assert q[pageSize..] == sorted[j..];
  }

  /** In rows sorted by ID, every row before index `j` has a smaller ID. */
  lemma SortedBelow(s: seq<RelationTuple>, j: nat)
    requires SortedById(s) && j < |s|
    ensures forall i :: 0 <= i < j ==> s[i].id < s[j].id
  {
  }

  lemma DropDrop<T>(s: seq<T>, k: nat, n: nat)
    requires k + n <= |s|
    ensures s[k..][n..] == s[k + n..]
  {
  }

  /**
   * Paging is seamless: the next read, made with the token of an overflowing
   * page, returns rows starting exactly at the first row this page left out,
   * so no row is skipped and none is returned twice.
   */
  lemma NextPageStartsAtFirstOmitted(sorted: seq<RelationTuple>, lowerBound: int, pageSize: nat)
    requires SortedById(sorted)
    requires |Qualifying(sorted, lowerBound)| > pageSize
    ensures var q := Qualifying(sorted, lowerBound);
      var next := LowerBound(Pagination.String(Page(sorted, lowerBound, pageSize).1));
      && next.Ok?
      && PageRows(sorted, lowerBound, pageSize) + Qualifying(sorted, next.value) == q
  {
    OverflowTokenDecodesToOmittedId(sorted, lowerBound, pageSize);
    ResumeAtOmitted(sorted, lowerBound, pageSize);
    var q := Qualifying(sorted, lowerBound);
    assert PageRows(sorted, lowerBound, pageSize) == q[..pageSize];
    TakeDrop(q, pageSize);
  }

  lemma TakeDrop<T>(s: seq<T>, n: nat)
    requires n <= |s|
    ensures s[..n] + s[n..] == s
  {
  }

  // ---------------------------------------------------------------------------
  // The two read operations

  /** `QueryRelationships`: every object the filtered lookup yields, as tuples, in order. */
  method QueryRelationships(lookup: Lookup) returns (it: TupleIterator?, err: Option<ReadError>)
    ensures lookup.None? ==> it == null && err == Some(Execution)
    ensures lookup.Some? && !AllRows(lookup.value) ==> it == null && err == Some(TypeConversation)
    ensures lookup.Some? && AllRows(lookup.value) ==>
      err.None? && it != null && fresh(it) && it.tuples == ToTuples(Rows(lookup.value))
  {
    var collection := new TupleCollection([]);
    if lookup.None? {
      return null, Some(Execution);
    }
    var objects := lookup.value;
    for i := 0 to |objects|
      invariant AllRows(objects[..i])
      invariant collection.tuples == ToTuples(Rows(objects[..i]))
    {
      if !objects[i].Row? {
        return null, Some(TypeConversation);
      }
      RowsAppend(objects, i);
      ToTuplesAppend(Rows(objects[..i]), objects[i].tuple);
      collection.Add(ToTuple(objects[i].tuple));
    }
    assert objects[..|objects|] == objects;
    it := collection.CreateTupleIterator();
    err := None;
  }

  /**
   * The collecting loop shared by both reads: every object must be a relation
   * tuple row, otherwise the read fails with a type conversion error.
   */
  method CollectRows(objects: seq<Object>) returns (tup: seq<RelationTuple>, ok: bool)
    ensures ok <==> AllRows(objects)
    ensures ok ==> tup == Rows(objects)
  {
    tup := [];
    for i := 0 to |objects|
      invariant AllRows(objects[..i])
      invariant tup == Rows(objects[..i])
    {
      if !objects[i].Row? {
        return [], false;
      }
      RowsAppend(objects, i);
      tup := tup + [objects[i].tuple];
    }
    assert objects[..|objects|] == objects;
    ok := true;
  }

  /**
   * The page loop: appends qualifying rows and stops at the first one past
   * the page, returning the rows' tuples and that row's ID.
   */
  method TakePage(tup: seq<RelationTuple>, lowerBound: Decimal.uint64, pageSize: nat)
    returns (tuples: seq<Tuple>, next: Option<Decimal.uint64>)
    ensures tuples == ToTuples(PageRows(tup, lowerBound, pageSize))
    ensures next == NextId(tup, lowerBound, pageSize)
  {
    tuples := [];
    for i := 0 to |tup|
      invariant tuples == ToTuples(Qualifying(tup[..i], lowerBound))
      invariant |tuples| <= pageSize
    {
      QualifyingStep(tup, i, lowerBound);
      if tup[i].id >= lowerBound {
        ghost var before := tuples;
        ToTuplesAppend(Qualifying(tup[..i], lowerBound), tup[i]);
        tuples := tuples + [ToTuple(tup[i])];
        if |tuples| > pageSize {
          PageAtOverflow(tup, i, lowerBound, pageSize);
          TakeBeforeLast(before, ToTuple(tup[i]));
          return tuples[..pageSize], Some(tup[i].id);
        }
      }
    }
    assert tup[..|tup|] == tup;
    next := None;
  }

  /**
   * `ReadRelationships`: keyset pagination. Decodes the lower bound from the
   * token, collects the rows of the lookup, sorts them by ID and returns the
   * first `pageSize` rows at or above the lower bound, with the token of the
   * first row left out.
   */
  method ReadRelationships(pagination: PaginationRequest, lookup: Lookup)
    returns (collection: TupleCollection?, ct: Pagination.EncodedContinuousToken, err: Option<ReadError>)
    requires lookup.Some? ==> DistinctRowIds(lookup.value)
    ensures err.Some? ==> collection == null && ct == Pagination.NoopEncodedContinuousToken([])
    ensures LowerBound(pagination.token).Err? ==> err == Some(LowerBound(pagination.token).error)
    ensures LowerBound(pagination.token).Ok? && lookup.None? ==> err == Some(Execution)
    ensures LowerBound(pagination.token).Ok? && lookup.Some? && !AllRows(lookup.value) ==>
      err == Some(TypeConversation)
    ensures LowerBound(pagination.token).Ok? && lookup.Some? && AllRows(lookup.value) ==>
      err.None? && collection != null && fresh(collection) &&
      DistinctIds(Rows(lookup.value)) &&
      (collection.tuples, ct) ==
        Page(SortById(Rows(lookup.value)), LowerBound(pagination.token).value, pagination.pageSize)
  {
    var noop := Pagination.Encode(Pagination.NewNoopContinuousToken());
    var lowerBound: Decimal.uint64 := 0;
    if pagination.token != [] {
      var t := Pagination.Decode(Pagination.EncodedContinuousToken(pagination.token));
      if t.Err? {
        return null, noop, Some(CorruptToken);
      }
      var n := Decimal.ParseUint(t.value.value);
      if n.None? {
        return null, noop, Some(InvalidContinuousToken);
      }
      lowerBound := n.value;
    }
    assert LowerBound(pagination.token) == Ok(lowerBound);

    if lookup.None? {
      return null, noop, Some(Execution);
    }
    var tup, ok := CollectRows(lookup.value);
    if !ok {
      return null, noop, Some(TypeConversation);
    }
    assert DistinctIds(tup) by {
      forall i, j | 0 <= i < j < |tup| ensures tup[i].id != tup[j].id {
        assert lookup.value[i].Row? && lookup.value[j].Row?;
      }
    }
    tup := SortById(tup);
    var tuples, next := TakePage(tup, lowerBound, pagination.pageSize);
    if next.Some? {
      ct := Pagination.Encode(Pagination.NewContinuousToken(Decimal.FormatUint(next.value)));
    } else {
      ct := noop;
    }
    collection := new TupleCollection(tuples);
    err := None;
  }
}
