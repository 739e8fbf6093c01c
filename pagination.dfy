/**
 * Continuation tokens of the in-memory repository
 * (internal/repositories/memory/utils/pagination.go). A token's value is a Go
 * string, modelled as its bytes; an encoded token holds the standard base64
 * text of that value. The Noop variants stand for "no further page".
 */
module Pagination {
  import opened Wrappers
  import Base64

  type bytes = seq<Base64.byte>

  /** `database.ContinuousToken`, one of the two implementations. */
  datatype ContinuousToken =
    | ContinuousToken(value: bytes)
    | NoopContinuousToken(value: bytes)

  /** `database.EncodedContinuousToken`, one of the two implementations. */
  datatype EncodedContinuousToken =
    | EncodedContinuousToken(value: bytes)
    | NoopEncodedContinuousToken(value: bytes)

  /** Go's `base64.CorruptInputError`; the offending offset is not modelled. */
  datatype DecodeError = CorruptInput

  /** A token over `value`; its encoding decodes back to it. */
  function NewContinuousToken(value: bytes): (t: ContinuousToken)
    ensures t.ContinuousToken? && t.value == value
    ensures Decode(Encode(t)) == Ok(t)
  {
    Base64.RoundTrip(value);
    ContinuousToken(value)
  }

  /** The empty token; it encodes to the empty Noop text and decodes back to itself. */
  function NewNoopContinuousToken(): (t: ContinuousToken)
    ensures t.NoopContinuousToken? && t.value == []
    ensures Encode(t) == NoopEncodedContinuousToken([])
    ensures Decode(Encode(t)) == Ok(t)
  {
    NoopContinuousToken([])
  }

  /** `Encode` of either token kind. */
  function Encode(t: ContinuousToken): (e: EncodedContinuousToken)
    ensures t.NoopContinuousToken? ==> e == NoopEncodedContinuousToken([])
    ensures t.ContinuousToken? ==> e.EncodedContinuousToken? && |e.value| == 4 * ((|t.value| + 2) / 3)
  {
    match t
    case ContinuousToken(v) => EncodedContinuousToken(Base64.Encode(v))
    case NoopContinuousToken(_) => NoopEncodedContinuousToken([])
  }

  /** `Decode` of either encoded token kind. */
  function Decode(e: EncodedContinuousToken): (r: Result<ContinuousToken, DecodeError>)
    ensures e.EncodedContinuousToken? ==> (r.Ok? <==> Base64.Valid(e.value))
    ensures e.NoopEncodedContinuousToken? ==> r == Ok(NoopContinuousToken([]))
  {
    match e
    case EncodedContinuousToken(v) =>
      Base64.DecodeSucceedsIffValid(v);
      (match Base64.Decode(v)
       case None => Err(CorruptInput)
       case Some(b) => Ok(ContinuousToken(b)))
    case NoopEncodedContinuousToken(_) => Ok(NoopContinuousToken([]))
  }

  /** `String` of either encoded token kind. */
  function String(e: EncodedContinuousToken): (r: bytes)
    ensures e.EncodedContinuousToken? ==> r == e.value && (Decode(e).Ok? <==> Base64.Valid(r))
    ensures e.NoopEncodedContinuousToken? ==> r == []
  {
    match e
    case EncodedContinuousToken(v) => v
    case NoopEncodedContinuousToken(_) => []
  }

  /** Decoding an encoded token gives back the value it was made from. */
  lemma RoundTrip(v: bytes)
    ensures Decode(Encode(NewContinuousToken(v))) == Ok(ContinuousToken(v))
  {
    Base64.RoundTrip(v);
  }

  /** The text of an encoded token is its stored value, and that of a Noop token is empty. */
  lemma StringIsValue(e: EncodedContinuousToken)
    ensures e.EncodedContinuousToken? ==> String(e) == e.value
    ensures e.NoopEncodedContinuousToken? ==> String(e) == []
  {
  }

  /** The Noop token encodes to the empty text, whose decoding is a Noop token again. */
  lemma NoopRoundTrip(t: ContinuousToken)
    requires t.NoopContinuousToken?
    ensures Encode(t) == NoopEncodedContinuousToken([])
    ensures String(Encode(t)) == []
    ensures Decode(Encode(t)) == Ok(NewNoopContinuousToken())
  {
  }
}
