/** The record <-> event codec of the stream processor.

    A `Record` is the flat storage form of one ownership transition: a type
    tag, a token id and three optional fields. An `Event` is the typed form,
    one of three closed variants. Decoding is fallible (unknown tag, missing
    field); encoding is total. */
module Codec {
  import opened Wrappers
  import opened Text
  import opened Batch

  /** A stored record. `tag` is the record's `Type` string; an absent
      optional field is `None` (null in storage, omitted when written). */
  datatype Record = Record(
    tag: string,
    tokenId: string,
    address: Option<string>,
    from: Option<string>,
    to: Option<string>)

  /** A typed event; every variant carries the token it is about. */
  datatype Event =
    | Mint(tokenId: string, address: string)
    | Burn(tokenId: string)
    | Transfer(tokenId: string, from: string, to: string)

  const IncompleteMint := "incomplete mint event"
  const IncompleteTransfer := "incomplete transfer event"
  const InvalidEvent := "invalid event"

  /** The name of an event's variant, which is also its record tag. */
  function TypeName(e: Event): string {
    match e
    case Mint(_, _) => "Mint"
    case Burn(_) => "Burn"
    case Transfer(_, _, _) => "Transfer"
  }

  /** A record decodes when its tag is one of the three variant names
      (compared exactly, case included) and the fields that variant needs are
      present. A burn needs no optional field. */
  predicate Decodable(r: Record) {
    || (r.tag == "Mint" && r.address.Some?)
    || r.tag == "Burn"
    || (r.tag == "Transfer" && r.from.Some? && r.to.Some?)
  }

  /** Record `r` holds event `e`: same tag and token, and every field of the
      variant stored in the matching optional field. Fields the variant does
      not have are not constrained. */
  predicate Carries(r: Record, e: Event) {
    && r.tag == TypeName(e)
    && r.tokenId == e.tokenId
    && (e.Mint? ==> r.address == Some(e.address))
    && (e.Transfer? ==> r.from == Some(e.from) && r.to == Some(e.to))
  }

  /** The records the encoder writes: a variant's fields present, all other
      optional fields absent. */
  predicate Canonical(r: Record) {
    || (r.tag == "Mint" && r.address.Some? && r.from.None? && r.to.None?)
    || (r.tag == "Burn" && r.address.None? && r.from.None? && r.to.None?)
    || (r.tag == "Transfer" && r.address.None? && r.from.Some? && r.to.Some?)
  }

  /** The message decoding fails with, chosen by the tag alone. */
  function DecodeError(tag: string): string {
    if tag == "Mint" then IncompleteMint
    else if tag == "Transfer" then IncompleteTransfer
    else InvalidEvent
  }

  /** Decodes a record into an event. */
  function Decode(r: Record): (res: Result<Event>)
    ensures res.Ok? <==> Decodable(r)
    ensures res.Ok? ==> Carries(r, res.value)
    ensures res.Err? ==> res.error == DecodeError(r.tag)
  {
    if r.tag == "Mint" then
      if r.address.Some? then Ok(Mint(r.tokenId, r.address.value)) else Err(IncompleteMint)
    else if r.tag == "Burn" then
      Ok(Burn(r.tokenId))
    else if r.tag == "Transfer" then
      if r.from.Some? && r.to.Some? then Ok(Transfer(r.tokenId, r.from.value, r.to.value))
      else Err(IncompleteTransfer)
    else
      Err(InvalidEvent)
  }

  /** Encodes an event as a record; decoding the record gives the event back. */
  function Encode(e: Event): (r: Record)
    ensures Canonical(r) && Carries(r, e)
    ensures Decode(r) == Ok(e)
  {
    match e
    case Mint(id, address) => Record("Mint", id, Some(address), None, None)
    case Burn(id) => Record("Burn", id, None, None, None)
    case Transfer(id, from, to) => Record("Transfer", id, None, Some(from), Some(to))
  }

  /** Encoding as the source returns it, wrapped in a result that is never
      an error. */
  function EncodeResult(e: Event): Result<Record> {
    Ok(Encode(e))
  }

  /** The other direction of the round trip: a canonical record decodes, and
      encoding the event rebuilds exactly that record. */
  lemma CanonicalRoundTrip(r: Record)
    requires Canonical(r)
    ensures Decode(r).Ok? && Encode(Decode(r).value) == r
  {
  }

  /** Every message decoding fails with is non-blank, so the batch never
      reports an "unknown error". */
  lemma DecodeReasonNotBlank(r: Record)
    requires Decode(r).Err?
    ensures !IsBlank(Decode(r).error)
  {
    NotBlankByFirst(Decode(r).error);
  }

  /** The message a decoding batch builds for a failing record. */
  lemma DecodeMessage(index: nat, r: Record)
    requires !Decodable(r)
    ensures IndexedMessage("", index, Decode(r).error) == "error at index " + Decimal(index) + ": " + DecodeError(r.tag)
  {
    DecodeReasonNotBlank(r);
  }

  /** The error a decoding batch reports: none exactly when every record
      decodes; otherwise the reason of the lowest failing record, with its
      index, never the "unknown error" form. */
  lemma DecodeBatchError(items: seq<Record>)
    ensures ReportedError(items, Decode, "").None? <==> forall i :: 0 <= i < |items| ==> Decodable(items[i])
    ensures ReportedError(items, Decode, "").Some? ==> exists k ::
      && 0 <= k < |items|
      && !Decodable(items[k])
      && (forall j :: 0 <= j < k ==> Decodable(items[j]))
      && ReportedError(items, Decode, "").value == "error at index " + Decimal(k) + ": " + DecodeError(items[k].tag)
  {
    var first := FirstFailure(items, Decode);
    if first.Some? {
      var k := first.value;
      DecodeMessage(k, items[k]);
    }
  }

  /** Decodes a batch of records (`ToStreamEvents`): the events decoded, in
      order, and the message for the lowest failing index, if any. */
  method DecodeAll(items: seq<Record>) returns (events: seq<Event>, error: Option<string>)
    ensures events == Successes(items, Decode)
    ensures error.None? <==> forall i :: 0 <= i < |items| ==> Decodable(items[i])
    ensures error.None? <==> |events| == |items|
    ensures error.None? ==> forall i :: 0 <= i < |items| ==> Carries(items[i], events[i])
    ensures error.Some? ==> exists k ::
      && 0 <= k < |items|
      && !Decodable(items[k])
      && (forall j :: 0 <= j < k ==> Decodable(items[j]))
      && error.value == "error at index " + Decimal(k) + ": " + DecodeError(items[k].tag)
  {
    events, error := CollectAll(items, Decode, "");
    SuccessesComplete(items, Decode);
    DecodeBatchError(items);
  }

  /** Encodes a batch of events (`ToStreamItems`): never fails, one record
      per event, in order. */
  method EncodeAll(events: seq<Event>) returns (items: seq<Record>, error: Option<string>)
    ensures error == None
    ensures |items| == |events|
    ensures forall i :: 0 <= i < |events| ==> Canonical(items[i]) && Carries(items[i], events[i])
  {
    items, error := CollectAll(events, EncodeResult, " convert item");
    SuccessesComplete(events, EncodeResult);
  }

  /** The batch round trip: decoding the records of an encoded batch yields
      the same events and no error. */
  lemma BatchRoundTrip(events: seq<Event>, items: seq<Record>)
    requires |items| == |events|
    requires forall i :: 0 <= i < |events| ==> items[i] == Encode(events[i])
    ensures Successes(items, Decode) == events
    ensures ReportedError(items, Decode, "") == None
  {
    SuccessesComplete(items, Decode);
  }
}
