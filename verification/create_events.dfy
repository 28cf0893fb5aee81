/**
 * The event-creation request handler: decode the request body, check the
 * four required fields in a fixed order, build the item, issue one write to
 * the event table and answer with a status code and a message.
 *
 * Everything the handler does not decide itself is a parameter: the JSON
 * decoder, the generated event id, the two clock readings and the table's
 * answer to the write. The handler returns its response together with the
 * log of the writes it issued.
 */
module CreateEvents {
  import opened Wrappers
  import opened Json

  /** The invocation envelope; only its `body` text is read, and it may be absent. */
  datatype Event = Event(body: Option<string>)

  /** The body decoder: None when the text is not valid JSON. */
  type Decoder = string -> Option<Fields>

  /** The table's answer to a put of one item. */
  datatype WriteOutcome = Written | WriteFailed(detail: string)

  /** An item as written to the table: attribute name to value. */
  type Item = map<string, Value>

  /** The JSON object returned as the response body. */
  datatype ResponseBody = ResponseBody(message: string, eventId: Option<string>, error: Option<string>)

  datatype Response = Response(statusCode: int, body: ResponseBody)

  /** What one invocation does: the response it returns and the items it wrote, in order. */
  datatype Invocation = Invocation(response: Response, writes: seq<Item>)

  /** The body text used when the envelope carries none. */
  const DefaultBody: string := "{}"

  /** The required request fields, in the order they are checked. */
  const RequiredFields: seq<string> := ["status", "schedule", "content", "person_in_charge"]

  /** The attributes every item has, and no others. */
  const ItemKeys: set<string> :=
    {"id", "status", "schedule", "content", "person_in_charge", "create_time", "update_time"}

  const InvalidJsonMessage: string := "Invalid JSON payload"
  const MissingFieldPrefix: string := "Missing field: "
  const InternalErrorMessage: string := "Internal server error"
  const CreatedMessage: string := "Event created"

  function InvalidJson(): Response {
    Response(400, ResponseBody(InvalidJsonMessage, None, None))
  }

  function MissingField(key: string): Response {
    Response(400, ResponseBody(MissingFieldPrefix + key, None, None))
  }

  function InternalError(detail: string): Response {
    Response(500, ResponseBody(InternalErrorMessage, None, Some(detail)))
  }

  function Created(eventId: string): Response {
    Response(201, ResponseBody(CreatedMessage, Some(eventId), None))
  }

  /** Every key of `keys` is a member of `body`. */
  predicate AllPresent(body: Fields, keys: seq<string>) {
    forall i | 0 <= i < |keys| :: keys[i] in body
  }

  /**
   * The position of the first key of `keys`, from position `from` on, that
   * `body` lacks, or `|keys|` when it has them all: the check loop visits the
   * keys in order and stops at the first miss.
   */
  function MissingIndex(body: Fields, keys: seq<string>, from: nat): (n: nat)
    requires from <= |keys|
    ensures from <= n <= |keys|
    ensures forall j | from <= j < n :: keys[j] in body
    ensures n < |keys| ==> keys[n] !in body
    decreases |keys| - from
  {
    if from == |keys| || keys[from] !in body then from
    else MissingIndex(body, keys, from + 1)
  }

  /**
   * The first key of `keys` that `body` lacks, if any: the reported key comes
   * no later in `keys` than any absent key.
   */
  function FirstMissing(body: Fields, keys: seq<string>): (r: Option<string>)
    ensures r.None? <==> AllPresent(body, keys)
    ensures r.Some? ==> r.value in keys && r.value !in body
    ensures forall j | 0 <= j < |keys| && keys[j] !in body :: r.Some? && r.value in keys[..j + 1]
  {
    var i := MissingIndex(body, keys, 0);
    if i < |keys| then Some(keys[i]) else None
  }

  /** A timestamp attribute: the body's value if it has the key, else the clock reading with "Z" appended. */
  function Timestamp(body: Fields, key: string, now: string): (v: Value)
    ensures key !in body ==> v.Str? && |v.s| > 0 && v.s[|v.s| - 1] == 'Z'
  {
    if key in body then body[key] else Str(now + "Z")
  }

  /**
   * The item built from a validated body. `createNow` and `updateNow` are
   * two separate clock readings, one per timestamp attribute.
   */
  function BuildItem(body: Fields, id: string, createNow: string, updateNow: string): (item: Item)
    requires AllPresent(body, RequiredFields)
    ensures item.Keys == ItemKeys
    ensures item["id"] == Str(id)
    ensures forall i | 0 <= i < |RequiredFields| :: item[RequiredFields[i]] == body[RequiredFields[i]]
    ensures item["create_time"] == Timestamp(body, "create_time", createNow)
    ensures item["update_time"] == Timestamp(body, "update_time", updateNow)
  {
    assert RequiredFields[0] in body && RequiredFields[1] in body;
    assert RequiredFields[2] in body && RequiredFields[3] in body;
    map[
      "id" := Str(id),
      "status" := body["status"],
      "schedule" := body["schedule"],
      "content" := body["content"],
      "person_in_charge" := body["person_in_charge"],
      "create_time" := Timestamp(body, "create_time", createNow),
      "update_time" := Timestamp(body, "update_time", updateNow)
    ]
  }

  /** The body text handed to the decoder. */
  function BodyText(event: Event): string {
    event.body.GetOr(DefaultBody)
  }

  /**
   * The handler once the body has been decoded: `parsed` is the decoder's
   * result and `write` the table's answer should the item be written.
   */
  function HandleParsed(parsed: Option<Fields>, id: string, createNow: string, updateNow: string,
                        write: WriteOutcome): (out: Invocation)
    ensures |out.writes| <= 1
    ensures out.writes == [] <==> out.response.statusCode == 400
    ensures out.response.statusCode in {201, 400, 500}
    ensures out.writes != [] ==> out.writes[0].Keys == ItemKeys && out.writes[0]["id"] == Str(id)
  {
    match parsed
    case None => Invocation(InvalidJson(), [])
    case Some(body) =>
      match FirstMissing(body, RequiredFields)
      case Some(key) => Invocation(MissingField(key), [])
      case None =>
        var item := BuildItem(body, id, createNow, updateNow);
        match write
        case WriteFailed(detail) => Invocation(InternalError(detail), [item])
        case Written => Invocation(Created(id), [item])
  }

  /** The whole handler for one invocation. */
  function LambdaHandler(event: Event, decode: Decoder, id: string, createNow: string, updateNow: string,
                         write: WriteOutcome): (out: Invocation)
    ensures |out.writes| <= 1
    ensures out.writes == [] <==> out.response.statusCode == 400
  {
    HandleParsed(decode(BodyText(event)), id, createNow, updateNow, write)
  }
}
