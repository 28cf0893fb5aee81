# Event creation handler — Dafny model

This project models the event-creation request handler of the AWS Educate
backend (`lambda_handler`). For one invocation the handler:

1. takes the envelope's `body` text, or `"{}"` when there is none, and decodes it as JSON
   (400 "Invalid JSON payload" if that fails);
2. checks the required fields `status`, `schedule`, `content` and `person_in_charge`, in that
   order, and stops at the first one the body lacks (400 "Missing field: <name>");
3. builds the item: a freshly generated `id`, the four required members copied unchanged,
   `create_time` and `update_time` taken from the body when present and otherwise each set to
   its own UTC clock reading with `Z` appended;
4. puts the item into the event table once (500 "Internal server error" with the failure text
   in `error` if the put fails);
5. answers 201 "Event created" with `event_id` set to the item's `id`.

The model is functional. `CreateEvents.LambdaHandler` takes the envelope, the JSON decoder,
the generated id, the two clock readings and the table's answer to a put, and returns an
`Invocation`: the structured response and the sequence of items it wrote (empty or one item).
`CreateEvents.HandleParsed` is the same pipeline from the decoder's result onward.

Files:

- `wrappers.dfy` — module `Wrappers`: the `Option` datatype.
- `json.dfy` — module `Json`: JSON values and decoded objects (`Fields`).
- `create_events.dfy` — module `CreateEvents`: envelope, write outcome, item, response, the
  field check, item construction and the handler.
- `create_events_properties.dfy` — module `CreateEventsProperties`: lemmas about the handler.

Two behaviours of the code worth noting:

- Each omitted timestamp is its own `datetime.utcnow()` reading (lambda_function.py:49-50), so
  the model takes two clock readings and the two defaults can differ
  (`TimestampsAreSeparateReadings`).
- The four required members are copied as whatever JSON value the body holds; the code only
  tests that the keys exist (lines 33-34, 45-48), so the model copies any `Json.Value`.

## Model

| member | source | states |
|---|---|---|
| CreateEvents.LambdaHandler | src/create_events/test/lambda_function.py:17-77 | one invocation writes at most one item, and it writes one exactly when the answer is not 400 |
| CreateEvents.HandleParsed | src/create_events/test/lambda_function.py:21-77 | after decoding: at most one write; no write exactly on the 400 answers; the only codes are 201, 400 and 500; a written item has exactly the seven item attributes and the generated `id` |
| CreateEvents.MissingIndex | src/create_events/test/lambda_function.py:32-39 | from a start position, the check loop stops at a position where every key it passed is present and, unless it ran off the end, the key there is absent |
| CreateEvents.FirstMissing | src/create_events/test/lambda_function.py:32-39 | no key is reported exactly when all keys are present; a reported key is one of the required keys, is absent from the body, and comes no later in the check order than any absent key |
| CreateEvents.Timestamp | src/create_events/test/lambda_function.py:49-50 | a timestamp the body does not supply is a string ending in `Z` |
| CreateEvents.BuildItem | src/create_events/test/lambda_function.py:43-51 | the item has exactly the keys id, status, schedule, content, person_in_charge, create_time, update_time; `id` is the generated value; the four required members equal the body's values |
| CreateEventsProperties.InvalidJsonIffUndecodable | src/create_events/test/lambda_function.py:21-29 | the answer is 400 "Invalid JSON payload" if and only if the body does not decode, and then nothing is written |
| CreateEventsProperties.AbsentBodyReportsStatus | src/create_events/test/lambda_function.py:22-39 | with no body, given that "{}" decodes to the empty object, the answer is 400 "Missing field: status" and nothing is written |
| CreateEventsProperties.FirstMissingFieldReported | src/create_events/test/lambda_function.py:32-39 | when the i-th required field is missing and all earlier ones are present, the answer names that field alone and nothing is written |
| CreateEventsProperties.SingleMissingFieldReported | src/create_events/test/lambda_function.py:32-39 | a body lacking exactly one required field is answered with that field's name and nothing is written |
| CreateEventsProperties.MissingFieldIffIncomplete | src/create_events/test/lambda_function.py:32-39 | a decoded body is answered 400 if and only if it lacks a required field, and then the answer is a "Missing field" response with no write |
| CreateEventsProperties.MissingFieldInjective | src/create_events/test/lambda_function.py:38 | two "Missing field" responses are equal only for the same field name |
| CreateEventsProperties.ValidBodyWrittenOnce | src/create_events/test/lambda_function.py:43-56 | once validation passes, the write log is exactly the item built from the body |
| CreateEventsProperties.OtherMembersIgnored | src/create_events/test/lambda_function.py:43-51 | adding or changing a body member other than the six copied ones, `id` included, leaves the item unchanged |
| CreateEventsProperties.ItemDependsOnCopiedKeysOnly | src/create_events/test/lambda_function.py:43-51 | two bodies that agree on the six copied members give the same item |
| CreateEventsProperties.TimestampDefaults | src/create_events/test/lambda_function.py:49-50 | each timestamp is the body's value when present, and otherwise its own clock reading followed by "Z" |
| CreateEventsProperties.TimestampsAreSeparateReadings | src/create_events/test/lambda_function.py:49-50 | with neither timestamp supplied, the two item timestamps are equal if and only if the two clock readings are |
| CreateEventsProperties.WriteFailureAnswered500 | src/create_events/test/lambda_function.py:55-67 | a failed put is answered 500 "Internal server error" with the failure text, after exactly one write |
| CreateEventsProperties.CreatedCarriesItemId | src/create_events/test/lambda_function.py:69-77 | a 201 answer says "Event created" and its `event_id` is the `id` of the single item written |
| CreateEventsProperties.StatusCodeClassification | src/create_events/test/lambda_function.py:21-77 | 400 if and only if decoding or validation fails; 500 if and only if they pass and the put fails; 201 if and only if they pass and the put succeeds |
| CreateEventsProperties.NotIdempotent | src/create_events/test/lambda_function.py:43-56 | the same request with two different generated ids writes two different items |

## Left out

- Logging (the logger set-up and every `logger` call): it never affects the response or the write.
- The table client set-up (`boto3.resource`, `os.environ["EVENT_TABLE"]`): a start-up
  configuration step, not per-request logic. The put itself is the `WriteOutcome` parameter: the
  model records the item in the write log and takes the table's answer as given.
- JSON decoding and encoding: decoding is the `Decoder` parameter (None for text that does not
  parse); the response body is a datatype rather than serialized text. JSON numbers are integers.
- AbsentBodyReportsStatus: takes as a hypothesis that the decoder turns "{}" into the empty
  object, because the decoder is a parameter rather than a model of `json.loads`.
- Decoded bodies other than JSON objects: the model restricts the decoder's result to objects.
  In the code, a decoded array or string is searched with `in`, so one lacking a required key
  is answered 400 "Missing field: ..." and one containing all four raises a TypeError at
  `body["status"]`; a decoded number, boolean or null raises a TypeError at the `in` test.
- An envelope `body` that is neither text nor absent (JSON `null` or a number, say): `json.loads`
  raises a TypeError there, which the handler does not catch; the model types `body` as
  optional text.
- `uuid.uuid4()` and `datetime.utcnow().isoformat()`: both are string parameters; uniqueness of
  the id and the timestamp format are not modelled.
- Concurrent invocations and the client shared between them.
