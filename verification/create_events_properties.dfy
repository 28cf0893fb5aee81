/**
 * Properties of the event-creation handler that relate several calls, or
 * that characterise one branch of it from the outside.
 */
module CreateEventsProperties {
  import opened Wrappers
  import opened Json
  import opened CreateEvents

  /** The body members that are copied into an item; every other member is ignored. */
  const CopiedKeys: set<string> := ItemKeys - {"id"}

  // ---------------------------------------------------------------- decoding

  /** A body that does not decode is answered 400 "Invalid JSON payload", and only such a body. */
  lemma InvalidJsonIffUndecodable(parsed: Option<Fields>, id: string, createNow: string, updateNow: string,
                                  write: WriteOutcome)
    ensures var out := HandleParsed(parsed, id, createNow, updateNow, write);
      (out.response == InvalidJson() <==> parsed.None?) &&
      (parsed.None? ==> out.writes == [])
  {
    if parsed.Some? {
      var body := parsed.value;
      var missing := FirstMissing(body, RequiredFields);
      if missing.Some? {
        assert MissingField(missing.value).body.message[0] == 'M';
      }
    }
  }

  /** An envelope without a body is decoded as "{}", so the first check already fails on `status`. */
  lemma AbsentBodyReportsStatus(decode: Decoder, id: string, createNow: string, updateNow: string,
                                write: WriteOutcome)
    requires decode(DefaultBody) == Some(map[])
    ensures LambdaHandler(Event(None), decode, id, createNow, updateNow, write)
         == Invocation(MissingField("status"), [])
  {
  }

  // -------------------------------------------------------------- validation

  /** The one reported field is the first required field, in check order, that the body lacks. */
  lemma FirstMissingFieldReported(body: Fields, i: nat, id: string, createNow: string, updateNow: string,
                                  write: WriteOutcome)
    requires i < |RequiredFields|
    requires RequiredFields[i] !in body
    requires forall j | 0 <= j < i :: RequiredFields[j] in body
    ensures HandleParsed(Some(body), id, createNow, updateNow, write)
         == Invocation(MissingField(RequiredFields[i]), [])
  {
  }

  /** A body that lacks exactly one required field is answered with that field's name. */
  lemma SingleMissingFieldReported(body: Fields, key: string, id: string, createNow: string, updateNow: string,
                                   write: WriteOutcome)
    requires key in RequiredFields && key !in body
    requires forall j | 0 <= j < |RequiredFields| && RequiredFields[j] != key :: RequiredFields[j] in body
    ensures HandleParsed(Some(body), id, createNow, updateNow, write) == Invocation(MissingField(key), [])
  {
    var i :| 0 <= i < |RequiredFields| && RequiredFields[i] == key;
    FirstMissingFieldReported(body, i, id, createNow, updateNow, write);
  }

  /** A decoded body is answered "Missing field: ..." exactly when it lacks a required field. */
  lemma MissingFieldIffIncomplete(body: Fields, id: string, createNow: string, updateNow: string,
                                  write: WriteOutcome)
    ensures var out := HandleParsed(Some(body), id, createNow, updateNow, write);
      (out.response.statusCode == 400 <==> !AllPresent(body, RequiredFields)) &&
      (out.response.statusCode == 400 ==> out.writes == [] && exists key :: out.response == MissingField(key))
  {
  }

  /** Distinct fields give distinct "Missing field" responses: the message names exactly one field. */
  lemma MissingFieldInjective(a: string, b: string)
    requires MissingField(a) == MissingField(b)
    ensures a == b
  {
    var n := |MissingFieldPrefix|;
    assert a == (MissingFieldPrefix + a)[n..];
    assert b == (MissingFieldPrefix + b)[n..];
  }

  // ------------------------------------------------------------ construction

  /** Once validation passes, exactly the item built from the body is written, once. */
  lemma ValidBodyWrittenOnce(body: Fields, id: string, createNow: string, updateNow: string,
                             write: WriteOutcome)
    requires AllPresent(body, RequiredFields)
    ensures HandleParsed(Some(body), id, createNow, updateNow, write).writes
         == [BuildItem(body, id, createNow, updateNow)]
  {
  }

  /** A body member outside the copied keys, `id` included, has no effect on the item. */
  lemma OtherMembersIgnored(body: Fields, key: string, v: Value, id: string, createNow: string, updateNow: string)
    requires AllPresent(body, RequiredFields)
    requires key !in CopiedKeys
    ensures AllPresent(body[key := v], RequiredFields)
    ensures BuildItem(body[key := v], id, createNow, updateNow) == BuildItem(body, id, createNow, updateNow)
  {
    var body' := body[key := v];
    forall i | 0 <= i < |RequiredFields|
      ensures RequiredFields[i] in body' && body'[RequiredFields[i]] == body[RequiredFields[i]]
    {
      assert RequiredFields[i] in CopiedKeys;
    }
    assert "create_time" in CopiedKeys && "update_time" in CopiedKeys;
  }

  /** The item depends on the body only through its copied members. */
  lemma ItemDependsOnCopiedKeysOnly(body1: Fields, body2: Fields, id: string, createNow: string, updateNow: string)
    requires AllPresent(body1, RequiredFields)
    requires forall k | k in CopiedKeys :: (k in body1 <==> k in body2) && (k in body1 ==> body1[k] == body2[k])
    ensures AllPresent(body2, RequiredFields)
    ensures BuildItem(body1, id, createNow, updateNow) == BuildItem(body2, id, createNow, updateNow)
  {
    forall i | 0 <= i < |RequiredFields|
      ensures RequiredFields[i] in body2 && body2[RequiredFields[i]] == body1[RequiredFields[i]]
    {
      assert RequiredFields[i] in CopiedKeys;
    }
    assert "create_time" in CopiedKeys && "update_time" in CopiedKeys;
    var item1 := BuildItem(body1, id, createNow, updateNow);
    var item2 := BuildItem(body2, id, createNow, updateNow);
    forall k | k in ItemKeys
      ensures item1[k] == item2[k]
    {
      if k in CopiedKeys && k !in RequiredFields {
        assert k == "create_time" || k == "update_time";
      }
    }
  }

  /** A timestamp absent from the body is its own clock reading with "Z" appended; a present one is kept as sent. */
  lemma TimestampDefaults(body: Fields, id: string, createNow: string, updateNow: string)
    requires AllPresent(body, RequiredFields)
    ensures var item := BuildItem(body, id, createNow, updateNow);
      && item["create_time"] == (if "create_time" in body then body["create_time"] else Str(createNow + "Z"))
      && item["update_time"] == (if "update_time" in body then body["update_time"] else Str(updateNow + "Z"))
  {
  }

  /** The two defaulted timestamps come from separate clock readings and differ when the readings do. */
  lemma TimestampsAreSeparateReadings(body: Fields, id: string, createNow: string, updateNow: string)
    requires AllPresent(body, RequiredFields)
    requires "create_time" !in body && "update_time" !in body
    ensures var item := BuildItem(body, id, createNow, updateNow);
      item["create_time"] == item["update_time"] <==> createNow == updateNow
  {
    var item := BuildItem(body, id, createNow, updateNow);
    if item["create_time"] == item["update_time"] {
      assert createNow == (createNow + "Z")[..|createNow|];
      assert updateNow == (updateNow + "Z")[..|updateNow|];
    }
  }

  // ------------------------------------------------------ write and response

  /** A failed write is answered 500 with the failure's text, after exactly one attempt. */
  lemma WriteFailureAnswered500(body: Fields, id: string, createNow: string, updateNow: string, detail: string)
    requires AllPresent(body, RequiredFields)
    ensures HandleParsed(Some(body), id, createNow, updateNow, WriteFailed(detail))
         == Invocation(InternalError(detail), [BuildItem(body, id, createNow, updateNow)])
  {
  }

  /** A 201 answer carries the id of the one item written. */
  lemma CreatedCarriesItemId(parsed: Option<Fields>, id: string, createNow: string, updateNow: string,
                             write: WriteOutcome)
    ensures var out := HandleParsed(parsed, id, createNow, updateNow, write);
      out.response.statusCode == 201 ==>
        && out.response.body.message == CreatedMessage
        && out.response.body.eventId.Some?
        && |out.writes| == 1
        && out.writes[0]["id"] == Str(out.response.body.eventId.value)
  {
  }

  /** How each outcome of the pipeline maps to a status code. */
  lemma StatusCodeClassification(parsed: Option<Fields>, id: string, createNow: string, updateNow: string,
                                 write: WriteOutcome)
    ensures var out := HandleParsed(parsed, id, createNow, updateNow, write);
      var valid := parsed.Some? && AllPresent(parsed.value, RequiredFields);
      && (out.response.statusCode == 400 <==> !valid)
      && (out.response.statusCode == 500 <==> valid && write.WriteFailed?)
      && (out.response.statusCode == 201 <==> valid && write.Written?)
  {
  }

  /** Two invocations with the same request but different generated ids write different items. */
  lemma NotIdempotent(event: Event, decode: Decoder, id1: string, id2: string, createNow: string,
                      updateNow: string, write: WriteOutcome)
    requires id1 != id2
    ensures var out1 := LambdaHandler(event, decode, id1, createNow, updateNow, write);
      var out2 := LambdaHandler(event, decode, id2, createNow, updateNow, write);
      out1.writes != [] ==> out2.writes != [] && out1.writes[0] != out2.writes[0]
  {
  }
}
