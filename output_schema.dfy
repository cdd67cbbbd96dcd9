/** The runtime schema of the structured `send_notification` result, as a
    predicate over the JavaScript object a payload becomes. */
module OutputSchema {
  import opened Wrappers
  import opened Payload
  import ToolResultConfig
  import Json
  import LegacyText

  /** The JavaScript values a payload key can hold. */
  datatype JsValue = JsString(s: string) | JsBool(b: bool) | JsNumber(n: int) | JsNull

  /** A plain JavaScript object: its own enumerable keys and their values. */
  type JsObject = map<string, JsValue>

  predicate OptionalString(obj: JsObject, key: string) {
    key in obj ==> obj[key].JsString?
  }

  /** The object schema: `status` is "sent" or "error"; `title`, `message`,
      `response`, `activationType`, `reply` and `error` are optional strings;
      `sanitized` is an optional boolean; other keys are not constrained. */
  predicate SchemaValid(obj: JsObject) {
    && "status" in obj && (obj["status"] == JsString("sent") || obj["status"] == JsString("error"))
    && OptionalString(obj, "title")
    && OptionalString(obj, "message")
    && OptionalString(obj, "response")
    && OptionalString(obj, "activationType")
    && OptionalString(obj, "reply")
    && OptionalString(obj, "error")
    && ("sanitized" in obj ==> obj["sanitized"].JsBool?)
  }

  function ToJs(v: Json.Scalar): JsValue {
    match v
    case JString(s) => JsString(s)
    case JBool(b) => JsBool(b)
  }

  /** The object holding the defined fields among `fields`. */
  function ObjectOf(p: SendNotificationOutput, fields: seq<ToolResultConfig.Field>): map<string, JsValue>
    decreases |fields|
  {
    if fields == [] then map[]
    else
      var f := fields[|fields| - 1];
      var v := FieldValue(p, f);
      var rest := ObjectOf(p, fields[..|fields| - 1]);
      if v.Some? then rest[ToolResultConfig.FieldName(f) := ToJs(v.value)] else rest
  }

  /** The object a payload is: one key per defined field. */
  function ToJsObject(p: SendNotificationOutput): (obj: map<string, JsValue>)
    ensures "status" in obj && obj["status"] == JsString(StatusText(p.status))
  {
    ObjectOfFields(p, ToolResultConfig.LegacyTextFields);
    assert ToolResultConfig.LegacyTextFields[0] == ToolResultConfig.Status;
    assert ToolResultConfig.FieldName(ToolResultConfig.Status) == "status";
    ObjectOf(p, ToolResultConfig.LegacyTextFields)
  }

  /** What the schema accepts and rejects: the status alone is enough and
      unknown keys are allowed; a missing or unknown status, an optional
      string field holding anything but a string, or a `sanitized` that is
      not a boolean is rejected. */
  lemma SchemaValidCases(obj: JsObject, key: string, v: JsValue)
    ensures SchemaValid(map["status" := JsString("sent")])
    ensures SchemaValid(map["status" := JsString("error"), "sanitized" := JsBool(true)])
    ensures "status" !in obj ==> !SchemaValid(obj)
    ensures !SchemaValid(obj["status" := JsString("ok")])
    ensures key in {"title", "message", "response", "activationType", "reply", "error"} && !v.JsString?
            ==> !SchemaValid(obj[key := v])
    ensures !v.JsBool? ==> !SchemaValid(obj["sanitized" := v])
    ensures key !in {"status", "title", "message", "response", "activationType", "reply", "error", "sanitized"}
            ==> (SchemaValid(obj[key := v]) <==> SchemaValid(obj))
  {
  }

  /** `ObjectOf` holds a key exactly for each defined field among `fields`,
      under the field's own name and with the field's own value. */
  lemma {:induction false} ObjectOfFields(p: SendNotificationOutput, fields: seq<ToolResultConfig.Field>)
    ensures forall f: ToolResultConfig.Field ::
      (ToolResultConfig.FieldName(f) in ObjectOf(p, fields) <==> f in fields && FieldValue(p, f).Some?)
    ensures forall f: ToolResultConfig.Field :: ToolResultConfig.FieldName(f) in ObjectOf(p, fields) ==>
      ObjectOf(p, fields)[ToolResultConfig.FieldName(f)] == ToJs(FieldValue(p, f).value)
    ensures forall k :: k in ObjectOf(p, fields) ==>
      exists f: ToolResultConfig.Field :: f in fields && k == ToolResultConfig.FieldName(f)
    decreases |fields|
  {
    if fields != [] {
      var last := fields[|fields| - 1];
      var init := fields[..|fields| - 1];
      var obj := ObjectOf(p, fields);
      var rest := ObjectOf(p, init);
      ObjectOfFields(p, init);
      assert fields == init + [last];
      forall f: ToolResultConfig.Field
        ensures ToolResultConfig.FieldName(f) in obj <==> f in fields && FieldValue(p, f).Some?
        ensures ToolResultConfig.FieldName(f) in obj ==> obj[ToolResultConfig.FieldName(f)] == ToJs(FieldValue(p, f).value)
      {
        ToolResultConfig.FieldNameInjective(f, last);
        assert f in fields <==> f in init || f == last;
      }
      forall k | k in obj
        ensures exists f: ToolResultConfig.Field :: f in fields && k == ToolResultConfig.FieldName(f)
      {
        if k !in rest {
          assert last in fields && k == ToolResultConfig.FieldName(last);
        }
      }
    }
  }

  /** The object holds a key exactly for each defined field of the payload,
      under the field's own name and with the field's own value, and no key
      that is not a field name. */
  lemma ToJsObjectFields(p: SendNotificationOutput)
    ensures forall f: ToolResultConfig.Field ::
      (ToolResultConfig.FieldName(f) in ToJsObject(p) <==> FieldValue(p, f).Some?)
    ensures forall f: ToolResultConfig.Field :: FieldValue(p, f).Some? ==>
      ToJsObject(p)[ToolResultConfig.FieldName(f)] == ToJs(FieldValue(p, f).value)
    ensures forall k :: k in ToJsObject(p) ==> exists f: ToolResultConfig.Field :: k == ToolResultConfig.FieldName(f)
  {
    ToolResultConfig.LegacyTextFieldsArePermutation();
    ObjectOfFields(p, ToolResultConfig.LegacyTextFields);
  }

  /** Every payload conforms to the schema, whatever its fields hold. */
  lemma PayloadConforms(p: SendNotificationOutput)
    ensures SchemaValid(ToJsObject(p))
  {
    ToJsObjectFields(p);
    assert ToolResultConfig.FieldName(ToolResultConfig.Status) == "status";
    assert ToolResultConfig.FieldName(ToolResultConfig.Sanitized) == "sanitized";
  }

  /** Both builders produce schema-valid objects, the sanitised flag present
      exactly when it was set. */
  lemma BuildersConform(title: string, message: string, result: NotifyTypes.NotifyResult,
                        error: Thrown, context: ErrorPayloadContext, sanitized: bool)
    ensures var obj := ToJsObject(BuildSuccessPayload(title, message, result, sanitized));
      SchemaValid(obj) && obj["status"] == JsString("sent") && ("sanitized" in obj <==> sanitized)
    ensures var obj := ToJsObject(BuildErrorPayload(error, context));
      SchemaValid(obj) && obj["status"] == JsString("error") && "error" in obj
      && ("sanitized" in obj <==> context.sanitized)
  {
    PayloadConforms(BuildSuccessPayload(title, message, result, sanitized));
    PayloadConforms(BuildErrorPayload(error, context));
    ToJsObjectFields(BuildSuccessPayload(title, message, result, sanitized));
    ToJsObjectFields(BuildErrorPayload(error, context));
    assert ToolResultConfig.FieldName(ToolResultConfig.Status) == "status";
    assert ToolResultConfig.FieldName(ToolResultConfig.Sanitized) == "sanitized";
    assert ToolResultConfig.FieldName(ToolResultConfig.Error) == "error";
  }

  /** The two renderings agree: the legacy text reads back as entries that
      are exactly the keys and values of the structured object. */
  lemma LegacyTextMatchesObject(p: SendNotificationOutput)
    ensures var es := LegacyText.Entries(p, ToolResultConfig.LegacyTextFields);
      && LegacyText.ParseLegacyText(LegacyText.FormatLegacyText(p)) == Some(es)
      && (forall e :: e in es ==> e.key in ToJsObject(p) && ToJsObject(p)[e.key] == ToJs(e.value))
      && (forall k :: k in ToJsObject(p) ==> exists e :: e in es && e.key == k)
  {
    LegacyText.LegacyTextRoundTrip(p);
    EntriesInObject(p);
    ObjectKeysInEntries(p);
  }

  lemma EntriesInObject(p: SendNotificationOutput)
    ensures forall e :: e in LegacyText.Entries(p, ToolResultConfig.LegacyTextFields) ==>
      e.key in ToJsObject(p) && ToJsObject(p)[e.key] == ToJs(e.value)
  {
    var es := LegacyText.Entries(p, ToolResultConfig.LegacyTextFields);
    LegacyText.EntriesAreDefinedFields(p, ToolResultConfig.LegacyTextFields);
    ToJsObjectFields(p);
    forall e | e in es ensures e.key in ToJsObject(p) && ToJsObject(p)[e.key] == ToJs(e.value) {
      var f: ToolResultConfig.Field :| f in ToolResultConfig.LegacyTextFields && FieldValue(p, f).Some?
        && e == LegacyText.Entry(ToolResultConfig.FieldName(f), FieldValue(p, f).value);
    }
  }

  lemma ObjectKeysInEntries(p: SendNotificationOutput)
    ensures forall k :: k in ToJsObject(p) ==>
      exists e :: e in LegacyText.Entries(p, ToolResultConfig.LegacyTextFields) && e.key == k
  {
    var es := LegacyText.Entries(p, ToolResultConfig.LegacyTextFields);
    ToJsObjectFields(p);
    forall k | k in ToJsObject(p) ensures exists e :: e in es && e.key == k {
      var f: ToolResultConfig.Field :| k == ToolResultConfig.FieldName(f);
      ToolResultConfig.LegacyTextFieldsArePermutation();
      LegacyText.DefinedFieldHasEntry(p, ToolResultConfig.LegacyTextFields, f);
      assert LegacyText.Entry(k, FieldValue(p, f).value) in es;
    }
  }
}
