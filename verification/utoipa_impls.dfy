/**
 * The runtime documentation helpers of json-resp (json-resp/src/utoipa_impls.rs):
 * `CombineErrors`, which documents two error types sharing one status, and
 * the schema shape of `JsonResponse<T, M>` and `Nothing`.
 */
module UtoipaImpls {
  import opened Wrappers
  import opened OpenApi
  import opened Decimal
  import opened Types
  import opened CaseLowering

  // ---------------------------------------------------------------------
  // CombineErrors (utoipa_impls.rs:13-54)
  // ---------------------------------------------------------------------

  /** What an error type exposes to `CombineErrors`: its schema name and its response index. */
  datatype Documented = Documented(schemaName: string, responses: Responses)

  /**
   * The two ways `CombineErrors::responses` stops: a component with no
   * response at all (`panic!("Not supported")`), and, in debug builds only,
   * components with different statuses (`debug_assert_eq!`).
   */
  datatype CombineFailure = NotSupported | StatusMismatch

  /** The media type key the combined response is registered under. */
  const CombinedMediaType := "json"

  /** A oneOf of references to the two components, the first one first. */
  function CombinedSchema(first: Documented, second: Documented): RefOr
  {
    Inline(OneOf([Ref(first.schemaName), Ref(second.schemaName)]))
  }

  /**
   * `CombineErrors::responses`. The first status of each component is read
   * in turn (the first component's emptiness is found first); in a debug
   * build the two must agree; the result is one response, keyed by the first
   * component's least status, with an empty description and the oneOf schema.
   */
  function CombineErrorsResponses(first: Documented, second: Documented, debug: bool)
    : (r: Result<Responses, CombineFailure>)
    ensures r == Failure(NotSupported) <==> |first.responses| == 0 || |second.responses| == 0
    ensures r == Failure(StatusMismatch) <==>
              && |first.responses| > 0 && |second.responses| > 0
              && debug && first.responses[0].0 != second.responses[0].0
    ensures r.Success? ==>
              && |first.responses| > 0
              && |r.value| == 1
              && r.value[0].0 == first.responses[0].0
              && r.value[0].1.description == ""
              && r.value[0].1.content == map[CombinedMediaType := CombinedSchema(first, second)]
  {
    if |first.responses| == 0 then Failure(NotSupported)
    else
      var status1 := first.responses[0].0;
      if |second.responses| == 0 then Failure(NotSupported)
      else
        var status2 := second.responses[0].0;
        if debug && status1 != status2 then Failure(StatusMismatch)
        else
          var response := Response("", map[CombinedMediaType := CombinedSchema(first, second)]);
          Success([(status1, response)])
  }

  /**
   * The combined key is the least status the first component documents: a
   * component with several statuses contributes only its least one.
   */
  lemma CombinedKeyIsLeast(first: Documented, second: Documented, debug: bool)
    requires CombineErrorsResponses(first, second, debug).Success?
    ensures var key := CombineErrorsResponses(first, second, debug).value[0].0;
            && (exists i :: 0 <= i < |first.responses| && first.responses[i].0 == key)
            && forall i :: 0 < i < |first.responses| ==> StrLess(key, first.responses[i].0)
  {
    assert first.responses[0].0 == CombineErrorsResponses(first, second, debug).value[0].0;
  }

  /**
   * A release build never reads the second component's status: any two
   * non-empty second components with the same schema name give the same result.
   */
  lemma ReleaseIgnoresSecondStatus(first: Documented, second: Documented, other: Documented)
    requires |second.responses| > 0 && |other.responses| > 0
    requires second.schemaName == other.schemaName
    ensures CombineErrorsResponses(first, second, false) == CombineErrorsResponses(first, other, false)
  {
  }

  /** When the statuses agree, the debug check changes nothing. */
  lemma DebugAgreesOnEqualStatus(first: Documented, second: Documented)
    requires |first.responses| > 0 && |second.responses| > 0
    requires first.responses[0].0 == second.responses[0].0
    ensures CombineErrorsResponses(first, second, true) == CombineErrorsResponses(first, second, false)
    ensures CombineErrorsResponses(first, second, true).Success?
  {
  }

  /** What a derived request case offers to `CombineErrors`: its struct's schema name and response index. */
  function DocumentedOf(a: DocArtifact): Documented
  {
    Documented(a.schema.0, a.responses)
  }

  /**
   * Combining the documentation of two derived request cases: it succeeds in
   * a debug build exactly when the two statuses denote the same number, and
   * then (as always in a release build) the key is the first case's number and
   * the schema refers to the two variants' structs in order.
   */
  lemma CombineDerivedRequests(e1: JsonError, e2: JsonError, asU16: seq<string> -> nat, debug: bool)
    requires e1.RequestError? && e2.RequestError?
    ensures var d1 := DocumentedOf(ExpandUtoipaResponse(e1, asU16).value);
            var d2 := DocumentedOf(ExpandUtoipaResponse(e2, asU16).value);
            var r := CombineErrorsResponses(d1, d2, debug);
            && (r.Success? <==> !debug || StatusNumeric(e1.status, asU16) == StatusNumeric(e2.status, asU16))
            && (r.Failure? ==> r.error == StatusMismatch)
            && (r.Success? ==>
                  && r.value[0].0 == NatToString(StatusNumeric(e1.status, asU16))
                  && r.value[0].1.content[CombinedMediaType] == Inline(OneOf([Ref(e1.variant), Ref(e2.variant)])))
  {
    RequestDocShape(e1, asU16);
    RequestDocShape(e2, asU16);
    NatToStringInjective(StatusNumeric(e1.status, asU16), StatusNumeric(e2.status, asU16));
  }

  // ---------------------------------------------------------------------
  // JsonResponse<T, M> and Nothing (utoipa_impls.rs:56-103)
  // ---------------------------------------------------------------------

  const JsonResponseName := "JsonResponse"

  /** The optional slot used when a parameter has no schema of its own: a nullable object defaulting to null. */
  const NullObject := EmptyObject.(nullable := true, defaultValue := Some(JNull), example := Some(JNull))

  /** The `status` property: a 32-bit integer shown as 200. */
  const StatusProperty := EmptyObject.(schemaType := IntegerType, format := Some(Int32), example := Some(JInt(200)))

  /** `Nothing`'s schema: the empty name, which `JsonResponse` reads as "no schema". */
  function NothingSchema(): (s: NamedSchema)
    ensures s.0 == ""
  {
    ("", Inline(EmptyObject))
  }

  /** Adds the slot `field` for a parameter whose schema is named `name`. */
  function WithSlot(o: Schema, field: string, name: string): (r: Schema)
    requires o.Object?
    ensures r.Object?
  {
    if name == "" then WithProperty(o, field, Inline(NullObject))
    else WithRequired(WithProperty(o, field, Ref(name)), field)
  }

  /**
   * How slot `field` of `s` reflects a parameter named `name`: a required
   * reference to that name when it is non-empty, otherwise an optional null.
   */
  predicate SlotFor(s: Schema, field: string, name: string)
    requires s.Object?
  {
    && field in s.properties
    && (name != "" ==> s.properties[field] == Ref(name) && field in s.required)
    && (name == "" ==> s.properties[field] == Inline(NullObject) && field !in s.required)
  }

  /**
   * `ToSchema for JsonResponse<T, M>`: named "JsonResponse", an object with
   * exactly the properties status, content and meta; status is a required
   * integer, listed first; content and meta follow `SlotFor` for T and M.
   */
  function JsonResponseSchema(t: NamedSchema, m: NamedSchema): (r: NamedSchema)
    ensures r.0 == JsonResponseName
    ensures r.1.Inline? && r.1.schema.Object?
    ensures var s := r.1.schema;
            && s.properties.Keys == {"status", "content", "meta"}
            && s.properties["status"] == Inline(StatusProperty)
            && |s.required| >= 1 && s.required[0] == "status"
            && SlotFor(s, "content", t.0)
            && SlotFor(s, "meta", m.0)
  {
    var obj := WithRequired(WithProperty(EmptyObject, "status", Inline(StatusProperty)), "status");
    var obj := WithSlot(obj, "content", t.0);
    var obj := WithSlot(obj, "meta", m.0);
    (JsonResponseName, Inline(obj))
  }

  /** Only the parameters' names are read, never their schemas. */
  lemma JsonResponseReadsNamesOnly(t: NamedSchema, t': NamedSchema, m: NamedSchema, m': NamedSchema)
    requires t.0 == t'.0 && m.0 == m'.0
    ensures JsonResponseSchema(t, m) == JsonResponseSchema(t', m')
  {
  }

  /** The required list names status, then content and meta in that order, each only when its parameter has a name. */
  lemma JsonResponseRequired(t: NamedSchema, m: NamedSchema)
    ensures JsonResponseSchema(t, m).1.schema.required ==
              ["status"] + (if t.0 != "" then ["content"] else []) + (if m.0 != "" then ["meta"] else [])
  {
  }

  /** `JsonResponse<T, Nothing>`: the meta slot is always the optional null, whatever T is. */
  lemma NothingMetaIsOptionalNull(t: NamedSchema)
    ensures var s := JsonResponseSchema(t, NothingSchema()).1.schema;
            && s.properties["meta"] == Inline(NullObject)
            && "meta" !in s.required
  {
  }
}
