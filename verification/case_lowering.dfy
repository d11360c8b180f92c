/**
 * Lowering one accepted case (json-resp-derive/src/errors/types.rs:164-478):
 * the match arm of the generated `into_response`, and the documentation
 * types the `openapi` feature generates for it. Generated code is given as
 * abstract records instead of tokens.
 */
module CaseLowering {
  import opened Wrappers
  import opened Syntax
  import opened Types
  import opened OpenApi
  import opened Decimal

  // ---------------------------------------------------------------------
  // Response arms (types.rs:166-261)
  // ---------------------------------------------------------------------

  /** `T::V` when `bindsInner` is false, `T::V(err)` when it is true. */
  datatype Pattern = Pattern(typeName: string, variant: string, bindsInner: bool)

  /** The `content` field: `()` or the bound `err`. */
  datatype Content = UnitContent | InnerContent

  /** The `::json_resp::JsonError { .. }` literal an arm evaluates to. */
  datatype JsonErrorExpr = JsonErrorExpr(status: StatusExpr, code: string, hint: Option<string>, content: Content)

  /** A `log_error!` call: `"{}::{}"`, or `"{}::{} {}"` with the bound `err`. */
  datatype LogLine = LogLine(typeName: string, variant: string, withInner: bool)

  datatype Arm = Arm(pattern: Pattern, log: Option<LogLine>, response: JsonErrorExpr)

  /** `StatusCode::INTERNAL_SERVER_ERROR`. */
  const InternalServerError := StatusPath(["StatusCode", "INTERNAL_SERVER_ERROR"])

  /**
   * `expand_match_condition`. A literal status is emitted as
   * `StatusCode::from_u16(n).unwrap()` and a path as itself; both are kept
   * here as the declared `StatusExpr`.
   */
  function ExpandMatchCondition(e: JsonError, typeIdent: string, internalErrorCode: string, log: bool): (arm: Arm)
    ensures arm.pattern == Pattern(typeIdent, e.variant, !e.naive)
    ensures arm.log.Some? <==> e.InternalError? && log
    ensures e.InternalError? ==> arm.response.content == UnitContent && arm.response.code == internalErrorCode
  {
    match e
    case RequestError(naive, variant, status, code, hint, _) =>
      Arm(Pattern(typeIdent, variant, !naive), None,
          JsonErrorExpr(status, code, hint, if naive then UnitContent else InnerContent))
    case InternalError(naive, variant) =>
      Arm(Pattern(typeIdent, variant, !naive),
          if log then Some(LogLine(typeIdent, variant, !naive)) else None,
          // the arm leaves `hint` to `JsonError::default()`, taken to be `None`
          JsonErrorExpr(InternalServerError, internalErrorCode, None, UnitContent))
  }

  /** A value of the error enum at run time: its variant and, for a tuple variant, its field. */
  datatype ErrorValue<P> = ErrorValue(variant: string, inner: Option<P>)

  /** The JSON error object sent to the client; `content` is `None` for `()`. */
  datatype WireError<P> = WireError(status: StatusExpr, code: string, hint: Option<string>, content: Option<P>)

  function RenderLog<P>(l: LogLine, inner: Option<P>, display: P -> string): string
  {
    var head := l.typeName + "::" + l.variant;
    if l.withInner && inner.Some? then head + " " + display(inner.value) else head
  }

  /** Running an arm on the matched value's field: the response, and the log text when the arm logs. */
  function RunArm<P>(arm: Arm, inner: Option<P>, display: P -> string): (WireError<P>, Option<string>)
  {
    var r := arm.response;
    (WireError(r.status, r.code, r.hint, if r.content == InnerContent then inner else None),
     match arm.log
     case None => None
     case Some(l) => Some(RenderLog(l, inner, display)))
  }

  /**
   * What the generated `into_response` does for a value of case `e`. A
   * request case answers with exactly its declared status, code and hint, and
   * with its field as content unless it is naive. An internal case answers
   * the same whatever field it carries: status 500, the unit's internal code,
   * no hint and unit content; its field shows up only in the log text.
   */
  function Respond<P>(e: JsonError, typeIdent: string, internalErrorCode: string, log: bool,
                      inner: Option<P>, display: P -> string): (r: (WireError<P>, Option<string>))
    ensures e.RequestError? ==>
              && r.0 == WireError(e.status, e.code, e.hint, if e.naive then None else inner)
              && r.1 == None
    ensures e.InternalError? ==> r.0 == WireError(InternalServerError, internalErrorCode, None, None)
    ensures e.InternalError? && log && e.naive ==> r.1 == Some(typeIdent + "::" + e.variant)
    ensures e.InternalError? && log && !e.naive && inner.Some? ==>
              r.1 == Some(typeIdent + "::" + e.variant + " " + display(inner.value))
    ensures e.InternalError? && !log ==> r.1 == None
  {
    RunArm(ExpandMatchCondition(e, typeIdent, internalErrorCode, log), inner, display)
  }

  /** Nothing about an internal case's field reaches the client. */
  lemma InternalNeverLeaks<P>(e: JsonError, typeIdent: string, code: string, log: bool,
                              x: Option<P>, y: Option<P>, display: P -> string)
    requires e.InternalError?
    ensures Respond(e, typeIdent, code, log, x, display).0 == Respond(e, typeIdent, code, log, y, display).0
  {
  }

  // ---------------------------------------------------------------------
  // Documentation types (types.rs:263-478)
  // ---------------------------------------------------------------------

  /**
   * The items generated for one documented case: `pub struct #name;` with
   * its `ToSchema`, `ToResponse` and `IntoResponses` impls.
   */
  datatype DocArtifact = DocArtifact(structName: string, schema: NamedSchema, response: NamedResponse, responses: Responses)

  /** `expand_numeric`: a literal as written; a path through `StatusCode::as_u16`, given here as `asU16`. */
  function StatusNumeric(s: StatusExpr, asU16: seq<string> -> nat): nat
  {
    match s
    case StatusLit(n) => n
    case StatusPath(p) => asU16(p)
  }

  /**
   * The number a status extracted from `e` documents: an integer literal is
   * its own number, and a path is whatever `StatusCode::as_u16` maps it to.
   */
  lemma StatusNumericOfExpr(e: Expr, asU16: seq<string> -> nat)
    ensures e.IntLit? ==> ExtractStatus(e).Some? && StatusNumeric(ExtractStatus(e).value, asU16) == e.n
    ensures e.Path? ==> ExtractStatus(e).Some? && StatusNumeric(ExtractStatus(e).value, asU16) == asU16(e.segments)
  {
  }

  /** A property schema admitting the single value `v`, with `v` as its example. */
  function PinnedValue(t: SchemaType, v: Json): Schema
  {
    EmptyObject.(schemaType := t, enumValues := Some([v]), example := Some(v))
  }

  /**
   * `s` has a required property `name`, declared with schema type `t`, whose
   * only admitted value is `v`, also shown as its example.
   */
  predicate Pins(s: Schema, name: string, t: SchemaType, v: Json)
  {
    && s.Object?
    && name in s.properties
    && name in s.required
    && s.properties[name].Inline?
    && s.properties[name].schema.Object?
    && s.properties[name].schema.schemaType == t
    && s.properties[name].schema.enumValues == Some([v])
    && s.properties[name].schema.example == Some(v)
  }

  /** The media type generated responses are documented under. */
  const JsonMediaType := "application/json"

  /** The base of a request schema: `status`, then `code`, each pinned and required. */
  function PinnedBase(status: nat, code: string): (o: Schema)
    ensures o.Object? && o.required == ["status", "code"]
    ensures Pins(o, "status", IntegerType, JInt(status)) && Pins(o, "code", StringType, JStr(code))
    ensures o.properties.Keys == {"status", "code"}
  {
    var o1 := WithRequired(WithProperty(EmptyObject, "status", Inline(PinnedValue(IntegerType, JInt(status)))), "status");
    WithRequired(WithProperty(o1, "code", Inline(PinnedValue(StringType, JStr(code)))), "code")
  }

  /** `hint_expand`: a pinned, required `hint` property (under the integer schema type), when there is a hint. */
  function HintExpand(o: Schema, hint: Option<string>): (r: Schema)
    requires o.Object?
    ensures r.Object?
  {
    if hint.Some? then WithRequired(WithProperty(o, "hint", Inline(PinnedValue(IntegerType, JStr(hint.value)))), "hint")
    else o
  }

  /** `content_expand`: a required `content` object property, unless the variant is naive. */
  function ContentExpand(o: Schema, naive: bool): (r: Schema)
    requires o.Object?
    ensures r.Object?
  {
    if naive then o else WithRequired(WithProperty(o, "content", Inline(EmptyObject)), "content")
  }

  /** `expand_utoipa_schema_method`: `status`, `code`, then `hint` if given, then `content` unless naive. */
  function ExpandUtoipaSchemaMethod(e: JsonError, name: string, asU16: seq<string> -> nat): Option<NamedSchema>
  {
    match e
    case RequestError(naive, _, status, code, hint, _) =>
      Some((name, Inline(ContentExpand(HintExpand(PinnedBase(StatusNumeric(status, asU16), code), hint), naive))))
    case InternalError(_, _) => None
  }

  /** Adding a property other than `name`, and requiring it, keeps `name` pinned to `v`. */
  lemma PinsKept(o: Schema, name: string, t: SchemaType, v: Json, other: string, p: RefOr)
    requires o.Object? && Pins(o, name, t, v) && other != name
    ensures Pins(WithRequired(WithProperty(o, other, p), other), name, t, v)
  {
  }

  /**
   * The description at types.rs:337-340: `ok_or_else` turns a missing
   * description into `Err(hint)`, and `unwrap_or_else` replaces any `Err`
   * by the code, so the hint is never used.
   */
  function ResponseDescription(description: Option<string>, hint: Option<string>, code: string): (d: string)
    ensures description.Some? ==> d == description.value
    ensures description.None? ==> d == code
  {
    var described: Result<string, Option<string>> :=
      match description
      case Some(text) => Success(text)
      case None => Failure(hint);
    match described
    case Success(text) => text
    case Failure(_) => code
  }

  /** The hint has no influence on the description. */
  lemma DescriptionIgnoresHint(description: Option<string>, h1: Option<string>, h2: Option<string>, code: string)
    ensures ResponseDescription(description, h1, code) == ResponseDescription(description, h2, code)
  {
  }

  /** `expand_utoipa_response_method`; the content refers to the struct's own schema name. */
  function ExpandUtoipaResponseMethod(e: JsonError, name: string): Option<NamedResponse>
  {
    match e
    case RequestError(_, _, _, code, hint, description) =>
      Some((name, Response(ResponseDescription(description, hint, code), map[JsonMediaType := Ref(name)])))
    case InternalError(_, _) => None
  }

  /** `expand_utoipa_intoresponse_method`: one entry, keyed by the decimal status. */
  function ExpandUtoipaIntoResponseMethod(e: JsonError, response: Response, asU16: seq<string> -> nat): Option<Responses>
  {
    match e
    case RequestError(_, _, status, _, _, _) => Some([(NatToString(StatusNumeric(status, asU16)), response)])
    case InternalError(_, _) => None
  }

  /**
   * `expand_utoipa_response`: documentation exists exactly for request
   * cases, as a schema, a response and a response index named after the
   * variant (their shape is `RequestDocShape` below).
   */
  function ExpandUtoipaResponse(e: JsonError, asU16: seq<string> -> nat): (r: Option<DocArtifact>)
    ensures r.Some? <==> e.RequestError?
    ensures r.Some? ==> r.value.structName == e.variant
  {
    var name := e.variant;
    match ExpandUtoipaSchemaMethod(e, name, asU16)
    case None => None
    case Some(schema) =>
      match ExpandUtoipaResponseMethod(e, name)
      case None => None
      case Some(response) =>
        match ExpandUtoipaIntoResponseMethod(e, response.1, asU16)
        case None => None
        case Some(responses) => Some(DocArtifact(name, schema, response, responses))
  }

  /**
   * The schema of a request case pins the numeric status (under the integer
   * schema type) and the code (under the string schema type), both required
   * and listed first, in that order.
   */
  lemma RequestSchemaPins(e: JsonError, name: string, asU16: seq<string> -> nat)
    requires e.RequestError?
    ensures ExpandUtoipaSchemaMethod(e, name, asU16).Some?
    ensures var schema := ExpandUtoipaSchemaMethod(e, name, asU16).value;
              && schema.0 == name
              && schema.1.Inline?
              && var s := schema.1.schema;
                 && Pins(s, "status", IntegerType, JInt(StatusNumeric(e.status, asU16)))
                 && Pins(s, "code", StringType, JStr(e.code))
                 && s.required[..2] == ["status", "code"]
  {
    var status := JInt(StatusNumeric(e.status, asU16));
    var o2 := PinnedBase(StatusNumeric(e.status, asU16), e.code);
    var o3 := HintExpand(o2, e.hint);
    if e.hint.Some? {
      PinsKept(o2, "status", IntegerType, status, "hint", Inline(PinnedValue(IntegerType, JStr(e.hint.value))));
      PinsKept(o2, "code", StringType, JStr(e.code), "hint", Inline(PinnedValue(IntegerType, JStr(e.hint.value))));
    }
    assert o3.required[..2] == ["status", "code"];
    if !e.naive {
      PinsKept(o3, "status", IntegerType, status, "content", Inline(EmptyObject));
      PinsKept(o3, "code", StringType, JStr(e.code), "content", Inline(EmptyObject));
    }
    var o4 := ContentExpand(o3, e.naive);
    assert o4.required[..2] == o3.required[..2];
  }

  /**
   * The schema of a request case pins the hint only when there is one, and
   * has a required content property exactly when the case carries a field.
   * The hint keeps the integer schema type it is declared with, although it
   * pins a string.
   */
  lemma RequestSchemaOptionals(e: JsonError, name: string, asU16: seq<string> -> nat)
    requires e.RequestError?
    ensures ExpandUtoipaSchemaMethod(e, name, asU16).Some?
    ensures var schema := ExpandUtoipaSchemaMethod(e, name, asU16).value;
              && schema.1.Inline?
              && var s := schema.1.schema;
                 && s.Object?
                 && (e.hint.Some? ==> Pins(s, "hint", IntegerType, JStr(e.hint.value)))
                 && (e.hint.None? ==> "hint" !in s.properties && "hint" !in s.required)
                 && ("content" in s.required <==> !e.naive)
                 && ("content" in s.properties <==> !e.naive)
  {
    var o2 := PinnedBase(StatusNumeric(e.status, asU16), e.code);
    var o3 := HintExpand(o2, e.hint);
    assert "content" !in o3.properties && "content" !in o3.required;
    if e.hint.Some? && !e.naive {
      PinsKept(o3, "hint", IntegerType, JStr(e.hint.value), "content", Inline(EmptyObject));
    }
  }

  /**
   * The artifact of a request case: named after the variant, with the schema
   * of `RequestSchemaPins` and `RequestSchemaOptionals`; the response index has the one numeric status,
   * and the response refers to the schema by name, described by the
   * description or else the code.
   */
  lemma RequestDocShape(e: JsonError, asU16: seq<string> -> nat)
    requires e.RequestError?
    ensures ExpandUtoipaResponse(e, asU16).Some?
    ensures var a := ExpandUtoipaResponse(e, asU16).value;
              && a.structName == e.variant && a.schema.0 == e.variant && a.response.0 == e.variant
              && a.schema.1.Inline?
              && var s := a.schema.1.schema;
                 && Pins(s, "status", IntegerType, JInt(StatusNumeric(e.status, asU16)))
                 && Pins(s, "code", StringType, JStr(e.code))
                 && s.required[..2] == ["status", "code"]
                 && (e.hint.Some? ==> Pins(s, "hint", IntegerType, JStr(e.hint.value)))
                 && (e.hint.None? ==> "hint" !in s.properties && "hint" !in s.required)
                 && ("content" in s.required <==> !e.naive)
                 && ("content" in s.properties <==> !e.naive)
    ensures var a := ExpandUtoipaResponse(e, asU16).value;
              && a.responses == [(NatToString(StatusNumeric(e.status, asU16)), a.response.1)]
              && a.response.1.content == map[JsonMediaType := Ref(e.variant)]
              && a.response.1.description == e.description.GetOr(e.code)
  {
    hide ExpandUtoipaSchemaMethod;
    RequestSchemaPins(e, e.variant, asU16);
    RequestSchemaOptionals(e, e.variant, asU16);
  }

  const InternalErrorName := "InternalError"

  /**
   * `expand_utoipa_internal_error`: the one artifact shared by every internal
   * case, with status `"500"` (a string, under an integer schema type) and
   * the unit's internal code.
   */
  function ExpandUtoipaInternalError(internalErrorCode: string): (a: DocArtifact)
    ensures a.structName == InternalErrorName && a.schema.0 == InternalErrorName && a.response.0 == InternalErrorName
    ensures a.schema.1.Inline? && Pins(a.schema.1.schema, "status", IntegerType, JStr("500"))
    ensures a.schema.1.Inline? && Pins(a.schema.1.schema, "code", StringType, JStr(internalErrorCode))
    ensures a.schema.1.Inline? && a.schema.1.schema.required == ["status", "code"]
    ensures a.responses == [(NatToString(500), a.response.1)]
  {
    var o1 := WithRequired(WithProperty(EmptyObject, "status", Inline(PinnedValue(IntegerType, JStr("500")))), "status");
    var o2 := WithRequired(WithProperty(o1, "code", Inline(PinnedValue(StringType, JStr(internalErrorCode)))), "code");
    var response := Response(InternalErrorName, map[JsonMediaType := Ref(InternalErrorName)]);
    RenderFiveHundred();
    DocArtifact(InternalErrorName, (InternalErrorName, Inline(o2)), (InternalErrorName, response), [("500", response)])
  }
}
