/**
 * The derive entry point (json-resp-derive/src/errors/expand.rs): the unit
 * configuration, the IR of accepted cases, and the two lowerings of that IR,
 * the `into_response` match table and the documentation module.
 */
module Expand {
  import opened Wrappers
  import opened Syntax
  import opened Diagnostics
  import opened Types
  import opened CaseLowering
  import opened Decimal
  import opened OpenApi
  import opened Sequences

  const ExpectedEnumMsg := "Expected `enum`"
  const DefaultInternalCode := "internal-error"

  // ---------------------------------------------------------------------
  // Unit configuration (expand.rs:73-118)
  // ---------------------------------------------------------------------

  datatype Config = Config(internalErrorCode: string)

  /** `#[json_error(internal_code = "<s>")]`, the one shape that sets the internal code. */
  predicate DeclaresInternalCode(a: Attribute, s: string)
  {
    a.tokens == Paren(Assign(Path(["internal_code"]), StrLit(s)))
  }

  /** `extract_internal_code`, applied to what parsed as an assignment. */
  function ExtractInternalCode(assign: Expr): Option<string>
  {
    match assign
    case Assign(left, right) =>
      if ExtractIdentStr(left) == Some("internal_code") && right.StrLit? then Some(right.s) else None
    case _ => None
  }

  /**
   * `Config::from_attrs`: the internal code comes from the first
   * `json_error` attribute of the enum, and only when it has the one shape
   * above; anything else quietly falls back to `"internal-error"`.
   */
  function ConfigFromAttrs(attrs: seq<Attribute>): (c: Config)
    ensures forall i, s :: FirstJsonErrorAt(attrs, i) && DeclaresInternalCode(attrs[i], s) ==> c.internalErrorCode == s
    ensures c.internalErrorCode != DefaultInternalCode ==>
              exists i :: FirstJsonErrorAt(attrs, i) && DeclaresInternalCode(attrs[i], c.internalErrorCode)
  {
    var code :=
      match FirstJsonErrorAttr(attrs)
      case None => None
      case Some(i) =>
        (match attrs[i].tokens
         case Paren(inner) => if inner.Assign? then ExtractInternalCode(inner) else None
         case _ => None);
    if code.Some? then
      assert exists i :: FirstJsonErrorAt(attrs, i) && DeclaresInternalCode(attrs[i], code.value) by {
        var i := FirstJsonErrorAttr(attrs).value;
        var left := attrs[i].tokens.inner.left;
        assert left.segments == [left.segments[0]];
      }
      Config(code.value)
    else
      Config(DefaultInternalCode)
  }

  /** A malformed first `json_error` attribute is not rescued by a well-formed later one. */
  lemma MalformedConfigNotRescued(attrs: seq<Attribute>, i: nat, k: nat, s: string)
    requires FirstJsonErrorAt(attrs, i) && forall t :: !DeclaresInternalCode(attrs[i], t)
    requires i < k < |attrs| && IsJsonErrorAttr(attrs[k]) && DeclaresInternalCode(attrs[k], s)
    ensures ConfigFromAttrs(attrs).internalErrorCode == DefaultInternalCode
  {
  }

  // ---------------------------------------------------------------------
  // The IR (expand.rs:120-154)
  // ---------------------------------------------------------------------

  datatype JsonErrors = JsonErrors(ident: string, internalErrCode: string, errors: seq<JsonError>)

  /** What each variant parses to, in declaration order. */
  function Classified(variants: seq<Variant>): (r: seq<Option<JsonError>>)
    ensures |r| == |variants|
    ensures forall i :: 0 <= i < |variants| ==> r[i] == Classify(variants[i])
    decreases |variants|
  {
    if |variants| == 0 then [] else [Classify(variants[0])] + Classified(variants[1..])
  }

  /** The cases `variants` are accepted as, in declaration order. */
  function Accepted(variants: seq<Variant>): seq<JsonError>
  {
    Present(Classified(variants))
  }

  /** What each variant records, in declaration order. */
  function Reported(variants: seq<Variant>): (r: seq<seq<string>>)
    ensures |r| == |variants|
    ensures forall i :: 0 <= i < |variants| ==> r[i] == VariantReports(variants[i])
    decreases |variants|
  {
    if |variants| == 0 then [] else [VariantReports(variants[0])] + Reported(variants[1..])
  }

  /** Every message the variants record, in declaration order. */
  function AllReports(variants: seq<Variant>): seq<string>
  {
    Concat(Reported(variants))
  }

  lemma AcceptedCons(variants: seq<Variant>)
    requires |variants| > 0
    ensures Accepted(variants) ==
              (match Classify(variants[0]) case Some(e) => [e] case None => []) + Accepted(variants[1..])
  {
    assert Classified(variants)[1..] == Classified(variants[1..]);
  }

  lemma AllReportsCons(variants: seq<Variant>)
    requires |variants| > 0
    ensures AllReports(variants) == VariantReports(variants[0]) + AllReports(variants[1..])
  {
    assert Reported(variants)[1..] == Reported(variants[1..]);
  }

  lemma ReportsCons(variants: seq<Variant>, ctxt: Ctxt)
    requires |variants| > 0
    ensures FromVariant(variants[0], ctxt).ctxt + AllReports(variants[1..]) == ctxt + AllReports(variants)
  {
    hide FromVariant;
    var a := VariantReports(variants[0]);
    var b := AllReports(variants[1..]);
    assert FromVariant(variants[0], ctxt).ctxt == ctxt + a by { FromVariantContextFree(variants[0], ctxt); }
    assert AllReports(variants) == a + b by { AllReportsCons(variants); }
    assert (ctxt + a) + b == ctxt + (a + b);
  }

  /** The loop at expand.rs:134-139, threading the collector through each variant. */
  function CollectCases(variants: seq<Variant>, ctxt: Ctxt): (r: (seq<JsonError>, Ctxt))
    ensures r.0 == Accepted(variants)
    ensures r.1 == ctxt + AllReports(variants)
    decreases |variants|
  {
    if |variants| == 0 then ([], ctxt)
    else
      var p := FromVariant(variants[0], ctxt);
      FromVariantContextFree(variants[0], ctxt);
      var rest := CollectCases(variants[1..], p.ctxt);
      AcceptedCons(variants);
      ReportsCons(variants, ctxt);
      ((match p.result case Some(e) => [e] case None => []) + rest.0, rest.1)
  }

  /**
   * `JsonErrors::from_variants`. The source wraps the result in an `Option`
   * that is always `Some`; the model returns the IR directly.
   */
  function FromVariants(ident: string, config: Config, variants: seq<Variant>, ctxt: Ctxt): (r: (JsonErrors, Ctxt))
    ensures r.0.ident == ident && r.0.internalErrCode == config.internalErrorCode
    ensures r.0.errors == Accepted(variants)
    ensures r.1 == ctxt + AllReports(variants)
  {
    var (errors, c) := CollectCases(variants, ctxt);
    (JsonErrors(ident, config.internalErrorCode, errors), c)
  }

  /** The IR keeps accepted cases in declaration order: no reordering. */
  lemma AcceptedKeepsOrder(variants: seq<Variant>, i: nat, j: nat)
    requires i < j < |variants|
    ensures Classify(variants[i]).Some? && Classify(variants[j]).Some? ==>
              && |Accepted(variants[..i])| < |Accepted(variants[..j])| < |Accepted(variants)|
              && Accepted(variants)[|Accepted(variants[..i])|] == Classify(variants[i]).value
              && Accepted(variants)[|Accepted(variants[..j])|] == Classify(variants[j]).value
  {
    var xs := Classified(variants);
    if xs[i].Some? && xs[j].Some? {
      ClassifiedPrefix(variants, i);
      ClassifiedPrefix(variants, j);
      PresentKeepsOrder(xs, i, j);
    }
  }

  /** Classifying a prefix of the variants gives the prefix of their classification. */
  lemma ClassifiedPrefix(variants: seq<Variant>, n: nat)
    requires n <= |variants|
    ensures Classified(variants[..n]) == Classified(variants)[..n]
  {
    hide Classify;
    var a := Classified(variants[..n]);
    var b := Classified(variants)[..n];
    forall k | 0 <= k < n
      ensures a[k] == b[k]
    {
      assert variants[..n][k] == variants[k];
      assert a[k] == Classify(variants[..n][k]);
      assert b[k] == Classified(variants)[k];
    }
    assert |a| == |b|;
  }

  /** Every case in the IR was accepted from some declared variant: nothing is invented. */
  lemma AcceptedFromVariants(variants: seq<Variant>, k: nat)
    requires k < |Accepted(variants)|
    ensures exists i :: 0 <= i < |variants| && Classify(variants[i]) == Some(Accepted(variants)[k])
  {
    PresentFrom(Classified(variants), k);
  }

  /** When no variant records a message, every variant is accepted, in declaration order. */
  lemma SilentVariantsAllAccepted(variants: seq<Variant>)
    requires AllReports(variants) == []
    ensures |Accepted(variants)| == |variants|
    ensures forall i :: 0 <= i < |variants| ==> Classify(variants[i]) == Some(Accepted(variants)[i])
  {
    ConcatEmpty(Reported(variants));
    forall i | 0 <= i < |variants|
      ensures Classified(variants)[i].Some?
    {
      assert VariantReports(variants[i]) == [];
      var p := FromVariant(variants[i], []);
      assert p.result.Some?;
    }
    PresentAllPresent(Classified(variants));
  }

  /** When every variant is accepted, the IR is exactly the accepted cases, in declaration order. */
  lemma AcceptedWhenAllClassified(variants: seq<Variant>, expected: seq<JsonError>)
    requires |expected| == |variants|
    requires forall i :: 0 <= i < |variants| ==> Classify(variants[i]) == Some(expected[i])
    ensures Accepted(variants) == expected
  {
    PresentAllPresent(Classified(variants));
  }

  /** The run records nothing exactly when no variant records anything. */
  lemma AllReportsEmpty(variants: seq<Variant>)
    ensures AllReports(variants) == [] <==> forall i :: 0 <= i < |variants| ==> VariantReports(variants[i]) == []
  {
    ConcatEmpty(Reported(variants));
  }

  // ---------------------------------------------------------------------
  // The response table (expand.rs:156-163)
  // ---------------------------------------------------------------------

  function Arms(errors: seq<JsonError>, ident: string, code: string, log: bool): (arms: seq<Arm>)
    ensures |arms| == |errors|
    ensures forall i :: 0 <= i < |errors| ==> arms[i] == ExpandMatchCondition(errors[i], ident, code, log)
    decreases |errors|
  {
    if |errors| == 0 then []
    else [ExpandMatchCondition(errors[0], ident, code, log)] + Arms(errors[1..], ident, code, log)
  }

  /**
   * `ToTokens for JsonErrors`: one arm per IR case, in IR order. Every
   * arm matches its own case, request arms carry the declared status, code
   * and hint, and every internal arm answers with the same unit internal code.
   */
  function ResponseTable(ir: JsonErrors, log: bool): (arms: seq<Arm>)
    ensures |arms| == |ir.errors|
    ensures forall i :: 0 <= i < |arms| ==>
              arms[i].pattern == Pattern(ir.ident, ir.errors[i].variant, !ir.errors[i].naive)
    ensures forall i :: 0 <= i < |arms| && ir.errors[i].RequestError? ==>
              var e := ir.errors[i];
              arms[i].response.status == e.status && arms[i].response.code == e.code && arms[i].response.hint == e.hint
    ensures forall i :: 0 <= i < |arms| && ir.errors[i].InternalError? ==>
              arms[i].response == JsonErrorExpr(InternalServerError, ir.internalErrCode, None, UnitContent)
  {
    Arms(ir.errors, ir.ident, ir.internalErrCode, log)
  }

  // ---------------------------------------------------------------------
  // The documentation module (expand.rs:165-188)
  // ---------------------------------------------------------------------

  /** The request cases of `errors`, in order. */
  function RequestCases(errors: seq<JsonError>): (r: seq<JsonError>)
    ensures forall k :: 0 <= k < |r| ==> r[k].RequestError?
    decreases |errors|
  {
    if |errors| == 0 then []
    else (if errors[0].RequestError? then [errors[0]] else []) + RequestCases(errors[1..])
  }

  predicate HasInternal(errors: seq<JsonError>)
  {
    exists i :: 0 <= i < |errors| && errors[i].InternalError?
  }

  /** The items of the request cases of `errors`, in order: the reference the documentation loop is measured against. */
  function RequestDocs(errors: seq<JsonError>, asU16: seq<string> -> nat): seq<DocArtifact>
    decreases |errors|
  {
    if |errors| == 0 then []
    else
      (match ExpandUtoipaResponse(errors[0], asU16) case Some(a) => [a] case None => [])
      + RequestDocs(errors[1..], asU16)
  }

  /** The request items correspond one to one, in order, to the request cases. */
  lemma {:induction false} RequestDocsItems(errors: seq<JsonError>, asU16: seq<string> -> nat)
    ensures |RequestDocs(errors, asU16)| == |RequestCases(errors)|
    ensures forall k :: 0 <= k < |RequestCases(errors)| ==>
              Some(RequestDocs(errors, asU16)[k]) == ExpandUtoipaResponse(RequestCases(errors)[k], asU16)
    decreases |errors|
  {
    hide ExpandUtoipaResponse;
    if |errors| > 0 {
      RequestDocsItems(errors[1..], asU16);
      var d := RequestDocs(errors[1..], asU16);
      var c := RequestCases(errors[1..]);
      if errors[0].RequestError? {
        var a := ExpandUtoipaResponse(errors[0], asU16).value;
        assert RequestCases(errors) == [errors[0]] + c;
        assert RequestDocs(errors, asU16) == [a] + d;
        forall k | 1 <= k < |c| + 1
          ensures Some(([a] + d)[k]) == ExpandUtoipaResponse(([errors[0]] + c)[k], asU16)
        {
          assert ([a] + d)[k] == d[k - 1];
          assert ([errors[0]] + c)[k] == c[k - 1];
        }
      } else {
        assert RequestCases(errors) == c;
        assert RequestDocs(errors, asU16) == d;
      }
    }
  }

  /** The loop at expand.rs:174-180: append each request case's items, remember whether an internal case was seen. */
  function DocsLoop(errors: seq<JsonError>, asU16: seq<string> -> nat, tokens: seq<DocArtifact>, hasInternal: bool)
    : (r: (seq<DocArtifact>, bool))
    ensures r.0 == tokens + RequestDocs(errors, asU16)
    ensures r.1 == (hasInternal || HasInternal(errors))
    decreases |errors|
  {
    if |errors| == 0 then (tokens, hasInternal)
    else
      assert HasInternal(errors) <==> errors[0].InternalError? || HasInternal(errors[1..]) by {
        if HasInternal(errors) {
          var i :| 0 <= i < |errors| && errors[i].InternalError?;
          if i > 0 { assert errors[1..][i - 1].InternalError?; }
        }
      }
      match ExpandUtoipaResponse(errors[0], asU16)
      case Some(gen) =>
        var rest := RequestDocs(errors[1..], asU16);
        assert RequestDocs(errors, asU16) == [gen] + rest;
        assert tokens + [gen] + rest == tokens + ([gen] + rest);
        DocsLoop(errors[1..], asU16, tokens + [gen], hasInternal)
      case None =>
        assert RequestDocs(errors, asU16) == RequestDocs(errors[1..], asU16);
        DocsLoop(errors[1..], asU16, tokens, true)
  }

  /**
   * `ToTokens for JsonErrorUtoipaTypes`: the items of every request case in
   * IR order, then one shared `InternalError` item exactly when the IR has
   * an internal case, however many it has.
   */
  function UtoipaArtifacts(ir: JsonErrors, asU16: seq<string> -> nat): (docs: seq<DocArtifact>)
    ensures |docs| == |RequestCases(ir.errors)| + (if HasInternal(ir.errors) then 1 else 0)
    ensures forall k :: 0 <= k < |RequestCases(ir.errors)| ==>
              Some(docs[k]) == ExpandUtoipaResponse(RequestCases(ir.errors)[k], asU16)
    ensures HasInternal(ir.errors) ==> docs[|docs| - 1] == ExpandUtoipaInternalError(ir.internalErrCode)
  {
    var loop := DocsLoop(ir.errors, asU16, [], false);
    assert loop.0 == RequestDocs(ir.errors, asU16);
    RequestDocsItems(ir.errors, asU16);
    if loop.1 then
      var docs := loop.0 + [ExpandUtoipaInternalError(ir.internalErrCode)];
      assert forall k :: 0 <= k < |loop.0| ==> docs[k] == loop.0[k];
      docs
    else loop.0
  }

  lemma {:induction false} RequestCasesAppend(a: seq<JsonError>, b: seq<JsonError>)
    ensures RequestCases(a + b) == RequestCases(a) + RequestCases(b)
    decreases |a|
  {
    if |a| > 0 {
      assert (a + b)[1..] == a[1..] + b;
      RequestCasesAppend(a[1..], b);
    } else {
      assert a + b == b;
    }
  }

  lemma {:induction false} NoRequestCases(errors: seq<JsonError>)
    requires forall i :: 0 <= i < |errors| ==> errors[i].InternalError?
    ensures RequestCases(errors) == []
    decreases |errors|
  {
    if |errors| > 0 {
      NoRequestCases(errors[1..]);
    }
  }

  /**
   * However many internal cases a unit has, and no request case, its
   * documentation is the one shared `InternalError` item.
   */
  lemma InternalOnlyDocs(ir: JsonErrors, asU16: seq<string> -> nat)
    requires |ir.errors| > 0 && forall i :: 0 <= i < |ir.errors| ==> ir.errors[i].InternalError?
    ensures UtoipaArtifacts(ir, asU16) == [ExpandUtoipaInternalError(ir.internalErrCode)]
  {
    NoRequestCases(ir.errors);
    assert ir.errors[0].InternalError?;
  }

  /**
   * The two lowerings agree on every request case: its documentation item
   * names the arm's variant, is indexed by the arm's status as a number,
   * and pins the arm's code.
   */
  lemma LoweringsAgree(ir: JsonErrors, log: bool, asU16: seq<string> -> nat, i: nat)
    requires i < |ir.errors| && ir.errors[i].RequestError?
    ensures var arm := ResponseTable(ir, log)[i];
            var docs := UtoipaArtifacts(ir, asU16);
            exists k :: 0 <= k < |docs|
              && docs[k].structName == arm.pattern.variant
              && |docs[k].responses| > 0
              && docs[k].responses[0].0 == NatToString(StatusNumeric(arm.response.status, asU16))
              && docs[k].schema.1.Inline?
              && Pins(docs[k].schema.1.schema, "code", StringType, JStr(arm.response.code))
  {
    var errors := ir.errors;
    assert errors == errors[..i] + ([errors[i]] + errors[i + 1..]);
    RequestCasesAppend(errors[..i], [errors[i]] + errors[i + 1..]);
    assert ([errors[i]] + errors[i + 1..])[1..] == errors[i + 1..];
    var k := |RequestCases(errors[..i])|;
    assert RequestCases(errors)[k] == errors[i];
    var docs := UtoipaArtifacts(ir, asU16);
    assert Some(docs[k]) == ExpandUtoipaResponse(errors[i], asU16);
    RequestDocShape(errors[i], asU16);
    var arm := ResponseTable(ir, log)[i];
    assert arm.pattern.variant == errors[i].variant;
    assert arm.response.status == errors[i].status && arm.response.code == errors[i].code;
  }

  /**
   * The same for internal cases, given that the status path used in their
   * arms denotes 500: the shared item is indexed by that number and pins
   * the arms' code.
   */
  lemma InternalLoweringsAgree(ir: JsonErrors, log: bool, asU16: seq<string> -> nat, i: nat)
    requires i < |ir.errors| && ir.errors[i].InternalError?
    requires asU16(InternalServerError.path) == 500
    ensures var arm := ResponseTable(ir, log)[i];
            var docs := UtoipaArtifacts(ir, asU16);
            && |docs| > 0
            && docs[|docs| - 1].structName == InternalErrorName
            && |docs[|docs| - 1].responses| > 0
            && docs[|docs| - 1].responses[0].0 == NatToString(StatusNumeric(arm.response.status, asU16))
            && docs[|docs| - 1].schema.1.Inline?
            && Pins(docs[|docs| - 1].schema.1.schema, "code", StringType, JStr(arm.response.code))
  {
  }

  // ---------------------------------------------------------------------
  // expand_derive (expand.rs:10-71)
  // ---------------------------------------------------------------------

  /** The `openapi` and `log` cargo features. */
  datatype Features = Features(openapi: bool, log: bool)

  /** `pub(crate) mod #{name}Oai { .. }`. */
  datatype DocsModule = DocsModule(name: string, artifacts: seq<DocArtifact>)

  /** The generated `IntoResponse` impl and, with `openapi`, the documentation module. */
  datatype Generated = Generated(typeName: string, arms: seq<Arm>, docs: Option<DocsModule>)

  /** `expand_derive_enum`; its `None` branch cannot be taken and is not modelled. */
  function ExpandDeriveEnum(ident: string, config: Config, variants: seq<Variant>, features: Features,
                            asU16: seq<string> -> nat, ctxt: Ctxt): (r: (Generated, Ctxt))
    ensures r.1 == ctxt + AllReports(variants)
    ensures r.0.arms == ResponseTable(JsonErrors(ident, config.internalErrorCode, Accepted(variants)), features.log)
    ensures r.0.docs.Some? <==> features.openapi
    ensures r.0.docs.Some? ==>
              r.0.docs.value == DocsModule(ident + "Oai", UtoipaArtifacts(JsonErrors(ident, config.internalErrorCode, Accepted(variants)), asU16))
  {
    var (ir, c) := FromVariants(ident, config, variants, ctxt);
    var arms := ResponseTable(ir, features.log);
    var docs := if features.openapi then Some(DocsModule(ident + "Oai", UtoipaArtifacts(ir, asU16))) else None;
    (Generated(ident, arms, docs), c)
  }

  /**
   * `expand_derive`: a non-enum input fails with "Expected `enum`"; an enum
   * yields its generated code only when no variant recorded anything, and
   * otherwise every recorded message and no code.
   */
  function ExpandDerive(input: DeriveInput, features: Features, asU16: seq<string> -> nat)
    : (r: Result<Generated, seq<string>>)
    ensures input.data.NotEnum? ==> r == Failure([ExpectedEnumMsg])
    ensures input.data.Enum? ==>
              (r.Success? <==> forall i :: 0 <= i < |input.data.variants| ==> VariantReports(input.data.variants[i]) == [])
    ensures input.data.Enum? && r.Failure? ==> r.error == AllReports(input.data.variants) && |r.error| > 0
  {
    hide ExpandDeriveEnum, FromVariant, UtoipaArtifacts;
    var config := ConfigFromAttrs(input.attrs);
    match input.data
    case NotEnum =>
      var ctxt := Error([], ExpectedEnumMsg);
      assert ctxt == [ExpectedEnumMsg];
      Failure(ctxt)
    case Enum(variants) =>
      var (generated, ctxt) := ExpandDeriveEnum(input.ident, config, variants, features, asU16, []);
      AllReportsEmpty(variants);
      match Check(ctxt)
      case Failure(errors) => Failure(errors)
      case Success(_) => Success(generated)
  }

  /** The IR the derive builds for an enum. */
  function DeriveIR(input: DeriveInput): JsonErrors
    requires input.data.Enum?
  {
    JsonErrors(input.ident, ConfigFromAttrs(input.attrs).internalErrorCode, Accepted(input.data.variants))
  }

  /**
   * An enum whose variants record nothing derives exactly the two lowerings
   * of its IR: the response table, and the documentation module when
   * `openapi` is on.
   */
  lemma SilentDeriveLowersIR(input: DeriveInput, features: Features, asU16: seq<string> -> nat)
    requires input.data.Enum? && AllReports(input.data.variants) == []
    ensures ExpandDerive(input, features, asU16) ==
              Success(Generated(input.ident, ResponseTable(DeriveIR(input), features.log),
                                if features.openapi then Some(DocsModule(input.ident + "Oai", UtoipaArtifacts(DeriveIR(input), asU16)))
                                else None))
  {
    AllReportsEmpty(input.data.variants);
    var (generated, ctxt) := ExpandDeriveEnum(input.ident, ConfigFromAttrs(input.attrs), input.data.variants, features, asU16, []);
    assert ctxt == [];
  }


  /**
   * A successful derive has one arm per declared variant, in declaration
   * order, and a documentation module exactly when `openapi` is on.
   */
  lemma DerivedArmsFollowVariants(input: DeriveInput, features: Features, asU16: seq<string> -> nat)
    ensures var r := ExpandDerive(input, features, asU16);
            r.Success? ==>
              && input.data.Enum?
              && |r.value.arms| == |input.data.variants|
              && (forall i :: 0 <= i < |r.value.arms| ==> r.value.arms[i].pattern.variant == input.data.variants[i].ident)
              && (r.value.docs.Some? <==> features.openapi)
  {
    hide ExpandDerive, ExpandDeriveEnum, FromVariant, UtoipaArtifacts;
    if ExpandDerive(input, features, asU16).Success? {
      var variants := input.data.variants;
      AllReportsEmpty(variants);
      SilentDeriveLowersIR(input, features, asU16);
      SilentVariantsAllAccepted(variants);
      forall i | 0 <= i < |variants|
        ensures Accepted(variants)[i].variant == variants[i].ident
      {
        assert Classify(variants[i]) == Some(Accepted(variants)[i]);
      }
    }
  }
}
