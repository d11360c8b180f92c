/**
 * What the model derives for concrete inputs: the `AppErrors` enum of the
 * openapi example (examples/openapi/src/app.rs), and small declarations whose
 * behaviour follows from the attribute checks at types.rs:101-159.
 */
module Scenarios {
  import opened Wrappers
  import opened Syntax
  import opened Types
  import opened CaseLowering
  import opened Decimal
  import opened OpenApi
  import opened Expand
  import opened UtoipaImpls

  function JsonErrorAttr(tokens: Expr): Attribute
  {
    Attribute(["json_error"], tokens)
  }

  function Assignment(key: string, value: Expr): Expr
  {
    Assign(Path([key]), value)
  }

  const NotFoundPath := ["StatusCode", "NOT_FOUND"]
  const Internal := JsonErrorAttr(Paren(Path(["internal"])))

  // ---------------------------------------------------------------------
  // The openapi example's `AppErrors`
  // ---------------------------------------------------------------------

  const NotFound := Variant("NotFound", [JsonErrorAttr(Tuple([
    Path(["request"]),
    Assignment("status", Path(NotFoundPath)),
    Assignment("code", StrLit("404 not-found")),
    Assignment("description", StrLit("The page does not exist"))]))], true)

  const NotFound2 := Variant("NotFound2", [JsonErrorAttr(Tuple([
    Path(["request"]),
    Assignment("status", Path(NotFoundPath)),
    Assignment("code", StrLit("4042 not-found"))]))], true)

  const InternalErrorVariant := Variant("InternalError", [Internal], true)
  const AnotherInternalError := Variant("AnotherInternalError", [Internal], false)

  const AppErrors := DeriveInput(
    "AppErrors",
    [JsonErrorAttr(Paren(Assignment("internal_code", StrLit("500 internal"))))],
    Enum(AppErrorsVariants))

  const NotFoundError := RequestError(true, "NotFound", StatusPath(NotFoundPath), "404 not-found",
                                     None, Some("The page does not exist"))
  const NotFound2Error := RequestError(true, "NotFound2", StatusPath(NotFoundPath), "4042 not-found", None, None)

  /** `NotFound`: accepted with its status path, code and description, and silently. */
  lemma NotFoundParses()
    ensures Classify(NotFound) == Some(NotFoundError)
    ensures VariantReports(NotFound) == []
  {
    var elems := NotFound.attrs[0].tokens.elems[1..];
    var e0, e1, e2 := elems[0], elems[1], elems[2];
    assert e0 == Assignment("status", Path(NotFoundPath));
    assert e1 == Assignment("code", StrLit("404 not-found"));
    assert e2 == Assignment("description", StrLit("The page does not exist"));
    assert elems[1..] == [e1, e2] && elems[1..][1..] == [e2] && elems[1..][1..][1..] == [];
    forall k | 0 <= k < |elems|
      ensures ElementReport(elems[k]) == []
    {
      assert k == 0 || k == 1 || k == 2;
    }
    assert LastStatus(elems[1..][1..]) == None;
    assert LastStatus(elems[1..]) == None;
    assert LastStr(elems[1..][1..], "description") == Some("The page does not exist");
    assert StrSetBy(e2, "code") == None;
    assert LastStr(elems[1..][1..], "code") == None;
    assert LastStr(elems[1..], "code") == Some("404 not-found");
    assert LastStr(elems[1..][1..], "hint") == None;
    assert LastStr(elems[1..], "hint") == None;
    assert FirstJsonErrorAt(NotFound.attrs, 0);
    CleanRequestAccepted(NotFound, [], 0, elems);
  }

  /** `NotFound2`: accepted with its status path and code, and silently. */
  lemma NotFound2Parses()
    ensures Classify(NotFound2) == Some(NotFound2Error)
    ensures VariantReports(NotFound2) == []
  {
    var elems := NotFound2.attrs[0].tokens.elems[1..];
    var e0, e1 := elems[0], elems[1];
    assert e0 == Assignment("status", Path(NotFoundPath));
    assert e1 == Assignment("code", StrLit("4042 not-found"));
    assert elems[1..] == [e1] && elems[1..][1..] == [];
    forall k | 0 <= k < |elems|
      ensures ElementReport(elems[k]) == []
    {
      assert k == 0 || k == 1;
    }
    assert LastStatus(elems[1..]) == None;
    assert LastStr(elems[1..], "code") == Some("4042 not-found");
    assert LastStr(elems[1..], "hint") == None;
    assert LastStr(elems[1..], "description") == None;
    assert FirstJsonErrorAt(NotFound2.attrs, 0);
    CleanRequestAccepted(NotFound2, [], 0, elems);
  }

  /** `#[json_error(internal)]` makes an internal case, naive or not, silently. */
  lemma InternalParses(v: Variant)
    requires v.attrs == [Internal]
    ensures Classify(v) == Some(InternalError(v.fieldsEmpty, v.ident))
    ensures VariantReports(v) == []
  {
    assert FirstJsonErrorAt(v.attrs, 0);
    FirstAttributeDecides(v, [], 0);
  }

  const AppErrorsVariants := [NotFound, NotFound2, InternalErrorVariant, AnotherInternalError]

  /** Every variant of the example is accepted silently. */
  lemma AppErrorsSilent()
    ensures forall i :: 0 <= i < |AppErrorsVariants| ==> VariantReports(AppErrorsVariants[i]) == []
    ensures AllReports(AppErrorsVariants) == []
  {
    NotFoundParses();
    NotFound2Parses();
    InternalParses(InternalErrorVariant);
    InternalParses(AnotherInternalError);
    forall i | 0 <= i < |AppErrorsVariants|
      ensures VariantReports(AppErrorsVariants[i]) == []
    {
      assert i == 0 || i == 1 || i == 2 || i == 3;
    }
    AllReportsEmpty(AppErrorsVariants);
  }

  /** The example's IR: all four variants, in declaration order, under the declared internal code. */
  lemma AppErrorsIR()
    ensures Accepted(AppErrorsVariants) == AppErrorsCases
    ensures ConfigFromAttrs(AppErrors.attrs).internalErrorCode == "500 internal"
  {
    var expected := AppErrorsCases;
    forall i | 0 <= i < |AppErrorsVariants|
      ensures Classify(AppErrorsVariants[i]) == Some(expected[i])
    {
      if i == 0 {
        NotFoundParses();
      } else if i == 1 {
        NotFound2Parses();
      } else {
        InternalParses(AppErrorsVariants[i]);
      }
    }
    AcceptedWhenAllClassified(AppErrorsVariants, expected);
    assert FirstJsonErrorAt(AppErrors.attrs, 0);
  }

  /** The example's IR as a value. */
  const AppErrorsCases := [NotFoundError, NotFound2Error, InternalError(true, "InternalError"),
                           InternalError(false, "AnotherInternalError")]

  /** Its documentation: the two request cases in order, then the one shared internal item. */
  lemma AppErrorsDocs(asU16: seq<string> -> nat)
    ensures var docs := UtoipaArtifacts(JsonErrors("AppErrors", "500 internal", AppErrorsCases), asU16);
            && |docs| == 3
            && docs[0].structName == "NotFound"
            && docs[1].structName == "NotFound2"
            && docs[2] == ExpandUtoipaInternalError("500 internal")
  {
    var errors := AppErrorsCases;
    assert HasInternal(errors) by { assert errors[2].InternalError?; }
    assert errors[1..][1..] == errors[2..];
    NoRequestCases(errors[2..]);
    assert RequestCases(errors) == [NotFoundError, NotFound2Error];
  }

  /**
   * The example derives: four arms in declaration order, and documentation
   * for the two request cases followed by one shared item for both internal
   * cases, carrying the declared internal code.
   */
  lemma AppErrorsDerive(asU16: seq<string> -> nat)
    ensures var r := ExpandDerive(AppErrors, Features(true, true), asU16);
            && r.Success?
            && |r.value.arms| == 4
            && r.value.docs == Some(DocsModule("AppErrorsOai",
                                               UtoipaArtifacts(JsonErrors("AppErrors", "500 internal", AppErrorsCases), asU16)))
  {
    hide ExpandDerive, FromVariant, UtoipaArtifacts;
    assert AllReports(AppErrors.data.variants) == [] by { AppErrorsSilent(); }
    assert DeriveIR(AppErrors) == JsonErrors("AppErrors", "500 internal", AppErrorsCases) by { AppErrorsIR(); }
    SilentDeriveLowersIR(AppErrors, Features(true, true), asU16);
    assert AppErrors.ident + "Oai" == "AppErrorsOai";
  }

  /** Documenting the two 404 cases together: the response is keyed "404" and covers both structs. */
  lemma AppErrorsCombineNotFound(asU16: seq<string> -> nat)
    requires asU16(NotFoundPath) == 404
    ensures var r := CombineErrorsResponses(DocumentedOf(ExpandUtoipaResponse(NotFoundError, asU16).value),
                                            DocumentedOf(ExpandUtoipaResponse(NotFound2Error, asU16).value), true);
            && r.Success?
            && r.value[0].0 == "404"
            && r.value[0].1.content[CombinedMediaType] == Inline(OneOf([Ref("NotFound"), Ref("NotFound2")]))
  {
    hide ExpandUtoipaResponse, NatToString;
    CombineDerivedRequests(NotFoundError, NotFound2Error, asU16, true);
    RenderThreeDigits(404);
  }

  // ---------------------------------------------------------------------
  // Single declarations
  // ---------------------------------------------------------------------

  /** `#[json_error(request, status = <s>)]` with a well-typed status and no code. */
  function StatusOnly(status: Expr): Variant
  {
    Variant("A", [JsonErrorAttr(Tuple([Path(["request"]), Assignment("status", status)]))], true)
  }

  /** A status without a code: rejected, with exactly the one generic message. */
  lemma StatusWithoutCode(status: Expr)
    requires status.IntLit? || status.Path?
    ensures Classify(StatusOnly(status)).None?
    ensures VariantReports(StatusOnly(status)) == [BothRequiredMsg]
  {
    var v := StatusOnly(status);
    var elems := [Assignment("status", status)];
    assert v.attrs[0].tokens.elems[1..] == elems;
    assert FirstJsonErrorAt(v.attrs, 0);
    FirstAttributeDecides(v, [], 0);
    assert elems[1..] == [];
    assert ReportsOf(elems) == [];
    assert !MalformedAssignment(elems[0]) && !WrongStatusOrCode(elems[0]);
    assert !HasMalformedAssignment(elems) && !HasWrongStatusOrCode(elems);
    RequestAttrAcceptance(v.attrs[0], true, "A", [], elems);
  }

  /**
   * A string status, even with a code: rejected, with exactly the message
   * about the status's kind and not the generic one.
   */
  lemma StringStatus(s: string, code: string)
    ensures var v := Variant("A", [JsonErrorAttr(Tuple([Path(["request"]), Assignment("status", StrLit(s)),
                                                        Assignment("code", StrLit(code))]))], true);
            && Classify(v).None?
            && VariantReports(v) == [StatusKindMsg]
  {
    var v := Variant("A", [JsonErrorAttr(Tuple([Path(["request"]), Assignment("status", StrLit(s)),
                                                Assignment("code", StrLit(code))]))], true);
    var elems := [Assignment("status", StrLit(s)), Assignment("code", StrLit(code))];
    assert v.attrs[0].tokens.elems[1..] == elems;
    assert FirstJsonErrorAt(v.attrs, 0);
    FirstAttributeDecides(v, [], 0);
    assert elems[1..] == [elems[1]] && elems[1..][1..] == [];
    assert ElementReport(elems[0]) == [StatusKindMsg] && ElementReport(elems[1]) == [];
    assert ReportsOf(elems[1..]) == [];
    assert ReportsOf(elems) == [StatusKindMsg];
    assert !MalformedAssignment(elems[0]) && !MalformedAssignment(elems[1]);
    assert !HasMalformedAssignment(elems);
    assert WrongStatusOrCode(elems[0]);
    assert LastStatus(elems[1..]) == None;
    RequestAttrAcceptance(v.attrs[0], true, "A", [], elems);
  }

  /** A request case with a literal status and a code. */
  function Literal(name: string, status: nat, code: string): JsonError
  {
    RequestError(true, name, StatusLit(status), code, None, None)
  }

  /** Two 404 cases combine under the key "404"; a 404 and a 409 do not, in a debug build. */
  lemma CombineLiteralStatuses(asU16: seq<string> -> nat)
    ensures var a := DocumentedOf(ExpandUtoipaResponse(Literal("A", 404, "a"), asU16).value);
            var b := DocumentedOf(ExpandUtoipaResponse(Literal("B", 404, "b"), asU16).value);
            var c := DocumentedOf(ExpandUtoipaResponse(Literal("C", 409, "c"), asU16).value);
            && CombineErrorsResponses(a, b, true).Success?
            && CombineErrorsResponses(a, b, true).value[0].0 == "404"
            && CombineErrorsResponses(a, c, true) == Failure(StatusMismatch)
  {
    hide ExpandUtoipaResponse;
    CombineDerivedRequests(Literal("A", 404, "a"), Literal("B", 404, "b"), asU16, true);
    CombineDerivedRequests(Literal("A", 404, "a"), Literal("C", 409, "c"), asU16, true);
    RenderThreeDigits(404);
  }

  /** Three internal cases and no unit attribute: one documentation item, with the default code. */
  lemma ThreeInternalCases(asU16: seq<string> -> nat)
    ensures var input := DeriveInput("E", [], Enum([Variant("A", [Internal], true), Variant("B", [Internal], true),
                                                   Variant("C", [Internal], false)]));
            var r := ExpandDerive(input, Features(true, false), asU16);
            && r.Success?
            && r.value.docs.Some?
            && r.value.docs.value.artifacts == [ExpandUtoipaInternalError(DefaultInternalCode)]
  {
    var variants := [Variant("A", [Internal], true), Variant("B", [Internal], true), Variant("C", [Internal], false)];
    forall i | 0 <= i < |variants|
      ensures Classify(variants[i]).Some? && Classify(variants[i]).value.InternalError?
      ensures VariantReports(variants[i]) == []
    {
      InternalParses(variants[i]);
    }
    AllReportsEmpty(variants);
    SilentVariantsAllAccepted(variants);
    var errors := Accepted(variants);
    InternalOnlyDocs(JsonErrors("E", DefaultInternalCode, errors), asU16);
  }
}
