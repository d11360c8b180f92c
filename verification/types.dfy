/**
 * Parsing one enum variant's `#[json_error(...)]` attribute into a
 * `JsonError` case (json-resp-derive/src/errors/types.rs). Every function
 * threads the diagnostic collector: it receives the messages recorded so far
 * and returns them with its own appended.
 */
module Types {
  import opened Wrappers
  import opened Syntax
  import opened Diagnostics

  const MissingAttributeMsg := "All enum variants should have a api_erorr attribute"
  const ModeRequiredMsg := "The first attribute is required and should be either `request` or `internal`"
  const AssignmentFormMsg := "Assignments should be in form of `var = value`."
  const StatusKindMsg := "status should be either a number or a path(StatusCode::NOT_FOUND)"
  const CodeKindMsg := "code should be a str"
  const HintKindMsg := "hint should be a str"
  const DescriptionKindMsg := "description should be a str"
  const UnknownAttributeMsg := "Unknown attribute defined"
  const OnlyAssignmentsMsg := "Only assignments are allowed to be used in error attributes."
  const BothRequiredMsg := "Both `status` and `code` should be defined."

  datatype ErrorType = Request | Internal

  /** A declared status: an integer literal or a path such as `StatusCode::NOT_FOUND`. */
  datatype StatusExpr = StatusLit(n: nat) | StatusPath(path: seq<string>)

  /** One accepted case; `naive` means the variant carries no fields. */
  datatype JsonError =
    | RequestError(
        naive: bool,
        variant: string,
        status: StatusExpr,
        code: string,
        hint: Option<string>,
        description: Option<string>)
    | InternalError(naive: bool, variant: string)

  // ---------------------------------------------------------------------
  // Extractors (types.rs:517-575)
  // ---------------------------------------------------------------------

  function ExtractLitStr(e: Expr): Option<string>
  {
    if e.StrLit? then Some(e.s) else None
  }

  function ExtractStatus(e: Expr): Option<StatusExpr>
  {
    match e
    case IntLit(n) => Some(StatusLit(n))
    case Path(p) => Some(StatusPath(p))
    case _ => None
  }

  function ExtractIdentStr(e: Expr): Option<string>
  {
    if e.Path? then GetIdent(e.segments) else None
  }

  /**
   * Each extractor hands back exactly what the expression spells: a status is
   * an integer literal or a path, a string is a string literal, and an
   * identifier is a path of one segment. No other expression yields anything.
   */
  lemma ExtractorsInvert(e: Expr, n: nat, p: seq<string>, x: string)
    ensures ExtractStatus(e) == Some(StatusLit(n)) <==> e == IntLit(n)
    ensures ExtractStatus(e) == Some(StatusPath(p)) <==> e == Path(p)
    ensures ExtractStatus(e).None? <==> !e.IntLit? && !e.Path?
    ensures ExtractLitStr(e) == Some(x) <==> e == StrLit(x)
    ensures ExtractLitStr(e).None? <==> !e.StrLit?
    ensures ExtractIdentStr(e) == Some(x) <==> e == Path([x])
  {
    if ExtractIdentStr(e) == Some(x) {
      assert e.segments == [e.segments[0]];
    }
  }

  function ExtractType(e: Expr): Option<ErrorType>
  {
    match ExtractIdentStr(e)
    case Some(id) =>
      if id == "request" then Some(Request)
      else if id == "internal" then Some(Internal)
      else None
    case None => None
  }

  /** The keyword that spells a mode. */
  function ModeToken(m: ErrorType): Expr
  {
    match m
    case Request => Path(["request"])
    case Internal => Path(["internal"])
  }

  /**
   * `extract_mode`: the tokens must be a non-empty tuple led by a mode
   * keyword, or a parenthesised mode keyword alone.
   */
  function ExtractMode(tokens: Expr): Option<(ErrorType, seq<Expr>)>
  {
    match tokens
    case Tuple(elems) =>
      if |elems| == 0 then None
      else
        (match ExtractType(elems[0])
         case Some(m) => Some((m, elems[1..]))
         case None => None)
    case Paren(inner) =>
      (match ExtractType(inner)
       case Some(m) => Some((m, []))
       case None => None)
    case _ => None
  }

  /**
   * The attribute shapes `extract_mode` accepts are exactly `(mode, rest...)`
   * and `(mode)`, and it hands back the mode and the rest unchanged.
   */
  lemma ExtractModeShapes(tokens: Expr, m: ErrorType, rest: seq<Expr>)
    ensures ExtractMode(tokens) == Some((m, rest)) <==>
              tokens == Tuple([ModeToken(m)] + rest) || (rest == [] && tokens == Paren(ModeToken(m)))
  {
    if ExtractMode(tokens) == Some((m, rest)) && tokens.Tuple? {
      var elems := tokens.elems;
      assert elems[0].segments == [elems[0].segments[0]];
      assert elems == [elems[0]] + elems[1..];
    } else if ExtractMode(tokens) == Some((m, rest)) && tokens.Paren? {
      assert tokens.inner.segments == [tokens.inner.segments[0]];
    }
  }

  // ---------------------------------------------------------------------
  // The request-mode scan (types.rs:81-145)
  // ---------------------------------------------------------------------

  /** The locals of `from_attr` while it walks the assignments. */
  datatype Captured = Captured(
    status: Option<StatusExpr>,
    code: Option<string>,
    hint: Option<string>,
    description: Option<string>,
    wrongStatusOrCode: bool)

  const NothingCaptured := Captured(None, None, None, None, false)

  /** The walk either finishes, or stops at an assignment whose left side is not an identifier. */
  datatype Scan = Scanned(captured: Captured, ctxt: Ctxt) | Aborted(ctxt: Ctxt)

  /** An assignment whose left-hand side is not a plain identifier. */
  predicate MalformedAssignment(e: Expr)
  {
    e.Assign? && ExtractIdentStr(e.left).None?
  }

  /** The right-hand side of `e` when `e` is `key = rhs` with `key` a plain identifier. */
  function AssignedTo(e: Expr, key: string): Option<Expr>
  {
    if e.Assign? && ExtractIdentStr(e.left) == Some(key) then Some(e.right) else None
  }

  /** The status `e` sets, when it is a well-typed `status = ...`. */
  function StatusSetBy(e: Expr): Option<StatusExpr>
  {
    match AssignedTo(e, "status")
    case Some(rhs) => ExtractStatus(rhs)
    case None => None
  }

  /** The string `e` sets for `key`, when it is `key = "..."`. */
  function StrSetBy(e: Expr, key: string): Option<string>
  {
    match AssignedTo(e, key)
    case Some(rhs) => ExtractLitStr(rhs)
    case None => None
  }

  /** `e` gives `status` or `code` a value of the wrong kind. */
  predicate WrongStatusOrCode(e: Expr)
  {
    || (AssignedTo(e, "status").Some? && StatusSetBy(e).None?)
    || (AssignedTo(e, "code").Some? && StrSetBy(e, "code").None?)
  }

  predicate IsKnownKey(key: string)
  {
    key == "status" || key == "code" || key == "hint" || key == "description"
  }

  /** The message one element of a request attribute reports, if any. */
  function ElementReport(e: Expr): seq<string>
  {
    if !e.Assign? then [OnlyAssignmentsMsg]
    else if MalformedAssignment(e) then [AssignmentFormMsg]
    else if !IsKnownKey(ExtractIdentStr(e.left).value) then [UnknownAttributeMsg]
    else if AssignedTo(e, "status").Some? && StatusSetBy(e).None? then [StatusKindMsg]
    else if AssignedTo(e, "code").Some? && StrSetBy(e, "code").None? then [CodeKindMsg]
    else if AssignedTo(e, "hint").Some? && StrSetBy(e, "hint").None? then [HintKindMsg]
    else if AssignedTo(e, "description").Some? && StrSetBy(e, "description").None? then [DescriptionKindMsg]
    else []
  }

  /** The messages a walk over `elems` reports: one per faulty element, up to the first malformed assignment. */
  function ReportsOf(elems: seq<Expr>): seq<string>
    decreases |elems|
  {
    if |elems| == 0 then []
    else if MalformedAssignment(elems[0]) then [AssignmentFormMsg]
    else ElementReport(elems[0]) + ReportsOf(elems[1..])
  }

  predicate HasMalformedAssignment(elems: seq<Expr>)
  {
    exists i :: 0 <= i < |elems| && MalformedAssignment(elems[i])
  }

  predicate HasWrongStatusOrCode(elems: seq<Expr>)
  {
    exists i :: 0 <= i < |elems| && WrongStatusOrCode(elems[i])
  }

  /** The status set by the last well-typed `status = ...` among `elems`. */
  function LastStatus(elems: seq<Expr>): Option<StatusExpr>
    decreases |elems|
  {
    if |elems| == 0 then None
    else
      var later := LastStatus(elems[1..]);
      if later.Some? then later else StatusSetBy(elems[0])
  }

  /** The string set by the last well-typed `key = "..."` among `elems`. */
  function LastStr(elems: seq<Expr>, key: string): Option<string>
    decreases |elems|
  {
    if |elems| == 0 then None
    else
      var later := LastStr(elems[1..], key);
      if later.Some? then later else StrSetBy(elems[0], key)
  }

  /** `later` when it holds a value, else `earlier`. */
  function Override<T>(later: Option<T>, earlier: Option<T>): Option<T>
  {
    if later.Some? then later else earlier
  }

  /** One turn of the loop at types.rs:88-145. */
  function ScanElement(e: Expr, acc: Captured, ctxt: Ctxt): (r: Scan)
    ensures r.Aborted? <==> MalformedAssignment(e)
    ensures r.ctxt == ctxt + (if MalformedAssignment(e) then [AssignmentFormMsg] else ElementReport(e))
    ensures r.Scanned? ==> r.captured == Captured(
                                           Override(StatusSetBy(e), acc.status),
                                           Override(StrSetBy(e, "code"), acc.code),
                                           Override(StrSetBy(e, "hint"), acc.hint),
                                           Override(StrSetBy(e, "description"), acc.description),
                                           acc.wrongStatusOrCode || WrongStatusOrCode(e))
  {
    match e
    case Assign(left, right) =>
      (match ExtractIdentStr(left)
       case None => Aborted(Error(ctxt, AssignmentFormMsg))
       case Some(key) =>
         if key == "status" then
           (match ExtractStatus(right)
            case Some(s) => Scanned(acc.(status := Some(s)), ctxt)
            case None => Scanned(acc.(wrongStatusOrCode := true), Error(ctxt, StatusKindMsg)))
         else if key == "code" then
           (match ExtractLitStr(right)
            case Some(s) => Scanned(acc.(code := Some(s)), ctxt)
            case None => Scanned(acc.(wrongStatusOrCode := true), Error(ctxt, CodeKindMsg)))
         else if key == "hint" then
           (match ExtractLitStr(right)
            case Some(s) => Scanned(acc.(hint := Some(s)), ctxt)
            case None => Scanned(acc, Error(ctxt, HintKindMsg)))
         else if key == "description" then
           (match ExtractLitStr(right)
            case Some(s) => Scanned(acc.(description := Some(s)), ctxt)
            case None => Scanned(acc, Error(ctxt, DescriptionKindMsg)))
         else Scanned(acc, Error(ctxt, UnknownAttributeMsg)))
    case _ => Scanned(acc, Error(ctxt, OnlyAssignmentsMsg))
  }

  /**
   * The typing rule of the extractors, seen through one assignment: `status`
   * takes only an integer literal or a path, and `code`, `hint` and
   * `description` take only a string literal. A well-typed value is captured
   * silently; any other value records the key's kind message and leaves the
   * earlier value in place, raising the wrong-kind flag for `status` and `code`.
   */
  lemma AssignmentTyping(rhs: Expr, acc: Captured, ctxt: Ctxt)
    ensures var r := ScanElement(Assign(Path(["status"]), rhs), acc, ctxt);
            r.Scanned?
            && (rhs.IntLit? ==> r == Scanned(acc.(status := Some(StatusLit(rhs.n))), ctxt))
            && (rhs.Path? ==> r == Scanned(acc.(status := Some(StatusPath(rhs.segments))), ctxt))
            && (!rhs.IntLit? && !rhs.Path? ==>
                  r == Scanned(acc.(wrongStatusOrCode := true), ctxt + [StatusKindMsg]))
    ensures var r := ScanElement(Assign(Path(["code"]), rhs), acc, ctxt);
            r == if rhs.StrLit? then Scanned(acc.(code := Some(rhs.s)), ctxt)
                 else Scanned(acc.(wrongStatusOrCode := true), ctxt + [CodeKindMsg])
    ensures var r := ScanElement(Assign(Path(["hint"]), rhs), acc, ctxt);
            r == if rhs.StrLit? then Scanned(acc.(hint := Some(rhs.s)), ctxt)
                 else Scanned(acc, ctxt + [HintKindMsg])
    ensures var r := ScanElement(Assign(Path(["description"]), rhs), acc, ctxt);
            r == if rhs.StrLit? then Scanned(acc.(description := Some(rhs.s)), ctxt)
                 else Scanned(acc, ctxt + [DescriptionKindMsg])
  {
  }

  /**
   * The whole loop at types.rs:88-145: a later assignment to a key replaces
   * an earlier one, a value of the wrong kind leaves the earlier one in place,
   * and the walk stops only at an assignment whose left side is not an identifier.
   */
  function ScanAssignments(elems: seq<Expr>, acc: Captured, ctxt: Ctxt): (r: Scan)
    ensures r.Aborted? <==> HasMalformedAssignment(elems)
    ensures r.Aborted? ==> |r.ctxt| > |ctxt|
    ensures r.ctxt == ctxt + ReportsOf(elems)
    ensures r.Scanned? ==> r.captured == Captured(
                                           Override(LastStatus(elems), acc.status),
                                           Override(LastStr(elems, "code"), acc.code),
                                           Override(LastStr(elems, "hint"), acc.hint),
                                           Override(LastStr(elems, "description"), acc.description),
                                           acc.wrongStatusOrCode || HasWrongStatusOrCode(elems))
    decreases |elems|
  {
    if |elems| == 0 then Scanned(acc, ctxt)
    else
      match ScanElement(elems[0], acc, ctxt)
      case Aborted(c) => Aborted(c)
      case Scanned(a, c) =>
        var r := ScanAssignments(elems[1..], a, c);
        assert HasMalformedAssignment(elems) <==> MalformedAssignment(elems[0]) || HasMalformedAssignment(elems[1..]) by {
          if HasMalformedAssignment(elems) {
            var i :| 0 <= i < |elems| && MalformedAssignment(elems[i]);
            if i > 0 { assert MalformedAssignment(elems[1..][i - 1]); }
          }
        }
        assert HasWrongStatusOrCode(elems) <==> WrongStatusOrCode(elems[0]) || HasWrongStatusOrCode(elems[1..]) by {
          if HasWrongStatusOrCode(elems) {
            var i :| 0 <= i < |elems| && WrongStatusOrCode(elems[i]);
            if i > 0 { assert WrongStatusOrCode(elems[1..][i - 1]); }
          }
        }
        r
  }

  /** A value of the wrong kind for `status` or `code` is always reported. */
  lemma {:induction false} WrongStatusOrCodeIsReported(elems: seq<Expr>)
    requires !HasMalformedAssignment(elems) && HasWrongStatusOrCode(elems)
    ensures |ReportsOf(elems)| > 0
  {
    var i :| 0 <= i < |elems| && WrongStatusOrCode(elems[i]);
    if i == 0 {
      assert |ElementReport(elems[0])| > 0;
    } else {
      assert !MalformedAssignment(elems[0]);
      assert WrongStatusOrCode(elems[1..][i - 1]);
      WrongStatusOrCodeIsReported(elems[1..]);
    }
  }

  /** A walk reports nothing exactly when every element is a well-typed assignment to a known key. */
  lemma {:induction false} ReportsOfEmpty(elems: seq<Expr>)
    ensures |ReportsOf(elems)| == 0 <==> forall i :: 0 <= i < |elems| ==> |ElementReport(elems[i])| == 0
  {
    if |elems| > 0 {
      ReportsOfEmpty(elems[1..]);
      if |ReportsOf(elems)| == 0 {
        forall i | 0 <= i < |elems|
          ensures |ElementReport(elems[i])| == 0
        {
          if i > 0 { assert elems[i] == elems[1..][i - 1]; }
        }
      }
    }
  }

  // ---------------------------------------------------------------------
  // from_attr and from_variant (types.rs:38-161)
  // ---------------------------------------------------------------------

  /** A parse result together with the collector after it. */
  datatype Parsed = Parsed(result: Option<JsonError>, ctxt: Ctxt)

  /**
   * `from_attr`: classify one `json_error` attribute. A bad mode records one
   * message and rejects; `internal` is accepted at once, whatever follows it,
   * without a message; a rejection is always explained by a message.
   */
  function FromAttr(attr: Attribute, naive: bool, variant: string, ctxt: Ctxt): (r: Parsed)
    ensures ctxt <= r.ctxt
    ensures r.result.None? ==> |r.ctxt| > |ctxt|
    ensures r.result.Some? ==> r.result.value.naive == naive && r.result.value.variant == variant
    ensures ExtractMode(attr.tokens).None? ==> r == Parsed(None, ctxt + [ModeRequiredMsg])
    ensures ExtractMode(attr.tokens).Some? && ExtractMode(attr.tokens).value.0 == Internal ==>
              r == Parsed(Some(InternalError(naive, variant)), ctxt)
  {
    match ExtractMode(attr.tokens)
    case None => Parsed(None, Error(ctxt, ModeRequiredMsg))
    case Some((mode, others)) =>
      if mode == Internal then Parsed(Some(InternalError(naive, variant)), ctxt)
      else
        match ScanAssignments(others, NothingCaptured, ctxt)
        case Aborted(c) => Parsed(None, c)
        case Scanned(cap, c) =>
          if cap.status.Some? && cap.code.Some? then
            Parsed(Some(RequestError(naive, variant, cap.status.value, cap.code.value, cap.hint, cap.description)), c)
          else if !cap.wrongStatusOrCode then
            Parsed(None, Error(c, BothRequiredMsg))
          else
            (WrongStatusOrCodeIsReported(others);
             Parsed(None, c))
  }

  /**
   * A request attribute is accepted exactly when no assignment is malformed
   * and a status and a code were captured, the last well-typed value of each
   * key winning. Faulty elements are reported either way; the generic "both
   * required" message is added only when no status or code of the wrong kind
   * was reported already.
   */
  lemma RequestAttrAcceptance(attr: Attribute, naive: bool, variant: string, ctxt: Ctxt, elems: seq<Expr>)
    requires ExtractMode(attr.tokens) == Some((Request, elems))
    ensures var r := FromAttr(attr, naive, variant, ctxt);
            && (r.result.Some? <==>
                  !HasMalformedAssignment(elems) && LastStatus(elems).Some? && LastStr(elems, "code").Some?)
            && (r.result.Some? ==>
                  && r.result.value == RequestError(naive, variant, LastStatus(elems).value, LastStr(elems, "code").value,
                                                    LastStr(elems, "hint"), LastStr(elems, "description"))
                  && r.ctxt == ctxt + ReportsOf(elems))
            && (HasMalformedAssignment(elems) ==> r.ctxt == ctxt + ReportsOf(elems))
            && (!HasMalformedAssignment(elems) && r.result.None? ==>
                  r.ctxt == ctxt + ReportsOf(elems) + (if HasWrongStatusOrCode(elems) then [] else [BothRequiredMsg]))
  {
    var s := ScanAssignments(elems, NothingCaptured, ctxt);
  }

  /**
   * `from_variant`: without a `json_error` attribute exactly one message is
   * recorded and the variant is rejected; a rejection is always explained.
   */
  function FromVariant(v: Variant, ctxt: Ctxt): (r: Parsed)
    ensures ctxt <= r.ctxt
    ensures r.result.None? ==> |r.ctxt| > |ctxt|
    ensures r.result.Some? ==> r.result.value.variant == v.ident && r.result.value.naive == v.fieldsEmpty
    ensures (forall j :: 0 <= j < |v.attrs| ==> !IsJsonErrorAttr(v.attrs[j])) ==>
              r == Parsed(None, ctxt + [MissingAttributeMsg])
  {
    match FirstJsonErrorAttr(v.attrs)
    case None => Parsed(None, Error(ctxt, MissingAttributeMsg))
    case Some(i) => FromAttr(v.attrs[i], v.fieldsEmpty, v.ident, ctxt)
  }

  /** The first `json_error` attribute alone decides the variant; the ones after it are never read. */
  lemma FirstAttributeDecides(v: Variant, ctxt: Ctxt, i: nat)
    requires FirstJsonErrorAt(v.attrs, i)
    ensures FromVariant(v, ctxt) == FromAttr(v.attrs[i], v.fieldsEmpty, v.ident, ctxt)
  {
  }

  /**
   * A variant whose first `json_error` attribute is a request attribute made
   * only of well-typed assignments to known keys, status and code among them,
   * is accepted with the last value of each key and records nothing.
   */
  lemma CleanRequestAccepted(v: Variant, ctxt: Ctxt, i: nat, elems: seq<Expr>)
    requires FirstJsonErrorAt(v.attrs, i) && ExtractMode(v.attrs[i].tokens) == Some((Request, elems))
    requires forall k :: 0 <= k < |elems| ==> ElementReport(elems[k]) == []
    requires LastStatus(elems).Some? && LastStr(elems, "code").Some?
    ensures FromVariant(v, ctxt) ==
              Parsed(Some(RequestError(v.fieldsEmpty, v.ident, LastStatus(elems).value, LastStr(elems, "code").value,
                                       LastStr(elems, "hint"), LastStr(elems, "description"))), ctxt)
  {
    FirstAttributeDecides(v, ctxt, i);
    ReportsOfEmpty(elems);
    assert !HasMalformedAssignment(elems) by {
      forall k | 0 <= k < |elems|
        ensures !MalformedAssignment(elems[k])
      {
        assert ElementReport(elems[k]) == [];
      }
    }
    RequestAttrAcceptance(v.attrs[i], v.fieldsEmpty, v.ident, ctxt, elems);
    assert ctxt + ReportsOf(elems) == ctxt;
  }

  /** What a variant parses to, whatever was recorded before it. */
  function Classify(v: Variant): Option<JsonError>
  {
    FromVariant(v, []).result
  }

  /** The messages a variant records, whatever was recorded before it. */
  function VariantReports(v: Variant): seq<string>
  {
    FromVariant(v, []).ctxt
  }

  /** Parsing a variant neither reads nor rewrites what was recorded before it. */
  lemma FromVariantContextFree(v: Variant, ctxt: Ctxt)
    ensures FromVariant(v, ctxt) == Parsed(Classify(v), ctxt + VariantReports(v))
  {
    match FirstJsonErrorAttr(v.attrs)
    case None =>
    case Some(i) =>
      var a := v.attrs[i];
      match ExtractMode(a.tokens)
      case None =>
      case Some((mode, others)) =>
        if mode == Request {
          var s1 := ScanAssignments(others, NothingCaptured, ctxt);
          var s0 := ScanAssignments(others, NothingCaptured, []);
          assert s0.ctxt == ReportsOf(others);
          if s1.Scanned? {
            assert ctxt + ReportsOf(others) + [BothRequiredMsg] == ctxt + (ReportsOf(others) + [BothRequiredMsg]);
          }
        }
  }
}
