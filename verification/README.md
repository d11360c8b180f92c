# json-resp `#[derive(JsonError)]`, modelled in Dafny

This project models the compiler pass behind `#[derive(JsonError)]` in
json-resp, and the two runtime documentation helpers it relies on.

The derive reads an enum whose variants carry
`#[json_error(request, status = .., code = "..", hint = "..", description = "..")]`
or `#[json_error(internal)]`, and an optional unit attribute
`#[json_error(internal_code = "..")]`. It builds an IR of accepted cases and
lowers that IR twice:

- into the arms of a generated `into_response` match;
- with the `openapi` feature, into a documentation module. This module holds
  one schema, response and response index per request case, plus one shared
  `InternalError` item.

Every problem it finds is recorded in a diagnostic collector. An enum with any
recorded message produces no code at all.

## How the pieces are modelled

- **Parsed input and generated code are values.** Parsed attributes are a small
  `Expr` datatype: identifier or path, integer literal, string literal,
  assignment, tuple, parenthesised expression, anything else. Generated code is
  a set of records (`Arm`, `JsonErrorExpr`, `DocArtifact`), not tokens.
- **Diagnostics.** The collector is an append-only sequence of messages threaded
  through pure functions.
- **The IR.** `JsonErrors` is the IR. `Accepted(variants)` and
  `AllReports(variants)` are its reference definitions: what each variant
  parses to, and what each variant records, taken one variant at a time.
- **Modules follow the source:**
  - `Types`: parsing of one variant.
  - `CaseLowering`: lowering of one case.
  - `Expand`: the derive entry point, unit configuration, IR, and both
    lowerings of the IR.
  - `UtoipaImpls`: `CombineErrors`, `JsonResponse<T, M>` and `Nothing`.
  - Helper modules: `Syntax`, `Diagnostics`, `Decimal`, `OpenApi`, `Sequences`,
    `Wrappers`.
  - `Scenarios`: states what the model derives for the `AppErrors` enum of the
    openapi example, and for small declarations whose behaviour follows from
    json-resp-derive/src/errors/types.rs:101-159.
- **Path statuses.** A path status such as `StatusCode::NOT_FOUND` becomes a
  number only through `StatusCode::as_u16`. That mapping is a parameter
  `asU16`. A literal status is its own number.
- **Logging.** The `log` feature is a flag. The logged record is modelled as the
  text it formats.
- **The response description.** For a request case's documentation, the
  description is the declared `description` when there is one, else the
  `code`. The hint is never used: `ok_or_else(|| hint)` is immediately
  discarded by `unwrap_or_else(|_| code)` (json-resp-derive/src/errors/types.rs:337-340).
  A reading of this fallback as "description, then hint, then code" does not
  match the code, and the model follows the code (`ResponseDescription`,
  `DescriptionIgnoresHint`).
- **Other quirks, kept as written:**
  - The `hint` property of a request schema and the `status` property of the
    `InternalError` schema are declared with the integer schema type, but pin
    string values.
  - The message for a variant without an attribute spells "api_erorr".
  - The combined response of `CombineErrors` is registered under the media
    type key `"json"`.

## Model

| member | source | states |
|---|---|---|
| `Syntax.FirstJsonErrorAttr` | json-resp-derive/src/errors/types.rs:39-56 | The attribute looked at is the first one whose path is the single identifier `json_error`; there is none exactly when no attribute has that path |
| `Types.ExtractModeShapes` | json-resp-derive/src/errors/types.rs:550-575 | The attribute shapes that yield a mode are exactly `(mode, rest..)` and `(mode)`; the mode and the rest come back unchanged, and `()`, another identifier or any other shape yields none |
| `Types.ScanElement` | json-resp-derive/src/errors/types.rs:88-145 | One element of a request attribute aborts the walk, recording the assignment-form message, exactly when it is an assignment whose left side is not an identifier. Otherwise it records at most that element's one message, overrides only the key it assigns with a well-typed value, and raises the wrong-kind flag for a badly typed status or code |
| `Types.AssignmentTyping` | json-resp-derive/src/errors/types.rs:101-134 | `status` takes only an integer literal (kept as that number) or a path (kept as that path), and `code`, `hint` and `description` take only a string literal: a well-typed value is captured silently and nothing else changes. Any other value records exactly that key's kind message and keeps the earlier value; for `status` and `code` it also raises the wrong-kind flag |
| `Types.ExtractorsInvert` | json-resp-derive/src/errors/types.rs:517-548 | `extract_status` yields a literal status exactly for an integer literal and a path status exactly for a path, with the same number or path, and nothing for any other expression; `extract_lit_str` yields a string exactly for a string literal with that value; `extract_ident_str` yields an identifier exactly for a one-segment path |
| `Types.ScanAssignments` | json-resp-derive/src/errors/types.rs:86-145 | The walk aborts exactly when some assignment is malformed. It records the per-element messages up to that point. Otherwise it ends holding the last well-typed value of each key, so a later bad value never clears an earlier good one, and the wrong-kind flag is set exactly when some status or code had the wrong kind |
| `Types.WrongStatusOrCodeIsReported` | json-resp-derive/src/errors/types.rs:101-119 | A status or code of the wrong kind is always reported |
| `Types.ReportsOfEmpty` | json-resp-derive/src/errors/types.rs:88-145 | A request attribute reports nothing exactly when every element is a well-typed assignment to a known key |
| `Types.FromAttr` | json-resp-derive/src/errors/types.rs:64-80 | Parsing an attribute only appends messages, and explains every rejection. A bad mode records exactly the "first attribute is required" message. Mode `internal` gives the internal case with the variant's name and field flag, ignores the rest of the attribute and records nothing |
| `Types.RequestAttrAcceptance` | json-resp-derive/src/errors/types.rs:81-160 | A request attribute is accepted exactly when no assignment is malformed and a status and a code were captured, with the last well-typed value of each key. Element messages are recorded either way. "Both `status` and `code` should be defined." is added exactly when the attribute is rejected without malformed assignments and without a status or code of the wrong kind |
| `Types.FromVariant` | json-resp-derive/src/errors/types.rs:38-62 | Parsing a variant only appends messages and explains every rejection; a variant with no `json_error` attribute is rejected with exactly one "All enum variants should have…" message |
| `Types.FirstAttributeDecides` | json-resp-derive/src/errors/types.rs:39-55 | The first `json_error` attribute alone decides the variant; later ones are never read |
| `Types.CleanRequestAccepted` | json-resp-derive/src/errors/types.rs:88-154 | A request attribute made only of well-typed known-key assignments, including a status and a code, is accepted silently with the last value of each key |
| `Types.FromVariantContextFree` | json-resp-derive/src/errors/types.rs:38-161 | What a variant parses to, and the messages it records, do not depend on what was recorded before it |
| `CaseLowering.ExpandMatchCondition` | json-resp-derive/src/errors/types.rs:166-261 | Every arm matches its own variant, binding the field exactly when the variant has one. Only internal arms log, and only with the `log` feature. Internal arms answer with the unit internal code and unit content |
| `CaseLowering.Respond` | json-resp-derive/src/errors/types.rs:172-258 | A request case answers with exactly its declared status, code and hint, with its field as content unless naive, and never logs. An internal case answers INTERNAL_SERVER_ERROR, the internal code and no content, with the hint its default leaves (taken to be none). Its log text is `T::V`, or `T::V <field>` for a non-naive case |
| `CaseLowering.InternalNeverLeaks` | json-resp-derive/src/errors/types.rs:210-218 | The response of an internal case is the same whatever field it carries |
| `CaseLowering.StatusNumericOfExpr` | json-resp-derive/src/errors/types.rs:505-514 | The number documented for a status written as an integer literal is that literal, and for a path it is the path's `StatusCode::as_u16` value |
| `CaseLowering.ResponseDescription` | json-resp-derive/src/errors/types.rs:337-340 | The response description is the declared description when present, else the code |
| `CaseLowering.DescriptionIgnoresHint` | json-resp-derive/src/errors/types.rs:337-340 | The hint has no influence on the response description |
| `CaseLowering.ExpandUtoipaResponse` | json-resp-derive/src/errors/types.rs:378-406 | Documentation items exist exactly for request cases and are named after the variant |
| `CaseLowering.RequestDocShape` | json-resp-derive/src/errors/types.rs:263-376 | A request case's schema pins status (as a number, under the integer schema type) and code (under the string schema type), both required, status first. It pins the hint, under the integer schema type, only when one is given, and has a `content` property exactly when the case is not naive. The response index has one key, the decimal status. The response refers to the schema by name, with description falling back to the code |
| `CaseLowering.PinnedBase` | json-resp-derive/src/errors/types.rs:301-318 | The base object has exactly the properties `status` and `code`, each pinned to its value and required, status first; `status` is declared with the integer schema type and `code` with the string one |
| `CaseLowering.RequestSchemaPins` | json-resp-derive/src/errors/types.rs:300-318 | A request schema is named as given, pins the numeric status under the integer schema type and the code under the string schema type, and requires both, status first |
| `CaseLowering.RequestSchemaOptionals` | json-resp-derive/src/errors/types.rs:274-320 | A request schema pins and requires the hint, declared with the integer schema type although its value is a string, exactly when one is given, and has a required `content` property exactly when the case is not naive |
| `CaseLowering.ExpandUtoipaInternalError` | json-resp-derive/src/errors/types.rs:408-477 | The shared internal item is named `InternalError`, pins status `"500"` (a string, under the integer schema type) and the unit internal code (under the string schema type) (only those two are required), and is indexed by the decimal rendering of 500 |
| `Decimal.NatToString` | json-resp-derive/src/errors/types.rs:364-375 | A status renders as a non-empty string of decimal digits with no leading zero |
| `Decimal.ParseNatToString` | json-resp-derive/src/errors/types.rs:364-375 | Rendering a status as a response key loses nothing: reading the digits back gives the status |
| `Decimal.NatToStringInjective` | json-resp-derive/src/errors/types.rs:364-375 | Two statuses get the same response key exactly when they are equal |
| `Decimal.RenderThreeDigits` | json-resp-derive/src/errors/types.rs:364-375 | A three-digit status renders as its three digits, most significant first |
| `Decimal.RenderFiveHundred` | json-resp-derive/src/errors/types.rs:468-472 | The internal item's response key is "500" |
| `Expand.ConfigFromAttrs` | json-resp-derive/src/errors/expand.rs:78-117 | The internal code is the string in `(internal_code = "..")` when the first `json_error` attribute has that shape; any other value comes only from such an attribute, so every other shape gives `"internal-error"` |
| `Expand.MalformedConfigNotRescued` | json-resp-derive/src/errors/expand.rs:79-88 | A malformed first `json_error` attribute is not rescued by a well-formed later one |
| `Expand.CollectCases` | json-resp-derive/src/errors/expand.rs:133-139 | The loop over the variants yields exactly the accepted cases in declaration order, and appends exactly every variant's messages in declaration order |
| `Expand.FromVariants` | json-resp-derive/src/errors/expand.rs:127-145 | The IR always exists; it carries the enum's name, the unit internal code and the accepted cases in declaration order |
| `Expand.AcceptedKeepsOrder` | json-resp-derive/src/errors/expand.rs:134-139 | Two accepted variants appear in the IR in their declaration order |
| `Expand.AcceptedFromVariants` | json-resp-derive/src/errors/expand.rs:134-138 | Every IR case is what some declared variant parsed to; nothing is invented |
| `Expand.SilentVariantsAllAccepted` | json-resp-derive/src/errors/expand.rs:134-139 | When no variant records anything, the IR has one case per variant, in declaration order |
| `Expand.AcceptedWhenAllClassified` | json-resp-derive/src/errors/expand.rs:134-139 | When every variant is accepted, the IR is exactly their cases, in order |
| `Expand.AllReportsEmpty` | json-resp-derive/src/errors/expand.rs:134-139 | The derive records nothing exactly when no variant records anything |
| `Expand.Arms` | json-resp-derive/src/errors/expand.rs:158-161 | One arm per IR case, in IR order, each the lowering of its own case |
| `Expand.ResponseTable` | json-resp-derive/src/errors/expand.rs:156-163 | The table has exactly one arm per IR case, in IR order. Each arm matches its own variant, request arms carry the declared status, code and hint, and every internal arm answers with the same unit internal code |
| `Expand.DocsLoop` | json-resp-derive/src/errors/expand.rs:172-180 | The loop appends the items of each request case in IR order and remembers whether an internal case was seen |
| `Expand.RequestDocsItems` | json-resp-derive/src/errors/expand.rs:172-180 | The documented request items correspond one to one, in IR order, to the request cases |
| `Expand.UtoipaArtifacts` | json-resp-derive/src/errors/expand.rs:170-188 | The documentation is the items of every request case in IR order, followed by exactly one `InternalError` item when the IR has an internal case, and none otherwise |
| `Expand.InternalOnlyDocs` | json-resp-derive/src/errors/expand.rs:170-188 | A unit with only internal cases, however many, documents exactly one `InternalError` item |
| `Expand.LoweringsAgree` | json-resp-derive/src/errors/expand.rs:156-188 | For every request arm, some documentation item is named after the arm's variant, is indexed by the arm's status as a number, and pins the arm's code as a string |
| `Expand.InternalLoweringsAgree` | json-resp-derive/src/errors/expand.rs:156-188 | For every internal arm, the shared item is indexed by the arm's status (given that INTERNAL_SERVER_ERROR denotes 500) and pins the arm's code as a string |
| `Expand.ExpandDeriveEnum` | json-resp-derive/src/errors/expand.rs:30-71 | Expanding an enum records exactly every variant's messages. It yields the response table of the IR, and the `<Name>Oai` documentation module of the IR exactly when `openapi` is on |
| `Expand.ExpandDerive` | json-resp-derive/src/errors/expand.rs:10-28 | A non-enum fails with exactly "Expected `enum`". An enum succeeds exactly when no variant recorded anything, and otherwise fails with every recorded message and no code: once anything was recorded, no code is generated |
| `Expand.DerivedArmsFollowVariants` | json-resp-derive/src/errors/expand.rs:10-71 | A successful derive has one arm per declared variant, in declaration order, and a documentation module exactly when `openapi` is on |
| `Expand.SilentDeriveLowersIR` | json-resp-derive/src/errors/expand.rs:22-27 | An enum that records nothing derives exactly the two lowerings of its IR |
| `UtoipaImpls.CombineErrorsResponses` | json-resp/src/utoipa_impls.rs:21-53 | Combining fails as not supported exactly when either component has no response. It fails on a status mismatch exactly in a debug build with different first statuses. Otherwise the result is one response, keyed by the first component's status, with an empty description and a oneOf of the two schema references, first component first |
| `UtoipaImpls.CombinedKeyIsLeast` | json-resp/src/utoipa_impls.rs:22-27 | The combined key is one of the first component's statuses, and the least of them |
| `UtoipaImpls.ReleaseIgnoresSecondStatus` | json-resp/src/utoipa_impls.rs:28-38 | A release build never compares statuses: the second component's status does not affect the result |
| `UtoipaImpls.DebugAgreesOnEqualStatus` | json-resp/src/utoipa_impls.rs:35-38 | With equal statuses the debug check succeeds and changes nothing |
| `UtoipaImpls.CombineDerivedRequests` | json-resp/src/utoipa_impls.rs:21-53 | Two derived request cases combine in a debug build exactly when their statuses denote the same number. The key is then the first case's number, and the schema refers to both variants in order |
| `UtoipaImpls.JsonResponseSchema` | json-resp/src/utoipa_impls.rs:61-95 | The schema is named "JsonResponse" and has exactly the properties status, content and meta. Status is a required 32-bit integer shown as 200, listed first. Content (meta) is a required reference to T's (M's) schema when its name is non-empty, and otherwise an optional nullable object defaulting to null |
| `UtoipaImpls.JsonResponseReadsNamesOnly` | json-resp/src/utoipa_impls.rs:80-92 | Only the names of T's and M's schemas are read, never the schemas themselves |
| `UtoipaImpls.JsonResponseRequired` | json-resp/src/utoipa_impls.rs:70-92 | The required list is status, then content and meta in that order, each only when its parameter has a name |
| `UtoipaImpls.NothingMetaIsOptionalNull` | json-resp/src/utoipa_impls.rs:87-102 | `JsonResponse<T, Nothing>` always has the optional null meta slot |
| `Scenarios.NotFoundParses` | examples/openapi/src/app.rs:23-24 | `NotFound` is accepted silently with its status path, code and description |
| `Scenarios.NotFound2Parses` | examples/openapi/src/app.rs:26-27 | `NotFound2` is accepted silently with its status path and code |
| `Scenarios.InternalParses` | examples/openapi/src/app.rs:29-35 | `#[json_error(internal)]` makes an internal case silently, naive or not |
| `Scenarios.AppErrorsSilent` | examples/openapi/src/app.rs:20-36 | No variant of the example records anything |
| `Scenarios.AppErrorsIR` | examples/openapi/src/app.rs:20-36 | The example's IR is its four variants in order, under the internal code "500 internal" |
| `Scenarios.AppErrorsDocs` | examples/openapi/src/app.rs:32-36 | The example documents NotFound, NotFound2 and one shared InternalError item for its two internal cases |
| `Scenarios.AppErrorsDerive` | examples/openapi/src/app.rs:20-45 | The example derives four arms and the `AppErrorsOai` module of its documentation |
| `Scenarios.AppErrorsCombineNotFound` | examples/openapi/src/app.rs:54-55 | Combining the two 404 cases gives one response keyed "404" covering both structs |
| `Scenarios.StatusWithoutCode` | json-resp-derive/src/errors/types.rs:146-159 | A well-typed status without a code is rejected with exactly the one "Both `status` and `code` should be defined." message |
| `Scenarios.StringStatus` | json-resp-derive/src/errors/types.rs:101-111 | A string status, even with a code, is rejected with exactly the status-kind message and not the generic one |
| `Scenarios.CombineLiteralStatuses` | json-resp/src/utoipa_impls.rs:35-52 | Two 404 cases combine under "404"; a 404 and a 409 fail in a debug build |
| `Scenarios.ThreeInternalCases` | json-resp-derive/src/errors/expand.rs:170-188 | Three internal cases with no unit attribute document exactly one InternalError item with code "internal-error" |

## Left out

- Token streams, spans, `quote!` output and `syn` parsing are not modelled. Attributes arrive as parsed `Expr` values, and generated code is records.
- Generics (`split_for_impl`) are left out: they only decorate the generated `impl` header.
- `StatusCode::as_u16` and `StatusCode::from_u16(n).unwrap()` are left out. Path statuses are numbered by the parameter `asU16`, and whether a literal is a valid HTTP status is not checked.
- Integer literal suffixes and widths are left out: an integer literal is a natural number, and the `u16` range of statuses is not modelled.
- Leading `::` paths and generic arguments inside paths are left out. A path is its sequence of segments, and `get_ident` means exactly one segment.
- The `log` feature's side effect is left out. Logging is modelled as the text `log_error!` would format.
- Cargo feature gating is left out. The `openapi` and `log` features are boolean parameters.
- Variants with several fields are treated like one-field variants. Only the emptiness of a variant's fields is read, as the source does.
- `JsonError::default()` is not part of this model. The response fields it fills are assumed: an internal arm's `hint` is `None`, and the `meta` field of every arm is not modelled.
- `crate::ctxt::Ctxt` is not part of this model. It is an append-only message sequence; its internals are not shown and are not modelled.
- Utoipa's builders and the rest of its schema fields are left out. Only the fields the code sets are kept.
- json-resp/src/lib.rs (re-exports and a type alias) is not part of this model.
- The axum servers and handlers in the examples are not part of this model. Their enums are used only as inputs in `Scenarios`.
- The derive's `into_response` body beyond the arm records is left out. That includes `IntoResponse` for `JsonError` and its JSON serialisation.
- A request variant named `InternalError` would collide with the shared documentation struct. This is a compile error in the generated code and is not modelled.
- `Expand.ExpandDeriveEnum`: its `None` branch is not modelled, because `from_variants` always returns `Some`.
- `Expand.InternalLoweringsAgree`: assumes that `StatusCode::INTERNAL_SERVER_ERROR` denotes 500, because the http crate's table is not modelled.
