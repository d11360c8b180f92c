/**
 * The slice of Rust syntax the derive inspects, as produced by the host
 * parser: expressions inside `#[json_error(...)]`, attributes, enum variants
 * and the derive input itself. Token streams and spans are not modelled; an
 * attribute's tokens are given as the expression they parse to, with `Other`
 * standing for every shape the derive does not look into (other literals,
 * calls, token streams that are not an expression at all).
 */
module Syntax {
  import opened Wrappers

  datatype Expr =
    | Path(segments: seq<string>)        // `request`, `StatusCode::NOT_FOUND`
    | IntLit(n: nat)                     // `404`
    | StrLit(s: string)                  // `"not-found"`, by its value
    | Assign(left: Expr, right: Expr)    // `key = value`
    | Tuple(elems: seq<Expr>)            // `()`, `(a,)`, `(a, b, ...)`
    | Paren(inner: Expr)                 // `(a)`
    | Other

  /** `Path::get_ident`: the identifier of a path made of exactly one segment. */
  function GetIdent(segments: seq<string>): Option<string>
  {
    if |segments| == 1 then Some(segments[0]) else None
  }

  /** `#[path tokens]`, e.g. `#[json_error(request, status = 404)]`. */
  datatype Attribute = Attribute(path: seq<string>, tokens: Expr)

  /** One enum variant; `fieldsEmpty` is `variant.fields.is_empty()`. */
  datatype Variant = Variant(ident: string, attrs: seq<Attribute>, fieldsEmpty: bool)

  datatype Data = Enum(variants: seq<Variant>) | NotEnum

  /** `syn::DeriveInput`; generics are not modelled. */
  datatype DeriveInput = DeriveInput(ident: string, attrs: seq<Attribute>, data: Data)

  predicate IsJsonErrorAttr(a: Attribute)
  {
    GetIdent(a.path) == Some("json_error")
  }

  /** `i` is the position of the first `json_error` attribute of `attrs`. */
  predicate FirstJsonErrorAt(attrs: seq<Attribute>, i: int)
  {
    && 0 <= i < |attrs|
    && IsJsonErrorAttr(attrs[i])
    && forall j :: 0 <= j < i ==> !IsJsonErrorAttr(attrs[j])
  }

  /**
   * The position of the first attribute whose path is the single identifier
   * `json_error`; both the variant parser (a loop that skips other
   * attributes) and the unit configuration (`filter(..).next()`) look only there.
   */
  function FirstJsonErrorAttr(attrs: seq<Attribute>): (r: Option<nat>)
    ensures r.Some? ==> FirstJsonErrorAt(attrs, r.value)
    ensures r.None? <==> forall j :: 0 <= j < |attrs| ==> !IsJsonErrorAttr(attrs[j])
  {
    if |attrs| == 0 then None
    else if IsJsonErrorAttr(attrs[0]) then Some(0)
    else
      match FirstJsonErrorAttr(attrs[1..])
      case None => None
      case Some(k) => Some(k + 1)
  }
}
