/**
 * An abstract picture of the OpenAPI objects the generated code and the
 * runtime helpers build through utoipa's builders: schemas, references,
 * responses and the status-keyed response index. Only the fields the derive
 * sets are kept; the builders themselves are not modelled.
 */
module OpenApi {
  import opened Wrappers

  /** The JSON values used as enum values, examples and defaults. */
  datatype Json = JNull | JInt(n: int) | JStr(s: string)

  datatype SchemaType = ObjectType | IntegerType | StringType

  datatype KnownFormat = Int32

  /** `RefOr<Schema>`: a reference to a named component, or a schema inline. */
  datatype RefOr = Ref(schemaName: string) | Inline(schema: Schema)

  datatype Schema =
    | Object(
        schemaType: SchemaType,
        format: Option<KnownFormat>,
        nullable: bool,
        defaultValue: Option<Json>,
        example: Option<Json>,
        enumValues: Option<seq<Json>>,
        properties: map<string, RefOr>,
        required: seq<string>)
    | OneOf(items: seq<RefOr>)

  /** `ObjectBuilder::new().build()`: an object schema with nothing set. */
  const EmptyObject := Object(ObjectType, None, false, None, None, None, map[], [])

  /** `.property(name, p)`: a later property of the same name replaces the earlier one. */
  function WithProperty(o: Schema, name: string, p: RefOr): (r: Schema)
    requires o.Object?
    ensures r.Object? && r.properties == o.properties[name := p] && r.required == o.required
  {
    o.(properties := o.properties[name := p])
  }

  /** `.required(name)`: names are appended in call order. */
  function WithRequired(o: Schema, name: string): (r: Schema)
    requires o.Object?
    ensures r.Object? && r.properties == o.properties && r.required == o.required + [name]
  {
    o.(required := o.required + [name])
  }

  /** A response: its description and one schema per media type. */
  datatype Response = Response(description: string, content: map<string, RefOr>)

  /** The byte-wise order of Rust's `String`, which is code-point order. */
  predicate StrLess(a: string, b: string)
    decreases |a|
  {
    if |a| == 0 then |b| > 0
    else if |b| == 0 then false
    else if a[0] != b[0] then a[0] < b[0]
    else StrLess(a[1..], b[1..])
  }

  predicate KeysAscending(entries: seq<(string, Response)>)
  {
    forall i, j :: 0 <= i < j < |entries| ==> StrLess(entries[i].0, entries[j].0)
  }

  /**
   * `BTreeMap<String, RefOr<Response>>` as its iteration sequence: keys
   * strictly ascending, so the first entry holds the least key.
   */
  type Responses = entries: seq<(string, Response)> | KeysAscending(entries) witness []

  /** What `ToSchema::schema()` returns: a component name and its schema. */
  type NamedSchema = (string, RefOr)

  /** What `ToResponse::response()` returns. */
  type NamedResponse = (string, Response)
}
