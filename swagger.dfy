/**
  The slice of the Swagger 2.0 object model that the Device Connect code
  generators read: properties (schemas of fields), models (entries of the
  definitions table), parameters, responses, operations, paths and the
  per-profile specification. Java maps whose iteration order matters are
  ordered sequences of (key, value) pairs.
*/
module Swagger {
  import opened JavaLang

  /** Descriptive data every property carries besides its type. */
  datatype PropertyInfo = PropertyInfo(
    format: Option<string>,
    title: Option<string>,
    description: Option<string>,
    required: bool)

  /**
    A property (a field schema). `ObjectProperty` has type "object",
    `ArrayProperty` type "array" and `RefProperty` type "ref"; every other
    property class (string, integer, map, ...) is a `SimpleProperty` with the
    type name its class fixes, which may itself be "object" (a map property)
    or, in a hand-built model, "array".
  */
  datatype Property =
    | ObjectProperty(properties: MaybeProps, info: PropertyInfo)
    | ArrayProperty(items: Option<Property>, info: PropertyInfo)
    | RefProperty(simpleRef: string, info: PropertyInfo)
    | SimpleProperty(typeName: string, info: PropertyInfo)

  /** One `Map.Entry<String, Property>`. */
  datatype Entry = Entry(key: string, value: Property)

  /** A `LinkedHashMap<String, Property>`: entries in declaration order. */
  type PropertyMap = seq<Entry>

  /**
    A property map reference that may be null. It is a datatype of its own,
    not an `Option<PropertyMap>`, so that the verifier sees a property
    nested in it as smaller than the property holding it.
  */
  datatype MaybeProps = NullProps | Props(entries: PropertyMap)

  /** `Property.getType()`. */
  function TypeOf(p: Property): string
  {
    match p
    case ObjectProperty(_, _) => "object"
    case ArrayProperty(_, _) => "array"
    case RefProperty(_, _) => "ref"
    case SimpleProperty(t, _) => t
  }

  /** The names of a property map, in order. */
  function Keys(props: PropertyMap): (r: seq<string>)
    ensures |r| == |props| && forall i :: 0 <= i < |props| ==> r[i] == props[i].key
  {
    seq(|props|, i requires 0 <= i < |props| => props[i].key)
  }

  /**
    An entry of the definitions table. `properties` is what `getProperties()`
    returns for the model, whatever its kind; a composed model lists its
    `allOf` parents in declaration order.
  */
  datatype Model =
    | ModelImpl(properties: MaybeProps)
    | ComposedModel(allOf: seq<Model>, properties: MaybeProps)
    | RefModel(simpleRef: string, properties: MaybeProps)
    | OtherModel(properties: MaybeProps)

  /** `Swagger.getDefinitions()`: possibly null. */
  type Definitions = Option<map<string, Model>>

  /** A response or an event message: only its schema matters here. */
  datatype Response = Response(schema: Option<Property>)

  datatype ParameterKind = QueryParameter | FormParameter | PathParameter | HeaderParameter | BodyParameter

  /**
    An operation parameter. `paramType`, `format` and `items` are read only
    for query and form parameters.
  */
  datatype Parameter = Parameter(
    kind: ParameterKind,
    name: string,
    required: bool,
    description: Option<string>,
    paramType: Option<string>,
    format: Option<string>,
    items: Option<Property>)

  datatype HttpMethod = GET | PUT | POST | DELETE | PATCH | HEAD | OPTIONS

  /** `HttpMethod.name()`. */
  function MethodName(m: HttpMethod): string
  {
    match m
    case GET => "GET"
    case PUT => "PUT"
    case POST => "POST"
    case DELETE => "DELETE"
    case PATCH => "PATCH"
    case HEAD => "HEAD"
    case OPTIONS => "OPTIONS"
  }

  /** The Device Connect kind of an API. */
  datatype OperationType = ONE_SHOT | EVENT | STREAMING

  /**
    What `DConnectOperation.parse` extracts from an operation's vendor
    extensions: its kind (possibly null) and, for an event API, the event
    message model (possibly null).
  */
  datatype DConnectInfo = DConnectInfo(operationType: Option<OperationType>, eventModel: Option<Response>)

  datatype Operation = Operation(
    summary: Option<string>,
    description: Option<string>,
    xType: Option<string>,
    parameters: seq<Parameter>,
    responses: Option<seq<(string, Response)>>,
    dconnect: Option<DConnectInfo>)

  /** `Path.getOperationMap()`, in its iteration order. */
  type PathItem = seq<(HttpMethod, Operation)>

  datatype SpecInfo = SpecInfo(version: Option<string>, title: Option<string>, description: Option<string>)

  /** One profile's specification: `paths` in declaration order. */
  datatype Spec = Spec(
    basePath: Option<string>,
    paths: seq<(string, PathItem)>,
    definitions: Definitions,
    info: SpecInfo)
}
