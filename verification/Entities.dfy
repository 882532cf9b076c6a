/** `ASEntity`: one facet of a graph node. An entity holds the data of one
    ActivityStreams type and is a singleton per entity class within its
    graph (ActivityPub.Types/ASEntity.cs). The virtual attributes the
    writer and the graph consult are functions of the entity. */
module Entities {
  import opened Wrappers
  import opened Json
  import opened JsonLD

  newtype int32 = x: int | -0x8000_0000 <= x < 0x8000_0000

  /** The static members of an `IASModel` that `ASEntity<TModel, TEntity>`
      forwards: type name, base type name and defining context. */
  datatype ModelInfo = ModelInfo(typeName: Option<string>, baseTypeName: Option<string>, definingContext: LDContext)

  /** Which base class the entity class derives from. */
  datatype Definition =
    | Untyped                    // `ASEntity` itself, keeping its defaults
    | OfModel(model: ModelInfo)  // `ASEntity<TModel, TEntity>`, bound to a model

  /** The data an entity holds, as far as the writer can see it. */
  datatype Payload =
      /** An entity class outside this model, given by what the default
          serialiser makes of it (which need not be an object). */
    | Serialized(json: Json)
      /** `ASLinkEntity`: the reference, plus every other populated link field. */
    | LinkFields(href: string, others: Props)
      /** The anonymous extension test entity. */
    | ExtensionFields(extendedString: string, extendedInt: int32)

  /** `kind` names the entity class: the key of the per-graph singleton.
      `objectForm` is the class's `RequiresObjectForm` override, if any. */
  datatype Entity = Entity(kind: string, definition: Definition, objectForm: Option<bool>, payload: Payload)

  const LinkKind: string := "ASLinkEntity"

  /** `ASTypeName`: null unless the class is bound to a model. */
  function ASTypeName(e: Entity): Option<string> {
    match e.definition
    case Untyped => None
    case OfModel(m) => m.typeName
  }

  /** `BaseTypeName`: null unless the class is bound to a model. */
  function BaseTypeName(e: Entity): Option<string> {
    match e.definition
    case Untyped => None
    case OfModel(m) => m.baseTypeName
  }

  /** `DefiningContext`: ActivityStreams unless the class is bound to a model. */
  function DefiningContext(e: Entity): LDContext {
    match e.definition
    case Untyped => ActivityStreams
    case OfModel(m) => m.definingContext
  }

  /** `RequiresObjectForm`: true unless the class overrides it. */
  function RequiresObjectForm(e: Entity): bool {
    e.objectForm.GetOr(true)
  }

  /** The attribute defaults of a class that derives from `ASEntity` alone. */
  lemma UntypedDefaults(e: Entity)
    requires e.definition.Untyped?
    ensures ASTypeName(e) == None
    ensures BaseTypeName(e) == None
    ensures DefiningContext(e) == ActivityStreams
    ensures DefiningContext(e).terms == [JString(ActivityStreamsIri)]
  {
  }

  /** Without an override an entity demands object form, so it can never
      be compacted to a bare link. */
  lemma ObjectFormDefault(e: Entity)
    requires e.objectForm.None?
    ensures RequiresObjectForm(e)
  {
  }

  /** `ASEntity<TModel, TEntity>` seals the three naming attributes to its model's. */
  lemma TypedForwarding(e: Entity, m: ModelInfo)
    requires e.definition == OfModel(m)
    ensures ASTypeName(e) == m.typeName
    ensures BaseTypeName(e) == m.baseTypeName
    ensures DefiningContext(e) == m.definingContext
  {
  }

  /** What `JsonSerializer.SerializeToElement` produces for the entity: its
      own fields, under the C# property names. */
  function Serialize(p: Payload): Json {
    match p
    case Serialized(j) => j
    case LinkFields(href, others) => JObject([("href", JString(href))] + others)
    case ExtensionFields(s, i) =>
      JObject([("ExtendedString", JString(s)), ("ExtendedInt", JNumber(i as int))])
  }

  /** The rule link classes must follow: a populated field besides `href`
      forces object form. */
  ghost predicate LinkContract(e: Entity) {
    e.payload.LinkFields? && |e.payload.others| > 0 ==> RequiresObjectForm(e)
  }

  /** An entity fit to sit in a graph: link data exactly on the link class,
      and the link class honours the contract above. */
  ghost predicate ValidEntity(e: Entity) {
    && (e.payload.LinkFields? <==> e.kind == LinkKind)
    && LinkContract(e)
  }

  /** A link that honours its contract and does not demand object form holds
      nothing but its reference, so its string form loses no data. */
  lemma CompactLinkHoldsOnlyHref(e: Entity)
    requires ValidEntity(e)
    requires e.payload.LinkFields?
    requires !RequiresObjectForm(e)
    ensures Serialize(e.payload) == JObject([("href", JString(e.payload.href))])
  {
  }
}
