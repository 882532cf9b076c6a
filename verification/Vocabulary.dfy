/** A few rows of the type registry, written out by hand: the structural
    `ASType`, `Link`, and `Create`, an activity type that extends another
    model. Each row is a model's type name, its base type name and its
    defining context, together with a fresh entity of the matching class. */
module Vocabulary {
  import opened Wrappers
  import opened Json
  import opened JsonLD
  import opened Entities
  import opened Graph

  /** `ASType`: the structural root; it has no type name of its own. */
  const TypeModel: ModelInfo := ModelInfo(None, None, ActivityStreams)
  const TypeKind: string := "ASTypeEntity"

  /** `ASLink`: type "Link", extending `ASType`, which has no name to hide. */
  const LinkModel: ModelInfo := ModelInfo(Some("Link"), None, ActivityStreams)

  /** `CreateActivity`: "Create", extending `ASActivity` ("Activity"). */
  const CreateModel: ModelInfo := ModelInfo(Some("Create"), Some("Activity"), ActivityStreams)

  /** A fresh `ASTypeEntity`: nothing populated, so no object form needed. */
  function NewTypeEntity(): (e: Entity)
    ensures ValidEntity(e) && !RequiresObjectForm(e) && ASTypeName(e).None?
  {
    Entity(TypeKind, OfModel(TypeModel), Some(false), Serialized(JObject([])))
  }

  /** An `ASLinkEntity` with only its reference set. */
  function NewLinkEntity(href: string): (e: Entity)
    ensures ValidEntity(e) && !RequiresObjectForm(e)
    ensures ASTypeName(e) == Some("Link") && BaseTypeName(e).None?
    ensures e.payload.LinkFields? && e.payload.href == href
  {
    Entity(LinkKind, OfModel(LinkModel), Some(false), LinkFields(href, []))
  }

  /** A fresh `CreateActivityEntity`: no fields of its own, and it keeps the
      default object form. */
  function NewCreateEntity(): (e: Entity)
    ensures ValidEntity(e) && RequiresObjectForm(e)
    ensures ASTypeName(e) == Some("Create") && BaseTypeName(e) == Some("Activity")
  {
    Entity("CreateActivityEntity", OfModel(CreateModel), None, Serialized(JObject([])))
  }

  /** Extending a node with Create hides "Activity" and shows "Create". */
  lemma CreateHidesActivity(m: TypeMap)
    requires !HasKind(m.entities, NewCreateEntity().kind)
    ensures "Create" in AddEntity(m, NewCreateEntity()).value.types
    ensures "Activity" !in AddEntity(m, NewCreateEntity()).value.types
  {
    BaseTypeSuppressed(m, NewCreateEntity(), "Create", "Activity");
  }
}
