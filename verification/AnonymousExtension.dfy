/** The anonymous extension used by the test suite: an entity with no type
    name that attaches to a node whenever the input object carries one of
    its fields, and a model whose two properties read and write that one
    entity (Test/ActivityPub.Types.Tests/Util/Fakes/AnonymousExtensionFake.cs). */
module AnonymousExtension {
  import opened Wrappers
  import opened Json
  import opened JsonLD
  import opened Entities
  import opened Graph
  import opened TypeMapConverter
  import opened ConverterProperties

  /** No type name of its own; its base is `ASObject` ("Object"). */
  const ExtensionModel: ModelInfo := ModelInfo(None, Some("Object"), ActivityStreams)
  const ExtensionKind: string := "AnonymousExtensionFakeEntity"

  /** `ShouldConvertFrom`: only an object, and only one that has an
      `ExtendedString` or an `ExtendedInt` property. */
  function ShouldConvertFrom(input: Json): (r: bool)
    ensures !input.JObject? ==> !r
    ensures input.JObject? ==>
      (r <==> exists i :: 0 <= i < |input.props| && input.props[i].0 in ["ExtendedString", "ExtendedInt"])
  {
    if !input.JObject? then false
    else HasProperty(input.props, "ExtendedString") || HasProperty(input.props, "ExtendedInt")
  }

  /** An entity of the extension class: bound to its model, no
      `RequiresObjectForm` override, and the two fields as payload. */
  ghost predicate IsExtensionEntity(e: Entity) {
    && e.kind == ExtensionKind
    && e.definition == OfModel(ExtensionModel)
    && e.objectForm.None?
    && e.payload.ExtensionFields?
  }

  /** A freshly created extension entity. */
  function NewExtensionEntity(): (e: Entity)
    ensures IsExtensionEntity(e) && ValidEntity(e)
    ensures e.payload.extendedString == "" && e.payload.extendedInt == 0
    ensures ASTypeName(e).None? && RequiresObjectForm(e)
  {
    Entity(ExtensionKind, OfModel(ExtensionModel), None, ExtensionFields("", 0))
  }

  /** The node holds the extension entity, as every model instance's node does. */
  ghost predicate HasExtension(m: TypeMap) {
    FindKind(m.entities, ExtensionKind).Some? && IsExtensionEntity(m.entities[FindKind(m.entities, ExtensionKind).value])
  }

  function ExtensionIndex(m: TypeMap): (i: nat)
    requires HasExtension(m)
    ensures i < |m.entities| && IsExtensionEntity(m.entities[i])
  {
    FindKind(m.entities, ExtensionKind).value
  }

  /** The model's constructor `AnonymousExtensionFake(typeMap, isExtending)`
      (`ProjectTo` with `isExtending`): attach the node's extension entity,
      creating it with default fields when absent and `isExtending` holds;
      without `isExtending`, a node lacking the entity is refused. */
  function Attach(m: TypeMap, isExtending: bool): (r: Result<TypeMap, GraphError>)
    requires !HasKind(m.entities, ExtensionKind) || HasExtension(m)
    ensures r.Failure? <==> !isExtending && !HasKind(m.entities, ExtensionKind)
    ensures r.Failure? ==> r.error == EntityNotFound(ExtensionKind)
    ensures r.Success? ==> HasExtension(r.value)
    ensures HasKind(m.entities, ExtensionKind) ==> r == Success(m)
    ensures r.Success? && !HasKind(m.entities, ExtensionKind) ==>
      && GetExtendedString(r.value) == "" && GetExtendedInt(r.value) == 0
      && r.value.types == m.types
      && r.value.entities == m.entities + [NewExtensionEntity()]
  {
    var r := ProjectTo(m, NewExtensionEntity(), isExtending);
    if HasKind(m.entities, ExtensionKind) || !isExtending then r
    else
      assert r.value.entities == m.entities + [NewExtensionEntity()];
      assert FindKind(r.value.entities, ExtensionKind) == Some(|m.entities|);
      r
  }

  /** The `ExtendedString` getter. */
  function GetExtendedString(m: TypeMap): string
    requires HasExtension(m)
  {
    m.entities[ExtensionIndex(m)].payload.extendedString
  }

  /** The `ExtendedInt` getter. */
  function GetExtendedInt(m: TypeMap): int32
    requires HasExtension(m)
  {
    m.entities[ExtensionIndex(m)].payload.extendedInt
  }

  /** The node with the extension entity's payload replaced. */
  function WithPayload(m: TypeMap, p: Payload): (r: TypeMap)
    requires HasExtension(m) && p.ExtensionFields?
    ensures HasExtension(r) && ExtensionIndex(r) == ExtensionIndex(m)
    ensures r.entities[ExtensionIndex(r)].payload == p
    ensures |r.entities| == |m.entities|
    ensures forall j :: 0 <= j < |m.entities| && j != ExtensionIndex(m) ==> r.entities[j] == m.entities[j]
    ensures forall j :: 0 <= j < |m.entities| ==> r.entities[j].kind == m.entities[j].kind
    ensures r.types == m.types && r.context == m.context && r.unmapped == m.unmapped
  {
    var i := ExtensionIndex(m);
    var e := m.entities[i];
    var r := m.(entities := m.entities[i := e.(payload := p)]);
    assert forall j :: 0 <= j < |m.entities| ==> r.entities[j].kind == m.entities[j].kind;
    assert FindKind(r.entities, ExtensionKind) == Some(i) by {
      var k := FindKind(r.entities, ExtensionKind).value;
      assert k <= i;
    }
    r
  }

  /** The `ExtendedString` setter: writes through to the entity. */
  function SetExtendedString(m: TypeMap, v: string): (r: TypeMap)
    requires HasExtension(m)
    ensures HasExtension(r) && |r.entities| == |m.entities|
    ensures GetExtendedString(r) == v
    ensures GetExtendedInt(r) == GetExtendedInt(m)
    ensures forall j :: 0 <= j < |m.entities| && j != ExtensionIndex(m) ==> r.entities[j] == m.entities[j]
    ensures r.types == m.types && r.context == m.context && r.unmapped == m.unmapped
  {
    WithPayload(m, ExtensionFields(v, GetExtendedInt(m)))
  }

  /** The `ExtendedInt` setter: writes through to the entity. */
  function SetExtendedInt(m: TypeMap, v: int32): (r: TypeMap)
    requires HasExtension(m)
    ensures HasExtension(r) && |r.entities| == |m.entities|
    ensures GetExtendedInt(r) == v
    ensures GetExtendedString(r) == GetExtendedString(m)
    ensures forall j :: 0 <= j < |m.entities| && j != ExtensionIndex(m) ==> r.entities[j] == m.entities[j]
    ensures r.types == m.types && r.context == m.context && r.unmapped == m.unmapped
  {
    WithPayload(m, ExtensionFields(GetExtendedString(m), v))
  }

  /** A node carrying the extension is always written as an object, and that
      object activates the extension again when read. */
  lemma WrittenExtensionActivates(m: TypeMap, enc: Encoders)
    requires HasExtension(m)
    requires AllObjects(m.entities)
    ensures Write(m, enc).Success? && Write(m, enc).value.JObject?
    ensures ShouldConvertFrom(Write(m, enc).value)
  {
    var i := ExtensionIndex(m);
    assert !Compacts(m) by {
      assert RequiresObjectForm(m.entities[i]);
    }
    ExtensionFieldWritten(m, enc, i);
  }

  /** The extension entity is written as its two fields, under their C# names. */
  lemma ExtensionFieldNames(e: Entity)
    requires e.payload.ExtensionFields?
    ensures "ExtendedString" in Keys(EntityProps(e))
    ensures "ExtendedInt" in Keys(EntityProps(e))
  {
    var ps := [("ExtendedString", JString(e.payload.extendedString)), ("ExtendedInt", JNumber(e.payload.extendedInt as int))];
    assert EntityProps(e) == ps;
    assert Keys(ps)[0] == "ExtendedString";
    assert Keys(ps)[1] == "ExtendedInt";
  }

  lemma ExtensionFieldWritten(m: TypeMap, enc: Encoders, i: nat)
    requires !Compacts(m) && AllObjects(m.entities)
    requires i < |m.entities| && IsExtensionEntity(m.entities[i])
    ensures ShouldConvertFrom(Write(m, enc).value)
  {
    var props := Output(m, enc);
    ExtensionFieldNames(m.entities[i]);
    EntityKeysMembership(m.entities, "ExtendedString");
    WrittenNames(m, enc, "ExtendedString");
    var k :| 0 <= k < |props| && Keys(props)[k] == "ExtendedString";
    assert props[k].0 == "ExtendedString";
  }
}
