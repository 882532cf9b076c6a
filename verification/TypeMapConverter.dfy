/** `TypeMapConverter`: reads a graph node from JSON and writes it back.
    Reading dispatches on the value kind: a string is the compact form of a
    Link, an object goes to the graph reader, anything else is refused.
    Writing first tries the compact Link string; otherwise it builds one JSON
    object from the node's own properties and then every entity's fields,
    later writes replacing earlier ones. */
module TypeMapConverter {
  import opened Wrappers
  import opened Json
  import opened JsonLD
  import opened Entities
  import opened Graph
  import opened Vocabulary

  datatype ReadError =
    | CannotConvertFrom(kind: ValueKind)
    | GraphReadFailed(reason: string)

  datatype WriteError = EntityNotObject(kind: string, produced: ValueKind)

  /** `NestedContextStack.Peek()`: the innermost enclosing context, if any. */
  function Peek(stack: seq<LDContext>): Option<LDContext> {
    if |stack| == 0 then None else Some(stack[|stack| - 1])
  }

  /** The graph reader that handles object input (`TypeGraphReader`). */
  type ObjectReader = (Props, seq<LDContext>) -> Result<TypeMap, ReadError>

  /** The serialisers of the type list and of the context (`SerializeToNode`). */
  datatype Encoders = Encoders(types: seq<string> -> Json, context: LDContext -> Json)

  // ---------------------------------------------------------------- reading

  /** The first entity carrying link data. */
  function FindLink(es: seq<Entity>): (r: Option<nat>)
    ensures r.Some? <==> exists i :: 0 <= i < |es| && es[i].payload.LinkFields?
    ensures r.Some? ==> r.value < |es| && es[r.value].payload.LinkFields?
    ensures r.Some? ==> forall j :: 0 <= j < r.value ==> !es[j].payload.LinkFields?
  {
    if |es| == 0 then None
    else if es[0].payload.LinkFields? then Some(0)
    else
      match FindLink(es[1..])
      case None =>
        assert forall j :: 0 <= j < |es| - 1 ==> es[1..][j] == es[j + 1];
        None
      case Some(i) => Some(i + 1)
  }

  /** The reference of the node's link entity, if it has one. */
  function LinkHref(m: TypeMap): Option<string> {
    match FindLink(m.entities)
    case None => None
    case Some(i) => Some(m.entities[i].payload.href)
  }

  /** `ReadString`: a bare string is a Link with that reference, in the
      ActivityStreams context inheriting from the enclosing one. */
  function ReadString(s: string, stack: seq<LDContext>): (m: TypeMap)
    ensures Valid(m)
    ensures HasKind(m.entities, TypeKind)
    ensures LinkHref(m) == Some(s)
    ensures m.types == ["Link"]
    ensures m.context.parent == Peek(stack)
    ensures JString(ActivityStreamsIri) in m.context.terms
    ensures m.unmapped.None?
    ensures forall i :: 0 <= i < |m.entities| ==> !RequiresObjectForm(m.entities[i])
  {
    var empty := EmptyTypeMap(CreateASContext(Peek(stack)));
    var withType := ProjectTo(empty, NewTypeEntity(), true).value;
    assert withType.entities == [NewTypeEntity()];
    AddEntityKeepsValid(empty, NewTypeEntity());
    var m := ProjectTo(withType, NewLinkEntity(s), true).value;
    assert m.entities == [NewTypeEntity(), NewLinkEntity(s)];
    AddEntityKeepsValid(withType, NewLinkEntity(s));
    assert FindLink(m.entities) == Some(1);
    m
  }

  /** `Read`: only a JSON string or a JSON object can be a node. */
  function Read(j: Json, stack: seq<LDContext>, readObject: ObjectReader): (r: Result<TypeMap, ReadError>)
    ensures r.Success? ==> j.JString? || j.JObject?
    ensures !j.JString? && !j.JObject? ==> r == Failure(CannotConvertFrom(KindOf(j)))
    ensures j.JString? ==> r.Success? && LinkHref(r.value) == Some(j.str)
    ensures j.JString? ==> r.value.context.parent == Peek(stack)
    ensures j.JObject? ==> r == readObject(j.props, stack)
  {
    match j
    case JString(s) => Success(ReadString(s, stack))
    case JObject(ps) => readObject(ps, stack)
    case _ => Failure(CannotConvertFrom(KindOf(j)))
  }

  // ---------------------------------------------------------------- writing

  /** `AllEntities.Values.Any(e => e.RequiresObjectForm)`. */
  function AnyRequiresObjectForm(es: seq<Entity>): (r: bool)
    ensures r <==> exists i :: 0 <= i < |es| && RequiresObjectForm(es[i])
  {
    if |es| == 0 then false
    else if RequiresObjectForm(es[0]) then true
    else
      assert forall j :: 0 <= j < |es| - 1 ==> es[1..][j] == es[j + 1];
      AnyRequiresObjectForm(es[1..])
  }

  ghost predicate HasUnmapped(m: TypeMap) {
    m.unmapped.Some? && |m.unmapped.value| > 0
  }

  /** The three conditions under which a node is written as a bare string. */
  ghost predicate Compacts(m: TypeMap) {
    && !HasUnmapped(m)
    && (forall i :: 0 <= i < |m.entities| ==> !RequiresObjectForm(m.entities[i]))
    && (exists i :: 0 <= i < |m.entities| && m.entities[i].payload.LinkFields?)
  }

  /** `TryWriteAsLink`: the bare reference string, when the node compacts. */
  function TryWriteAsLink(m: TypeMap): (r: Option<Json>)
    ensures r.Some? <==> Compacts(m)
    ensures r.Some? ==> LinkHref(m).Some? && r.value == JString(LinkHref(m).value)
  {
    if m.unmapped.Some? && |m.unmapped.value| > 0 then None
    else if AnyRequiresObjectForm(m.entities) then None
    else
      match FindLink(m.entities)
      case None => None
      case Some(i) => Some(JString(m.entities[i].payload.href))
  }

  /** On a valid node, finding link data is `IsModel<ASLink>`: the link is
      the entity of the link class, so the three conditions of
      `TryWriteAsLink` can be read with class presence as the third. */
  lemma CompactsByClass(m: TypeMap)
    requires Valid(m)
    ensures FindLink(m.entities) == FindKind(m.entities, LinkKind)
    ensures Compacts(m) <==>
      && !HasUnmapped(m)
      && !AnyRequiresObjectForm(m.entities)
      && HasKind(m.entities, LinkKind)
  {
  }

  /** The names `WriteTypeMap` writes before the unmapped properties. */
  function HeaderKeys(m: TypeMap): seq<string> {
    (if |m.types| > 0 then ["type"] else []) + (if m.context.Count() > 0 then ["@context"] else [])
  }

  /** `type` when the type list is non-empty, `@context` when the context is. */
  function HeaderMap(m: TypeMap, enc: Encoders): map<string, Json> {
    (if |m.types| > 0 then map["type" := enc.types(m.types)] else map[])
    + (if m.context.Count() > 0 then map["@context" := enc.context(m.context)] else map[])
  }

  function UnmappedProps(m: TypeMap): Props {
    if m.unmapped.Some? then m.unmapped.value else []
  }

  /** `type` and `@context`, written into an empty object. */
  function WriteHeader(m: TypeMap, enc: Encoders): (r: Props)
    ensures NoDuplicateKeys(r)
    ensures Keys(r) == HeaderKeys(m)
    ensures PropMap(r) == HeaderMap(m, enc)
  {
    var empty: Props := [];
    var withType := if |m.types| > 0 then Set(empty, "type", enc.types(m.types)) else empty;
    assert Keys(withType) == if |m.types| > 0 then ["type"] else [];
    if m.context.Count() > 0 then
      var r := Set(withType, "@context", enc.context(m.context));
      assert "@context" !in Keys(withType);
      r
    else withType
  }

  /** `WriteTypeMap`: the node's own properties, into an empty object. */
  function WriteTypeMap(m: TypeMap, enc: Encoders): (r: Props)
    ensures NoDuplicateKeys(r)
    ensures Keys(r) == AppendNew(HeaderKeys(m), Keys(UnmappedProps(m)))
    ensures PropMap(r) == HeaderMap(m, enc) + PropMap(UnmappedProps(m))
  {
    SetAll(WriteHeader(m, enc), UnmappedProps(m))
  }

  /** The fields an entity contributes: its serialised object's properties. */
  function EntityProps(e: Entity): Props {
    var j := Serialize(e.payload);
    if j.JObject? then j.props else []
  }

  /** `WriteEntity`: copy the entity's fields into the object, or fail when
      its serialised form is not an object. */
  function WriteEntity(obj: Props, e: Entity): (r: Result<Props, WriteError>)
    ensures r.Success? <==> Serialize(e.payload).JObject?
    ensures r.Failure? ==> r.error == EntityNotObject(e.kind, KindOf(Serialize(e.payload)))
    ensures r.Success? ==> r.value == SetAll(obj, EntityProps(e))
  {
    var j := Serialize(e.payload);
    if j.JObject? then Success(SetAll(obj, j.props))
    else Failure(EntityNotObject(e.kind, KindOf(j)))
  }

  /** The names of all entity fields, entity by entity. */
  function EntityKeys(es: seq<Entity>): seq<string>
    decreases |es|
  {
    if |es| == 0 then [] else EntityKeys(es[..|es| - 1]) + Keys(EntityProps(es[|es| - 1]))
  }

  /** The entity fields merged in order, a later entity's value replacing an
      earlier one's. */
  function FieldsMap(es: seq<Entity>): map<string, Json>
    decreases |es|
  {
    if |es| == 0 then map[] else FieldsMap(es[..|es| - 1]) + PropMap(EntityProps(es[|es| - 1]))
  }

  /** The first `n` entities all serialise to objects. */
  ghost predicate ObjectsBefore(es: seq<Entity>, n: int) {
    forall i :: 0 <= i < n && i < |es| ==> Serialize(es[i].payload).JObject?
  }

  ghost predicate AllObjects(es: seq<Entity>) {
    ObjectsBefore(es, |es|)
  }

  /** The first entity whose serialised form is not an object. */
  function FirstNonObject(es: seq<Entity>): (r: Option<nat>)
    ensures r.Some? <==> !AllObjects(es)
    ensures r.Some? ==> r.value < |es| && ObjectsBefore(es, r.value) && !Serialize(es[r.value].payload).JObject?
  {
    if |es| == 0 then None
    else if !Serialize(es[0].payload).JObject? then Some(0)
    else
      assert forall j :: 0 <= j < |es| - 1 ==> es[1..][j] == es[j + 1];
      match FirstNonObject(es[1..])
      case None => None
      case Some(i) => Some(i + 1)
  }

  /** The first entity that is not an object is the one with only objects
      before it. */
  lemma FirstNonObjectIsUnique(es: seq<Entity>, i: nat)
    requires i < |es| && ObjectsBefore(es, i) && !Serialize(es[i].payload).JObject?
    ensures FirstNonObject(es) == Some(i)
  {
  }

  /** The error `WriteEntity` raises for `e`. */
  function NotObjectError(e: Entity): WriteError {
    EntityNotObject(e.kind, KindOf(Serialize(e.payload)))
  }

  /** The `foreach` over `AllEntities`: write every entity in order; the
      first entity that does not serialise to an object aborts the write. */
  function WriteEntities(obj: Props, es: seq<Entity>): (r: Result<Props, WriteError>)
    ensures r.Success? <==> AllObjects(es)
    ensures r.Failure? ==> r.error == NotObjectError(es[FirstNonObject(es).value])
    decreases |es|
  {
    if |es| == 0 then Success(obj)
    else
      var init := es[..|es| - 1];
      var last := es[|es| - 1];
      match WriteEntities(obj, init)
      case Failure(err) =>
        var i := FirstNonObject(init).value;
        assert init[i] == es[i];
        assert ObjectsBefore(es, i) by {
          assert forall j :: 0 <= j < i ==> init[j] == es[j];
        }
        FirstNonObjectIsUnique(es, i);
        Failure(err)
      case Success(prev) =>
        var r := WriteEntity(prev, last);
        assert ObjectsBefore(es, |es| - 1) by {
          assert forall j :: 0 <= j < |init| ==> init[j] == es[j];
        }
        if r.Failure? then
          FirstNonObjectIsUnique(es, |es| - 1);
          r
        else
          r
  }

  /** What a successful entity pass leaves in the object: every field name
      joins in order of first appearance, and each name holds the value the
      last entity writing it gave. */
  lemma {:induction false} WriteEntitiesMerges(obj: Props, es: seq<Entity>)
    requires NoDuplicateKeys(obj)
    requires AllObjects(es)
    ensures NoDuplicateKeys(WriteEntities(obj, es).value)
    ensures Keys(WriteEntities(obj, es).value) == AppendNew(Keys(obj), EntityKeys(es))
    ensures PropMap(WriteEntities(obj, es).value) == PropMap(obj) + FieldsMap(es)
    decreases |es|
  {
    if |es| > 0 {
      var init := es[..|es| - 1];
      var last := es[|es| - 1];
      assert forall j :: 0 <= j < |init| ==> init[j] == es[j];
      WriteEntitiesMerges(obj, init);
      var prev := WriteEntities(obj, init).value;
      assert WriteEntities(obj, es).value == SetAll(prev, EntityProps(last));
      AppendNewConcat(Keys(obj), EntityKeys(init), Keys(EntityProps(last)));
      MapUnionAssociative(PropMap(obj), FieldsMap(init), PropMap(EntityProps(last)));
    }
  }

  lemma MapUnionAssociative<K, V>(a: map<K, V>, b: map<K, V>, c: map<K, V>)
    ensures (a + b) + c == a + (b + c)
  {
  }

  lemma {:induction false} AppendNewConcat(ks: seq<string>, a: seq<string>, b: seq<string>)
    ensures AppendNew(AppendNew(ks, a), b) == AppendNew(ks, a + b)
    decreases |b|
  {
    if |b| == 0 {
      assert a + b == a;
    } else {
      var binit := b[..|b| - 1];
      AppendNewConcat(ks, a, binit);
      assert (a + b)[..|a + b| - 1] == a + binit;
    }
  }

  /** `Write`. */
  function Write(m: TypeMap, enc: Encoders): (r: Result<Json, WriteError>)
    ensures Compacts(m) ==> r == Success(JString(LinkHref(m).value))
    ensures r.Success? && r.value.JString? ==> Compacts(m)
    ensures !Compacts(m) ==> (r.Failure? <==> !AllObjects(m.entities))
    ensures !Compacts(m) && r.Success? ==> r.value.JObject?
    ensures r.Failure? ==> r.error == NotObjectError(m.entities[FirstNonObject(m.entities).value])
    ensures !Compacts(m) && r.Success? ==>
      && NoDuplicateKeys(r.value.props)
      && Keys(r.value.props) == AppendNew(AppendNew(HeaderKeys(m), Keys(UnmappedProps(m))), EntityKeys(m.entities))
      && PropMap(r.value.props) == HeaderMap(m, enc) + PropMap(UnmappedProps(m)) + FieldsMap(m.entities)
  {
    match TryWriteAsLink(m)
    case Some(s) => Success(s)
    case None =>
      var obj := WriteTypeMap(m, enc);
      var props :- WriteEntities(obj, m.entities);
      WriteEntitiesMerges(obj, m.entities);
      Success(JObject(props))
  }
}
