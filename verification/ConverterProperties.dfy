/** What `TypeMapConverter.Write` promises about the object it builds, and
    how its string form and `Read` invert each other. */
module ConverterProperties {
  import opened Wrappers
  import opened Json
  import opened JsonLD
  import opened Entities
  import opened Graph
  import opened Vocabulary
  import opened TypeMapConverter

  /** A name is an entity field name iff some entity writes it. */
  lemma {:induction false} EntityKeysMembership(es: seq<Entity>, k: string)
    ensures k in EntityKeys(es) <==> exists i :: 0 <= i < |es| && k in Keys(EntityProps(es[i]))
    decreases |es|
  {
    if |es| > 0 {
      var init := es[..|es| - 1];
      var last := es[|es| - 1];
      EntityKeysMembership(init, k);
      assert EntityKeys(es) == EntityKeys(init) + Keys(EntityProps(last));
      if k in EntityKeys(init) {
        var i :| 0 <= i < |init| && k in Keys(EntityProps(init[i]));
        assert init[i] == es[i];
      } else if k !in Keys(EntityProps(last)) {
        forall i | 0 <= i < |es|
          ensures k !in Keys(EntityProps(es[i]))
        {
          if i < |init| {
            assert init[i] == es[i];
          }
        }
      }
    }
  }

  lemma {:induction false} FieldsMapDomain(es: seq<Entity>)
    ensures forall k :: k in FieldsMap(es) <==> k in EntityKeys(es)
    decreases |es|
  {
    if |es| > 0 {
      FieldsMapDomain(es[..|es| - 1]);
    }
  }

  /** In the merged entity fields a name holds the value of the last entity
      that writes it. */
  lemma {:induction false} FieldsMapLastWriter(es: seq<Entity>, i: nat, k: string)
    requires i < |es| && k in Keys(EntityProps(es[i]))
    requires forall j :: i < j < |es| ==> k !in Keys(EntityProps(es[j]))
    ensures k in FieldsMap(es) && FieldsMap(es)[k] == PropMap(EntityProps(es[i]))[k]
    decreases |es|
  {
    var init := es[..|es| - 1];
    if i < |es| - 1 {
      assert init[i] == es[i];
      assert forall j :: i < j < |init| ==> init[j] == es[j];
      FieldsMapLastWriter(init, i, k);
    }
  }

  /** The object `Write` produces when the node does not compact. */
  function Output(m: TypeMap, enc: Encoders): Props
    requires !Compacts(m) && AllObjects(m.entities)
  {
    Write(m, enc).value.props
  }

  /** A name appears in the output iff the node writes it as `type` or
      `@context`, it is an unmapped property, or some entity writes it. */
  lemma WrittenNames(m: TypeMap, enc: Encoders, k: string)
    requires !Compacts(m) && AllObjects(m.entities)
    ensures k in Keys(Output(m, enc)) <==>
      k in HeaderKeys(m) || k in Keys(UnmappedProps(m)) || k in EntityKeys(m.entities)
  {
    AppendNewProperties(HeaderKeys(m), Keys(UnmappedProps(m)));
    AppendNewProperties(AppendNew(HeaderKeys(m), Keys(UnmappedProps(m))), EntityKeys(m.entities));
  }

  /** `type` is written iff the type list is non-empty, unless an unmapped
      property or an entity field supplies that name; when none does, it is
      the serialised type list. */
  lemma WriteTypeProperty(m: TypeMap, enc: Encoders)
    requires !Compacts(m) && AllObjects(m.entities)
    requires "type" !in Keys(UnmappedProps(m)) && "type" !in EntityKeys(m.entities)
    ensures "type" in Keys(Output(m, enc)) <==> |m.types| > 0
    ensures |m.types| > 0 ==> PropMap(Output(m, enc))["type"] == enc.types(m.types)
  {
    WrittenNames(m, enc, "type");
    FieldsMapDomain(m.entities);
    var out := PropMap(Output(m, enc));
    assert out == HeaderMap(m, enc) + PropMap(UnmappedProps(m)) + FieldsMap(m.entities);
    assert "type" !in PropMap(UnmappedProps(m)) && "type" !in FieldsMap(m.entities);
  }

  /** `@context` is written iff the node's own context is non-empty, under
      the same proviso. */
  lemma WriteContextProperty(m: TypeMap, enc: Encoders)
    requires !Compacts(m) && AllObjects(m.entities)
    requires "@context" !in Keys(UnmappedProps(m)) && "@context" !in EntityKeys(m.entities)
    ensures "@context" in Keys(Output(m, enc)) <==> m.context.Count() > 0
    ensures m.context.Count() > 0 ==> PropMap(Output(m, enc))["@context"] == enc.context(m.context)
  {
    WrittenNames(m, enc, "@context");
    FieldsMapDomain(m.entities);
    var out := PropMap(Output(m, enc));
    assert out == HeaderMap(m, enc) + PropMap(UnmappedProps(m)) + FieldsMap(m.entities);
    assert "@context" !in PropMap(UnmappedProps(m)) && "@context" !in FieldsMap(m.entities);
  }

  /** Every unmapped property is written; it keeps its value unless an
      entity writes a field of the same name. */
  lemma UnmappedPropertiesWritten(m: TypeMap, enc: Encoders, i: nat)
    requires Valid(m)
    requires !Compacts(m) && AllObjects(m.entities)
    requires i < |UnmappedProps(m)|
    ensures UnmappedProps(m)[i].0 in Keys(Output(m, enc))
    ensures UnmappedProps(m)[i].0 !in EntityKeys(m.entities) ==>
      PropMap(Output(m, enc))[UnmappedProps(m)[i].0] == UnmappedProps(m)[i].1
  {
    var k := UnmappedProps(m)[i].0;
    assert Keys(UnmappedProps(m))[i] == k;
    WrittenNames(m, enc, k);
    FieldsMapDomain(m.entities);
    PropMapOfUnique(UnmappedProps(m));
  }

  /** On a name several entities write, the last of them in `AllEntities`
      order wins, over the node's own properties too. */
  lemma LaterEntityWins(m: TypeMap, enc: Encoders, i: nat, k: string)
    requires !Compacts(m) && AllObjects(m.entities)
    requires i < |m.entities| && k in Keys(EntityProps(m.entities[i]))
    requires forall j :: i < j < |m.entities| ==> k !in Keys(EntityProps(m.entities[j]))
    ensures k in Keys(Output(m, enc))
    ensures PropMap(Output(m, enc))[k] == PropMap(EntityProps(m.entities[i]))[k]
  {
    EntityKeysMembership(m.entities, k);
    WrittenNames(m, enc, k);
    FieldsMapLastWriter(m.entities, i, k);
  }

  /** A name no entity writes keeps the value the node's own properties gave it. */
  lemma UntouchedNamesKeepValue(m: TypeMap, enc: Encoders, k: string)
    requires !Compacts(m) && AllObjects(m.entities)
    requires k !in EntityKeys(m.entities)
    ensures k in PropMap(Output(m, enc)) <==> k in PropMap(WriteTypeMap(m, enc))
    ensures k in PropMap(WriteTypeMap(m, enc)) ==>
      PropMap(Output(m, enc))[k] == PropMap(WriteTypeMap(m, enc))[k]
  {
    FieldsMapDomain(m.entities);
  }

  /** The node's own properties come first, in the order they were written,
      and entity fields only add names after them. */
  lemma NodePropertiesComeFirst(m: TypeMap, enc: Encoders)
    requires !Compacts(m) && AllObjects(m.entities)
    ensures |Keys(Output(m, enc))| >= |Keys(WriteTypeMap(m, enc))|
    ensures Keys(Output(m, enc))[..|Keys(WriteTypeMap(m, enc))|] == Keys(WriteTypeMap(m, enc))
  {
    AppendNewProperties(Keys(WriteTypeMap(m, enc)), EntityKeys(m.entities));
  }

  /** A string read as a Link writes back as the same string. */
  lemma LinkShorthandRoundTrip(s: string, stack: seq<LDContext>, enc: Encoders)
    ensures Write(ReadString(s, stack), enc) == Success(JString(s))
  {
    var m := ReadString(s, stack);
    var i := FindLink(m.entities).value;
    assert Compacts(m);
  }

  /** Reading the string form of a compacted node gives back a Link with the
      same reference, and for a valid node that reference was the link's
      only data. */
  lemma CompactFormReadsBack(m: TypeMap, enc: Encoders, stack: seq<LDContext>, readObject: ObjectReader)
    requires Valid(m) && Compacts(m)
    ensures Write(m, enc).Success? && Write(m, enc).value.JString?
    ensures Read(Write(m, enc).value, stack, readObject).Success?
    ensures LinkHref(Read(Write(m, enc).value, stack, readObject).value) == LinkHref(m)
    ensures Serialize(m.entities[FindLink(m.entities).value].payload)
      == JObject([("href", JString(LinkHref(m).value))])
  {
    var i := FindLink(m.entities).value;
    CompactLinkHoldsOnlyHref(m.entities[i]);
  }

  /** The documented wire shape of the type list and of the context: a
      single entry as itself, several as an array. */
  function TypeListJson(types: seq<string>): Json {
    if |types| == 1 then JString(types[0])
    else JArray(seq(|types|, i requires 0 <= i < |types| => JString(types[i])))
  }

  function ContextJson(c: LDContext): Json {
    if |c.terms| == 1 then c.terms[0] else JArray(c.terms)
  }

  const WireEncoders: Encoders := Encoders(TypeListJson, ContextJson)

  /** Extending an Activity with Create writes `"type": "Create"`, never
      the pair of names. */
  lemma CreateWritesSingleType(m: TypeMap)
    requires m.types == ["Activity"]
    requires !HasKind(m.entities, NewCreateEntity().kind)
    requires AllObjects(m.entities)
    requires "type" !in Keys(UnmappedProps(m)) && "type" !in EntityKeys(m.entities)
    ensures Write(AddEntity(m, NewCreateEntity()).value, WireEncoders).Success?
    ensures Write(AddEntity(m, NewCreateEntity()).value, WireEncoders).value.JObject?
    ensures "type" in PropMap(Write(AddEntity(m, NewCreateEntity()).value, WireEncoders).value.props)
    ensures PropMap(Write(AddEntity(m, NewCreateEntity()).value, WireEncoders).value.props)["type"]
      == JString("Create")
  {
    var e := NewCreateEntity();
    var n := AddEntity(m, e).value;
    assert RemoveName(["Activity"], "Activity") == [];
    assert n.types == ["Create"];
    assert !Compacts(n) by {
      assert n.entities[|n.entities| - 1] == e;
    }
    assert AllObjects(n.entities) by {
      assert forall j :: 0 <= j < |m.entities| ==> n.entities[j] == m.entities[j];
    }
    assert EntityKeys(n.entities) == EntityKeys(m.entities) + Keys(EntityProps(e)) by {
      assert n.entities[..|n.entities| - 1] == m.entities;
    }
    assert Keys(EntityProps(e)) == [];
    WriteTypeProperty(n, WireEncoders);
  }
}
