# TypeMap JSON conversion in ActivityPubSharp, as a Dafny model

ActivityPubSharp represents an ActivityStreams object as a *type graph*: a
`TypeMap` node that holds one singleton *entity* per class that the node
"is". For example, a Create activity holds an `ASObjectEntity`, an
`ASActivityEntity` and a `CreateActivityEntity`. The node also records:

- its list of ActivityStreams type names;
- its JSON-LD context;
- the properties that matched no entity ("unmapped").

`TypeMapConverter` turns JSON into a node and a node back into JSON:

- Reading dispatches on the kind of JSON value. A string is the compact form
  of a Link. An object goes to the graph reader. Anything else is an error.
- Writing first tries the compact Link string. Otherwise it builds one JSON
  object: first `type` and `@context`, then the unmapped properties, then
  every entity's serialised fields, in order. A later write of a name
  replaces the earlier value in place.

This project models that converter along with the pieces it depends on:

- the attribute defaults of `ASEntity` and how `ASEntity<TModel,TEntity>`
  forwards them to its model;
- the bookkeeping for adding an entity to a node: singletons, type names,
  base-type suppression and context merge;
- the `LinkRel` converter;
- the anonymous extension that the test suite uses to exercise the converter
  (`AnonymousExtensionFake`).

Modules, in dependency order:

| file | contents |
|---|---|
| `Wrappers.dfy` | `Option` and `Result` |
| `Json.dfy` | JSON values; objects as ordered property lists; the indexer assignment `obj[k] = v` (`Set`); the copy loop (`SetAll`); the last-write-wins view (`PropMap`) |
| `JsonLD.dfy` | JSON-LD contexts; the ActivityStreams context; context merge |
| `Entities.dfy` | entities, their model-defined attributes, their serialised form, the Link contract |
| `Graph.dfy` | the `TypeMap` node; adding an entity; `ProjectTo` |
| `Vocabulary.dfy` | the entities the converter and the examples need: `ASType`, `ASLink`, `Create` |
| `TypeMapConverter.dfy` | `Read`, `ReadString`, `Write`, `TryWriteAsLink`, `WriteTypeMap`, `WriteEntity` |
| `ConverterProperties.dfy` | what the written object contains, and how the string form round-trips |
| `LinkRelConverter.dfy` | the `LinkRel` converter |
| `AnonymousExtension.dfy` | the anonymous extension model and entity |

Collaborators whose code is outside this model appear as parameters:

- the graph reader for object input (`ObjectReader`);
- the serialisers of the type list and of the context (`Encoders`);
- the enclosing context stack, as a sequence whose last element is the top.

## Model

| member | source | states |
|---|---|---|
| TypeMapConverter.Read | Source/ActivityPub.Types/Conversion/Converters/TypeMapConverter.cs:31-47 | A string reads as a Link with that reference in a context whose parent is the innermost enclosing context. An object is handed to the graph reader unchanged. Any other kind fails with "cannot convert from" that kind. |
| TypeMapConverter.ReadString | Source/ActivityPub.Types/Conversion/Converters/TypeMapConverter.cs:49-66 | The node is valid. It holds an `ASTypeEntity` and a Link whose reference is the string. Its type list is exactly `["Link"]`. Its context holds the ActivityStreams IRI and inherits from the top of the stack. It has no unmapped properties, and no entity in it needs object form. |
| TypeMapConverter.AnyRequiresObjectForm | Source/ActivityPub.Types/Conversion/Converters/TypeMapConverter.cs:148 | True iff some entity of the node needs object form. |
| TypeMapConverter.TryWriteAsLink | Source/ActivityPub.Types/Conversion/Converters/TypeMapConverter.cs:141-159 | Yields a value iff all three hold: no unmapped properties, no entity needs object form, and a Link entity is present. The value is the Link's reference as a JSON string. |
| TypeMapConverter.CompactsByClass | Source/ActivityPub.Types/Conversion/Converters/TypeMapConverter.cs:143-153 | On a valid node the link entity found is the entity of the `ASLink` class, so compaction holds iff there are no unmapped properties, no entity needs object form, and `IsModel<ASLink>` holds. |
| TypeMapConverter.WriteHeader | Source/ActivityPub.Types/Conversion/Converters/TypeMapConverter.cs:127-133 | Writes `type` iff the type list is non-empty and `@context` iff the context has a term, in that order, each with its serialiser's value, with no repeated name. |
| TypeMapConverter.WriteTypeMap | Source/ActivityPub.Types/Conversion/Converters/TypeMapConverter.cs:125-139 | The node's own object: header names first, then each new unmapped name in order. Every name is unique. An unmapped property replaces a header value of the same name. |
| TypeMapConverter.WriteEntity | Source/ActivityPub.Types/Conversion/Converters/TypeMapConverter.cs:107-123 | Fails iff the entity does not serialise to an object, with an error naming the entity and the kind produced. Otherwise the entity's fields are copied into the object with indexer semantics. |
| TypeMapConverter.FirstNonObject | Source/ActivityPub.Types/Conversion/Converters/TypeMapConverter.cs:97-101 | Finds an entity iff some entity does not serialise to an object. The entity found is the earliest such one. |
| TypeMapConverter.FirstNonObjectIsUnique | Source/ActivityPub.Types/Conversion/Converters/TypeMapConverter.cs:97-101 | An entity not serialising to an object, with only objects before it, is the one found. |
| TypeMapConverter.WriteEntities | Source/ActivityPub.Types/Conversion/Converters/TypeMapConverter.cs:97-101 | The entity loop succeeds iff every entity serialises to an object. On failure it reports the first entity that does not. |
| TypeMapConverter.WriteEntitiesMerges | Source/ActivityPub.Types/Conversion/Converters/TypeMapConverter.cs:97-101 | After the loop, names stay unique. The existing names keep their order and each new field name is appended in order. Each name holds the value of the last write. |
| TypeMapConverter.Write | Source/ActivityPub.Types/Conversion/Converters/TypeMapConverter.cs:75-105 | A node that compacts is written as its Link reference string, and a string result only ever comes from compaction. Otherwise the result is a JSON object, and writing fails iff some entity is not an object. A written object has unique names in the order header, unmapped, entity fields. Its values are the header, overridden by the unmapped properties, overridden by the entity fields. |
| Json.HasProperty | Test/ActivityPub.Types.Tests/Util/Fakes/AnonymousExtensionFake.cs:53-54 | True iff some property carries the name. |
| Json.PropMap | Source/ActivityPub.Types/Conversion/Converters/TypeMapConverter.cs:121 | Holds exactly the names present. A later property replaces an earlier one of the same name. |
| Json.PropMapOfUnique | Source/ActivityPub.Types/Conversion/Converters/TypeMapConverter.cs:121 | Without repeated names, every property's own value is the one kept. |
| Json.Set | Source/ActivityPub.Types/Conversion/Converters/TypeMapConverter.cs:121 | `obj[k] = v` keeps the position of an existing name, or else appends the name. It keeps names unique, and afterwards `k` maps to `v` with every other name unchanged. |
| Json.AppendNewProperties | Source/ActivityPub.Types/Conversion/Converters/TypeMapConverter.cs:118-122 | Writing names into an object keeps the existing names as a prefix. A name ends up present iff it was there or was written. |
| Json.SetAll | Source/ActivityPub.Types/Conversion/Converters/TypeMapConverter.cs:118-122 | The copy loop's name order is the existing names followed by each new name. Names stay unique. The resulting values are the old ones overridden by the copied ones. |
| JsonLD.CreateASContext | Source/ActivityPub.Types/Conversion/Converters/TypeMapConverter.cs:52-53 | The new context holds the ActivityStreams IRI and keeps the given parent. |
| JsonLD.Merge | Source/ActivityPub.Types/ASEntity.cs:26-30 | Adding an entity's defining context keeps the node's parent and existing terms as a prefix. A term is present afterwards iff it was present in either context. |
| Entities.UntypedDefaults | Source/ActivityPub.Types/ASEntity.cs:19-42 | An entity not bound to a model has no type name and no base type name, and is defined by the ActivityStreams context. |
| Entities.ObjectFormDefault | Source/ActivityPub.Types/ASEntity.cs:44-49 | An entity that does not override `RequiresObjectForm` needs object form. |
| Entities.TypedForwarding | Source/ActivityPub.Types/ASEntity.cs:59-76 | A model-bound entity reports its model's type name, base type name and defining context. |
| Entities.CompactLinkHoldsOnlyHref | Source/ActivityPub.Types/ASEntity.cs:44-46 | A valid Link entity that does not need object form serialises to nothing but its `href`. |
| Graph.HasKind | Source/ActivityPub.Types/Conversion/Converters/TypeMapConverter.cs:152 | `IsModel`: true iff the node holds an entity of that class. |
| Graph.FindKind | Source/ActivityPub.Types/Conversion/Converters/TypeMapConverter.cs:152 | Returns the first entity of the class, and returns one iff the class is present. |
| Graph.RemoveName | Source/ActivityPub.Types/ASEntity.cs:32-42 | Removing a base type name leaves exactly the other names, still without repeats. |
| Graph.InsertName | Source/ActivityPub.Types/ASEntity.cs:19-24 | Adding a type name keeps the list as a prefix and keeps the names a set. |
| Graph.AddEntity | Source/ActivityPub.Types/ASEntity.cs:11-42 | Entities are singletons: adding a class already present fails. Otherwise the entity is appended. When the entity has a type name, its base type name is removed from the list and then its type name joins it. An entity without a type name leaves the list unchanged. Its defining context is merged in. Singletons and the name set are preserved. |
| Graph.AddEntityKeepsValid | Source/ActivityPub.Types/ASEntity.cs:11-13 | Adding a valid entity to a valid node gives a valid node. |
| Graph.BaseTypeSuppressed | Source/ActivityPub.Types/ASEntity.cs:32-36 | An entity's own type name is present afterwards and its base type name is gone. Every other name stays. |
| Graph.UnnamedBaseHasNoEffect | Source/ActivityPub.Types/ASEntity.cs:38-40 | A base type name has no effect on the list when the entity has no type name. |
| Graph.EntitiesAreSingletons | Source/ActivityPub.Types/ASEntity.cs:12-13 | Adding an entity of a class already present fails and reports that class. |
| Graph.ProjectTo | Test/ActivityPub.Types.Tests/Util/Fakes/AnonymousExtensionFake.cs:14-15 | `ProjectTo(isExtending)` fails iff the class is missing and `isExtending` is false, reporting the missing class. An existing entity leaves the node untouched. A missing one is added when extending, and the class is then present. |
| Vocabulary.NewTypeEntity | Source/ActivityPub.Types/Conversion/Converters/TypeMapConverter.cs:57 | The fresh `ASType` entity is valid, has no type name and does not need object form. |
| Vocabulary.NewLinkEntity | Source/ActivityPub.Types/Conversion/Converters/TypeMapConverter.cs:60-63 | A Link holding only its reference is valid, is typed `Link`, and does not need object form. |
| Vocabulary.NewCreateEntity | Source/ActivityPub.Types/AS/Extended/Activity/CreateActivity.cs:12-18 | A Create entity is typed `Create` with base `Activity`, and needs object form. |
| Vocabulary.CreateHidesActivity | Source/ActivityPub.Types/AS/Extended/Activity/CreateActivity.cs:12-18 | Extending a node with Create lists `Create` and no longer lists `Activity`. |
| ConverterProperties.EntityKeysMembership | Source/ActivityPub.Types/Conversion/Converters/TypeMapConverter.cs:97-101 | A name is among the entity fields iff some entity writes it. |
| ConverterProperties.FieldsMapDomain | Source/ActivityPub.Types/Conversion/Converters/TypeMapConverter.cs:97-101 | The merged entity fields hold exactly the names some entity writes. |
| ConverterProperties.FieldsMapLastWriter | Source/ActivityPub.Types/Conversion/Converters/TypeMapConverter.cs:97-101 | Among the entity fields, a name holds the value of the last entity that writes it. |
| ConverterProperties.WrittenNames | Source/ActivityPub.Types/Conversion/Converters/TypeMapConverter.cs:91-101 | A name is in the written object iff it is a header name, an unmapped name or an entity field name. |
| ConverterProperties.WriteTypeProperty | Source/ActivityPub.Types/Conversion/Converters/TypeMapConverter.cs:127-129 | Unless something else writes `type`, it is present iff the type list is non-empty, and it holds the serialised list. |
| ConverterProperties.WriteContextProperty | Source/ActivityPub.Types/Conversion/Converters/TypeMapConverter.cs:131-133 | Unless something else writes `@context`, it is present iff the context has a term, and it holds the serialised context. |
| ConverterProperties.UnmappedPropertiesWritten | Source/ActivityPub.Types/Conversion/Converters/TypeMapConverter.cs:135-138 | Every unmapped property is written. It keeps its value unless an entity writes the same name. |
| ConverterProperties.LaterEntityWins | Source/ActivityPub.Types/Conversion/Converters/TypeMapConverter.cs:97-101 | When several entities write a name, the written object holds the value of the last of them, over the node's own properties too. |
| ConverterProperties.UntouchedNamesKeepValue | Source/ActivityPub.Types/Conversion/Converters/TypeMapConverter.cs:94-101 | A name no entity writes has the same presence and value as in the node's own object. |
| ConverterProperties.NodePropertiesComeFirst | Source/ActivityPub.Types/Conversion/Converters/TypeMapConverter.cs:91-101 | The node's own names come first, in their order, and entity fields only add names after them. |
| ConverterProperties.LinkShorthandRoundTrip | Source/ActivityPub.Types/Conversion/Converters/TypeMapConverter.cs:49-66 | Whatever the serialisers, a string read as a Link writes back as that same string. |
| ConverterProperties.CompactFormReadsBack | Source/ActivityPub.Types/Conversion/Converters/TypeMapConverter.cs:141-159 | Reading the string a valid node compacts to gives back a node with the same Link reference. That reference was the Link's only data. |
| ConverterProperties.CreateWritesSingleType | Source/ActivityPub.Types/AS/Extended/Activity/CreateActivity.cs:12-18 | An `Activity` node extended with Create, written with the usual scalar-or-array serialisers, has `"type": "Create"` rather than both names. |
| LinkRelConverter.Read | Source/ActivityPub.Types/Conversion/Converters/LinkRelConverter.cs:16-21 | Null reads as no relation. A string reads as the relation with that value. Every other token fails, naming its kind. Each holds in both directions. |
| LinkRelConverter.Write | Source/ActivityPub.Types/Conversion/Converters/LinkRelConverter.cs:24-25 | A relation is written as a JSON string. |
| LinkRelConverter.WriteThenRead | Source/ActivityPub.Types/Conversion/Converters/LinkRelConverter.cs:16-25 | Reading what was written gives the same relation. |
| LinkRelConverter.ReadThenWrite | Source/ActivityPub.Types/Conversion/Converters/LinkRelConverter.cs:16-25 | Writing a relation that was read gives the same token back. |
| AnonymousExtension.ShouldConvertFrom | Test/ActivityPub.Types.Tests/Util/Fakes/AnonymousExtensionFake.cs:47-55 | Never true for a non-object. For an object, true iff it has an `ExtendedString` or an `ExtendedInt` property. |
| AnonymousExtension.NewExtensionEntity | Test/ActivityPub.Types.Tests/Util/Fakes/AnonymousExtensionFake.cs:42-45 | A fresh extension entity has `ExtendedString = ""` and `ExtendedInt = 0`. It has no type name of its own and needs object form. |
| AnonymousExtension.Attach | Test/ActivityPub.Types.Tests/Util/Fakes/AnonymousExtensionFake.cs:14-15 | The constructor `AnonymousExtensionFake(typeMap, isExtending)` fails iff the node lacks the extension entity and `isExtending` is false. Otherwise the node holds the entity afterwards: an existing one is reused unchanged, and a new one is appended with default fields, leaving the type list unchanged. |
| AnonymousExtension.SetExtendedString | Test/ActivityPub.Types.Tests/Util/Fakes/AnonymousExtensionFake.cs:29-33 | Setting then getting gives the value set. The other field and every other entity are unchanged. |
| AnonymousExtension.SetExtendedInt | Test/ActivityPub.Types.Tests/Util/Fakes/AnonymousExtensionFake.cs:35-39 | Setting then getting gives the value set. The other field and every other entity are unchanged. |
| AnonymousExtension.WrittenExtensionActivates | Test/ActivityPub.Types.Tests/Util/Fakes/AnonymousExtensionFake.cs:47-55 | A node carrying the extension is always written as an object, and reading that object activates the extension again. |
| AnonymousExtension.ExtensionFieldNames | Test/ActivityPub.Types.Tests/Util/Fakes/AnonymousExtensionFake.cs:44-45 | The extension entity writes both an `ExtendedString` and an `ExtendedInt` field. |

## Left out

- JSON reading and writing through `Utf8JsonReader`/`Utf8JsonWriter`, `JsonElement` and `JsonNode`: JSON is a tree value here. Numbers are integers, because no converter here inspects a fractional number.
- Object input (`ReadObject`, `TypeGraphReader`) is a parameter. Choosing entities from `type`, activating anonymous extensions on read, and pushing the object's own context are its business, and its code is not part of this model.
- `NestedContextStack` is a sequence of contexts whose last element is `Peek()`. JSON-LD context internals beyond a term list and a parent are not modelled.
- The serialisation of the type list and of the context (`SerializeToNode`) is the `Encoders` parameter, because the converters for those types are not part of this model. `ConverterProperties.WireEncoders` is one sample: scalar for one entry, an array otherwise.
- How an entity serialises (`SerializeToElement` with its converter and options) is abstract. An entity carries a `Payload` whose serialised form is given. Only the Link fields and the extension's two fields are spelt out.
- The per-entity `UnmappedProperties` bag (ASEntity.cs:56) is not a separate field. It appears only through the entity's serialised fields.
- The code of `TypeMap` (`Extend`, `ProjectTo`, `AsEntity`, the `AllEntities` dictionary) is not part of this model. `Graph.AddEntity` models `Extend` and `Graph.ProjectTo` models `ProjectTo` from their documented contracts. `AsEntity` is not modelled. `Graph.AddEntity` follows the documented behaviour: singleton entities, base type name removed and type name added only when there is a type name, defining context merged. `AllEntities` order is taken to be insertion order.
- Graph.AddEntity: for an entity whose base type name equals its own type name, the name stays in the list, because removal comes before insertion. Such a self-referential base is a registry configuration error, and `BaseTypeSuppressed` states suppression only for a base name that differs.
- Graph.AddEntity: a context term already present is not added again, because the merge is modelled as set union over an ordered term list.
- Vocabulary: only `ASType`, `ASLink` and `Create` are spelt out. The other vocabulary classes follow the same pattern and are not needed by the converter.
- Vocabulary.NewTypeEntity: the fresh `ASTypeEntity` is assumed not to need object form. Its class is not part of this model, and the compact Link form could not round-trip otherwise.
- AnonymousExtension.Attach: the constructor's `base(typeMap, false)` chain into `ASObject` is not modelled. That chain projects to `ASObjectEntity` without extending, the same pattern as CreateActivity.cs:24-25, so the source constructor also fails when the node has no `ASObjectEntity`. The model's "fails iff" covers only the extension's own entity, and only that entity is attached.
- The `AnonymousExtensionFake(ASType existingGraph)` constructor (AnonymousExtensionFake.cs:18) calls the first constructor on `existingGraph.TypeMap` with `isExtending = true`. It is therefore `AnonymousExtension.Attach(existingGraph.TypeMap, true)`.
- The `AnonymousExtensionFake(TypeMap, entity)` constructor (AnonymousExtensionFake.cs:22-23) and the static `FromGraph` (AnonymousExtensionFake.cs:25) are not modelled. They use the given entity as is, or, when it is null, the node's existing one through `AsEntity`. They add no behaviour the converter depends on.
- AnonymousExtension.SetExtendedInt: `ExtendedInt` is a 32-bit `int`, modelled as the bounded newtype `int32`. There is no arithmetic on it, so no wrap-around arises.
- Exceptions are `Failure` values of a `Result`.
- TypeMapConverter.ReadString: `ASLink.HRef` is stored as the raw string. Parsing the string on assignment (TypeMapConverter.cs:62) and rendering it with `ToString()` (TypeMapConverter.cs:156) are both taken as the identity, because the reference type's code is not part of this model.
- ConverterProperties.LinkShorthandRoundTrip: holds for every string only because of that identity. For a reference type that normalises on parsing, it would hold only for strings already in normal form.
- TypeMapConverter.TryWriteAsLink: detects the link by its link payload rather than by class. `CompactsByClass` shows that the two agree on valid nodes, where link data sits exactly on the `ASLinkEntity` class.
- Json.Set: property names match by exact, case-sensitive string equality, with no naming policy. This is the behaviour of the default serializer options (`JsonSerializerOptions.Default`, Test/ActivityPub.Types.Tests/Unit/Conversion/Converters/JsonConverterTests.cs:13). Under `PropertyNameCaseInsensitive` node options (TypeMapConverter.cs:82, 91), an entity field `Type` would replace `type`; the model does not cover this.

Two behaviours of the writer worth knowing:

- `@context` is written whenever the node's context has a term (TypeMapConverter.cs:132), including a context identical to its parent's.
- Unmapped properties are written before the entity fields (TypeMapConverter.cs:94-101), so a same-named entity field replaces them.
