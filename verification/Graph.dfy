/** `TypeMap`: one node of the object graph. It owns its entities (at most
    one per entity class, in the order they were added), the list of
    ActivityStreams type names it shows, its JSON-LD context and the
    properties no entity claimed. Only the behaviour the entity contract
    fixes is modelled: adding an entity, and projecting to one. */
module Graph {
  import opened Wrappers
  import opened Json
  import opened JsonLD
  import opened Entities

  datatype TypeMap = TypeMap(entities: seq<Entity>, types: seq<string>, context: LDContext, unmapped: Option<Props>)

  datatype GraphError =
    | EntityAlreadyPresent(kind: string)
    | EntityNotFound(kind: string)

  /** `new TypeMap(context)`. */
  function EmptyTypeMap(context: LDContext): TypeMap {
    TypeMap([], [], context, None)
  }

  ghost predicate UniqueKinds(es: seq<Entity>) {
    forall i, j :: 0 <= i < j < |es| ==> es[i].kind != es[j].kind
  }

  ghost predicate NoDuplicates(s: seq<string>) {
    forall i, j :: 0 <= i < j < |s| ==> s[i] != s[j]
  }

  /** The invariants a node keeps: entities are singletons per class, type
      names form a set, unmapped names are dictionary keys, and every entity
      is valid. */
  ghost predicate Valid(m: TypeMap) {
    && UniqueKinds(m.entities)
    && NoDuplicates(m.types)
    && (m.unmapped.Some? ==> NoDuplicateKeys(m.unmapped.value))
    && forall i :: 0 <= i < |m.entities| ==> ValidEntity(m.entities[i])
  }

  /** `IsModel`: the node holds an entity of class `kind`. */
  function HasKind(es: seq<Entity>, kind: string): (r: bool)
    ensures r <==> exists i :: 0 <= i < |es| && es[i].kind == kind
    decreases |es|
  {
    if |es| == 0 then false
    else
      var init := es[..|es| - 1];
      var rest := HasKind(init, kind);
      assert rest ==> exists i :: 0 <= i < |es| && es[i].kind == kind by {
        if rest {
          var i :| 0 <= i < |init| && init[i].kind == kind;
          assert es[i].kind == kind;
        }
      }
      rest || es[|es| - 1].kind == kind
  }

  /** The entity of class `kind`, if the node holds one. */
  function FindKind(es: seq<Entity>, kind: string): (r: Option<nat>)
    ensures r.Some? <==> HasKind(es, kind)
    ensures r.Some? ==> r.value < |es| && es[r.value].kind == kind
    ensures r.Some? ==> forall j :: 0 <= j < r.value ==> es[j].kind != kind
  {
    if |es| == 0 then None
    else if es[0].kind == kind then Some(0)
    else
      match FindKind(es[1..], kind)
      case None =>
        assert forall j :: 0 <= j < |es| - 1 ==> es[1..][j] == es[j + 1];
        None
      case Some(i) => Some(i + 1)
  }

  /** The type list without `x`. */
  function RemoveName(s: seq<string>, x: string): (r: seq<string>)
    ensures forall y :: y in r <==> y in s && y != x
    ensures NoDuplicates(s) ==> NoDuplicates(r)
    ensures |r| <= |s|
  {
    if |s| == 0 then []
    else
      var rest := RemoveName(s[1..], x);
      assert forall y :: y in s <==> y == s[0] || y in s[1..];
      assert NoDuplicates(s) ==> NoDuplicates(s[1..]) && s[0] !in s[1..] by {
        if NoDuplicates(s) {
          forall i | 0 <= i < |s[1..]|
            ensures s[1..][i] != s[0]
          {
            assert s[i + 1] != s[0];
          }
        }
      }
      if s[0] == x then rest else [s[0]] + rest
  }

  /** The type list with `x` added at the end unless already present. */
  function InsertName(s: seq<string>, x: string): (r: seq<string>)
    ensures forall y :: y in r <==> y in s || y == x
    ensures NoDuplicates(s) ==> NoDuplicates(r)
    ensures |r| >= |s| && r[..|s|] == s
  {
    if x in s then s else s + [x]
  }

  /** The type-list bookkeeping of adding `e`, which happens only when `e`
      has a type name: its base type name, if any, is taken out, and then its
      type name joins the list. */
  function UpdateTypes(types: seq<string>, e: Entity): seq<string> {
    match ASTypeName(e)
    case None => types
    case Some(t) =>
      var kept := if BaseTypeName(e).Some? then RemoveName(types, BaseTypeName(e).value) else types;
      InsertName(kept, t)
  }

  /** `TypeMap.Extend`: add `e` to the node. */
  function AddEntity(m: TypeMap, e: Entity): (r: Result<TypeMap, GraphError>)
    ensures r.Failure? <==> HasKind(m.entities, e.kind)
    ensures r.Failure? ==> r.error == EntityAlreadyPresent(e.kind)
    ensures r.Success? ==> r.value.entities == m.entities + [e]
    ensures r.Success? ==> r.value.unmapped == m.unmapped
    ensures r.Success? ==> forall x :: x in r.value.types <==>
      || ASTypeName(e) == Some(x)
      || (x in m.types && !(ASTypeName(e).Some? && BaseTypeName(e) == Some(x)))
    ensures r.Success? && ASTypeName(e).None? ==> r.value.types == m.types
    ensures r.Success? ==> r.value.context.parent == m.context.parent
    ensures r.Success? ==> |r.value.context.terms| >= |m.context.terms|
    ensures r.Success? ==> r.value.context.terms[..|m.context.terms|] == m.context.terms
    ensures r.Success? ==> forall t :: t in r.value.context.terms <==>
      t in m.context.terms || t in DefiningContext(e).terms
    ensures r.Success? && UniqueKinds(m.entities) ==> UniqueKinds(r.value.entities)
    ensures r.Success? && NoDuplicates(m.types) ==> NoDuplicates(r.value.types)
  {
    if HasKind(m.entities, e.kind) then Failure(EntityAlreadyPresent(e.kind))
    else
      var es := m.entities + [e];
      assert UniqueKinds(m.entities) ==> UniqueKinds(es) by {
        forall i | 0 <= i < |m.entities|
          ensures m.entities[i].kind != e.kind
        {
        }
      }
      Success(TypeMap(es, UpdateTypes(m.types, e), Merge(m.context, DefiningContext(e)), m.unmapped))
  }

  /** Adding an entity keeps every invariant of the node. */
  lemma AddEntityKeepsValid(m: TypeMap, e: Entity)
    requires Valid(m)
    requires ValidEntity(e)
    requires AddEntity(m, e).Success?
    ensures Valid(AddEntity(m, e).value)
  {
    var r := AddEntity(m, e).value;
    assert forall i :: 0 <= i < |r.entities| ==> (i < |m.entities| && r.entities[i] == m.entities[i]) || r.entities[i] == e;
  }

  /** Adding an entity that extends another hides the base type name: it is
      gone from the type list even if present before. */
  lemma BaseTypeSuppressed(m: TypeMap, e: Entity, t: string, b: string)
    requires ASTypeName(e) == Some(t) && BaseTypeName(e) == Some(b) && t != b
    requires !HasKind(m.entities, e.kind)
    ensures t in AddEntity(m, e).value.types
    ensures b !in AddEntity(m, e).value.types
    ensures forall x :: x in m.types && x != b ==> x in AddEntity(m, e).value.types
  {
  }

  /** A base type name has no effect when the entity has no type name. */
  lemma UnnamedBaseHasNoEffect(m: TypeMap, e: Entity)
    requires ASTypeName(e).None? && BaseTypeName(e).Some?
    requires !HasKind(m.entities, e.kind)
    ensures AddEntity(m, e).value.types == m.types
  {
  }

  /** Adding an entity whose class is already present fails; the singleton
      per class is never duplicated. */
  lemma EntitiesAreSingletons(m: TypeMap, e: Entity)
    requires HasKind(m.entities, e.kind)
    ensures AddEntity(m, e) == Failure(EntityAlreadyPresent(e.kind))
  {
  }

  /** `ProjectTo(isExtending)`: the node's entity of class `e.kind`. When it
      is missing, it is added as `e` if `isExtending` allows it; otherwise
      the projection fails. */
  function ProjectTo(m: TypeMap, e: Entity, isExtending: bool): (r: Result<TypeMap, GraphError>)
    ensures r.Failure? <==> !isExtending && !HasKind(m.entities, e.kind)
    ensures r.Failure? ==> r.error == EntityNotFound(e.kind)
    ensures r.Success? ==> HasKind(r.value.entities, e.kind)
    ensures HasKind(m.entities, e.kind) ==> r == Success(m)
    ensures !HasKind(m.entities, e.kind) && isExtending ==> r == AddEntity(m, e)
  {
    if HasKind(m.entities, e.kind) then Success(m)
    else if !isExtending then Failure(EntityNotFound(e.kind))
    else
      var r := AddEntity(m, e);
      assert r.value.entities[|r.value.entities| - 1] == e;
      r
  }
}
