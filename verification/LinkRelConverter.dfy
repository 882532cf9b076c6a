/** `LinkRelConverter`: a link relation is written as a JSON string and read
    back from one; JSON null reads as no relation. */
module LinkRelConverter {
  import opened Wrappers
  import opened Json

  datatype LinkRel = LinkRel(value: string)

  /** The offending token, by the kind of JSON value it starts: the reader's
      `StartObject`, `StartArray`, `Number`, `True` and `False` tokens are
      `Object`, `Array`, `Number`, `True` and `False` here. */
  datatype ReadError = CannotParseLinkRel(token: ValueKind)

  /** `Read`: null gives null, a string gives a relation, any other token fails. */
  function Read(token: Json): (r: Result<Option<LinkRel>, ReadError>)
    ensures r == Success(None) <==> token.JNull?
    ensures (r.Success? && r.value.Some?) <==> token.JString?
    ensures token.JString? ==> r.value.value.value == token.str
    ensures r.Failure? <==> !token.JNull? && !token.JString?
    ensures r.Failure? ==> r.error == CannotParseLinkRel(KindOf(token))
  {
    match token
    case JNull => Success(None)
    case JString(s) => Success(Some(LinkRel(s)))
    case _ => Failure(CannotParseLinkRel(KindOf(token)))
  }

  /** `Write`: the relation's value as a JSON string. */
  function Write(rel: LinkRel): (j: Json)
    ensures KindOf(j) == String
  {
    JString(rel.value)
  }

  /** Reading what was written gives the same relation back. */
  lemma WriteThenRead(rel: LinkRel)
    ensures Read(Write(rel)) == Success(Some(rel))
  {
  }

  /** Writing what was read gives the same token back. */
  lemma ReadThenWrite(token: Json)
    requires Read(token).Success? && Read(token).value.Some?
    ensures Write(Read(token).value.value) == token
  {
  }
}
