/** The JSON-LD context a node carries (`JsonLDContext`). Its internals are
    not part of this model: a context is a list of context entries, each kept
    as the JSON it is written as, plus the parent context it inherits from. */
module JsonLD {
  import opened Wrappers
  import opened Json

  datatype LDContext = LDContext(terms: seq<Json>, parent: Option<LDContext>) {
    /** `LDContext.Count`: the number of entries this context itself holds. */
    function Count(): nat {
      |terms|
    }
  }

  /** IRI of the ActivityStreams 2.0 vocabulary context. */
  const ActivityStreamsIri: string := "https://www.w3.org/ns/activitystreams"

  /** `IJsonLDContext.ActivityStreams`. */
  const ActivityStreams: LDContext := LDContext([JString(ActivityStreamsIri)], None)

  /** `JsonLDContext.CreateASContext(parent)`: the ActivityStreams context,
      inheriting from `parent`. */
  function CreateASContext(parent: Option<LDContext>): (c: LDContext)
    ensures c.parent == parent
    ensures JString(ActivityStreamsIri) in c.terms
  {
    LDContext(ActivityStreams.terms, parent)
  }

  /** Adding the entries of `d` that `c` does not hold yet, keeping `c`'s
      parent: how a node's context grows when it gains an entity. */
  function Merge(c: LDContext, d: LDContext): (r: LDContext)
    ensures r.parent == c.parent
    ensures |r.terms| >= |c.terms| && r.terms[..|c.terms|] == c.terms
    ensures forall t :: t in r.terms <==> t in c.terms || t in d.terms
    decreases |d.terms|
  {
    if |d.terms| == 0 then c
    else
      var init := LDContext(d.terms[..|d.terms| - 1], d.parent);
      var t := d.terms[|d.terms| - 1];
      var prev := Merge(c, init);
      assert d.terms == init.terms + [t];
      if t in prev.terms then prev else LDContext(prev.terms + [t], prev.parent)
  }
}
