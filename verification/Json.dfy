/** The generic JSON tree the converters read from and write to (what
    System.Text.Json exposes as JsonElement and JsonNode). An object is an
    ordered list of properties: a parsed element may carry a name twice, an
    object built through the node API never does. */
module Json {

  datatype Json =
    | JNull
    | JBool(b: bool)
    | JNumber(n: int)
    | JString(str: string)
    | JArray(items: seq<Json>)
    | JObject(props: Props)

  type Props = seq<(string, Json)>

  /** JsonValueKind: what a converter dispatches on. */
  datatype ValueKind = Object | Array | String | Number | True | False | Null

  function KindOf(j: Json): ValueKind {
    match j
    case JNull => Null
    case JBool(b) => if b then True else False
    case JNumber(_) => Number
    case JString(_) => String
    case JArray(_) => Array
    case JObject(_) => Object
  }

  /** Property names in order of appearance. */
  function Keys(ps: Props): (ks: seq<string>)
    ensures |ks| == |ps|
    ensures forall i :: 0 <= i < |ps| ==> ks[i] == ps[i].0
  {
    seq(|ps|, i requires 0 <= i < |ps| => ps[i].0)
  }

  ghost predicate NoDuplicateKeys(ps: Props) {
    forall i, j :: 0 <= i < j < |ps| ==> ps[i].0 != ps[j].0
  }

  /** `HasProperty`: some property of the object carries `name`. */
  function HasProperty(ps: Props, name: string): (r: bool)
    ensures r <==> exists i :: 0 <= i < |ps| && ps[i].0 == name
  {
    if |ps| == 0 then false
    else if ps[0].0 == name then true
    else
      var rest := HasProperty(ps[1..], name);
      assert rest ==> exists i :: 0 <= i < |ps| && ps[i].0 == name by {
        if rest {
          var i :| 0 <= i < |ps[1..]| && ps[1..][i].0 == name;
          assert ps[i + 1].0 == name;
        }
      }
      rest
  }

  /** The value each name maps to when the properties are read in order and a
      later property replaces an earlier one of the same name. */
  function PropMap(ps: Props): (r: map<string, Json>)
    ensures forall k :: k in r <==> k in Keys(ps)
    decreases |ps|
  {
    if |ps| == 0 then map[]
    else
      var init := ps[..|ps| - 1];
      assert Keys(ps) == Keys(init) + [ps[|ps| - 1].0];
      PropMap(init)[ps[|ps| - 1].0 := ps[|ps| - 1].1]
  }

  /** Without repeated names, each property's own value is the one kept. */
  lemma {:induction false} PropMapOfUnique(ps: Props)
    requires NoDuplicateKeys(ps)
    ensures forall i :: 0 <= i < |ps| ==> ps[i].0 in PropMap(ps) && PropMap(ps)[ps[i].0] == ps[i].1
    decreases |ps|
  {
    if |ps| > 0 {
      var init := ps[..|ps| - 1];
      PropMapOfUnique(init);
    }
  }

  /** Position of the first property called `k`. */
  function IndexOfKey(ps: Props, k: string): (i: nat)
    requires k in Keys(ps)
    ensures i < |ps| && ps[i].0 == k
    ensures forall j :: 0 <= j < i ==> ps[j].0 != k
  {
    if ps[0].0 == k then 0
    else
      assert k in Keys(ps[1..]) by {
        var j :| 0 <= j < |ps| && Keys(ps)[j] == k;
        assert Keys(ps[1..])[j - 1] == k;
      }
      1 + IndexOfKey(ps[1..], k)
  }

  lemma {:induction false} PropMapUpdate(ps: Props, i: nat, v: Json)
    requires NoDuplicateKeys(ps)
    requires i < |ps|
    ensures PropMap(ps[i := (ps[i].0, v)]) == PropMap(ps)[ps[i].0 := v]
    decreases |ps|
  {
    var n := |ps|;
    var qs := ps[i := (ps[i].0, v)];
    var init := ps[..n - 1];
    if i == n - 1 {
      assert qs[..n - 1] == init;
    } else {
      var last := ps[n - 1];
      assert qs[..n - 1] == init[i := (init[i].0, v)];
      assert qs[n - 1] == last;
      NoDuplicateKeysPrefix(ps, n - 1);
      PropMapUpdate(init, i, v);
      assert last.0 != ps[i].0;
      assert PropMap(qs) == PropMap(init)[ps[i].0 := v][last.0 := last.1];
      assert PropMap(ps) == PropMap(init)[last.0 := last.1];
    }
  }

  lemma NoDuplicateKeysPrefix(ps: Props, n: nat)
    requires NoDuplicateKeys(ps) && n <= |ps|
    ensures NoDuplicateKeys(ps[..n])
  {
    forall a, b | 0 <= a < b < n
      ensures ps[..n][a].0 != ps[..n][b].0
    {
      assert ps[..n][a] == ps[a] && ps[..n][b] == ps[b];
    }
  }

  /** `obj[k] = v` on a JsonObject: an existing property keeps its position
      and takes the new value; a new name is appended. */
  function Set(ps: Props, k: string, v: Json): (r: Props)
    ensures Keys(r) == if k in Keys(ps) then Keys(ps) else Keys(ps) + [k]
    ensures NoDuplicateKeys(ps) ==> NoDuplicateKeys(r)
    ensures NoDuplicateKeys(ps) ==> PropMap(r) == PropMap(ps)[k := v]
  {
    if k in Keys(ps) then
      var i := IndexOfKey(ps, k);
      var r := ps[i := (k, v)];
      assert Keys(r) == Keys(ps);
      assert NoDuplicateKeys(ps) ==> PropMap(r) == PropMap(ps)[k := v] by {
        if NoDuplicateKeys(ps) {
          PropMapUpdate(ps, i, v);
        }
      }
      r
    else
      var r := ps + [(k, v)];
      assert r[..|r| - 1] == ps;
      assert Keys(r) == Keys(ps) + [k];
      assert NoDuplicateKeys(ps) ==> NoDuplicateKeys(r) by {
        if NoDuplicateKeys(ps) {
          forall i | 0 <= i < |ps|
            ensures ps[i].0 != k
          {
            assert Keys(ps)[i] == ps[i].0;
          }
        }
      }
      r
  }

  /** `ks` followed by each name of `extra` not already present, in order:
      the name order that writing the properties `extra` into an object with
      names `ks` produces. */
  function AppendNew(ks: seq<string>, extra: seq<string>): (r: seq<string>)
    decreases |extra|
  {
    if |extra| == 0 then ks
    else
      var prev := AppendNew(ks, extra[..|extra| - 1]);
      if extra[|extra| - 1] in prev then prev else prev + [extra[|extra| - 1]]
  }

  /** Existing names keep their places at the front; a name ends up present
      iff it was already there or is written. */
  lemma {:induction false} AppendNewProperties(ks: seq<string>, extra: seq<string>)
    ensures |AppendNew(ks, extra)| >= |ks| && AppendNew(ks, extra)[..|ks|] == ks
    ensures forall x :: x in AppendNew(ks, extra) <==> x in ks || x in extra
    decreases |extra|
  {
    if |extra| > 0 {
      var init := extra[..|extra| - 1];
      AppendNewProperties(ks, init);
      assert extra == init + [extra[|extra| - 1]];
    }
  }

  /** The copy loop `foreach (k, v) in ps: obj[k] = v`. */
  function SetAll(obj: Props, ps: Props): (r: Props)
    ensures Keys(r) == AppendNew(Keys(obj), Keys(ps))
    ensures NoDuplicateKeys(obj) ==> NoDuplicateKeys(r)
    ensures NoDuplicateKeys(obj) ==> PropMap(r) == PropMap(obj) + PropMap(ps)
    decreases |ps|
  {
    if |ps| == 0 then obj
    else
      var init := ps[..|ps| - 1];
      var last := ps[|ps| - 1];
      var prev := SetAll(obj, init);
      assert Keys(init) == Keys(ps)[..|ps| - 1];
      var r := Set(prev, last.0, last.1);
      assert NoDuplicateKeys(obj) ==> PropMap(r) == PropMap(obj) + PropMap(ps) by {
        if NoDuplicateKeys(obj) {
          assert PropMap(ps) == PropMap(init)[last.0 := last.1];
          MapUnionUpdate(PropMap(obj), PropMap(init), last.0, last.1);
        }
      }
      r
  }

  lemma MapUnionUpdate<K, V>(a: map<K, V>, b: map<K, V>, k: K, v: V)
    ensures (a + b)[k := v] == a + b[k := v]
  {
  }
}
