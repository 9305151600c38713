/** A payload decoded by the JSON decoder, and the few Python operations the
    script applies to it: truthiness, subscripting with a string key,
    `dict.get`, and iteration by `list.extend`. */
module Json {
  import opened Wrappers

  /** The exceptions these operations raise; each one ends the run. */
  datatype Error = KeyError | TypeError | ValueError | AttributeError

  type Outcome<T> = Result<T, Error>

  /** JSON numbers are modelled as integers. An object keeps its members in
      document order; a key may repeat, as the decoder accepts that. */
  datatype Json =
    | JNull
    | JBool(b: bool)
    | JInt(i: int)
    | JString(str: string)
    | JArray(elems: seq<Json>)
    | JObject(members: seq<Member>)

  datatype Member = Member(key: string, value: Json)

  /** Python's `bool(x)` on a decoded value: empty containers, empty strings,
      zero, `False` and `None` are false. */
  predicate Truthy(j: Json) {
    match j
    case JNull => false
    case JBool(b) => b
    case JInt(i) => i != 0
    case JString(s) => s != ""
    case JArray(es) => es != []
    case JObject(ms) => ms != []
  }

  /** The value a decoded dict holds for `key`: the decoder keeps the last of
      repeated keys. */
  function Lookup(ms: seq<Member>, key: string): Option<Json> {
    if ms == [] then None
    else if ms[|ms| - 1].key == key then Some(ms[|ms| - 1].value)
    else Lookup(ms[..|ms| - 1], key)
  }

  /** A key is found exactly when some member has it, and the value found is
      that of the last such member. */
  lemma {:induction false} LookupLast(ms: seq<Member>, key: string)
    ensures Lookup(ms, key).Some? <==> exists i :: 0 <= i < |ms| && ms[i].key == key
    ensures Lookup(ms, key).Some? ==>
              exists i :: 0 <= i < |ms| && ms[i] == Member(key, Lookup(ms, key).value) &&
                          forall k :: i < k < |ms| ==> ms[k].key != key
  {
    if ms == [] {
    } else if ms[|ms| - 1].key == key {
      assert ms[|ms| - 1] == Member(key, Lookup(ms, key).value);
    } else {
      var front := ms[..|ms| - 1];
      LookupLast(front, key);
      assert Lookup(ms, key) == Lookup(front, key);
      if i :| 0 <= i < |ms| && ms[i].key == key {
        assert front[i] == ms[i];
      }
      if Lookup(ms, key).Some? {
        var i :| 0 <= i < |front| && front[i] == Member(key, Lookup(front, key).value) &&
                 forall k :: i < k < |front| ==> front[k].key != key;
        assert ms[i] == front[i];
        forall k | i < k < |ms| ensures ms[k].key != key {
          if k < |front| {
            assert ms[k] == front[k];
          }
        }
      }
    }
  }

  /** The keys of a decoded dict in iteration order: each distinct key once,
      at the place of its first occurrence. */
  function Keys(ms: seq<Member>): seq<string> {
    if ms == [] then []
    else
      var ks := Keys(ms[..|ms| - 1]);
      if ms[|ms| - 1].key in ks then ks else ks + [ms[|ms| - 1].key]
  }

  /** Every key of the dict is listed, nothing else is, and none twice. */
  lemma {:induction false} KeysOf(ms: seq<Member>)
    ensures forall k :: k in Keys(ms) <==> exists i :: 0 <= i < |ms| && ms[i].key == k
    ensures forall i, j :: 0 <= i < j < |Keys(ms)| ==> Keys(ms)[i] != Keys(ms)[j]
  {
    if ms != [] {
      var front := ms[..|ms| - 1];
      KeysOf(front);
      assert forall i :: 0 <= i < |front| ==> front[i] == ms[i];
      forall k | k in Keys(ms) ensures exists i :: 0 <= i < |ms| && ms[i].key == k {
        if k in Keys(front) {
          var i :| 0 <= i < |front| && front[i].key == k;
          assert ms[i].key == k;
        } else {
          assert ms[|ms| - 1].key == k;
        }
      }
      forall k | exists i :: 0 <= i < |ms| && ms[i].key == k ensures k in Keys(ms) {
        var i :| 0 <= i < |ms| && ms[i].key == k;
        if i < |front| {
          assert front[i].key == k;
        }
      }
    }
  }

  /** `j[key]`: a dict without the key raises KeyError, anything that is not
      a dict raises TypeError. */
  function Subscript(j: Json, key: string): (r: Outcome<Json>)
    ensures r.Ok? <==> j.JObject? && Lookup(j.members, key).Some?
    ensures r.Ok? ==> Some(r.value) == Lookup(j.members, key)
    ensures r.Err? ==> (r.error == KeyError <==> j.JObject?) && (r.error == KeyError || r.error == TypeError)
  {
    match j
    case JObject(ms) =>
      (match Lookup(ms, key)
       case Some(v) => Ok(v)
       case None => Err(KeyError))
    case _ => Err(TypeError)
  }

  /** `j.get(key)`: only a dict has `get`. */
  function Get(j: Json, key: string): (r: Outcome<Option<Json>>)
    ensures r.Ok? <==> j.JObject?
    ensures r.Ok? ==> r.value == Lookup(j.members, key)
    ensures r.Err? ==> r.error == AttributeError
  {
    match j
    case JObject(ms) => Ok(Lookup(ms, key))
    case _ => Err(AttributeError)
  }

  /** The elements `list.extend(j)` appends: a list's elements, a string's
      characters, a dict's keys; a number, a bool or None is not iterable. */
  function Iterate(j: Json): (r: Outcome<seq<Json>>)
    ensures r.Ok? <==> j.JArray? || j.JString? || j.JObject?
    ensures r.Ok? ==> (|r.value| == 0 <==> !Truthy(j))
    ensures r.Err? ==> r.error == TypeError
    ensures j.JArray? ==> r == Ok(j.elems)
  {
    match j
    case JArray(es) => Ok(es)
    case JString(s) => Ok(seq(|s|, i requires 0 <= i < |s| => JString([s[i]])))
    case JObject(ms) =>
      KeysOf(ms);
      assert ms != [] ==> ms[0].key in Keys(ms);
      var ks := Keys(ms);
      Ok(seq(|ks|, i requires 0 <= i < |ks| => JString(ks[i])))
    case _ => Err(TypeError)
  }

  /** What iterating a string or a dict yields: the string's characters,
      each as a one-character string, or the dict's keys in order. */
  lemma IterateElements(j: Json)
    ensures j.JString? ==> Iterate(j).Ok? && |Iterate(j).value| == |j.str| &&
                           forall i :: 0 <= i < |j.str| ==> Iterate(j).value[i] == JString([j.str[i]])
    ensures j.JObject? ==> Iterate(j).Ok? && |Iterate(j).value| == |Keys(j.members)| &&
                           forall i :: 0 <= i < |Iterate(j).value| ==> Iterate(j).value[i] == JString(Keys(j.members)[i])
  {
  }
}
