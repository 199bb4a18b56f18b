/** The values `json.loads` produces, as far as the summarisers and labellers
    tell them apart, and the dictionary lookup they use on decoded objects. */
module JsonValues {
  import opened Wrappers

  /** An object (its members in text order), a string, an array, or a scalar
      (number, boolean, null) with its Python truth value; a scalar has no
      `len()`, no `.get` and cannot be iterated. */
  datatype Json = JObject(items: seq<(string, Json)>) | JString(s: string) | JArray(elems: seq<Json>) | JScalar(truthy: bool)

  /** Python truthiness: empty containers and strings are false. */
  predicate Truthy(v: Json) {
    match v
    case JObject(items) => items != []
    case JString(s) => s != ""
    case JArray(elems) => elems != []
    case JScalar(truthy) => truthy
  }

  const EmptyObject: Json := JObject([])

  /** `d.get(key)` on the dictionary decoded from `items`: a repeated member
      contributes its last value, the one `json.loads` keeps. */
  function Get(items: seq<(string, Json)>, key: string): (r: Option<Json>)
    ensures r.Some? <==> exists i :: 0 <= i < |items| && items[i].0 == key
    ensures r.Some? ==> exists i :: 0 <= i < |items| && items[i] == (key, r.value)
                                    && forall j :: i < j < |items| ==> items[j].0 != key
  {
    if items == [] then None
    else if items[|items| - 1].0 == key then Some(items[|items| - 1].1)
    else
      var r := Get(items[..|items| - 1], key);
      assert forall i :: 0 <= i < |items| - 1 ==> items[..|items| - 1][i] == items[i];
      r
  }

  /** `d.get(key, default)`. */
  function GetOr(items: seq<(string, Json)>, key: string, default: Json): Json {
    Get(items, key).GetOr(default)
  }
  /** The position of `key` among the members, if it is there. */
  function KeyAt(d: seq<(string, Json)>, key: string): (r: Option<nat>)
    ensures r.Some? ==> r.value < |d| && d[r.value].0 == key
    ensures r.None? <==> forall i :: 0 <= i < |d| ==> d[i].0 != key
    decreases |d|
  {
    if d == [] then None
    else if d[0].0 == key then Some(0)
    else
      match KeyAt(d[1..], key)
      case Some(i) => Some(i + 1)
      case None => assert forall i :: 1 <= i < |d| ==> d[i] == d[1..][i - 1]; None
  }

  /** The members of the dictionary `json.loads` builds from an object's
      members: each key once, at the place where it first occurs, holding the
      value of its last occurrence. */
  function Dict(items: seq<(string, Json)>): (d: seq<(string, Json)>)
    ensures |d| <= |items|
    ensures forall m :: m in d ==> m in items
    decreases |items|
  {
    if items == [] then []
    else
      var d := Dict(items[..|items| - 1]);
      var m := items[|items| - 1];
      assert forall x :: x in items[..|items| - 1] ==> x in items;
      match KeyAt(d, m.0)
      case Some(i) =>
        assert forall j :: 0 <= j < |d| && j != i ==> d[i := m][j] == d[j];
        d[i := m]
      case None => d + [m]
  }

  /** No key occurs twice. */
  predicate DistinctKeys(d: seq<(string, Json)>) {
    forall i, j :: 0 <= i < j < |d| ==> d[i].0 != d[j].0
  }

  /** On members with distinct keys, `get` finds the one member with the key. */
  lemma GetDistinct(d: seq<(string, Json)>, i: nat)
    requires DistinctKeys(d) && i < |d|
    ensures Get(d, d[i].0) == Some(d[i].1)
  {
  }

  /** Overwriting the value of a member keeps the keys and changes only that key's value. */
  lemma {:induction false} GetUpdate(d: seq<(string, Json)>, i: nat, m: (string, Json), k: string)
    requires DistinctKeys(d) && i < |d| && d[i].0 == m.0
    ensures DistinctKeys(d[i := m])
    ensures Get(d[i := m], k) == if k == m.0 then Some(m.1) else Get(d, k)
  {
    var e := d[i := m];
    assert forall j :: 0 <= j < |d| ==> e[j].0 == d[j].0;
    if k == m.0 {
      GetDistinct(e, i);
    } else if Get(d, k).Some? {
      var j :| 0 <= j < |d| && d[j].0 == k;
      GetDistinct(d, j);
      GetDistinct(e, j);
    }
  }

  /** Adding a member with a new key puts it last. */
  lemma {:induction false} GetAppend(d: seq<(string, Json)>, m: (string, Json), k: string)
    requires DistinctKeys(d) && KeyAt(d, m.0).None?
    ensures DistinctKeys(d + [m])
    ensures Get(d + [m], k) == if k == m.0 then Some(m.1) else Get(d, k)
  {
    assert (d + [m])[..|d|] == d;
  }

  /** The dictionary has each key once, and `get` on it is `get` on the members. */
  lemma {:induction false} DictFacts(items: seq<(string, Json)>)
    ensures DistinctKeys(Dict(items))
    ensures forall k :: Get(Dict(items), k) == Get(items, k)
    decreases |items|
  {
    if items != [] {
      var prev := items[..|items| - 1];
      var d := Dict(prev);
      var m := items[|items| - 1];
      DictFacts(prev);
      forall k
        ensures Get(Dict(items), k) == Get(items, k)
      {
        match KeyAt(d, m.0)
        case Some(i) => GetUpdate(d, i, m, k);
        case None => GetAppend(d, m, k);
      }
      match KeyAt(d, m.0)
      case Some(i) => GetUpdate(d, i, m, m.0);
      case None => GetAppend(d, m, m.0);
    }
  }
}
