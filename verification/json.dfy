/** The JSON value the crate receives from `serde_json`: an inductive datatype
    whose objects are sequences of key/value members. */
module JsonValue {
  import opened Wrappers

  /** `serde_json::Value`. A number is kept as the text of its literal: nothing
      here does arithmetic on it. */
  datatype Json =
    | Null
    | Bool(b: bool)
    | Number(literal: string)
    | String(s: string)
    | Array(items: seq<Json>)
    | Object(members: seq<(string, Json)>)

  /** `serde_json::Map` never holds two members with the same key. */
  predicate UniqueKeys(members: seq<(string, Json)>) {
    forall i, j :: 0 <= i < j < |members| ==> members[i].0 != members[j].0
  }

  /** Position of the member called `key`: the first one, which on a map with
      unique keys is the only one. */
  function Find(members: seq<(string, Json)>, key: string): (r: Option<nat>)
    ensures r.Some? ==> r.value < |members| && members[r.value].0 == key
    ensures r.Some? ==> forall j :: 0 <= j < r.value ==> members[j].0 != key
    ensures r.None? <==> forall j :: 0 <= j < |members| ==> members[j].0 != key
  {
    if |members| == 0 then None
    else if members[0].0 == key then Some(0)
    else
      match Find(members[1..], key)
      case None => None
      case Some(i) => Some(i + 1)
  }

  /** `Map::get`: the value stored under `key`, if any. */
  function Get(v: Json, key: string): (r: Option<Json>)
    requires v.Object?
    ensures r.Some? <==> exists i :: 0 <= i < |v.members| && v.members[i].0 == key
    ensures r.Some? ==> (key, r.value) in v.members
  {
    match Find(v.members, key)
    case None => None
    case Some(i) => Some(v.members[i].1)
  }

  /** With unique keys, `Get` returns the value of any member carrying the key. */
  lemma GetUniqueMember(v: Json, i: nat)
    requires v.Object? && UniqueKeys(v.members) && i < |v.members|
    ensures Get(v, v.members[i].0) == Some(v.members[i].1)
  {
  }
}
