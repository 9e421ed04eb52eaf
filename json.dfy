/** JSON values as `json.dump` writes them and `json.load` reads them back.
    Objects are maps: key order is not significant, values are. Numbers are
    kept as their literal text and never interpreted. */
module Json {
  import opened Wrappers

  datatype Json =
    | JNull
    | JBool(b: bool)
    | JNumber(literal: string)
    | JString(s: string)
    | JArray(items: seq<Json>)
    | JObject(fields: map<string, Json>)

  /** Follows a chain of object keys from `j`; `None` as soon as a step is
      not an object or lacks the key. */
  function Lookup(j: Json, keys: seq<string>): (r: Option<Json>)
    ensures keys == [] ==> r == Some(j)
    ensures keys != [] && !(j.JObject? && keys[0] in j.fields) ==> r == None
    decreases |keys|
  {
    if keys == [] then Some(j)
    else if j.JObject? && keys[0] in j.fields then Lookup(j.fields[keys[0]], keys[1..])
    else None
  }

  /** The keys of the object found at `keys` (empty when there is none). */
  function KeysAt(j: Json, keys: seq<string>): set<string>
  {
    match Lookup(j, keys)
    case Some(JObject(m)) => m.Keys
    case _ => {}
  }

  /** Looking up `a + b` is looking up `a` and then `b` from there. */
  lemma {:induction false} LookupAppend(j: Json, a: seq<string>, b: seq<string>)
    ensures Lookup(j, a + b) == (match Lookup(j, a) case Some(k) => Lookup(k, b) case None => None)
    decreases |a|
  {
    if a == [] {
      assert a + b == b;
    } else {
      assert (a + b)[0] == a[0] && (a + b)[1..] == a[1..] + b;
      if j.JObject? && a[0] in j.fields {
        LookupAppend(j.fields[a[0]], a[1..], b);
      }
    }
  }
}
