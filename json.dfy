/** JSON documents as the controllers exchange them with the backend. */
module Json {
  import opened Wrappers

  datatype JValue =
    | JNull
    | JBool(b: bool)
    | JNum(n: real)
    | JStr(s: string)
    | JArray(items: seq<JValue>)
    | JObject(fields: map<string, JValue>)

  /** A JSON object, the shape of every backend state. */
  type Dict = map<string, JValue>

  /** Python truthiness of a dictionary: only the empty one is false. */
  predicate Truthy(d: Dict)
    ensures Truthy(d) <==> |d| > 0
  {
    d != map[]
  }

  /** Python truthiness of an optional dictionary (`None` is false). */
  predicate TruthyOpt(d: Option<Dict>)
    ensures TruthyOpt(d) ==> d.Some? && d.value.Keys != {}
    ensures d == Some(map[]) || d == None ==> !TruthyOpt(d)
  {
    d.Some? && Truthy(d.value)
  }

  /** `d.get(key, None)` followed by `is not None`: a JSON null reads as absent too. */
  function Lookup(d: Dict, key: string): Option<JValue> {
    if key in d && d[key] != JNull then Some(d[key]) else None
  }

  /**
   * `get` after an assignment: the key just set reads back its value
   * (absent when it is a JSON null), the other keys read as before, and a
   * key holding a string is found with that string.
   */
  lemma LookupAfterSet(d: Dict, key: string, v: JValue, other: string)
    requires other != key
    ensures Lookup(d[key := v], key) == (if v == JNull then None else Some(v))
    ensures Lookup(d[key := v], other) == Lookup(d, other)
    ensures forall t :: HasText(d, key, t) ==> Lookup(d, key) == Some(JStr(t))
  {
  }

  /** `d.get(key, default) == JStr(text)`: true only when the key is present with that string. */
  predicate HasText(d: Dict, key: string, text: string) {
    key in d && d[key] == JStr(text)
  }
}
