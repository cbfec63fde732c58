/**
  JSON values as `json.load` returns them, the two operations the verifier
  applies to them with Python's semantics (`key in value` and `value[key]`),
  the trust-store file, and the encodings of the two trust-map shapes.
 */
module Json {
  import opened Wrappers
  import opened Text

  /** A JSON document; numbers are kept as integers. */
  datatype Json =
    | JNull
    | JBool(b: bool)
    | JNumber(n: int)
    | JString(s: string)
    | JArray(items: seq<Json>)
    | JObject(fields: map<string, Json>)

  /** The trust-store file on disk: missing, not valid JSON, or holding a document. */
  datatype StoreFile = Absent | Unparsable | Holds(value: Json)

  /**
    Python's `key in value` for a string `key`: dictionary key membership,
    list element equality, or substring; `None` is the `TypeError` raised
    for values that are not containers.
   */
  function In(key: string, value: Json): (r: Option<bool>)
    ensures r.None? <==> !(value.JObject? || value.JArray? || value.JString?)
    ensures value.JObject? ==> r == Some(key in value.fields)
    ensures value.JArray? ==> r == Some(exists i :: 0 <= i < |value.items| && value.items[i] == JString(key))
  {
    match value
    case JObject(fields) => Some(key in fields)
    case JArray(items) => Some(JString(key) in items)
    case JString(s) => Some(Substring(key, s))
    case _ => None
  }

  /**
    Python's `value[key]` for a string `key`: only a dictionary holding the key
    yields an element; every other case is a `KeyError` or `TypeError` (`None`).
   */
  function Index(value: Json, key: string): (r: Option<Json>)
    ensures r.Some? <==> value.JObject? && key in value.fields
    ensures r.Some? ==> r.value == value.fields[key]
  {
    if value.JObject? && key in value.fields then Some(value.fields[key]) else None
  }

  /** Identity (DNS name) to list of authority key identifiers: what the trust manager writes. */
  type IdentityMap = map<string, seq<string>>

  /** Access point to identity to list of authority key identifiers: what the verifier reads. */
  type TrustMap = map<string, IdentityMap>

  /** A list of strings as a JSON array. */
  function StrList(xs: seq<string>): (j: Json)
    ensures j.JArray? && |j.items| == |xs|
    ensures forall i :: 0 <= i < |xs| ==> j.items[i] == JString(xs[i])
  {
    JArray(seq(|xs|, i requires 0 <= i < |xs| => JString(xs[i])))
  }

  /** A list of strings can be read back from its JSON array. */
  lemma StrListInjective(xs: seq<string>, ys: seq<string>)
    requires StrList(xs) == StrList(ys)
    ensures xs == ys
  {
    assert |xs| == |ys|;
    forall i | 0 <= i < |xs|
      ensures xs[i] == ys[i]
    {
      assert StrList(xs).items[i] == JString(xs[i]);
      assert StrList(ys).items[i] == JString(ys[i]);
    }
  }

  /** A string is in a JSON list of strings exactly when it is in the list. */
  lemma InStrList(key: string, xs: seq<string>)
    ensures In(key, StrList(xs)) == Some(key in xs)
  {
    if key in xs {
      var i :| 0 <= i < |xs| && xs[i] == key;
      assert StrList(xs).items[i] == JString(key);
    }
  }

  /** An identity map as the JSON object `json.dump` writes. */
  function EncodeIdentityMap(m: IdentityMap): (j: Json)
    ensures j.JObject? && j.fields.Keys == m.Keys
    ensures forall k :: k in m ==> j.fields[k] == StrList(m[k])
  {
    JObject(map k | k in m :: StrList(m[k]))
  }

  /** A realm-keyed trust map as the JSON object the verifier reads. */
  function EncodeTrustMap(tm: TrustMap): (j: Json)
    ensures j.JObject? && j.fields.Keys == tm.Keys
    ensures forall s :: s in tm ==> j.fields[s] == EncodeIdentityMap(tm[s])
  {
    JObject(map s | s in tm :: EncodeIdentityMap(tm[s]))
  }

  /** Two identity maps with the same JSON text are the same map. */
  lemma EncodeIdentityMapInjective(a: IdentityMap, b: IdentityMap)
    requires EncodeIdentityMap(a) == EncodeIdentityMap(b)
    ensures a == b
  {
    forall k | k in a
      ensures a[k] == b[k]
    {
      StrListInjective(a[k], b[k]);
    }
  }

  /** Two trust maps with the same JSON text are the same map. */
  lemma EncodeTrustMapInjective(a: TrustMap, b: TrustMap)
    requires EncodeTrustMap(a) == EncodeTrustMap(b)
    ensures a == b
  {
    forall s | s in a
      ensures a[s] == b[s]
    {
      assert EncodeIdentityMap(a[s]) == EncodeIdentityMap(b[s]);
      forall k | k in a[s]
        ensures a[s][k] == b[s][k]
      {
        StrListInjective(a[s][k], b[s][k]);
      }
    }
  }
}
