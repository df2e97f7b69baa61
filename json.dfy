/** The JSON values the hub exchanges with devices, modelled as decoded data.
    Encoding and decoding themselves are opaque (see Models.Codec). */
module Json {

  /** A decoded JSON scalar, as Go's `interface{}` holds it after `json.Unmarshal`
      (`nil`, `bool`, `float64`, `string`). */
  datatype Value = Null | Bool(b: bool) | Number(n: real) | Str(s: string)

  /** A decoded JSON object: `map[string]interface{}`. A nil Go map reads as empty. */
  type Payload = map<string, Value>

  /** Go's map index `m[k]` on a `map[string]interface{}`: a missing key reads as `nil`. */
  function Get(m: Payload, k: string): (v: Value)
    ensures k in m ==> v == m[k]
    ensures k !in m ==> v == Null
  {
    if k in m then m[k] else Null
  }

  /** The one-pair object `{key: value}` built by the command paths. */
  function Single(key: string, value: Value): (m: Payload)
    ensures m.Keys == {key} && Get(m, key) == value
  {
    map[key := value]
  }
}
