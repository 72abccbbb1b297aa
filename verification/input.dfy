/** The loosely typed request data the product service receives: the
    associative array that `json_decode($body, true)` produces, and the PHP
    array predicates the service uses to pick fields out of it. */
module Input {

  /** A decoded JSON value. Objects and lists stay nested; the service only
      ever asks whether a top-level value is null or a string. */
  datatype Json =
    | JNull
    | JBool(b: bool)
    | JNumber(n: real)
    | JString(s: string)
    | JList(items: seq<Json>)
    | JObject(members: map<string, Json>)

  /** The request body: an array with string keys. */
  type Data = map<string, Json>

  /** PHP's `array_key_exists($key, $data)`: the key is present, whatever it holds. */
  predicate KeyExists(data: Data, key: string)
  {
    key in data
  }

  /** PHP's `isset($data[$key])` on an array: the key is present and does not hold null. */
  predicate IsSet(data: Data, key: string)
  {
    key in data && !data[key].JNull?
  }

  /** PHP's `is_string($v)`. */
  predicate IsString(v: Json)
  {
    v.JString?
  }

  /** PHP's `$v === null`. */
  predicate IsNull(v: Json)
  {
    v.JNull?
  }
}
