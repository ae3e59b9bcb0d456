/**
 * Decoded JSON values and the decoder the client relies on.
 *
 * The client calls `ResponseDecoder::decodeJson`, a thin wrapper around PHP's
 * `json_decode` that either returns an array or throws.  Its parser is not part
 * of this model: every operation that decodes takes the decoder as a parameter,
 * a total function that answers `None` where `decodeJson` would throw.
 */
module Json {
  import opened Wrappers
  import opened Text

  datatype Json =
    | JNull
    | JBool(b: bool)
    | JNumber(literal: string)
    | JString(s: string)
    | JArray(items: seq<Json>)
    | JObject(fields: map<string, Json>)

  /**
   * A PHP array, as `json_decode($s, true)` builds it from a JSON array (a
   * list) or a JSON object (string keys).
   */
  datatype PhpArray = JList(items: seq<Json>) | JMap(fields: map<string, Json>)

  /**
   * `decodeJson`: `Some(v)` on success, `None` where it throws.  Its return
   * type is `array`, so under `strict_types` a JSON text that decodes to
   * anything else is a `TypeError`: a success is always a PHP array.
   */
  type Decoder = Bytes -> Option<PhpArray>
}
