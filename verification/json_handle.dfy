/** `Json::jsonDecode`: decode a response body into an array, or throw an
    `AmazonErrors` whose code field is `J-` followed by `json_last_error()`.
    A body that decodes cleanly to something other than an array is refused
    too, with the number 0. */
module JsonHandle {
  import opened Base
  import opened JsonValue
  import opened JsonEncode
  import opened JsonParser
  import opened JsonRoundTrip
  import opened AmazonDebug
  import opened AmazonErrors

  /** `json_last_error()` after `json_decode`: 0 when decoding succeeded. */
  function LastError(json: string): (n: nat)
    ensures n == 0 <==> Decode(json).Ok?
  {
    match Decode(json)
    case Ok(_) => 0
    case Err(e) => e.Number()
  }

  /** The error code field of a decoding failure. */
  function FailureCode(json: string): string
  {
    "J-" + NatToString(LastError(json))
  }

  function JsonDecode(json: string, st: DebugState): (r: Result<Json, AmazonError>)
    ensures r.Ok? <==> Decode(json).Ok? && IsArray(Decode(json).value)
    ensures r.Ok? ==> r.value == Decode(json).value
    ensures r.Err? ==> r.error.code == 0
  {
    match Decode(json)
    case Ok(v) =>
      if IsArray(v) then Ok(v)
      else Err(GetError("FAILURE", FailureCode(json), "jsonDecoreError", "Failed to decode json data", 0, st))
    case Err(_) =>
      Err(GetError("FAILURE", FailureCode(json), "jsonDecoreError", "Failed to decode json data", 0, st))
  }

  /** Every well-formed array the encoder writes is read back by `jsonDecode`. */
  lemma JsonDecodeEncoded(v: Json, st: DebugState)
    requires WellFormed(v) && IsArray(v) && Depth(v) <= MaxDepth
    ensures JsonDecode(Text(v), st) == Ok(v)
  {
    DecodeEncode(v);
  }

  /** A refused body is reported with the status FAILURE and a code that is
      `J-0` exactly when the body was valid JSON for a non-array, and
      otherwise carries the decoder's error number. */
  lemma JsonFailureReport(json: string, st: DebugState)
    requires JsonDecode(json, st).Err?
    requires WellFormed(GetLog(st, None)) && Depth(GetLog(st, None)) < MaxDepth
    ensures var r := DecodeExceptionMessage(JsonDecode(json, st).error.message);
      Get(r, "status") == Some(JString("FAILURE"))
      && Get(r, "code") == Some(JString(FailureCode(json)))
      && Get(r, "type") == Some(JString("jsonDecoreError"))
      && Get(r, "message") == Some(JString("Failed to decode json data"))
    ensures FailureCode(json) == "J-0" <==> Decode(json).Ok?
  {
    ErrorFieldsReadBack("FAILURE", FailureCode(json), "jsonDecoreError", "Failed to decode json data", 0, st);
    var n := LastError(json);
    if n != 0 {
      NatToStringValue(n);
      NatToStringValue(0);
      assert NatToString(0) == "0";
      assert FailureCode(json)[2..] == NatToString(n);
    }
  }

  /** The body `null` decodes cleanly yet is refused, with `J-0`. */
  lemma NullBodyRefused(st: DebugState)
    ensures JsonDecode("null", st).Err? && FailureCode("null") == "J-0"
  {
    assert SkipWs("null") == "null";
  }

  /** So is a bare number. */
  lemma NumberBodyRefused(st: DebugState)
    ensures JsonDecode("12", st).Err? && FailureCode("12") == "J-0"
  {
    assert SkipWs("12") == "12";
    assert NumberEnd("12") == Some(2) by {
      assert DigitsEnd("12", 2) == 2;
    }
  }
}
