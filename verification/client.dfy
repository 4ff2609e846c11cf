/** `Client::request`: one POST through curl, classified into the body of a
    200 reply or a thrown `AmazonErrors`. What curl does is not modelled:
    the request's outcome is a parameter. The file is not in strict mode,
    so the values read from an error body are converted to strings the
    coercive way. */
module Client {
  import opened Base
  import opened JsonValue
  import opened JsonEncode
  import opened JsonParser
  import opened JsonRoundTrip
  import opened Php
  import opened AmazonDebug
  import opened AmazonErrors

  const HttpOk: int := 200

  /** libcurl's error numbers that the client distinguishes. */
  const CouldntResolveHost: int := 6
  const CouldntConnect: int := 7
  const OperationTimedOut: int := 28
  const SslPeerCertificate: int := 60

  /** What happened to the request: `curl_init` returned false, `curl_exec`
      returned false with an error number and text, or a reply arrived. */
  datatype Outcome =
    | InitFailed
    | TransportFailed(errno: int, error: string)
    | Received(status: int, body: string)

  /** How a request ends for its caller: the thrown `AmazonErrors`, or a
      PHP `TypeError` raised while building it from an error body. */
  datatype Failure = Thrown(error: AmazonError) | TypeFault

  datatype Reply = Reply(result: Result<string, Failure>, debug: DebugState)

  /** The four fields `getError` is given for a failed reply. */
  datatype AmazonFields = AmazonFields(status: string, code: string, errorType: string, message: string)

  predicate IsConnectError(errno: int) {
    errno == CouldntConnect || errno == CouldntResolveHost || errno == OperationTimedOut
  }

  const ConnectPrefix: string := "Could not connect to AWS ("
  const SslPrefix: string := "Could not verify AWS SSL certificate."

  /** `handleCurlError`'s rewording of curl's message: connection failures
      and certificate failures are explained and keep curl's text in
      brackets at the end; anything else is reported as unexpected. */
  function CurlErrorMessage(url: string, errno: int, message: string): (r: string)
    ensures IsConnectError(errno) ==> ConnectPrefix <= r && EndsWith(r, "[" + message + "]")
    ensures errno == SslPeerCertificate ==> SslPrefix <= r && EndsWith(r, "[" + message + "]")
    ensures !IsConnectError(errno) && errno != SslPeerCertificate ==>
      r == "Unexpected error communicating with AWS: " + message
  {
    if IsConnectError(errno) then
      var head := ConnectPrefix + url + "). Please check your "
        + "internet connection and try again. ";
      EndsWithAppend(head, "[" + message + "]");
      head + ("[" + message + "]")
    else if errno == SslPeerCertificate then
      var head := SslPrefix + " Please make sure "
        + "that your network is not intercepting certificates. "
        + "(Try going to " + url + "in your browser.) ";
      EndsWithAppend(head, "[" + message + "]");
      head + ("[" + message + "]")
    else "Unexpected error communicating with AWS: " + message
  }

  /** `handleCurlError`: always throws, with code C002 and curl's number. */
  function HandleCurlError(url: string, errno: int, message: string, st: DebugState): AmazonError
  {
    GetError("FAILURE", "C002", "CurlError", CurlErrorMessage(url, errno, message), errno, st)
  }

  /** `json_decode((string)$result, true)`, where a failure yields null. */
  function DecodedOrNull(body: string): Json
  {
    match Decode(body)
    case Ok(v) => v
    case Err(_) => JNull
  }

  const RateExceeded: string := "Rate exceeded"

  /** `($result_ar['message'] ?? '') == 'Rate exceeded'`, compared loosely. */
  predicate RateLimited(decoded: Json) {
    LooseEqualsText(Coalesce(decoded, ["message"], JString("")), RateExceeded)
  }

  /** Where an Amazon error document keeps its status. */
  const StatusPath: seq<string> := ["agcodResponse", "status"]

  /** The value read under `path` is an array, which no `string` parameter
      accepts. */
  predicate ArrayAt(d: Json, path: seq<string>) {
    Lookup(d, path).Some? && IsArray(Lookup(d, path).value)
  }

  /** `s` is what `$d[...] ?? $default` gives once converted to a string:
      the default when nothing is set there, else the value read. */
  predicate ReadOr(d: Json, path: seq<string>, default: string, s: string) {
    (Lookup(d, path).None? ==> s == default)
    && (Lookup(d, path).Some? ==> CoerceString(Lookup(d, path).value) == Some(s))
  }

  /** The fields of a failed reply, or None when one of them is an array and
      PHP raises a `TypeError` passing it to `getError`. */
  function ErrorFields(body: string): (r: Option<AmazonFields>)
    ensures RateLimited(DecodedOrNull(body)) ==>
      r.Some? && r.value.status == "RESEND" && r.value.code == "T001" && r.value.errorType == "RateExceeded"
    ensures !RateLimited(DecodedOrNull(body)) ==>
      var d := DecodedOrNull(body);
      (r.None? <==> ArrayAt(d, StatusPath) || ArrayAt(d, ["errorCode"]) || ArrayAt(d, ["errorType"])
                    || ArrayAt(d, ["message"]))
    ensures !RateLimited(DecodedOrNull(body)) && r.Some? ==>
      var d := DecodedOrNull(body);
      ReadOr(d, StatusPath, "FAILURE", r.value.status) && ReadOr(d, ["errorCode"], "E999", r.value.code)
      && ReadOr(d, ["errorType"], "OtherUnknownError", r.value.errorType)
      && ReadOr(d, ["message"], "Unknown error occured", r.value.message)
  {
    var decoded := DecodedOrNull(body);
    if RateLimited(decoded) then
      RateRule(decoded);
      var message := CoerceString(Coalesce(decoded, ["message"], JString(RateExceeded))).value;
      Some(AmazonFields("RESEND", "T001", "RateExceeded", message))
    else
      var status := CoerceString(Coalesce(decoded, StatusPath, JString("FAILURE")));
      var code := CoerceString(Coalesce(decoded, ["errorCode"], JString("E999")));
      var errorType := CoerceString(Coalesce(decoded, ["errorType"], JString("OtherUnknownError")));
      var message := CoerceString(Coalesce(decoded, ["message"], JString("Unknown error occured")));
      if status.None? || code.None? || errorType.None? || message.None? then None
      else Some(AmazonFields(status.value, code.value, errorType.value, message.value))
  }

  /** The debug entry written for a failed reply. */
  function ResultEntry(body: string): Json
  {
    JObject([Member("CURL_REQUEST_RESULT", JString(body))])
  }

  /** `request`: a 200 reply's body is returned as it came; anything else
      throws. For a failed reply the body is first logged, and the exception
      code is `curl_errno`, which is 0 once a reply has arrived. */
  function Request(url: string, outcome: Outcome, st: DebugState): (r: Reply)
    ensures r.result.Ok? <==> outcome.Received? && outcome.status == HttpOk
    ensures r.result.Ok? ==> r.result.value == outcome.body && r.debug == st
    ensures !outcome.Received? ==> r.debug == st
  {
    match outcome
    case InitFailed =>
      Reply(Err(Thrown(GetError("FAILURE", "C001", "CurlInitError",
                                "Failed to init curl with url: " + url, 0, st))), st)
    case TransportFailed(errno, error) =>
      Reply(Err(Thrown(HandleCurlError(url, errno, error, st))), st)
    case Received(status, body) =>
      if status == HttpOk then Reply(Ok(body), st)
      else
        var logged := WriteLog(st, ResultEntry(body));
        match ErrorFields(body)
        case None => Reply(Err(TypeFault), logged)
        case Some(f) =>
          Reply(Err(Thrown(GetError(f.status, f.code, f.errorType, f.message, 0, logged))), logged)
  }

  /** The rate rule fires exactly when the reply's message is the text
      `Rate exceeded` or the boolean true; a number, null, another string or
      an array never matches. */
  lemma RateRule(decoded: Json)
    ensures RateLimited(decoded) <==>
      Lookup(decoded, ["message"]) == Some(JString(RateExceeded))
      || Lookup(decoded, ["message"]) == Some(JBool(true))
    ensures RateLimited(decoded) ==>
      CoerceString(Coalesce(decoded, ["message"], JString(RateExceeded))).Some?
  {
    LooseEqualsWordText(Coalesce(decoded, ["message"], JString("")), RateExceeded, 4);
  }

  /** The message of a rate-limited reply is the text as sent, or `1` when it
      was the boolean true. */
  lemma RateLimitedMessage(body: string)
    requires RateLimited(DecodedOrNull(body))
    ensures ErrorFields(body).value.message
      == if Lookup(DecodedOrNull(body), ["message"]) == Some(JBool(true)) then "1" else RateExceeded
  {
    RateRule(DecodedOrNull(body));
  }

  /** A body that is not JSON at all gets every default. */
  lemma UndecodableBodyDefaults(body: string)
    requires Decode(body).Err?
    ensures ErrorFields(body) == Some(AmazonFields("FAILURE", "E999", "OtherUnknownError", "Unknown error occured"))
  {
  }

  /** An Amazon error document, as written by a JSON encoder. */
  function AmazonErrorBody(status: string, code: string, errorType: string, message: string): Json
  {
    JObject([Member("agcodResponse", JObject([Member("status", JString(status))])),
             Member("errorCode", JString(code)), Member("errorType", JString(errorType)),
             Member("message", JString(message))])
  }

  /** The member at position `i` of the document is the one found under its key. */
  lemma AmazonErrorBodyMember(status: string, code: string, errorType: string, message: string, i: nat)
    requires i < 4
    ensures var v := AmazonErrorBody(status, code, errorType, message);
      Get(v, v.members[i].key) == Some(v.members[i].value)
  {
    var ms := AmazonErrorBody(status, code, errorType, message).members;
    assert forall j :: 0 <= j < i ==> ms[j].key != ms[i].key by {
      assert ms[0].key[0] == 'a' && ms[1].key[0] == 'e' && ms[1].key[5] == 'C';
      assert ms[2].key[5] == 'T' && ms[3].key[0] == 'm';
    }
    FindAt(ms, i);
  }

  lemma AmazonErrorBodyFields(status: string, code: string, errorType: string, message: string)
    ensures var v := AmazonErrorBody(status, code, errorType, message);
      Lookup(v, ["agcodResponse", "status"]) == Some(JString(status))
      && Lookup(v, ["errorCode"]) == Some(JString(code))
      && Lookup(v, ["errorType"]) == Some(JString(errorType))
      && Lookup(v, ["message"]) == Some(JString(message))
  {
    var v := AmazonErrorBody(status, code, errorType, message);
    AmazonErrorBodyMember(status, code, errorType, message, 0);
    AmazonErrorBodyMember(status, code, errorType, message, 1);
    AmazonErrorBodyMember(status, code, errorType, message, 2);
    AmazonErrorBodyMember(status, code, errorType, message, 3);
    LookupOne(v, "errorCode");
    LookupOne(v, "errorType");
    LookupOne(v, "message");
    LookupTwo(v, "agcodResponse", "status");
    LookupOne(v.members[0].value, "status");
  }

  lemma AmazonErrorBodyWellFormed(status: string, code: string, errorType: string, message: string)
    ensures WellFormed(AmazonErrorBody(status, code, errorType, message))
    ensures Depth(AmazonErrorBody(status, code, errorType, message)) == 2
  {
    var ms := AmazonErrorBody(status, code, errorType, message).members;
    MembersBounded(ms[0].value.members, 0);
    MembersBounded(ms, 1);
    assert DistinctKeys(ms) by {
      assert |ms[0].key| == 13 && |ms[3].key| == 7 && ms[1].key[5] == 'C' && ms[2].key[5] == 'T';
    }
  }

  /** Amazon's own error document is passed through field by field, unless
      its message is the rate-limit text. */
  lemma AmazonErrorPassedThrough(status: string, code: string, errorType: string, message: string)
    requires message != RateExceeded
    ensures ErrorFields(Text(AmazonErrorBody(status, code, errorType, message)))
         == Some(AmazonFields(status, code, errorType, message))
  {
    var v := AmazonErrorBody(status, code, errorType, message);
    AmazonErrorBodyWellFormed(status, code, errorType, message);
    DecodeEncode(v);
    AmazonErrorBodyFields(status, code, errorType, message);
    RateRule(v);
  }

  /** The logged entry keeps a sound debug log sound. */
  lemma ResultEntryFlat(body: string)
    ensures WellFormed(ResultEntry(body)) && Depth(ResultEntry(body)) == 1
  {
    var ms := ResultEntry(body).members;
    assert ms == [ms[0]] + [];
    MembersDepthCons(ms[0], []);
    MembersWellFormedCons(ms[0], []);
  }

  /** What a caller reads back from the thrown error, for each way a request
      fails: the code field names the failure (C001 no handle, C002 transport,
      Amazon's own code otherwise), the exception code carries curl's number,
      and a failed reply's body is the last entry of the current run. */
  lemma RequestFailureReport(url: string, outcome: Outcome, st: DebugState)
    requires Sound(st)
    requires Request(url, outcome, st).result.Err?
    requires Request(url, outcome, st).result.error.Thrown?
    ensures Sound(Request(url, outcome, st).debug)
    ensures var e := Request(url, outcome, st).result.error.error;
      var fields := DecodeExceptionMessage(e.message);
      && (outcome.InitFailed? ==>
            Get(fields, "status") == Some(JString("FAILURE")) && Get(fields, "code") == Some(JString("C001"))
            && Get(fields, "type") == Some(JString("CurlInitError"))
            && Get(fields, "message") == Some(JString("Failed to init curl with url: " + url)) && e.code == 0)
      && (outcome.TransportFailed? ==>
            Get(fields, "status") == Some(JString("FAILURE")) && Get(fields, "code") == Some(JString("C002"))
            && Get(fields, "type") == Some(JString("CurlError"))
            && Get(fields, "message") == Some(JString(CurlErrorMessage(url, outcome.errno, outcome.error)))
            && e.code == outcome.errno)
      && (outcome.Received? ==>
            var f := ErrorFields(outcome.body).value;
            Get(fields, "status") == Some(JString(f.status)) && Get(fields, "code") == Some(JString(f.code))
            && Get(fields, "type") == Some(JString(f.errorType)) && Get(fields, "message") == Some(JString(f.message))
            && e.code == 0)
    ensures outcome.Received? && st.debug ==>
      var d := Request(url, outcome, st).debug;
      Entries(d.log, LogKey(st)) == Entries(st.log, LogKey(st)) + [ResultEntry(outcome.body)]
  {
    var r := Request(url, outcome, st);
    if outcome.Received? {
      ResultEntryFlat(outcome.body);
      WriteLogKeepsSound(st, ResultEntry(outcome.body));
    }
    SoundLogEncodes(r.debug);
    var e := r.result.error.error;
    match outcome
    case InitFailed =>
      ErrorFieldsReadBack("FAILURE", "C001", "CurlInitError", "Failed to init curl with url: " + url, 0, st);
    case TransportFailed(errno, error) =>
      ErrorFieldsReadBack("FAILURE", "C002", "CurlError", CurlErrorMessage(url, errno, error), errno, st);
    case Received(status, body) =>
      var f := ErrorFields(body).value;
      ErrorFieldsReadBack(f.status, f.code, f.errorType, f.message, 0, r.debug);
  }
}
