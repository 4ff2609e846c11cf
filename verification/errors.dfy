/** The library's one exception type. Its message is a JSON object carrying
    the Amazon status, error code, error type and message together with the
    debug log id and the whole debug log; `decodeExceptionMessage` reads
    that object back, or builds a record around a message that is not one. */
module AmazonErrors {
  import opened Base
  import opened JsonValue
  import opened JsonEncode
  import opened JsonParser
  import opened JsonRoundTrip
  import opened AmazonDebug

  /** A thrown `AmazonErrors`: its message and its integer code. */
  datatype AmazonError = AmazonError(message: string, code: int)

  /** What the message becomes when the error record cannot be encoded. */
  const EncodeProblemPrefix: string := "AmazonErrors: json encode problem: "

  /** The six fields of an error record, in the order they are written. */
  const RecordKeys: seq<string> := ["status", "code", "type", "message", "log_id", "log"]

  function Record(status: string, code: string, errorType: string, message: string,
                  logId: Json, log: Json): (r: Json)
    ensures r.JObject? && Keys(r.members) == RecordKeys
  {
    JObject([Member("status", JString(status)), Member("code", JString(code)),
             Member("type", JString(errorType)), Member("message", JString(message)),
             Member("log_id", logId), Member("log", log)])
  }

  /** The record `getError` encodes: the log id is null until a debug run
      has started, and the log is the whole debug log. */
  function ErrorJson(status: string, code: string, errorType: string, message: string,
                     st: DebugState): Json
  {
    var logId := match GetId(st) case None => JNull case Some(id) => JString(id);
    Record(status, code, errorType, message, logId, GetLog(st, None))
  }

  /** `getError`: the encoded record, or the fixed prefix before the bare
      message when `json_encode` fails. */
  function GetError(status: string, code: string, errorType: string, message: string,
                    errorCode: int, st: DebugState): (e: AmazonError)
    ensures e.code == errorCode
    ensures |e.message| > 0
  {
    match Encode(ErrorJson(status, code, errorType, message, st))
    case Some(text) => TextStart(ErrorJson(status, code, errorType, message, st)); AmazonError(text, errorCode)
    case None => AmazonError(EncodeProblemPrefix + message, errorCode)
  }

  /** The record `decodeExceptionMessage` builds around a message that does
      not decode to an array. */
  function Fallback(message: string): Json
  {
    Record("", "", "", message, JString(""), JArray([]))
  }

  /** `decodeExceptionMessage`: the decoded array, or the fallback record
      around the raw message. */
  function DecodeExceptionMessage(message: string): (r: Json)
    ensures IsArray(r)
    ensures r != Fallback(message) ==> Decode(message) == Ok(r)
    ensures Decode(message).Ok? && IsArray(Decode(message).value) ==> r == Decode(message).value
  {
    match Decode(message)
    case Ok(v) => if IsArray(v) then v else Fallback(message)
    case Err(_) => Fallback(message)
  }

  /** A record's nesting is one level above its log's (the log id is a scalar). */
  lemma {:induction false} RecordDepth(status: string, code: string, errorType: string, message: string,
                                       logId: Json, log: Json)
    requires logId.JNull? || logId.JString?
    ensures Depth(Record(status, code, errorType, message, logId, log)) == 1 + Depth(log)
  {
    var ms := Record(status, code, errorType, message, logId, log).members;
    var s5 := [Member("log", log)];
    var s4 := [Member("log_id", logId)] + s5;
    var s3 := [Member("message", JString(message))] + s4;
    var s2 := [Member("type", JString(errorType))] + s3;
    var s1 := [Member("code", JString(code))] + s2;
    MembersDepthCons(Member("log", log), []);
    MembersDepthCons(Member("log_id", logId), s5);
    MembersDepthCons(Member("message", JString(message)), s4);
    MembersDepthCons(Member("type", JString(errorType)), s3);
    MembersDepthCons(Member("code", JString(code)), s2);
    MembersDepthCons(Member("status", JString(status)), s1);
    assert ms == [Member("status", JString(status))] + s1;
  }

  /** A record is well formed whenever its log is. */
  lemma {:induction false} RecordWellFormed(status: string, code: string, errorType: string, message: string,
                                            logId: Json, log: Json)
    requires logId.JNull? || logId.JString?
    requires WellFormed(log)
    ensures WellFormed(Record(status, code, errorType, message, logId, log))
  {
    var ms := Record(status, code, errorType, message, logId, log).members;
    var s5 := [Member("log", log)];
    var s4 := [Member("log_id", logId)] + s5;
    var s3 := [Member("message", JString(message))] + s4;
    var s2 := [Member("type", JString(errorType))] + s3;
    var s1 := [Member("code", JString(code))] + s2;
    MembersWellFormedCons(Member("log", log), []);
    MembersWellFormedCons(Member("log_id", logId), s5);
    MembersWellFormedCons(Member("message", JString(message)), s4);
    MembersWellFormedCons(Member("type", JString(errorType)), s3);
    MembersWellFormedCons(Member("code", JString(code)), s2);
    MembersWellFormedCons(Member("status", JString(status)), s1);
    assert ms == [Member("status", JString(status))] + s1;
    assert DistinctKeys(ms) by {
      assert Keys(ms) == RecordKeys;
    }
  }

  /** The field at position `i` of a record is the one found under its key. */
  lemma RecordField(status: string, code: string, errorType: string, message: string,
                    logId: Json, log: Json, i: nat)
    requires i < |RecordKeys|
    ensures var ms := Record(status, code, errorType, message, logId, log).members;
      Get(JObject(ms), RecordKeys[i]) == Some(ms[i].value)
  {
    var ms := Record(status, code, errorType, message, logId, log).members;
    assert forall j :: 0 <= j < |ms| ==> ms[j].key == RecordKeys[j];
    assert forall j :: 0 <= j < i ==> ms[j].key != ms[i].key by {
      assert RecordKeys[0][0] == 's' && RecordKeys[1][0] == 'c' && RecordKeys[2][0] == 't' && RecordKeys[3][0] == 'm';
      assert RecordKeys[4][0] == 'l' && RecordKeys[5][0] == 'l' && |RecordKeys[4]| != |RecordKeys[5]|;
    }
    FindAt(ms, i);
  }

  /** Each field of a record reads back as the value it was built from. */
  lemma RecordFields(status: string, code: string, errorType: string, message: string,
                     logId: Json, log: Json)
    ensures var r := Record(status, code, errorType, message, logId, log);
      Get(r, "status") == Some(JString(status)) && Get(r, "code") == Some(JString(code))
      && Get(r, "type") == Some(JString(errorType)) && Get(r, "message") == Some(JString(message))
      && Get(r, "log_id") == Some(logId) && Get(r, "log") == Some(log)
  {
    RecordField(status, code, errorType, message, logId, log, 0);
    RecordField(status, code, errorType, message, logId, log, 1);
    RecordField(status, code, errorType, message, logId, log, 2);
    RecordField(status, code, errorType, message, logId, log, 3);
    RecordField(status, code, errorType, message, logId, log, 4);
    RecordField(status, code, errorType, message, logId, log, 5);
  }

  /** `json_encode` of the record fails exactly when the debug log nests too
      deeply for one more level. */
  lemma EncodeFailsOnlyForDeepLog(status: string, code: string, errorType: string,
                                  message: string, st: DebugState)
    ensures Encode(ErrorJson(status, code, errorType, message, st)).None?
        <==> Depth(GetLog(st, None)) >= MaxDepth
  {
    var logId := match GetId(st) case None => JNull case Some(id) => JString(id);
    RecordDepth(status, code, errorType, message, logId, GetLog(st, None));
  }

  /** The record is a value the codec carries across unchanged whenever the
      debug log is. */
  lemma ErrorJsonWellFormed(status: string, code: string, errorType: string,
                            message: string, st: DebugState)
    requires WellFormed(GetLog(st, None))
    ensures WellFormed(ErrorJson(status, code, errorType, message, st))
  {
    var logId := match GetId(st) case None => JNull case Some(id) => JString(id);
    RecordWellFormed(status, code, errorType, message, logId, GetLog(st, None));
  }

  /** What `getError` throws, `decodeExceptionMessage` reads back: the same
      status, code, type, message, log id and log, whenever the debug log is
      a well-formed value shallow enough to encode. */
  lemma ErrorRoundTrip(status: string, code: string, errorType: string, message: string,
                       errorCode: int, st: DebugState)
    requires WellFormed(GetLog(st, None))
    requires Depth(GetLog(st, None)) < MaxDepth
    ensures DecodeExceptionMessage(GetError(status, code, errorType, message, errorCode, st).message)
         == ErrorJson(status, code, errorType, message, st)
  {
    var v := ErrorJson(status, code, errorType, message, st);
    EncodeFailsOnlyForDeepLog(status, code, errorType, message, st);
    ErrorJsonWellFormed(status, code, errorType, message, st);
    DecodeEncode(v);
  }

  /** The fields a caller reads from a decoded error are the ones passed in. */
  lemma ErrorFieldsReadBack(status: string, code: string, errorType: string, message: string,
                            errorCode: int, st: DebugState)
    requires WellFormed(GetLog(st, None))
    requires Depth(GetLog(st, None)) < MaxDepth
    ensures var r := DecodeExceptionMessage(GetError(status, code, errorType, message, errorCode, st).message);
      Get(r, "status") == Some(JString(status)) && Get(r, "code") == Some(JString(code))
      && Get(r, "type") == Some(JString(errorType)) && Get(r, "message") == Some(JString(message))
      && Get(r, "log") == Some(GetLog(st, None))
  {
    ErrorRoundTrip(status, code, errorType, message, errorCode, st);
    var logId := match GetId(st) case None => JNull case Some(id) => JString(id);
    RecordFields(status, code, errorType, message, logId, GetLog(st, None));
  }

  /** A message that does not decode to an array comes back inside the
      fallback, whose message field is the text itself. */
  lemma PlainTextFallsBack(message: string)
    requires Decode(message).Err? || !IsArray(Decode(message).value)
    ensures DecodeExceptionMessage(message) == Fallback(message)
    ensures Get(DecodeExceptionMessage(message), "message") == Some(JString(message))
  {
  }

  /** A message that starts with a capital letter, none of which opens a
      JSON value, never decodes. */
  lemma CapitalStartFails(message: string)
    requires |message| > 0 && 'A' <= message[0] <= 'Z'
    ensures Decode(message).Err?
  {
    assert SkipWs(message) == message;
  }

  /** When encoding fails, the prefixed message is still recovered whole. */
  lemma EncodeProblemReadsBack(status: string, code: string, errorType: string, message: string,
                               errorCode: int, st: DebugState)
    requires Depth(GetLog(st, None)) >= MaxDepth
    ensures var e := GetError(status, code, errorType, message, errorCode, st);
      e.message == EncodeProblemPrefix + message
      && Get(DecodeExceptionMessage(e.message), "message") == Some(JString(e.message))
  {
    EncodeFailsOnlyForDeepLog(status, code, errorType, message, st);
    CapitalStartFails(EncodeProblemPrefix + message);
    PlainTextFallsBack(EncodeProblemPrefix + message);
  }
}
