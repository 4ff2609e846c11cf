/** The three calls of `AWS`: `getCode`, `cancelCode` and `getBalance`. Each
    builds its body, signs it, hands the request to the client, decodes the
    text that comes back (`json_decode(..., true)`, null on failure) and
    builds the response object from it. The network's answer to a request
    is the parameter `net`. */
module Service {
  import opened Base
  import opened JsonValue
  import opened JsonEncode
  import opened JsonParser
  import opened Bytes
  import opened AmazonDebug
  import opened Client
  import opened Signer
  import opened Payloads
  import opened Responses
  import Config

  /** A call as it happened: the request sent, what the caller gets back and
      the debug state after it. */
  datatype Exchange<T> = Exchange(request: HttpRequest, result: Result<T, Failure>, debug: DebugState)

  /** `json_decode($this->makeRequest(...), true)` followed by the response
      constructor, which raises a `TypeError` (None from `parse`) on a value
      it does not accept. */
  function Call<T>(request: HttpRequest, net: HttpRequest -> Outcome, st: DebugState,
                   parse: Json -> Option<T>): (x: Exchange<T>)
    ensures x.request == request
    ensures x.result.Ok? <==> net(request).Received? && net(request).status == HttpOk
                              && parse(DecodedOrNull(net(request).body)).Some?
    ensures x.result.Ok? ==> x.result.value == parse(DecodedOrNull(net(request).body)).value
    ensures Request(request.url, net(request), st).result.Err? ==>
      x.result == Err(Request(request.url, net(request), st).result.error)
    ensures x.debug == Request(request.url, net(request), st).debug
  {
    var reply := Request(request.url, net(request), st);
    match reply.result
    case Err(e) => Exchange(request, Err(e), reply.debug)
    case Ok(body) =>
      match parse(DecodedOrNull(body))
      case None => Exchange(request, Err(TypeFault), reply.debug)
      case Some(v) => Exchange(request, Ok(v), reply.debug)
  }

  /** `__CLASS__` of `AWS`, which `__METHOD__` prefixes to a method's name. */
  const AwsClass: string := "gullevek\\AmazonIncentives\\AWS\\AWS"

  /** The entry each call writes before the request: the calling method. */
  function CallEntry(caller: string): Json
  {
    JObject([Member("call", JString(AwsClass + "::" + caller))])
  }

  /** The entry `makeRequest` writes first: what it was handed. */
  function RequestEntry(op: string, payload: string, canonical: string, ts: string): Json
  {
    JObject([Member(AwsClass + "::makeRequest",
                    JObject([Member("Operation", JString(op)), Member("Payload", JString(payload)),
                             Member("Cannonical Request", JString(canonical)), Member("Date Time String", JString(ts))]))])
  }

  /** The entry `makeRequest` writes second: the first three keys of the
      derivation chain, in hex. */
  function KeysEntry(date: string, region: string, service: string): Json
  {
    JObject([Member(AwsClass + "::makeRequest",
                    JObject([Member("Date", JString(date)), Member("Region", JString(region)),
                             Member("Service", JString(service))]))])
  }

  /** The key chain of `buildDerivedKey` up to the service key, as
      `makeRequest` logs it. */
  function DebugKeys(c: Crypto, cfg: Config.Config, ts: Timestamp): Json
  {
    var kDate := c.hmac(Utf8(DateString(ts)), Utf8(KeyQualifier + cfg.secret));
    var kRegion := c.hmac(Utf8(Region(cfg.endpoint)), kDate);
    KeysEntry(Hex(kDate), Hex(kRegion), Hex(c.hmac(Utf8(ServiceName), kRegion)))
  }

  /** The debug state once `AWS` has written its three entries for a call,
      before the client runs. */
  function AwsLog(c: Crypto, cfg: Config.Config, ts: Timestamp, caller: string, op: string, payload: string,
                  st: DebugState): DebugState
  {
    var called := WriteLog(st, CallEntry(caller));
    var handed := WriteLog(called, RequestEntry(op, payload, CanonicalRequest(c, cfg.endpoint, ts, op, payload), ts));
    WriteLog(handed, DebugKeys(c, cfg, ts))
  }

  /** Three entries written in a row keep the flag and the id, and change
      nothing while debugging is off. */
  lemma WriteThreeFlags(st: DebugState, a: Json, b: Json, d: Json)
    ensures var r := WriteLog(WriteLog(WriteLog(st, a), b), d);
      r.debug == st.debug && r.id == st.id && (!st.debug ==> r == st)
  {
  }

  lemma AppendThree<T>(e: seq<T>, a: T, b: T, d: T)
    ensures e + [a] + [b] + [d] == e + [a, b, d]
  {
  }

  /** While debugging is on, three entries written in a row go to the end of
      the current run's list, in order. */
  lemma WriteThreeRun(st: DebugState, a: Json, b: Json, d: Json)
    requires st.debug
    ensures Entries(WriteLog(WriteLog(WriteLog(st, a), b), d).log, LogKey(st)) == Entries(st.log, LogKey(st)) + [a, b, d]
  {
    var key, e := LogKey(st), Entries(st.log, LogKey(st));
    var r1 := WriteLog(st, a);
    assert r1.debug && LogKey(r1) == key && Entries(r1.log, key) == e + [a];
    var r2 := WriteLog(r1, b);
    assert r2.debug && LogKey(r2) == key && Entries(r2.log, key) == e + [a] + [b];
    var r3 := WriteLog(r2, d);
    assert Entries(r3.log, key) == e + [a] + [b] + [d];
    AppendThree(e, a, b, d);
  }

  /** Three entries written in a row leave every other run's list alone. */
  lemma WriteThreeOthers(st: DebugState, a: Json, b: Json, d: Json, k: string)
    requires k != LogKey(st)
    ensures Entries(WriteLog(WriteLog(WriteLog(st, a), b), d).log, k) == Entries(st.log, k)
  {
    var r1 := WriteLog(st, a);
    assert Entries(r1.log, k) == Entries(st.log, k);
  }

  /** `AWS` logs nothing while debugging is off; otherwise its three entries
      go to the end of the current run's list, in order, and no other run's
      list changes. */
  lemma AwsLogEntries(c: Crypto, cfg: Config.Config, ts: Timestamp, caller: string, op: string, payload: string,
                      st: DebugState)
    ensures var r := AwsLog(c, cfg, ts, caller, op, payload, st);
      r.debug == st.debug && r.id == st.id && (!st.debug ==> r == st)
    ensures var r := AwsLog(c, cfg, ts, caller, op, payload, st);
      st.debug ==>
        Entries(r.log, LogKey(st))
        == Entries(st.log, LogKey(st))
           + [CallEntry(caller), RequestEntry(op, payload, CanonicalRequest(c, cfg.endpoint, ts, op, payload), ts),
              DebugKeys(c, cfg, ts)]
    ensures var r := AwsLog(c, cfg, ts, caller, op, payload, st);
      forall k :: k != LogKey(st) ==> Entries(r.log, k) == Entries(st.log, k)
  {
    var a, b, d := CallEntry(caller), RequestEntry(op, payload, CanonicalRequest(c, cfg.endpoint, ts, op, payload), ts),
                   DebugKeys(c, cfg, ts);
    WriteThreeFlags(st, a, b, d);
    if st.debug {
      WriteThreeRun(st, a, b, d);
    }
    forall k | k != LogKey(st)
      ensures Entries(AwsLog(c, cfg, ts, caller, op, payload, st).log, k) == Entries(st.log, k)
    {
      WriteThreeOthers(st, a, b, d, k);
    }
  }

  lemma NestedEntryBounded(outer: string, ms: seq<Member>)
    requires |ms| > 0 && DistinctKeys(ms)
    requires forall i :: 0 <= i < |ms| ==> ms[i].value.JString?
    ensures var v := JObject([Member(outer, JObject(ms))]); WellFormed(v) && Depth(v) == 2
  {
    MembersBounded(ms, 0);
    MembersBounded([Member(outer, JObject(ms))], 1);
  }

  /** The three entries are arrays at most two deep. */
  lemma RequestEntryBounded(op: string, payload: string, canonical: string, ts: string)
    ensures WellFormed(RequestEntry(op, payload, canonical, ts)) && Depth(RequestEntry(op, payload, canonical, ts)) == 2
  {
    var m2 := RequestEntry(op, payload, canonical, ts).members[0].value.members;
    assert DistinctKeys(m2) by {
      assert |m2[0].key| == 9 && |m2[1].key| == 7 && |m2[2].key| == 18 && |m2[3].key| == 16;
    }
    NestedEntryBounded(AwsClass + "::makeRequest", m2);
  }

  lemma KeysEntryBounded(date: string, region: string, service: string)
    ensures WellFormed(KeysEntry(date, region, service)) && Depth(KeysEntry(date, region, service)) == 2
  {
    var m3 := KeysEntry(date, region, service).members[0].value.members;
    assert DistinctKeys(m3) by {
      assert |m3[0].key| == 4 && |m3[1].key| == 6 && |m3[2].key| == 7;
    }
    NestedEntryBounded(AwsClass + "::makeRequest", m3);
  }

  lemma WriteThreeKeepsSound(st: DebugState, a: Json, b: Json, d: Json)
    requires Sound(st)
    requires WellFormed(a) && Depth(a) <= 2 && WellFormed(b) && Depth(b) <= 2 && WellFormed(d) && Depth(d) <= 2
    ensures Sound(WriteLog(WriteLog(WriteLog(st, a), b), d))
  {
    WriteLogKeepsSound(st, a);
    WriteLogKeepsSound(WriteLog(st, a), b);
    WriteLogKeepsSound(WriteLog(WriteLog(st, a), b), d);
  }

  lemma CallEntryBounded(caller: string)
    ensures WellFormed(CallEntry(caller)) && Depth(CallEntry(caller)) == 1
  {
    MembersBounded(CallEntry(caller).members, 0);
  }

  lemma DebugKeysBounded(c: Crypto, cfg: Config.Config, ts: Timestamp)
    ensures WellFormed(DebugKeys(c, cfg, ts)) && Depth(DebugKeys(c, cfg, ts)) == 2
  {
    var kDate := c.hmac(Utf8(DateString(ts)), Utf8(KeyQualifier + cfg.secret));
    var kRegion := c.hmac(Utf8(Region(cfg.endpoint)), kDate);
    KeysEntryBounded(Hex(kDate), Hex(kRegion), Hex(c.hmac(Utf8(ServiceName), kRegion)));
  }

  /** The entries `AWS` writes keep a sound log sound. */
  lemma AwsLogKeepsSound(c: Crypto, cfg: Config.Config, ts: Timestamp, caller: string, op: string, payload: string,
                         st: DebugState)
    requires Sound(st)
    ensures Sound(AwsLog(c, cfg, ts, caller, op, payload, st))
  {
    var canonical := CanonicalRequest(c, cfg.endpoint, ts, op, payload);
    CallEntryBounded(caller);
    RequestEntryBounded(op, payload, canonical, ts);
    DebugKeysBounded(c, cfg, ts);
    WriteThreeKeepsSound(st, CallEntry(caller), RequestEntry(op, payload, canonical, ts), DebugKeys(c, cfg, ts));
  }

  /** `getCode`: order a gift card worth `amount`. */
  function GetCode(c: Crypto, cfg: Config.Config, ts: Timestamp, amount: NumberText, creationId: Option<string>,
                   unique: string, net: HttpRequest -> Outcome, st: DebugState): (x: Exchange<CreateResponse>)
    ensures x.request.url == Url(cfg.endpoint, CreateGiftCardOp)
    ensures x.request.body == GiftCardPayload(cfg, amount, creationId, unique)
    ensures Decode(x.request.body) == Ok(GiftCardJson(cfg, amount, CreationRequestId(cfg.partner, creationId, unique)))
  {
    GiftCardPayloadReads(cfg, amount, creationId, unique);
    var payload := GiftCardPayload(cfg, amount, creationId, unique);
    var request := MakeRequest(c, cfg, ts, CreateGiftCardOp, payload);
    Call(request, net, AwsLog(c, cfg, ts, "getCode", CreateGiftCardOp, payload, st), ParseCreate)
  }

  /** `cancelCode`: cancel the card `gcId` of the order `creationRequestId`. */
  function CancelCode(c: Crypto, cfg: Config.Config, ts: Timestamp, creationRequestId: string, gcId: string,
                      net: HttpRequest -> Outcome, st: DebugState): (x: Exchange<CancelResponse>)
    ensures x.request.url == Url(cfg.endpoint, CancelGiftCardOp)
    ensures Decode(x.request.body) == Ok(CancelJson(cfg, creationRequestId, gcId))
  {
    CancelPayloadReads(cfg, creationRequestId, gcId);
    var payload := CancelPayload(cfg, creationRequestId, gcId);
    var request := MakeRequest(c, cfg, ts, CancelGiftCardOp, payload);
    Call(request, net, AwsLog(c, cfg, ts, "cancelCode", CancelGiftCardOp, payload, st), ParseCancel)
  }

  /** `getBalance`: the funds left on the partner's account. */
  function GetBalance(c: Crypto, cfg: Config.Config, ts: Timestamp, net: HttpRequest -> Outcome, st: DebugState)
    : (x: Exchange<BalanceResponse>)
    ensures x.request.url == Url(cfg.endpoint, GetAvailableFundsOp)
    ensures Decode(x.request.body) == Ok(FundsJson(cfg))
  {
    FundsPayloadReads(cfg);
    var request := MakeRequest(c, cfg, ts, GetAvailableFundsOp, FundsPayload(cfg));
    Call(request, net, AwsLog(c, cfg, ts, "getBalance", GetAvailableFundsOp, FundsPayload(cfg), st), ParseBalance)
  }

  /** A 200 reply the constructor accepts is returned, and the client logs
      nothing. */
  lemma CallDelivers<T>(request: HttpRequest, net: HttpRequest -> Outcome, st: DebugState,
                        parse: Json -> Option<T>, body: string, v: T)
    requires net(request) == Received(HttpOk, body) && parse(DecodedOrNull(body)) == Some(v)
    ensures Call(request, net, st, parse) == Exchange(request, Ok(v), st)
  {
  }

  /** A gift card the service issues reaches the caller field by field,
      with the reply text as its raw JSON; the debug state is as `AWS`
      left it. */
  lemma GetCodeIssued(c: Crypto, cfg: Config.Config, ts: Timestamp, amount: NumberText, creationId: Option<string>,
                      unique: string, net: HttpRequest -> Outcome, st: DebugState, f: CreateFields)
    requires var request := GetCode(c, cfg, ts, amount, creationId, unique, net, st).request;
      net(request) == Received(HttpOk, Text(CreateBody(f)))
    ensures var x := GetCode(c, cfg, ts, amount, creationId, unique, net, st);
      x.result.Ok? && x.debug == AwsLog(c, cfg, ts, "getCode", CreateGiftCardOp, GiftCardPayload(cfg, amount, creationId, unique), st)
      && x.result.value.Id() == Some(f.gcId) && x.result.value.CreationRequestId() == Some(f.creationRequestId)
      && x.result.value.ClaimCode() == Some(f.claimCode) && x.result.value.Value() == Some(JNumber(f.amount))
      && x.result.value.Currency() == Some(f.currency) && x.result.value.Status() == Some(f.status)
      && x.result.value.ExpirationDate() == Some(f.expirationDate) && x.result.value.CardStatus() == Some(f.cardStatus)
      && x.result.value.RawJson() == Text(CreateBody(f))
  {
    var request := GetCode(c, cfg, ts, amount, creationId, unique, net, st).request;
    var text := Text(CreateBody(f));
    CreateReplyReads(f);
    CallDelivers(request, net, AwsLog(c, cfg, ts, "getCode", CreateGiftCardOp, GiftCardPayload(cfg, amount, creationId, unique), st), ParseCreate, text, ParseCreate(Decode(text).value).value);
  }

  /** A cancellation the service confirms reaches the caller with its ids
      and status. */
  lemma CancelCodeConfirmed(c: Crypto, cfg: Config.Config, ts: Timestamp, creationRequestId: string, gcId: string,
                            net: HttpRequest -> Outcome, st: DebugState, status: string)
    requires var request := CancelCode(c, cfg, ts, creationRequestId, gcId, net, st).request;
      net(request) == Received(HttpOk, Text(CancelBody(creationRequestId, gcId, status)))
    ensures var x := CancelCode(c, cfg, ts, creationRequestId, gcId, net, st);
      x.result.Ok? && x.debug == AwsLog(c, cfg, ts, "cancelCode", CancelGiftCardOp, CancelPayload(cfg, creationRequestId, gcId), st)
      && x.result.value.Id() == Some(gcId) && x.result.value.CreationRequestId() == Some(creationRequestId)
      && x.result.value.Status() == Some(status)
  {
    var request := CancelCode(c, cfg, ts, creationRequestId, gcId, net, st).request;
    var text := Text(CancelBody(creationRequestId, gcId, status));
    CancelReplyReads(creationRequestId, gcId, status);
    CallDelivers(request, net, AwsLog(c, cfg, ts, "cancelCode", CancelGiftCardOp, CancelPayload(cfg, creationRequestId, gcId), st), ParseCancel, text, ParseCancel(Decode(text).value).value);
  }

  /** The funds the service reports reach the caller. */
  lemma BalanceReported(c: Crypto, cfg: Config.Config, ts: Timestamp, net: HttpRequest -> Outcome, st: DebugState,
                        amount: NumberText, currency: string, status: string, timestamp: string)
    requires var request := GetBalance(c, cfg, ts, net, st).request;
      net(request) == Received(HttpOk, Text(BalanceBody(amount, currency, status, timestamp)))
    ensures var x := GetBalance(c, cfg, ts, net, st);
      x.result.Ok? && x.debug == AwsLog(c, cfg, ts, "getBalance", GetAvailableFundsOp, FundsPayload(cfg), st)
      && x.result.value.Amount() == JNumber(amount) && x.result.value.Currency() == currency
      && x.result.value.Status() == Some(status) && x.result.value.Timestamp() == Some(timestamp)
  {
    var request := GetBalance(c, cfg, ts, net, st).request;
    var text := Text(BalanceBody(amount, currency, status, timestamp));
    BalanceReplyReads(amount, currency, status, timestamp);
    CallDelivers(request, net, AwsLog(c, cfg, ts, "getBalance", GetAvailableFundsOp, FundsPayload(cfg), st), ParseBalance, text, ParseBalance(Decode(text).value).value);
  }

  /** A 200 reply that is not JSON decodes to null, which no response
      constructor accepts: the call ends in a `TypeError`. */
  lemma UndecodableReplyFaults<T>(request: HttpRequest, net: HttpRequest -> Outcome, st: DebugState,
                                  parse: Json -> Option<T>, body: string)
    requires Decode(body).Err? && net(request) == Received(HttpOk, body) && parse(JNull).None?
    ensures Call(request, net, st, parse).result == Err(TypeFault)
  {
  }

  /** None of the three response constructors accepts null. */
  lemma NullRejected()
    ensures ParseCreate(JNull).None? && ParseCancel(JNull).None? && ParseBalance(JNull).None?
  {
  }

  /** A reply other than 200 ends the call with what the client threw for
      it, whatever the body, and the body is logged. */
  lemma RefusedReplyThrows<T>(request: HttpRequest, net: HttpRequest -> Outcome, st: DebugState,
                              parse: Json -> Option<T>, status: int, body: string)
    requires status != HttpOk && net(request) == Received(status, body)
    ensures var x := Call(request, net, st, parse);
      x.result.Err? && x.debug == WriteLog(st, ResultEntry(body))
      && (ErrorFields(body).None? <==> x.result.error == TypeFault)
  {
  }
}
