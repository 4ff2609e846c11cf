/** The three response classes: `CreateResponse`, `CreateBalanceResponse`
    and `CancelResponse`. Each is built from the decoded reply, keeps it as
    its raw JSON, and copies the fields whose keys are present over the
    defaults. None of the properties declares a type, so a field holds the
    decoded value as it came; the getters declare theirs, and convert or
    refuse on return according to the file's `strict_types` setting. */
module Responses {
  import opened Base
  import opened JsonValue
  import opened JsonEncode
  import opened JsonParser
  import opened JsonRoundTrip
  import opened Php
  import opened AmazonDebug

  const NoText: Json := JString("")
  const NoAmount: Json := JNumber("0")

  /** `if (array_key_exists($key, $a)) { $field = $a[$key]; }` on a field
      that holds `default`: a present value is copied whatever its type,
      null included. */
  function Copied(a: Json, key: string, default: Json): Json
  {
    Get(a, key).GetOr(default)
  }

  /** `CreateResponse`, whose file converts the coercive way. */
  datatype CreateResponse = CreateResponse(id: Json, creationRequestId: Json, claimCode: Json, value: Json,
                                           currency: Json, status: Json, expirationDate: Json, cardStatus: Json,
                                           raw: Json)
  {
    function Id(): Option<string> { CoerceString(id) }
    function CreationRequestId(): Option<string> { CoerceString(creationRequestId) }
    function ClaimCode(): Option<string> { CoerceString(claimCode) }
    /** `getValue(): float`: the stored value when it converts to a float;
        the float itself is not computed. */
    function Value(): Option<Json> { if CoercesToFloat(value) then Some(value) else None }
    function Currency(): Option<string> { CoerceString(currency) }
    function Status(): Option<string> { CoerceString(status) }
    function ExpirationDate(): Option<string> { CoerceString(expirationDate) }
    function CardStatus(): Option<string> { CoerceString(cardStatus) }
    function RawJson(): string { EncodeOrEmpty(raw) }
  }

  /** `$json_response['cardInfo']['value']` as `array_key_exists` receives
      it: None when it is not an array, where PHP raises a `TypeError`. A
      missing key reads as null and fails the same way. */
  function CardValue(v: Json): (r: Option<Json>)
    ensures r.Some? ==> IsArray(r.value)
    ensures r.Some? <==> Get(v, "cardInfo").Some? && Get(Get(v, "cardInfo").value, "value").Some?
                         && IsArray(Get(Get(v, "cardInfo").value, "value").value)
  {
    match Get(v, "cardInfo")
    case None => None
    case Some(info) =>
      match Get(info, "value")
      case None => None
      case Some(cv) => if IsArray(cv) then Some(cv) else None
  }

  /** `new CreateResponse($json_response)`: None where PHP raises a
      `TypeError`, for a reply that is not an array or has no card value
      array. */
  function ParseCreate(v: Json): (r: Option<CreateResponse>)
    ensures r.Some? <==> IsArray(v) && CardValue(v).Some?
    ensures r.Some? ==> r.value.raw == v
    ensures r.Some? ==>
      (Get(v, "gcId").Some? ==> r.value.id == Get(v, "gcId").value)
      && (Get(v, "gcId").None? ==> r.value.Id() == Some(""))
      && (Get(v, "creationRequestId").Some? ==> r.value.creationRequestId == Get(v, "creationRequestId").value)
      && (Get(v, "creationRequestId").None? ==> r.value.CreationRequestId() == Some(""))
      && (Get(v, "status").Some? ==> r.value.status == Get(v, "status").value)
      && (Get(v, "status").None? ==> r.value.Status() == Some(""))
    ensures r.Some? ==>
      (Get(v, "gcClaimCode").Some? ==> r.value.claimCode == Get(v, "gcClaimCode").value)
      && (Get(v, "gcClaimCode").None? ==> r.value.ClaimCode() == Some(""))
      && (Get(v, "gcExpirationDate").Some? ==> r.value.expirationDate == Get(v, "gcExpirationDate").value)
      && (Get(v, "gcExpirationDate").None? ==> r.value.ExpirationDate() == Some(""))
    ensures r.Some? ==>
      var info := Get(v, "cardInfo").value;
      (Get(info, "cardStatus").Some? ==> r.value.cardStatus == Get(info, "cardStatus").value)
      && (Get(info, "cardStatus").None? ==> r.value.CardStatus() == Some(""))
    ensures r.Some? ==>
      var cv := CardValue(v).value;
      (Get(cv, "amount").Some? ==> r.value.value == Get(cv, "amount").value)
      && (Get(cv, "amount").None? ==> r.value.value == NoAmount)
      && (Get(cv, "currencyCode").Some? ==> r.value.currency == Get(cv, "currencyCode").value)
      && (Get(cv, "currencyCode").None? ==> r.value.Currency() == Some(""))
  {
    if !IsArray(v) then None
    else
      match CardValue(v)
      case None => None
      case Some(cv) =>
        var info := Get(v, "cardInfo").value;
        Some(CreateResponse(Copied(v, "gcId", NoText), Copied(v, "creationRequestId", NoText),
                            Copied(v, "gcClaimCode", NoText), Copied(cv, "amount", NoAmount),
                            Copied(cv, "currencyCode", NoText), Copied(v, "status", NoText),
                            Copied(v, "gcExpirationDate", NoText), Copied(info, "cardStatus", NoText), v))
  }

  /** `CreateBalanceResponse`, whose file is in strict mode. The amount and
      currency are stored only after a type check, so their getters always
      succeed; status and timestamp are copied unchecked. */
  datatype BalanceResponse = BalanceResponse(amount: Json, currency: string, status: Json, timestamp: Json, raw: Json)
  {
    /** `getAmount(): float`: the numeric value cast to a float, or the
        integer default, which strict mode still widens to a float. */
    function Amount(): Json { amount }
    function Currency(): string { currency }
    function Status(): Option<string> { StrictString(status) }
    function Timestamp(): Option<string> { StrictString(timestamp) }
    function RawJson(): string { EncodeOrEmpty(raw) }
  }

  /** `$json_response['availableFunds'][$key]`, read only when
      `availableFunds` is an array holding the key. */
  function FundsMember(v: Json, key: string): (r: Option<Json>)
    ensures r.Some? ==> Get(v, "availableFunds").Some? && IsArray(Get(v, "availableFunds").value)
  {
    match Get(v, "availableFunds")
    case Some(f) => if IsArray(f) then Get(f, key) else None
    case None => None
  }

  /** `new CreateBalanceResponse($json_response)`: None only for a reply
      that is not an array; a missing `availableFunds` is just a warning.
      The amount is taken only when `is_numeric` holds of it, the currency
      only when it is a string. */
  function ParseBalance(v: Json): (r: Option<BalanceResponse>)
    ensures r.Some? <==> IsArray(v)
    ensures r.Some? ==> r.value.raw == v && IsNumeric(r.value.Amount())
    ensures r.Some? ==>
      var a := FundsMember(v, "amount");
      (a.Some? && IsNumeric(a.value) ==> r.value.Amount() == a.value)
      && (!(a.Some? && IsNumeric(a.value)) ==> r.value.Amount() == NoAmount)
    ensures r.Some? ==>
      var c := FundsMember(v, "currencyCode");
      (c.Some? && c.value.JString? ==> r.value.Currency() == c.value.str)
      && (!(c.Some? && c.value.JString?) ==> r.value.Currency() == "")
    ensures r.Some? ==>
      (Get(v, "status").Some? ==> r.value.status == Get(v, "status").value)
      && (Get(v, "status").None? ==> r.value.Status() == Some(""))
      && (Get(v, "timestamp").Some? ==> r.value.timestamp == Get(v, "timestamp").value)
      && (Get(v, "timestamp").None? ==> r.value.Timestamp() == Some(""))
  {
    if !IsArray(v) then None
    else
      var a := FundsMember(v, "amount");
      var c := FundsMember(v, "currencyCode");
      var amount := if a.Some? && IsNumeric(a.value) then a.value else NoAmount;
      var currency := if c.Some? && c.value.JString? then c.value.str else "";
      assert IsNumeric(NoAmount);
      Some(BalanceResponse(amount, currency, Copied(v, "status", NoText), Copied(v, "timestamp", NoText), v))
  }

  /** `CancelResponse`, whose file is in strict mode. */
  datatype CancelResponse = CancelResponse(id: Json, creationRequestId: Json, status: Json, raw: Json)
  {
    function Id(): Option<string> { StrictString(id) }
    function CreationRequestId(): Option<string> { StrictString(creationRequestId) }
    function Status(): Option<string> { StrictString(status) }
    function RawJson(): string { EncodeOrEmpty(raw) }
  }

  /** `new CancelResponse($json_response)`: None only for a reply that is
      not an array. */
  function ParseCancel(v: Json): (r: Option<CancelResponse>)
    ensures r.Some? <==> IsArray(v)
    ensures r.Some? ==> r.value.raw == v
    ensures r.Some? ==>
      (Get(v, "gcId").Some? ==> r.value.id == Get(v, "gcId").value)
      && (Get(v, "gcId").None? ==> r.value.Id() == Some(""))
      && (Get(v, "creationRequestId").Some? ==> r.value.creationRequestId == Get(v, "creationRequestId").value)
      && (Get(v, "creationRequestId").None? ==> r.value.CreationRequestId() == Some(""))
      && (Get(v, "status").Some? ==> r.value.status == Get(v, "status").value)
      && (Get(v, "status").None? ==> r.value.Status() == Some(""))
  {
    if !IsArray(v) then None
    else Some(CancelResponse(Copied(v, "gcId", NoText), Copied(v, "creationRequestId", NoText),
                             Copied(v, "status", NoText), v))
  }

  /** The fields of a gift-card reply. */
  datatype CreateFields = CreateFields(gcId: string, creationRequestId: string, claimCode: string,
                                       expirationDate: string, status: string, cardStatus: string,
                                       currency: string, amount: NumberText)

  /** The `value` object of a reply's `cardInfo`. */
  function ValueBody(f: CreateFields): Json
  {
    JObject([Member("amount", JNumber(f.amount)), Member("currencyCode", JString(f.currency))])
  }

  /** The `cardInfo` object of a reply. */
  function CardInfoBody(f: CreateFields): Json
  {
    JObject([Member("cardNumber", JNull), Member("cardStatus", JString(f.cardStatus)),
             Member("expirationDate", JNull), Member("value", ValueBody(f))])
  }

  /** A gift-card reply shaped as the service writes it. */
  function CreateBody(f: CreateFields): Json
  {
    JObject([Member("cardInfo", CardInfoBody(f)),
             Member("creationRequestId", JString(f.creationRequestId)),
             Member("gcClaimCode", JString(f.claimCode)),
             Member("gcExpirationDate", JString(f.expirationDate)),
             Member("gcId", JString(f.gcId)),
             Member("status", JString(f.status))])
  }

  lemma CardInfoWellFormed(f: CreateFields)
    ensures var info := CardInfoBody(f);
      WellFormed(info) && Depth(info) == 2 && DistinctKeys(info.members) && DistinctKeys(ValueBody(f).members)
  {
    var info, cv := CardInfoBody(f), ValueBody(f);
    assert WellFormed(cv) && Depth(cv) == 1 && DistinctKeys(cv.members) by {
      MembersBounded(cv.members, 0);
      assert |cv.members[0].key| == 6 && |cv.members[1].key| == 12;
    }
    assert DistinctKeys(info.members) by {
      assert info.members[0].key[4] == 'N' && info.members[1].key[4] == 'S';
      assert |info.members[1].key| == 10 && |info.members[2].key| == 14 && |info.members[3].key| == 5;
    }
    assert info.members[3].value == cv;
    MembersBounded(info.members, 1);
  }

  lemma CreateBodyDistinct(f: CreateFields)
    ensures DistinctKeys(CreateBody(f).members)
  {
    var ms := CreateBody(f).members;
    assert |ms[0].key| == 8 && |ms[1].key| == 17 && |ms[2].key| == 11;
    assert |ms[3].key| == 16 && |ms[4].key| == 4 && |ms[5].key| == 6;
  }

  lemma CreateBodyWellFormed(f: CreateFields)
    ensures WellFormed(CreateBody(f)) && Depth(CreateBody(f)) == 3 && DistinctKeys(CreateBody(f).members)
  {
    CardInfoWellFormed(f);
    CreateBodyDistinct(f);
    MembersBounded(CreateBody(f).members, 2);
  }

  /** Each key of a gift-card reply reads back what was written under it. */
  lemma CreateBodyKeys(f: CreateFields)
    ensures var v, info, cv := CreateBody(f), CardInfoBody(f), ValueBody(f);
      Get(v, "cardInfo") == Some(info) && Get(info, "value") == Some(cv)
      && Get(info, "cardStatus") == Some(JString(f.cardStatus))
      && Get(cv, "amount") == Some(JNumber(f.amount))
      && Get(cv, "currencyCode") == Some(JString(f.currency))
      && Get(v, "creationRequestId") == Some(JString(f.creationRequestId))
      && Get(v, "gcClaimCode") == Some(JString(f.claimCode))
      && Get(v, "gcExpirationDate") == Some(JString(f.expirationDate))
      && Get(v, "gcId") == Some(JString(f.gcId))
      && Get(v, "status") == Some(JString(f.status))
  {
    var ms := CreateBody(f).members;
    var info := CardInfoBody(f);
    CreateBodyWellFormed(f);
    CardInfoWellFormed(f);
    FindDistinct(ms, 0);
    FindDistinct(ms, 1);
    FindDistinct(ms, 2);
    FindDistinct(ms, 3);
    FindDistinct(ms, 4);
    FindDistinct(ms, 5);
    FindDistinct(info.members, 1);
    FindDistinct(info.members, 3);
    FindDistinct(ValueBody(f).members, 0);
    FindDistinct(ValueBody(f).members, 1);
  }

  /** A reply whose every key is present stores exactly what it carries. */
  lemma ParseCreateFull(v: Json, info: Json, cv: Json, id: Json, creationRequestId: Json, claimCode: Json,
                        amount: Json, currency: Json, status: Json, expirationDate: Json, cardStatus: Json)
    requires Get(v, "cardInfo") == Some(info) && Get(info, "value") == Some(cv) && cv.JObject?
    requires Get(v, "gcId") == Some(id) && Get(v, "creationRequestId") == Some(creationRequestId)
    requires Get(v, "gcClaimCode") == Some(claimCode) && Get(v, "status") == Some(status)
    requires Get(v, "gcExpirationDate") == Some(expirationDate) && Get(info, "cardStatus") == Some(cardStatus)
    requires Get(cv, "amount") == Some(amount) && Get(cv, "currencyCode") == Some(currency)
    ensures ParseCreate(v) == Some(CreateResponse(id, creationRequestId, claimCode, amount, currency, status,
                                                  expirationDate, cardStatus, v))
  {
  }

  /** Parsing a gift-card reply stores every field it carries. */
  lemma CreateBodyParsed(f: CreateFields)
    ensures ParseCreate(CreateBody(f))
         == Some(CreateResponse(JString(f.gcId), JString(f.creationRequestId), JString(f.claimCode),
                                JNumber(f.amount), JString(f.currency), JString(f.status),
                                JString(f.expirationDate), JString(f.cardStatus), CreateBody(f)))
  {
    var v := CreateBody(f);
    CreateBodyKeys(f);
    ParseCreateFull(v, CardInfoBody(f), ValueBody(f), JString(f.gcId), JString(f.creationRequestId),
                    JString(f.claimCode), JNumber(f.amount), JString(f.currency), JString(f.status),
                    JString(f.expirationDate), JString(f.cardStatus));
  }

  /** A gift-card reply as sent over the wire: its text decodes, parses, and
      every getter returns the field written, and the raw JSON is the text
      received. */
  lemma CreateReplyReads(f: CreateFields)
    ensures var text := Text(CreateBody(f));
      Decode(text).Ok? && ParseCreate(Decode(text).value).Some?
      && var r := ParseCreate(Decode(text).value).value;
      r.Id() == Some(f.gcId) && r.CreationRequestId() == Some(f.creationRequestId)
      && r.ClaimCode() == Some(f.claimCode) && r.ExpirationDate() == Some(f.expirationDate)
      && r.Status() == Some(f.status) && r.CardStatus() == Some(f.cardStatus)
      && r.Currency() == Some(f.currency) && r.Value() == Some(JNumber(f.amount))
      && r.RawJson() == text
  {
    CreateBodyWellFormed(f);
    EncodeOrEmptyReads(CreateBody(f));
    CreateBodyParsed(f);
  }

  /** A funds reply shaped as the service writes it. */
  function BalanceBody(amount: NumberText, currency: string, status: string, timestamp: string): Json
  {
    JObject([Member("availableFunds", JObject([Member("amount", JNumber(amount)),
                                               Member("currencyCode", JString(currency))])),
             Member("status", JString(status)),
             Member("timestamp", JString(timestamp))])
  }

  lemma BalanceBodyWellFormed(amount: NumberText, currency: string, status: string, timestamp: string)
    ensures var v := BalanceBody(amount, currency, status, timestamp);
      WellFormed(v) && Depth(v) == 2 && DistinctKeys(v.members) && DistinctKeys(v.members[0].value.members)
  {
    var ms := BalanceBody(amount, currency, status, timestamp).members;
    var funds := ms[0].value;
    assert |funds.members[0].key| == 6 && |funds.members[1].key| == 12;
    MembersBounded(funds.members, 0);
    assert |ms[0].key| == 14 && |ms[1].key| == 6 && |ms[2].key| == 9;
    MembersBounded(ms, 1);
  }

  lemma BalanceBodyKeys(amount: NumberText, currency: string, status: string, timestamp: string)
    ensures var v := BalanceBody(amount, currency, status, timestamp);
      FundsMember(v, "amount") == Some(JNumber(amount))
      && FundsMember(v, "currencyCode") == Some(JString(currency))
      && Get(v, "status") == Some(JString(status)) && Get(v, "timestamp") == Some(JString(timestamp))
  {
    var ms := BalanceBody(amount, currency, status, timestamp).members;
    var funds := ms[0].value;
    BalanceBodyWellFormed(amount, currency, status, timestamp);
    FindDistinct(ms, 0);
    FindDistinct(ms, 1);
    FindDistinct(ms, 2);
    FindDistinct(funds.members, 0);
    FindDistinct(funds.members, 1);
  }

  /** A funds reply as sent over the wire: its text decodes, parses, and
      the getters return the amount, currency, status and timestamp
      written. */
  lemma BalanceReplyReads(amount: NumberText, currency: string, status: string, timestamp: string)
    ensures var text := Text(BalanceBody(amount, currency, status, timestamp));
      Decode(text).Ok? && ParseBalance(Decode(text).value).Some?
      && var r := ParseBalance(Decode(text).value).value;
      r.Amount() == JNumber(amount) && r.Currency() == currency
      && r.Status() == Some(status) && r.Timestamp() == Some(timestamp)
      && r.RawJson() == text
  {
    BalanceBodyWellFormed(amount, currency, status, timestamp);
    BalanceBodyKeys(amount, currency, status, timestamp);
    EncodeOrEmptyReads(BalanceBody(amount, currency, status, timestamp));
  }

  /** A cancel reply shaped as the service writes it. */
  function CancelBody(creationRequestId: string, gcId: string, status: string): Json
  {
    JObject([Member("creationRequestId", JString(creationRequestId)),
             Member("gcId", JString(gcId)),
             Member("status", JString(status))])
  }

  /** A cancel reply as sent over the wire: its text decodes, parses, and
      the getters return the ids and status written. */
  lemma CancelReplyReads(creationRequestId: string, gcId: string, status: string)
    ensures var text := Text(CancelBody(creationRequestId, gcId, status));
      Decode(text).Ok? && ParseCancel(Decode(text).value).Some?
      && var r := ParseCancel(Decode(text).value).value;
      r.Id() == Some(gcId) && r.CreationRequestId() == Some(creationRequestId)
      && r.Status() == Some(status) && r.RawJson() == text
  {
    var ms := CancelBody(creationRequestId, gcId, status).members;
    MembersBounded(ms, 0);
    assert DistinctKeys(ms) by {
      assert ms[0].key[0] == 'c' && ms[1].key[0] == 'g' && ms[2].key[0] == 's';
    }
    FindDistinct(ms, 0);
    FindDistinct(ms, 1);
    FindDistinct(ms, 2);
    EncodeOrEmptyReads(CancelBody(creationRequestId, gcId, status));
  }

  /** Keys other than `gcId`, `creationRequestId` and `status` never reach
      the parsed cancel response. */
  lemma CancelIgnoresOtherKeys(v: Json, w: Json)
    requires IsArray(v) && IsArray(w)
    requires Get(v, "gcId") == Get(w, "gcId") && Get(v, "status") == Get(w, "status")
    requires Get(v, "creationRequestId") == Get(w, "creationRequestId")
    ensures ParseCancel(v).value.Id() == ParseCancel(w).value.Id()
    ensures ParseCancel(v).value.CreationRequestId() == ParseCancel(w).value.CreationRequestId()
    ensures ParseCancel(v).value.Status() == ParseCancel(w).value.Status()
  {
  }

  /** Two funds replies that agree on the four fields read give the same
      balance, whatever else they hold. */
  lemma BalanceIgnoresOtherKeys(v: Json, w: Json)
    requires IsArray(v) && IsArray(w)
    requires FundsMember(v, "amount") == FundsMember(w, "amount")
    requires FundsMember(v, "currencyCode") == FundsMember(w, "currencyCode")
    requires Get(v, "status") == Get(w, "status") && Get(v, "timestamp") == Get(w, "timestamp")
    ensures ParseBalance(v).value.Amount() == ParseBalance(w).value.Amount()
    ensures ParseBalance(v).value.Currency() == ParseBalance(w).value.Currency()
    ensures ParseBalance(v).value.Status() == ParseBalance(w).value.Status()
    ensures ParseBalance(v).value.Timestamp() == ParseBalance(w).value.Timestamp()
  {
  }

  /** The mock funds reply: zero yen, as of the given time. */
  lemma BalanceFixture()
    ensures var r := ParseBalance(BalanceBody("0.0", "JPY", "SUCCESS", "20220610T085450Z"));
      r.Some? && r.value.Amount() == JNumber("0.0") && r.value.Currency() == "JPY"
      && r.value.Status() == Some("SUCCESS") && r.value.Timestamp() == Some("20220610T085450Z")
  {
    BalanceBodyKeys("0.0", "JPY", "SUCCESS", "20220610T085450Z");
  }

  const MockCard: CreateFields := CreateFields("5535125272070255", "PartnerId_62a309167e7a4", "LJ49-AKDUV6-UYCP",
                                               "Thu Jun 10 14:59:59 UTC 2032", "SUCCESS", "Fulfilled", "JPY", "1000.0")

  /** The mock gift-card reply: a fulfilled card worth 1000 yen. */
  lemma CreateFixture()
    ensures var r := ParseCreate(CreateBody(MockCard));
      r.Some? && r.value.Id() == Some("5535125272070255")
      && r.value.CreationRequestId() == Some("PartnerId_62a309167e7a4")
      && r.value.ClaimCode() == Some("LJ49-AKDUV6-UYCP")
      && r.value.ExpirationDate() == Some("Thu Jun 10 14:59:59 UTC 2032")
      && r.value.Status() == Some("SUCCESS") && r.value.CardStatus() == Some("Fulfilled")
      && r.value.Currency() == Some("JPY") && r.value.Value() == Some(JNumber("1000.0"))
  {
    CreateBodyParsed(MockCard);
  }

  /** The mock cancel reply. */
  lemma CancelFixture()
    ensures var r := ParseCancel(CancelBody("PartnerId_62a309167e7a4", "5535125272070255", "SUCCESS"));
      r.Some? && r.value.Id() == Some("5535125272070255")
      && r.value.CreationRequestId() == Some("PartnerId_62a309167e7a4") && r.value.Status() == Some("SUCCESS")
  {
    var ms := CancelBody("PartnerId_62a309167e7a4", "5535125272070255", "SUCCESS").members;
    assert |ms[0].key| == 17 && |ms[1].key| == 4 && |ms[2].key| == 6;
    FindDistinct(ms, 0);
    FindDistinct(ms, 1);
    FindDistinct(ms, 2);
  }

  /** `getLog()` of the three response classes: `getLog(getId())`. */
  function ResponseLog(st: DebugState): Json
  {
    GetLog(st, GetId(st))
  }

  /** During a run, a response's log is its run's entries, the last one
      written at the end. */
  lemma ResponseLogOfRun(st: DebugState, data: Json)
    requires st.debug && st.id.Some?
    ensures ResponseLog(WriteLog(st, data)) == JArray(Entries(st.log, st.id.value) + [data])
  {
  }

  /** Without a run id the null id reaches `getLog`, which returns every
      run's entries, keyed by run. */
  lemma ResponseLogWithoutId(st: DebugState, k: string)
    requires st.id.None?
    ensures Get(ResponseLog(st), k) == if k in Ids(st.log) then Some(JArray(Entries(st.log, k))) else None
  {
    GetLogAgrees(st, k);
  }
}
