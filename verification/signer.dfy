/** The request signer of `AWS`, a derivative of AWS Signature Version 4:
    the endpoint's region, the canonical request, the string to sign, the
    HMAC key chain, the `Authorization` value and the header list curl is
    given. SHA-256 (FIPS 180-4) and HMAC-SHA256 (RFC 2104) are not
    modelled: they are the fields of a `Crypto` parameter. The clock is a
    single timestamp parameter shared by every builder. */
module Signer {
  import opened Base
  import opened Bytes
  import Config

  const ServiceName: string := "AGCODService"
  const AcceptHeader: string := "accept"
  const HostHeader: string := "host"
  const AmzDateHeader: string := "x-amz-date"
  const AmzTargetHeader: string := "x-amz-target"
  const AuthorizationHeader: string := "Authorization"
  const Algorithm: string := "AWS4-HMAC-SHA256"
  const KeyQualifier: string := "AWS4"
  const TerminationString: string := "aws4_request"
  const ContentType: string := "application/json"

  /** The three service operations. */
  const CreateGiftCardOp: string := "CreateGiftCard"
  const CancelGiftCardOp: string := "CancelGiftCard"
  const GetAvailableFundsOp: string := "GetAvailableFunds"

  /** `hash('sha256', $data, true)` and `hash_hmac('sha256', $data, $key, true)`
      on byte strings; the hexadecimal forms are `Hex` of these. */
  datatype Crypto = Crypto(sha256: Bytes -> Bytes, hmac: (Bytes, Bytes) -> Bytes)

  /** `gmdate('Ymd\THis\Z')`: eight date digits, `T`, six time digits, `Z`. */
  predicate IsTimestamp(ts: string) {
    |ts| == 16 && ts[8] == 'T' && ts[15] == 'Z'
    && (forall i :: 0 <= i < 8 ==> IsDigit(ts[i]))
    && (forall i :: 9 <= i < 15 ==> IsDigit(ts[i]))
  }

  type Timestamp = ts: string | IsTimestamp(ts) witness "20211009T102030Z"

  /** `getRegion`: the region of the endpoint's host, us-east-1 for any host
      not in the table. */
  function Region(endpoint: string): (r: string)
    ensures r == "us-east-1" || r == "eu-west-1" || r == "us-west-2"
    ensures r == "eu-west-1" <==> endpoint == "agcod-v2-eu.amazon.com" || endpoint == "agcod-v2-eu-gamma.amazon.com"
    ensures r == "us-west-2" <==> endpoint == "agcod-v2-fe.amazon.com" || endpoint == "agcod-v2-fe-gamma.amazon.com"
  {
    match endpoint
    case "agcod-v2.amazon.com" => "us-east-1"
    case "agcod-v2-gamma.amazon.com" => "us-east-1"
    case "agcod-v2-eu.amazon.com" => "eu-west-1"
    case "agcod-v2-eu-gamma.amazon.com" => "eu-west-1"
    case "agcod-v2-fe.amazon.com" => "us-west-2"
    case "agcod-v2-fe-gamma.amazon.com" => "us-west-2"
    case _ => "us-east-1"
  }

  /** `getDateString`: the date part of the timestamp. */
  function DateString(ts: Timestamp): (d: string)
    ensures |d| == 8 && forall i :: 0 <= i < 8 ==> IsDigit(d[i])
    ensures d <= ts
  {
    ts[..8]
  }

  /** One `name:value` header line. */
  function HeaderLine(name: string, value: string): string
  {
    name + ":" + value
  }

  /** The `x-amz-target` value `makeRequest` sends. */
  function Target(op: string): string
  {
    "com.amazonaws.agcod." + ServiceName + "." + op
  }

  /** `buildCanonicalHeaders`: the four signed headers, one per line. */
  function CanonicalHeaders(endpoint: string, ts: Timestamp, op: string): string
  {
    HeaderLine(AcceptHeader, ContentType) + "\n"
    + HeaderLine(HostHeader, endpoint) + "\n"
    + HeaderLine(AmzDateHeader, ts) + "\n"
    + HeaderLine(AmzTargetHeader, "com.amazonaws.agcod.AGCODService." + op)
  }

  /** The lines `CanonicalHeaders` is made of. */
  function CanonicalHeaderLines(endpoint: string, ts: Timestamp, op: string): seq<string>
  {
    [HeaderLine(AcceptHeader, ContentType), HeaderLine(HostHeader, endpoint),
     HeaderLine(AmzDateHeader, ts), HeaderLine(AmzTargetHeader, Target(op))]
  }

  /** The list of signed header names. */
  const SignedHeaders: string := AcceptHeader + ";" + HostHeader + ";" + AmzDateHeader + ";" + AmzTargetHeader

  /** `buildHash`: the lowercase hex SHA-256 of the text's bytes. */
  function HashHex(c: Crypto, text: string): (h: string)
    ensures forall i :: 0 <= i < |h| ==> h[i] in HexDigits
  {
    Hex(c.sha256(Utf8(text)))
  }

  /** `getCanonicalRequest`: method, path, an empty query, the canonical
      headers and a blank line, the signed header names, the payload hash. */
  function CanonicalRequest(c: Crypto, endpoint: string, ts: Timestamp, op: string, payload: string): string
  {
    "POST" + "\n" + ("/" + op) + "\n" + "" + "\n"
    + CanonicalHeaders(endpoint, ts, op) + "\n" + "" + "\n"
    + (AcceptHeader + ";" + HostHeader + ";" + AmzDateHeader + ";" + AmzTargetHeader) + "\n"
    + HashHex(c, payload)
  }

  /** The credential scope: date, region, service, terminator. */
  function Scope(ts: Timestamp, region: string): string
  {
    DateString(ts) + "/" + region + "/" + ServiceName + "/" + TerminationString
  }

  /** `buildStringToSign`: algorithm, timestamp, scope, canonical request hash. */
  function StringToSign(endpoint: string, ts: Timestamp, canonicalHash: string): string
  {
    Algorithm + "\n" + ts + "\n" + Scope(ts, Region(endpoint)) + "\n" + canonicalHash
  }

  /** `buildDerivedKey`: the secret, prefixed with `AWS4`, keys an HMAC of the
      date, whose result keys one of the region, then the service, then the
      terminator. */
  function DerivedKey(c: Crypto, secret: string, ts: Timestamp, region: string): Bytes
  {
    var kDate := c.hmac(Utf8(DateString(ts)), Utf8(KeyQualifier + secret));
    var kRegion := c.hmac(Utf8(region), kDate);
    var kService := c.hmac(Utf8(ServiceName), kRegion);
    c.hmac(Utf8(TerminationString), kService)
  }

  /** The hex HMAC of the string to sign under the derived key. */
  function Signature(c: Crypto, secret: string, ts: Timestamp, region: string, stringToSign: string): (s: string)
    ensures forall i :: 0 <= i < |s| ==> s[i] in HexDigits
  {
    Hex(c.hmac(Utf8(stringToSign), DerivedKey(c, secret, ts, region)))
  }

  /** `buildAuthSignature`: algorithm and credential, signed header names,
      signature, separated by commas. */
  function Authorization(c: Crypto, cfg: Config.Config, ts: Timestamp, stringToSign: string): string
  {
    var region := Region(cfg.endpoint);
    (Algorithm + " Credential=" + cfg.accessKey + "/" + DateString(ts) + "/" + region + "/"
     + ServiceName + "/" + TerminationString)
    + "," + (" SignedHeaders=" + (AcceptHeader + ";" + HostHeader + ";" + AmzDateHeader + ";" + AmzTargetHeader))
    + "," + (" Signature=" + Signature(c, cfg.secret, ts, region, stringToSign))
  }

  /** `buildHeaders`: the six headers handed to curl, in order. The length
      is `strlen`, a count of bytes. */
  function BuildHeaders(payload: string, authorization: string, ts: string, target: string): (h: seq<string>)
    ensures |h| == 6
    ensures h[0] == "Content-Type:" + ContentType
    ensures h[1] == "Content-Length: " + NatToString(|Utf8(payload)|)
    ensures h[2] == HeaderLine(AuthorizationHeader, authorization)
  {
    ["Content-Type:" + ContentType,
     "Content-Length: " + NatToString(|Utf8(payload)|),
     HeaderLine(AuthorizationHeader, authorization),
     HeaderLine(AmzDateHeader, ts),
     HeaderLine(AmzTargetHeader, target),
     HeaderLine(AcceptHeader, ContentType)]
  }

  /** The request curl is handed: URL, headers, body. */
  datatype HttpRequest = HttpRequest(url: string, headers: seq<string>, body: string)

  function Url(endpoint: string, op: string): string
  {
    "https://" + endpoint + "/" + op
  }

  /** `makeRequest` up to the call into the client, with the canonical
      request `getCode`, `cancelCode` and `getBalance` compute for it. */
  function MakeRequest(c: Crypto, cfg: Config.Config, ts: Timestamp, op: string, payload: string): (r: HttpRequest)
    ensures r.body == payload && |r.headers| == 6
  {
    var canonical := CanonicalRequest(c, cfg.endpoint, ts, op, payload);
    var stringToSign := StringToSign(cfg.endpoint, ts, HashHex(c, canonical));
    var authorization := Authorization(c, cfg, ts, stringToSign);
    HttpRequest(Url(cfg.endpoint, op), BuildHeaders(payload, authorization, ts, Target(op)), payload)
  }

  /** The region table: each of the six endpoints names its region, and any
      other text, a URL with a scheme included, falls to the default. */
  lemma RegionTable(endpoint: string)
    ensures Region("agcod-v2.amazon.com") == "us-east-1" && Region("agcod-v2-gamma.amazon.com") == "us-east-1"
    ensures Region("agcod-v2-eu.amazon.com") == "eu-west-1" && Region("agcod-v2-eu-gamma.amazon.com") == "eu-west-1"
    ensures Region("agcod-v2-fe.amazon.com") == "us-west-2" && Region("agcod-v2-fe-gamma.amazon.com") == "us-west-2"
    ensures Region("https://agcod-v2-eu.amazon.com") == "us-east-1"
  {
  }

  /** The date in the scope is the start of the `x-amz-date` value. */
  lemma ScopeDateStartsAmzDate(ts: Timestamp, region: string, payload: string, authorization: string, target: string)
    ensures var h := BuildHeaders(payload, authorization, ts, target)[3];
      h == AmzDateHeader + ":" + ts && AmzDateHeader + ":" + DateString(ts) <= h
    ensures Scope(ts, region)[..8] == DateString(ts)
  {
    assert (AmzDateHeader + ":" + ts)[..|AmzDateHeader| + 1 + 8] == AmzDateHeader + ":" + DateString(ts);
  }

  predicate NoNewline(s: string) {
    '\n' !in s
  }

  /** The fixed parts of the `Authorization` value hold no comma. */
  lemma CommaFree()
    ensures ',' !in Algorithm
    ensures ',' !in " Credential="
    ensures ',' !in ServiceName
    ensures ',' !in TerminationString
    ensures ',' !in SignedHeaders
    ensures ',' !in " SignedHeaders="
    ensures ',' !in " Signature="
    ensures ',' !in "/"
  {
    assert ',' !in Algorithm by {}
    assert ',' !in " Credential=" by {}
    assert ',' !in ServiceName by {}
    assert ',' !in TerminationString by {}
    assert ',' !in SignedHeaders by {}
    assert ',' !in " SignedHeaders=" by {}
    assert ',' !in " Signature=" by {}
    assert ',' !in "/" by {}
  }

  /** The fixed lines hold no newline, and the fixed scope fields no slash. */
  lemma LineFree()
    ensures '\n' !in Algorithm
    ensures '\n' !in "POST"
    ensures '\n' !in SignedHeaders
    ensures '\n' !in ServiceName
    ensures '\n' !in TerminationString
    ensures '\n' !in "/"
    ensures '/' !in ServiceName
    ensures '/' !in TerminationString
  {
    assert '\n' !in Algorithm by {}
    assert '\n' !in "POST" by {}
    assert '\n' !in SignedHeaders by {}
    assert '\n' !in ServiceName by {}
    assert '\n' !in TerminationString by {}
    assert '\n' !in "/" by {}
    assert '/' !in ServiceName by {}
    assert '/' !in TerminationString by {}
  }

  /** The fixed header texts hold no newline. */
  lemma HeaderTextsFree()
    ensures '\n' !in AcceptHeader
    ensures '\n' !in ContentType
    ensures '\n' !in HostHeader
    ensures '\n' !in AmzDateHeader
    ensures '\n' !in AmzTargetHeader
    ensures '\n' !in ":"
    ensures '\n' !in "com.amazonaws.agcod.AGCODService."
  {
    assert '\n' !in AcceptHeader by {}
    assert '\n' !in ContentType by {}
    assert '\n' !in HostHeader by {}
    assert '\n' !in AmzDateHeader by {}
    assert '\n' !in AmzTargetHeader by {}
    assert '\n' !in ":" by {}
    assert '\n' !in "com.amazonaws.agcod.AGCODService." by {}
  }

  /** Header names hold no colon. */
  lemma HeaderNamesFree()
    ensures ':' !in AcceptHeader
    ensures ':' !in HostHeader
    ensures ':' !in AmzDateHeader
    ensures ':' !in AmzTargetHeader
    ensures ':' !in AuthorizationHeader
    ensures ':' !in "Content-Type"
    ensures ':' !in "Content-Length"
  {
    assert ':' !in AcceptHeader by {}
    assert ':' !in HostHeader by {}
    assert ':' !in AmzDateHeader by {}
    assert ':' !in AmzTargetHeader by {}
    assert ':' !in AuthorizationHeader by {}
    assert ':' !in "Content-Type" by {}
    assert ':' !in "Content-Length" by {}
  }

  /** A timestamp holds no separator, nor does its date. */
  lemma TimestampPlain(ts: Timestamp)
    ensures '\n' !in ts
    ensures var d := DateString(ts); ',' !in d && '/' !in d && '\n' !in d
  {
  }

  /** Hexadecimal text holds no separator. */
  lemma HexPlain(h: string)
    requires forall i :: 0 <= i < |h| ==> h[i] in HexDigits
    ensures ',' !in h && '\n' !in h
  {
    assert ',' !in HexDigits && '\n' !in HexDigits;
  }

  /** No region name holds a separator. */
  lemma RegionPlain(endpoint: string)
    ensures var r := Region(endpoint); ',' !in r && '/' !in r && '\n' !in r
  {
    var r := Region(endpoint);
    if r == "us-east-1" {
      assert ',' !in r && '/' !in r && '\n' !in r;
    } else if r == "eu-west-1" {
      assert ',' !in r && '/' !in r && '\n' !in r;
    } else {
      assert ',' !in r && '/' !in r && '\n' !in r;
    }
  }

  /** The canonical headers are exactly the four lines, in order, with no
      newline after the last. */
  lemma CanonicalHeadersLayout(endpoint: string, ts: Timestamp, op: string)
    requires NoNewline(endpoint) && NoNewline(op)
    ensures Split(CanonicalHeaders(endpoint, ts, op), '\n') == CanonicalHeaderLines(endpoint, ts, op)
  {
    var ls := CanonicalHeaderLines(endpoint, ts, op);
    var last := HeaderLine(AmzTargetHeader, "com.amazonaws.agcod.AGCODService." + op);
    TargetSigned("", "", endpoint, ts, op);
    assert last == ls[3];
    HeaderTextsFree();
    TimestampPlain(ts);
    assert NoNewline(ls[0]) && NoNewline(ls[1]) && NoNewline(ls[2]) && NoNewline(ls[3]);
    SplitConcat(ls[0] + "\n" + ls[1] + "\n" + ls[2], '\n', last);
    SplitConcat(ls[0] + "\n" + ls[1], '\n', ls[2]);
    SplitConcat(ls[0], '\n', ls[1]);
    SplitNoSep(ls[0], '\n');
    SplitNoSep(ls[1], '\n');
    SplitNoSep(ls[2], '\n');
    SplitNoSep(ls[3], '\n');
  }

  /** The target in the canonical headers is the one `makeRequest` sends. */
  lemma TargetSigned(payload: string, authorization: string, endpoint: string, ts: Timestamp, op: string)
    ensures "com.amazonaws.agcod.AGCODService." + op == Target(op)
    ensures BuildHeaders(payload, authorization, ts, Target(op))[4] == CanonicalHeaderLines(endpoint, ts, op)[3]
  {
  }

  /** The canonical request, line by line: method, path, empty query, the
      four header lines, a blank line, the signed header names, the payload
      hash. */
  lemma CanonicalRequestLayout(c: Crypto, endpoint: string, ts: Timestamp, op: string, payload: string)
    requires NoNewline(endpoint) && NoNewline(op)
    ensures Split(CanonicalRequest(c, endpoint, ts, op, payload), '\n')
         == ["POST", "/" + op, ""] + CanonicalHeaderLines(endpoint, ts, op) + ["", SignedHeaders, HashHex(c, payload)]
  {
    var h := HashHex(c, payload);
    LineFree();
    HexPlain(h);
    SplitAround("POST", "/" + op, "", CanonicalHeaders(endpoint, ts, op), "", SignedHeaders, h, '\n');
    CanonicalHeadersLayout(endpoint, ts, op);
  }

  /** Seven fields of which only the middle one may hold separators. */
  lemma SplitAround(a: string, b: string, c: string, mid: string, d: string, e: string, f: string, sep: char)
    requires sep !in a && sep !in b && sep !in c && sep !in d && sep !in e && sep !in f
    ensures Split(a + [sep] + b + [sep] + c + [sep] + mid + [sep] + d + [sep] + e + [sep] + f, sep)
         == [a, b, c] + Split(mid, sep) + [d, e, f]
  {
    var left := a + [sep] + b + [sep] + c;
    SplitConcat(left + [sep] + mid + [sep] + d + [sep] + e, sep, f);
    SplitConcat(left + [sep] + mid + [sep] + d, sep, e);
    SplitConcat(left + [sep] + mid, sep, d);
    SplitConcat(left, sep, mid);
    Split3(a, b, c, sep);
    SplitNoSep(d, sep);
    SplitNoSep(e, sep);
    SplitNoSep(f, sep);
  }

  /** The signed header names are the names of the four canonical header
      lines, in the same order. */
  lemma SignedHeaderNames(endpoint: string, ts: Timestamp, op: string)
    ensures Split(SignedHeaders, ';') == [AcceptHeader, HostHeader, AmzDateHeader, AmzTargetHeader]
    ensures forall i :: 0 <= i < 4 ==>
      HeaderName(CanonicalHeaderLines(endpoint, ts, op)[i]) == Split(SignedHeaders, ';')[i]
  {
    assert ';' !in AcceptHeader && ';' !in HostHeader && ';' !in AmzDateHeader && ';' !in AmzTargetHeader;
    Split4(AcceptHeader, HostHeader, AmzDateHeader, AmzTargetHeader, ';');
    HeaderNamesFree();
    HeaderLineName(AcceptHeader, ContentType);
    HeaderLineName(HostHeader, endpoint);
    HeaderLineName(AmzDateHeader, ts);
    HeaderLineName(AmzTargetHeader, Target(op));
  }

  /** The name of a header line: the text before its first colon. */
  function HeaderName(h: string): string
  {
    Split(h, ':')[0]
  }

  /** A header line's name is read back from it. */
  lemma HeaderLineName(name: string, value: string)
    requires ':' !in name
    ensures HeaderName(HeaderLine(name, value)) == name
  {
    SplitConcat(name, ':', value);
    SplitNoSep(name, ':');
  }

  /** The scope is four `/`-separated fields. */
  lemma ScopeParts(ts: Timestamp, region: string)
    requires '/' !in region
    ensures Split(Scope(ts, region), '/') == [DateString(ts), region, ServiceName, TerminationString]
  {
    var d := DateString(ts);
    TimestampPlain(ts);
    LineFree();
    Split4(d, region, ServiceName, TerminationString, '/');
  }

  /** The string to sign, line by line. */
  lemma StringToSignLayout(endpoint: string, ts: Timestamp, canonicalHash: string)
    requires NoNewline(canonicalHash)
    ensures Split(StringToSign(endpoint, ts, canonicalHash), '\n')
         == [Algorithm, ts, Scope(ts, Region(endpoint)), canonicalHash]
  {
    var sc := Scope(ts, Region(endpoint));
    TimestampPlain(ts);
    RegionPlain(endpoint);
    LineFree();
    assert '\n' !in sc;
    Split4(Algorithm, ts, sc, canonicalHash, '\n');
  }

  /** The `Authorization` value is three comma-separated parts: the
      credential, which is the access key followed by the scope; the signed
      header names; the signature. */
  lemma AuthorizationLayout(c: Crypto, cfg: Config.Config, ts: Timestamp, stringToSign: string)
    requires ',' !in cfg.accessKey
    ensures var region := Region(cfg.endpoint);
      Split(Authorization(c, cfg, ts, stringToSign), ',')
      == [Algorithm + " Credential=" + cfg.accessKey + "/" + Scope(ts, region),
          " SignedHeaders=" + SignedHeaders,
          " Signature=" + Signature(c, cfg.secret, ts, region, stringToSign)]
  {
    var region := Region(cfg.endpoint);
    var d := DateString(ts);
    var p := Algorithm + " Credential=" + cfg.accessKey + "/";
    var credential := p + d + "/" + region + "/" + ServiceName + "/" + TerminationString;
    CredentialScope(p, d, region);
    var signed := " SignedHeaders=" + SignedHeaders;
    var sig := " Signature=" + Signature(c, cfg.secret, ts, region, stringToSign);
    CommaFree();
    RegionPlain(cfg.endpoint);
    TimestampPlain(ts);
    assert ',' !in p;
    assert ',' !in credential;
    HexPlain(Signature(c, cfg.secret, ts, region, stringToSign));
    Split3(credential, signed, sig, ',');
  }

  /** Regrouping the credential so that the scope stands on its own. */
  lemma CredentialScope(p: string, d: string, region: string)
    ensures p + d + "/" + region + "/" + ServiceName + "/" + TerminationString
         == p + (d + "/" + region + "/" + ServiceName + "/" + TerminationString)
  {
    Concat3(p, d, "/");
    Concat3(p, d + "/", region);
    Concat3(p, d + "/" + region, "/");
    Concat3(p, d + "/" + region + "/", ServiceName);
    Concat3(p, d + "/" + region + "/" + ServiceName, "/");
    Concat3(p, d + "/" + region + "/" + ServiceName + "/", TerminationString);
  }

  /** The string to sign and the `Authorization` value carry the same
      scope, and the same timestamp as the date header. */
  lemma ScopeShared(c: Crypto, cfg: Config.Config, ts: Timestamp, canonicalHash: string)
    requires ',' !in cfg.accessKey && NoNewline(canonicalHash)
    ensures var stringToSign := StringToSign(cfg.endpoint, ts, canonicalHash);
      var parts := Split(Authorization(c, cfg, ts, stringToSign), ',');
      |Split(stringToSign, '\n')| == 4 && |parts| == 3
      && parts[0] == Algorithm + " Credential=" + cfg.accessKey + "/" + Split(stringToSign, '\n')[2]
      && Split(stringToSign, '\n')[1] == ts
  {
    var stringToSign, region := StringToSign(cfg.endpoint, ts, canonicalHash), Region(cfg.endpoint);
    var lines, parts := Split(stringToSign, '\n'), Split(Authorization(c, cfg, ts, stringToSign), ',');
    StringToSignLayout(cfg.endpoint, ts, canonicalHash);
    AuthorizationLayout(c, cfg, ts, stringToSign);
    assert lines[2] == Scope(ts, region);
  }

  /** The `Authorization` value lists the signed headers of the canonical
      request. */
  lemma SignedListShared(c: Crypto, cfg: Config.Config, ts: Timestamp, op: string, payload: string,
                         stringToSign: string)
    requires ',' !in cfg.accessKey && NoNewline(cfg.endpoint) && NoNewline(op)
    ensures var canonical := CanonicalRequest(c, cfg.endpoint, ts, op, payload);
      var parts := Split(Authorization(c, cfg, ts, stringToSign), ',');
      |Split(canonical, '\n')| == 10 && |parts| == 3
      && parts[1] == " SignedHeaders=" + Split(canonical, '\n')[8]
  {
    CanonicalRequestLayout(c, cfg.endpoint, ts, op, payload);
    AuthorizationLayout(c, cfg, ts, stringToSign);
  }

  /** The names of the six headers sent, in order. */
  lemma HeaderNames(payload: string, authorization: string, ts: string, target: string)
    ensures var h := BuildHeaders(payload, authorization, ts, target);
      forall i :: 0 <= i < 6 ==>
        (HeaderName(h[i]) == ["Content-Type", "Content-Length", AuthorizationHeader, AmzDateHeader, AmzTargetHeader, AcceptHeader][i])
  {
    var h := BuildHeaders(payload, authorization, ts, target);
    assert h[0] == HeaderLine("Content-Type", ContentType);
    assert h[1] == HeaderLine("Content-Length", " " + NatToString(|Utf8(payload)|));
    HeaderNamesFree();
    HeaderLineName("Content-Type", ContentType);
    HeaderLineName("Content-Length", " " + NatToString(|Utf8(payload)|));
    HeaderLineName(AuthorizationHeader, authorization);
    HeaderLineName(AmzDateHeader, ts);
    HeaderLineName(AmzTargetHeader, target);
    HeaderLineName(AcceptHeader, ContentType);
  }

  /** Of the headers sent, the last three are signed and the first three
      (content type, content length and the signature itself) are not;
      `host` is signed but left to curl to send. */
  lemma UnsignedHeaders(payload: string, authorization: string, ts: string, target: string)
    ensures var h := BuildHeaders(payload, authorization, ts, target);
      forall i :: 0 <= i < 6 ==> (HeaderName(h[i]) in Split(SignedHeaders, ';') <==> 3 <= i)
  {
    HeaderNames(payload, authorization, ts, target);
    SignedHeaderNames("", "20211009T102030Z", "");
  }

  /** What is signed is what is sent: the accept, date and target lines of
      the canonical headers are header lines of the request, and the host
      line names the host of the request's URL (`UrlNamesHost`). */
  lemma SentHeadersSigned(c: Crypto, cfg: Config.Config, ts: Timestamp, op: string, payload: string)
    ensures var r := MakeRequest(c, cfg, ts, op, payload);
      var lines := CanonicalHeaderLines(cfg.endpoint, ts, op);
      |r.headers| == 6
      && r.headers[5] == lines[0] && r.headers[3] == lines[2] && r.headers[4] == lines[3]
      && r.url == Url(cfg.endpoint, op) && lines[1] == HeaderLine(HostHeader, cfg.endpoint)
    ensures var r := MakeRequest(c, cfg, ts, op, payload);
      var canonical := CanonicalRequest(c, cfg.endpoint, ts, op, payload);
      r.headers[2] == HeaderLine(AuthorizationHeader,
                                 Authorization(c, cfg, ts, StringToSign(cfg.endpoint, ts, HashHex(c, canonical))))
  {
    var canonical := CanonicalRequest(c, cfg.endpoint, ts, op, payload);
    var authorization := Authorization(c, cfg, ts, StringToSign(cfg.endpoint, ts, HashHex(c, canonical)));
    SentLines(payload, authorization, cfg.endpoint, ts, op);
  }

  /** The header lines sent for the accept type, the date and the target are
      the canonical header lines for them. */
  lemma SentLines(payload: string, authorization: string, endpoint: string, ts: Timestamp, op: string)
    ensures var h := BuildHeaders(payload, authorization, ts, Target(op));
      var lines := CanonicalHeaderLines(endpoint, ts, op);
      h[5] == lines[0] && h[3] == lines[2] && h[4] == lines[3]
  {
  }

  /** The request URL's host is the endpoint it was built from. */
  lemma UrlNamesHost(endpoint: string, op: string)
    requires |endpoint| > 0 && endpoint[0] != '['
    requires forall i :: 0 <= i < |endpoint| ==> Config.PlainHostChar(endpoint[i])
    ensures Config.UrlHost(Url(endpoint, op)) == Some(endpoint)
  {
    assert Url(endpoint, op) == "https" + "://" + endpoint + ("/" + op);
    assert forall i :: 0 <= i < |"https"| ==> Config.IsSchemeChar("https"[i]);
    Config.HostOfUrl("https", endpoint, "/" + op);
  }

  /** The key and signature depend on the timestamp only through its date
      and the string to sign. */
  lemma SignatureDeterminedBy(c: Crypto, secret: string, t1: Timestamp, t2: Timestamp, region: string, stringToSign: string)
    requires DateString(t1) == DateString(t2)
    ensures DerivedKey(c, secret, t1, region) == DerivedKey(c, secret, t2, region)
    ensures Signature(c, secret, t1, region, stringToSign) == Signature(c, secret, t2, region, stringToSign)
  {
  }

}
