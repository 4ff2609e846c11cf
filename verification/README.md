# AmazonIncentives: the request core in Dafny

AmazonIncentives is a PHP client for the Amazon Incentives (AGCOD) gift-card
service. It orders gift cards (`CreateGiftCard`), cancels them
(`CancelGiftCard`) and reads the partner's available funds
(`GetAvailableFunds`). Each call does the same things:

- It builds a small JSON body.
- It signs the body with a derivative of AWS Signature Version 4.
- It POSTs the request through curl.
- It turns the reply into a response object, or throws `AmazonErrors`, whose
  message is itself a JSON record.

A process-wide debug log collects entries per run id. A configuration
object merges constructor arguments with environment variables.

This project models that core as immutable datatypes and pure functions, and
proves what it promises about them.

| file | module | models |
|---|---|---|
| `signer.dfy` | `Signer` | region table, canonical request, string to sign, key chain, `Authorization` value, headers, URL |
| `clock.dfy` | `Clock` | the same request built from the separate clock reads the code makes (see Findings) |
| `payloads.dfy` | `Payloads` | the three request bodies |
| `service.dfy` | `Service` | `getCode`, `cancelCode`, `getBalance` end to end, with their debug entries |
| `client.dfy` | `Client` | `Client::request`: curl outcome classification, the rate-limit rule, error defaults |
| `errors.dfy` | `AmazonErrors` | `getError` and `decodeExceptionMessage` |
| `json_handle.dfy` | `JsonHandle` | `Json::jsonDecode` |
| `responses.dfy` | `Responses` | `CreateResponse`, `CreateBalanceResponse`, `CancelResponse` |
| `config.dfy` | `Config` | the constructor's merge, `parseEnv`, the setters, `parse_url(..., PHP_URL_HOST)` |
| `debug.dfy` | `AmazonDebug` | the static debug log as a state machine |
| `php.dfy` | `Php` | truthiness, `??`, coercive and strict string conversion, `is_numeric`, loose `==` |
| `json_value.dfy`, `json_encode.dfy`, `json_decode.dfy`, `json_roundtrip.dfy` | `JsonValue`, `JsonEncode`, `JsonParser`, `JsonRoundTrip` | PHP's `json_encode` (default flags) and `json_decode(..., true)`, and their round trip |
| `bytes.dfy`, `base.dfy` | `Bytes`, `Base` | hexadecimal digests, UTF-8 length, splitting and joining text |

What a call depends on from outside becomes a parameter:

- SHA-256 and HMAC-SHA256 are the two fields of `Signer.Crypto`.
- The clock is a `Signer.Timestamp`, or six of them in `Clock.Reads`.
- The characters `uniqid` adds are a string parameter.
- The environment is a map.
- What the network does with a request is a function `HttpRequest -> Outcome`.
- The debug log is a `DebugState` threaded through every call.

PHP's loose typing is modelled where the code's decisions depend on it:

- `?:` tests truthiness, in which `''` and `'0'` are false.
- `??` treats null as absent.
- Files without `strict_types` convert a decoded scalar to `string` or `float`. Files with it raise `TypeError`.
- A `TypeError` that reaches the caller is the `TypeFault` failure, or a `None` from a response constructor.

## Model

| member | source | states |
|---|---|---|
| Signer.Region | src/AWS/AWS.php:354-375 | The region is always one of us-east-1, eu-west-1 and us-west-2. It is eu-west-1 exactly for the two `-eu` endpoints, us-west-2 exactly for the two `-fe` endpoints, and us-east-1 for every other string. |
| Signer.RegionTable | src/AWS/AWS.php:360-372 | Each of the six listed hosts gets its region. A URL with a scheme matches no entry and falls back to us-east-1. |
| Signer.DateString | src/AWS/AWS.php:523-526 | The date is eight digits and is a prefix of the timestamp it was cut from. |
| Signer.ScopeDateStartsAmzDate | src/AWS/AWS.php:244-258 | The credential scope begins with the date of the timestamp that the `x-amz-date` header carries. |
| Signer.HashHex | src/AWS/AWS.php:487-489 | A payload hash is lowercase hexadecimal text. |
| Signer.Signature | src/AWS/AWS.php:282 | The final signature is lowercase hexadecimal text. |
| Signer.SignatureDeterminedBy | src/AWS/AWS.php:306-325 | The derived key, and so the signature, depend on the timestamp only through its date. |
| Signer.CanonicalHeadersLayout | src/AWS/AWS.php:442-455 | The canonical headers split on newlines into exactly four lines: accept, host, x-amz-date and x-amz-target, with no trailing newline. |
| Signer.TargetSigned | src/AWS/AWS.php:179 | For every payload, authorization, endpoint, timestamp and operation, the `x-amz-target` header sent is the target line of the canonical headers. |
| Signer.CanonicalRequestLayout | src/AWS/AWS.php:465-479 | The canonical request reads, line by line: POST, `/operation`, an empty query, the four header lines, an empty line, the signed-header list and the payload hash. |
| Signer.SignedHeaderNames | src/AWS/AWS.php:476 | The signed-header list names the four canonical header lines, in their order. |
| Signer.HeaderLineName | src/AWS/AWS.php:448-454 | The name of a `name:value` header line reads back as the name. |
| Signer.ScopeParts | src/AWS/AWS.php:254 | The scope is the four `/`-separated fields date, region, AGCODService and aws4_request. |
| Signer.StringToSignLayout | src/AWS/AWS.php:244-258 | The string to sign is four lines: the algorithm, the timestamp, the scope and the canonical-request hash. |
| Signer.AuthorizationLayout | src/AWS/AWS.php:286-293 | The `Authorization` value is three comma-separated parts: the credential with the access key and scope, the signed-header list, and the signature. |
| Signer.ScopeShared | src/AWS/AWS.php:266-296 | The credential names the same scope as the third line of the string to sign, whose second line is the request's timestamp. |
| Signer.SignedListShared | src/AWS/AWS.php:286-293 | The signed-header list in `Authorization` is the signed-header line of the canonical request. |
| Signer.BuildHeaders | src/AWS/AWS.php:217-235 | Six header lines are sent. The first is the JSON content type, the second is the byte length of the payload, and the third carries the given `Authorization` value. Their names and order are stated by `Signer.HeaderNames`. |
| Signer.HeaderNames | src/AWS/AWS.php:217-235 | The headers are Content-Type, Content-Length, Authorization, x-amz-date, x-amz-target and accept, in that order. |
| Signer.UnsignedHeaders | src/AWS/AWS.php:217-235 | A sent header is among the signed ones exactly when it is one of the last three. |
| Signer.SentLines | src/AWS/AWS.php:217-235 | The accept, date and target lines sent equal the canonical header lines built from the same timestamp and operation. |
| Signer.MakeRequest | src/AWS/AWS.php:155-204 | The request handed to the client carries the payload unchanged as its body, and six headers. |
| Signer.SentHeadersSigned | src/AWS/AWS.php:155-204 | What is sent is what was signed: the accept, date and target headers are canonical header lines, the host line names the endpoint, and the URL is `https://endpoint/operation`. The `Authorization` header sent carries the signature over the string to sign of that same request's canonical request. |
| Signer.UrlNamesHost | src/AWS/AWS.php:196 | `parse_url` of the request URL gives back the endpoint as its host. |
| Clock.MakeRequestAsWritten | src/AWS/AWS.php:68-82 | With the clock read separately by each builder, the body is still the payload, the URL is still the operation's, and six headers are still sent. |
| Clock.SteadyClockAgrees | src/AWS/AWS.php:244-258 | When all six reads see the same second, the request as written equals the single-timestamp request. |
| Clock.HeaderLineValues | src/AWS/AWS.php:448-453 | Two header lines of one name are equal exactly when their values are. |
| Clock.StringToSignAsWrittenLayout | src/AWS/AWS.php:244-258 | The string to sign as written is four lines, whose time line and scope come from two different reads. |
| Clock.AsWrittenLines | src/AWS/AWS.php:442-455 | The signed date line comes from the canonical read, the time line from the signing read, and the scope from the scope read. |
| Clock.ConsistentIff | src/AWS/AWS.php:244-321 | The request is consistent exactly when the canonical read, the header read and the signing read agree to the second, the scope read and the credential read agree with them to the day, and the key read gives the signature that the signing read's day gives. Consistent means: the date header is the signed date line, the string to sign carries that time and its day, and the `Authorization` header is the one computed for that string to sign with that day, credential and key. |
| Clock.AuthorizationIff | src/AWS/AWS.php:266-298 | The as-written `Authorization` value equals the one computed from a single timestamp exactly when the credential date is that timestamp's day and the two signatures agree. |
| Clock.AuthorizationParts | src/AWS/AWS.php:287-294 | The `Authorization` value is the credential head, the date, a fixed middle and the signature. The single-timestamp value is the as-written one with both reads equal. |
| Clock.KeyDaySigns | src/AWS/AWS.php:306-321 | A key read on the same day as the time line yields the same signature. |
| Clock.SameDayConsistent | src/AWS/AWS.php:244-321 | Reads that agree to the second for the canonical date, the header and the time line, and to the day for the scope, credential and key, give a consistent request. |
| Clock.OneTimestampConsistent | src/AWS/AWS.php:73 | A request built from the one timestamp the call takes is always consistent, including the credential date and the signing key of its `Authorization` header. |
| Clock.MidnightBreaksRequest | src/AWS/AWS.php:251 | A clock that passes midnight between the date header and the scope read yields an inconsistent request. |
| Payloads.CreationRequestId | src/AWS/AWS.php:392 | A truthy creation id is used as given. Otherwise the id is the partner id, an underscore and what `uniqid` added. |
| Payloads.GiftCardKeys | src/AWS/AWS.php:389-401 | The gift-card body has the keys creationRequestId, partnerId and value, and its value object has the keys currencyCode and amount. |
| Payloads.GiftCardFields | src/AWS/AWS.php:389-401 | Each key of the gift-card body holds the id, the partner, the currency or the amount it was built from. |
| Payloads.GiftCardPayloadReads | src/AWS/AWS.php:389-401 | The gift-card body text decodes to the object it was written from. |
| Payloads.CancelFields | src/AWS/AWS.php:411-419 | The cancel body is the keys creationRequestId, partnerId and gcId, in order, with the values given. |
| Payloads.CancelPayloadReads | src/AWS/AWS.php:411-419 | The cancel body text decodes to the object it was written from. |
| Payloads.FundsPayloadReads | src/AWS/AWS.php:427-433 | The funds body decodes to the partner id alone. |
| Payloads.ContentLengthOfPayload | src/AWS/AWS.php:227 | For any encodable array, the Content-Length header is the byte length of the body, because the encoder writes ASCII only. |
| Payloads.PayloadLengths | src/AWS/AWS.php:227 | Each of the three bodies is sent with its true length. |
| Service.Call | src/AWS/AWS.php:75-81 | A call succeeds exactly when a 200 reply arrives and the response constructor accepts its decoding. The object then holds that decoding. The debug state is the client's, and a client failure reaches the caller unchanged. |
| Service.CallDelivers | src/AWS/AWS.php:75-81 | A 200 reply that the constructor accepts is what the caller gets back. |
| Service.AwsLogEntries | src/AWS/AWS.php:162-194 | With debugging off, `AWS` logs nothing. With it on, the call entry, the request entry and the key entry join the current run's list in that order, and every other run's list is untouched. |
| Service.WriteThreeRun | src/AWS/AWS.php:162-194 | Three entries written during a run go to the end of that run's list, in order. |
| Service.WriteThreeOthers | src/AWS/AWS.php:162-194 | Three entries written during a run leave every other run's list alone. |
| Service.AwsLogKeepsSound | src/AWS/AWS.php:162-194 | The entries `AWS` writes keep the debug log encodable. |
| Service.GetCode | src/AWS/AWS.php:68-82 | `getCode`, with one timestamp for the whole request, posts to the CreateGiftCard URL a body that decodes to the gift-card object for its amount and creation id. |
| Service.CancelCode | src/AWS/AWS.php:93-107 | `cancelCode`, with one timestamp for the whole request, posts to the CancelGiftCard URL a body that decodes to the cancel object. |
| Service.GetBalance | src/AWS/AWS.php:116-130 | `getBalance`, with one timestamp for the whole request, posts to the GetAvailableFunds URL a body that decodes to the partner id. |
| Service.GetCodeIssued | src/AWS/AWS.php:68-82 | A card the service issues reaches the caller field by field, with the reply text as its raw JSON. The debug log is the one `AWS` left after its three entries. |
| Service.CancelCodeConfirmed | src/AWS/AWS.php:93-107 | A confirmed cancellation reaches the caller with its ids and status, and the debug log holds the call's entries. |
| Service.BalanceReported | src/AWS/AWS.php:116-130 | The funds the service reports reach the caller with amount, currency, status and timestamp, and the debug log holds the call's entries. |
| Service.UndecodableReplyFaults | src/AWS/AWS.php:75-81 | A 200 reply that is not JSON decodes to null, and the call fails with a `TypeError`. |
| Service.NullRejected | src/Response/CreateResponse.php:33-37 | None of the three response constructors accepts null. |
| Service.RefusedReplyThrows | src/Client/Client.php:49-75 | A reply other than 200 ends the call with what the client threw. |
| Client.CurlErrorMessage | src/Client/Client.php:88-116 | Connection failures and the peer-certificate failure get their own prefix and end with curl's text in brackets. Every other error is reported as `Unexpected error communicating with AWS: ` followed by curl's text. |
| Client.Request | src/Client/Client.php:23-77 | A request succeeds exactly when a reply with status 200 arrives. Its body is then returned unchanged and nothing is logged. When no reply arrives, nothing is logged either. |
| Client.ErrorFields | src/Client/Client.php:53-66 | A rate-limited reply gives the fields RESEND, T001 and RateExceeded. For any other failed reply, each field (agcodResponse.status, errorCode, errorType, message) is the value read as a string, or FAILURE, E999, OtherUnknownError or "Unknown error occured" where nothing is set. The result is absent exactly when one of those four values is an array, which a string parameter rejects. |
| Client.RateRule | src/Client/Client.php:55 | The rate rule fires exactly when the decoded message loosely equals `Rate exceeded`: the text itself, or `true`. |
| Client.RateLimitedMessage | src/Client/Client.php:59 | The message of a rate-limited reply is the text as sent, or `1` when the message was `true`. |
| Client.UndecodableBodyDefaults | src/Client/Client.php:60-66 | A body that is not JSON gets every default: FAILURE, E999, OtherUnknownError and the unknown-error text. |
| Client.AmazonErrorPassedThrough | src/Client/Client.php:60-66 | Amazon's own error document is passed through field by field, unless its message is the rate-limit text. |
| Client.ResultEntryFlat | src/Client/Client.php:51 | The logged reply entry is flat, so logging it keeps the debug log encodable. |
| Client.RequestFailureReport | src/Client/Client.php:23-77 | For each way a request fails, the thrown error decodes to the expected record: C001 with the init message, C002 with curl's error number, or the reply's own fields. A sound log stays sound. |
| AmazonErrors.Record | src/Exceptions/AmazonErrors.php:32-39 | The error record has the keys status, code, type, message, log_id and log, in that order. |
| AmazonErrors.RecordFields | src/Exceptions/AmazonErrors.php:32-39 | Each key of the record reads back the value it was built from. |
| AmazonErrors.GetError | src/Exceptions/AmazonErrors.php:23-43 | The exception code is the number given, and the message is never empty. |
| AmazonErrors.EncodeFailsOnlyForDeepLog | src/Exceptions/AmazonErrors.php:40 | For valid Unicode text, encoding the record fails exactly when the debug log nests too deep for `json_encode`. |
| AmazonErrors.DecodeExceptionMessage | src/Exceptions/AmazonErrors.php:53-68 | The result is always an array. A message that decodes to an array gives that array, and anything other than the fallback record is the decoded message. |
| AmazonErrors.ErrorRoundTrip | src/Exceptions/AmazonErrors.php:53-68 | What `getError` throws, `decodeExceptionMessage` reads back as the same record. |
| AmazonErrors.ErrorFieldsReadBack | src/Exceptions/AmazonErrors.php:23-43 | The status, code, type and message a caller reads from a decoded error are the ones passed in. |
| AmazonErrors.PlainTextFallsBack | src/Exceptions/AmazonErrors.php:57-66 | A message that does not decode, or decodes to something other than an array, is wrapped in the fallback record, whose message field is the text itself. |
| AmazonErrors.CapitalStartFails | src/Exceptions/AmazonErrors.php:55-57 | A message that starts with a capital letter does not decode as JSON. |
| AmazonErrors.EncodeProblemReadsBack | src/Exceptions/AmazonErrors.php:40 | When encoding fails, the prefixed message still comes back whole in the fallback record. |
| JsonHandle.LastError | src/Handle/Json.php:25 | The error number is 0 exactly when decoding succeeded. |
| JsonHandle.JsonDecode | src/Handle/Json.php:22-39 | `jsonDecode` succeeds exactly when the text decodes to an array, and then returns that array. It fails with code 0. |
| JsonHandle.JsonDecodeEncoded | src/Handle/Json.php:22-39 | Every well-formed array the encoder writes is read back by `jsonDecode`. |
| JsonHandle.JsonFailureReport | src/Handle/Json.php:30-36 | A refused body is reported as FAILURE, with type `jsonDecoreError`, the fixed decode-failure message, and the code `J-` plus the decoder's error number. The code is `J-0` exactly when the text decoded, but not to an array. |
| JsonHandle.NullBodyRefused | src/Handle/Json.php:25-29 | The body `null` decodes cleanly but is refused with `J-0`. |
| JsonHandle.NumberBodyRefused | src/Handle/Json.php:25-29 | A bare number is refused the same way. |
| JsonEncode.Encode | src/Exceptions/AmazonErrors.php:32-40 | For valid Unicode text, `json_encode` fails exactly when the value nests deeper than 512 levels. |
| JsonRoundTrip.DecodeEncode | src/Handle/Json.php:24 | Decoding the text the encoder writes gives back the value, for every well-formed value within the depth limit. |
| JsonRoundTrip.TextAscii | src/AWS/AWS.php:227 | The encoder's text is ASCII only, so its byte length is its character count. |
| Bytes.Hex | src/AWS/AWS.php:501-503 | A hexadecimal digest has two lowercase digits per byte. |
| Bytes.UnhexHex | src/AWS/AWS.php:501-503 | The hexadecimal form of a digest decodes back to the digest bytes. |
| Bytes.Utf8AsciiLength | src/AWS/AWS.php:227 | For ASCII text, the byte count `strlen` gives is the character count. |
| Php.Lookup | src/Client/Client.php:55 | A read under `??` never yields null. An empty path yields the value exactly when it is not null. |
| Php.LookupOne | src/Client/Client.php:55 | A one-key read under `??` is the member under that key, unless the member is null. |
| Php.LookupTwo | src/Client/Client.php:62 | A two-key `??` read such as `$result_ar['agcodResponse']['status']` goes through the member under the first key, and is absent when that member is. |
| Php.Coalesce | src/Client/Client.php:60-66 | `??` gives the value read when there is one, and otherwise the default. |
| Php.CoerceString | src/Client/Client.php:68-74 | In a file without strict types, a string passes unchanged, and null and arrays raise a `TypeError`. |
| Php.StrictString | src/Response/CancelResponse.php:46-60 | Under strict types only a string is returned, unchanged. |
| Php.NumberString | src/Client/Client.php:68-74 | The text of a converted number is made of number characters only. |
| Php.LooseEqualsWordText | src/Client/Client.php:55 | A value loosely equals a non-numeric word exactly when it is that string or `true`. |
| Php.EncodeOrEmptyReads | src/Response/CreateResponse.php:139-142 | A well-formed array is encoded, decodes back to itself, and is never replaced by the empty string. |
| Php.NumericTextChars | src/Response/CreateBalanceResponse.php:106 | A string `is_numeric` accepts holds a digit and only whitespace and number characters. |
| Php.DigitsNumeric | src/Response/CreateBalanceResponse.php:106 | A run of digits, with whitespace around it or not, is accepted by `is_numeric`. |
| Config.ParseEnv | src/Config/Config.php:62-80 | Only AWS_DEBUG gives a flag, which is the truthiness of its variable. A non-empty text comes from the environment under that key. An unknown key gives the empty string. |
| Config.LastIndex | src/Config/Config.php:97 | The index found holds the last occurrence of the character. None means the character does not occur. |
| Config.LeadingDigits | src/Config/Config.php:97 | The port digits `parse_url` reads are the longest digit-only prefix of the port text. |
| Config.StripUserInfo | src/Config/Config.php:97 | An authority without `@` has no user part to strip. Otherwise the user part ends at the last `@`, and what remains holds no `@`. |
| Config.UrlHost | src/Config/Config.php:97 | A URL without an authority (neither `scheme://` nor a colon-free `//`) has no host. |
| Config.AuthorityOfUrl | src/Config/Config.php:97 | The authority of `scheme://host/...` is the host. |
| Config.HostOfUrl | src/Config/Config.php:97 | `parse_url` gives the host of `scheme://host/...`. |
| Config.HostOfUserPortUrl | src/Config/Config.php:97 | `parse_url` gives the host of `scheme://user@host:port/...`: the user part is cut at the `@`, and a port of at most five digits worth at most 65535 is cut at the colon. |
| Config.HostPort | src/Config/Config.php:97 | A plain host followed by `:` and an acceptable port gives the host. |
| Config.EndpointValue | src/Config/Config.php:97 | The stored endpoint is the URL's host when that host is truthy, and otherwise the empty string. |
| Config.BareHostClears | src/Config/Config.php:94-100 | A bare host name, with no colon and not starting `//`, has no host, so setting it clears the endpoint. |
| Config.SchemeRelativeHost | src/Config/Config.php:94-100 | A colon-free scheme-relative URL `//host/...` yields its host, and setting it stores that host when it is truthy and the empty string otherwise. |
| Config.SetEndpointKeepsHost | src/Config/Config.php:94-100 | Setting a URL stores its host. Handing that stored host back to `setEndpoint` clears it. |
| Config.SetterTouchesOneSetting | src/Config/Config.php:105-196 | Each setter changes only its own setting, and that setting's getter returns the value set. |
| Config.SettingMerge | src/Config/Config.php:47-51 | A string setting is the argument when it is truthy, and otherwise the environment's value. |
| Config.NewConfigEndpoint | src/Config/Config.php:50 | The endpoint is `setEndpoint` applied to whichever URL the merge chose. |
| Config.EndpointMerge | src/Config/Config.php:50 | For a chosen URL of the form `scheme://host/...`, the endpoint is the host. |
| Config.DebugMerge | src/Config/Config.php:52 | Debugging is on exactly when the argument is true or AWS_DEBUG is truthy. |
| AmazonDebug.Entries | src/Debug/AmazonDebug.php:110 | The list for an id that never logged is empty. Otherwise it is the one group filed under that id. |
| AmazonDebug.Append | src/Debug/AmazonDebug.php:94 | Appending keeps the known ids, and adds the key at the end when it is new. |
| AmazonDebug.AppendEntries | src/Debug/AmazonDebug.php:94 | After an append, each id's list is as before, plus the entry for the key it was filed under. |
| AmazonDebug.AppendOnlyExtendsKey | src/Debug/AmazonDebug.php:94 | An append extends only the key's list, by exactly the entry. |
| AmazonDebug.AppendKeepsDistinct | src/Debug/AmazonDebug.php:94 | An append never files one id twice. |
| AmazonDebug.SetId | src/Debug/AmazonDebug.php:31-40 | `setId` is ignored while debugging is off. Otherwise it sets the given id or a generated one. The flag and the log are kept. |
| AmazonDebug.SetDebug | src/Debug/AmazonDebug.php:51-58 | The flag is stored and the log kept. Turning debugging off keeps the id. Turning it on starts a run with the given id or a fresh one. |
| AmazonDebug.WriteLog | src/Debug/AmazonDebug.php:89-95 | While debugging is off nothing changes. Otherwise the entry goes to the end of the current run's list, and every other list is kept. |
| AmazonDebug.GetLog | src/Debug/AmazonDebug.php:105-112 | `getLog` always returns an array, and a list when an id is given. |
| AmazonDebug.LogLookup | src/Debug/AmazonDebug.php:105-112 | Reading the whole log at an id finds that id's list exactly when the id has logged. |
| AmazonDebug.GetLogAgrees | src/Debug/AmazonDebug.php:105-112 | The two forms of `getLog` agree: the whole log read at an id is that id's list. |
| AmazonDebug.LogWellFormed | src/Debug/AmazonDebug.php:13 | A log with distinct ids and well-formed entries is a well-formed array. |
| AmazonDebug.SoundLogEncodes | src/Debug/AmazonDebug.php:105-112 | A sound log is well formed and at most four levels deep, so an error record holding it always encodes. |
| AmazonDebug.WriteLogKeepsSound | src/Debug/AmazonDebug.php:89-95 | Writing an entry at most two levels deep keeps the log sound. |
| AmazonDebug.RunExtendsEntries | src/Debug/AmazonDebug.php:13 | Whatever the sequence of calls, each id's list only grows. |
| AmazonDebug.RunKeepsDistinct | src/Debug/AmazonDebug.php:13 | Every id names one group at every point of a run. |
| AmazonDebug.RunWhileOffLogsNothing | src/Debug/AmazonDebug.php:89-93 | While debugging stays off, no call records anything. |
| AmazonDebug.StartRunThenWrite | src/Debug/AmazonDebug.php:51-58 | Turning debugging on with an id starts that run, and `getLog` of the id then shows the next entry written. |
| Responses.CardValue | src/Response/CreateResponse.php:150-179 | The card value is found exactly when `cardInfo` holds an array under `value`. |
| Responses.ParseCreate | src/Response/CreateResponse.php:150-179 | A gift-card reply is accepted exactly when it is an array with a card value array. Each field then holds the reply's value when the key is present, and the default otherwise. The raw JSON is the reply. |
| Responses.ParseCreateFull | src/Response/CreateResponse.php:150-179 | A reply carrying every key stores exactly what it carries. |
| Responses.CreateBodyParsed | src/Response/CreateResponse.php:150-179 | A gift-card reply shaped as the service writes it is parsed field by field. |
| Responses.CreateReplyReads | src/Response/CreateResponse.php:54-142 | A gift-card reply sent as text decodes and parses, and its getters return the strings that were sent. |
| Responses.FundsMember | src/Response/CreateBalanceResponse.php:103-116 | A funds field is read only from an `availableFunds` array. |
| Responses.ParseBalance | src/Response/CreateBalanceResponse.php:101-126 | A funds reply is accepted exactly when it is an array. The amount is always numeric: the reply's when `is_numeric` holds, else 0. The currency is the reply's when it is a string. |
| Responses.BalanceReplyReads | src/Response/CreateBalanceResponse.php:48-93 | A funds reply sent as text decodes and parses, and its getters return what was sent. |
| Responses.BalanceIgnoresOtherKeys | src/Response/CreateBalanceResponse.php:101-126 | Two funds replies that agree on the four fields read give the same getters. |
| Responses.ParseCancel | src/Response/CancelResponse.php:88-102 | A cancel reply is accepted exactly when it is an array. Each present key is copied and each absent one keeps its default. |
| Responses.CancelReplyReads | src/Response/CancelResponse.php:46-80 | A cancel reply sent as text decodes and parses, and its getters return the ids and status that were sent. |
| Responses.CancelIgnoresOtherKeys | src/Response/CancelResponse.php:88-102 | Keys other than gcId, creationRequestId and status never reach the getters. |
| Responses.BalanceFixture | test/phpUnit/AmazonIncentivesTest.php:296-303 | The mock funds reply reads as 0.0 JPY, SUCCESS, at its timestamp. |
| Responses.CreateFixture | test/phpUnit/AmazonIncentivesTest.php:409-424 | The mock gift-card reply reads as a fulfilled 1000 JPY card with its ids and claim code. |
| Responses.CancelFixture | test/phpUnit/AmazonIncentivesTest.php:655-659 | The mock cancel reply reads back its ids and SUCCESS. |
| Responses.ResponseLogOfRun | src/Response/CreateResponse.php:44-47 | During a run, a response's log is its run's entries, ending with the latest one written. |
| Responses.ResponseLogWithoutId | src/Response/CreateResponse.php:44-47 | Without a run id, `getLog` returns the whole log, keyed by run id. |
| Base.SplitJoin | src/AWS/AWS.php:465-479 | Joining lines that hold no separator and splitting the result again gives back the lines. |
| Base.NatToStringValue | src/AWS/AWS.php:227 | The decimal text of a length reads back as that length. |

## Left out

- SHA-256 and HMAC-SHA256 are not computed. They are the uninterpreted fields of `Signer.Crypto`, and the proofs hold for any functions there.
- The clock (`gmdate`) and `uniqid` are parameters rather than calls.
- The seventh clock read, in `makeRequest` (src/AWS/AWS.php:180), only feeds a debug entry. The model derives that entry's date from the request's timestamp.
- curl itself (init, options, exec, the HTTP exchange) is replaced by the `Client.Outcome` datatype. TLS options and timeouts are not modelled.
- The constructor's debug entry in `AWS` (src/AWS/AWS.php:54) is not modelled.
- Floating point is not modelled: a JSON number keeps its literal text.
- Php.NumberString: keeps a fractional or exponent literal as written, where PHP would print it as its float. This is weaker than the source for texts such as `1.50` or `1e3`.
- Responses.CreateResponse.Value: returns the stored value when it converts to a float, rather than computing the float. A leading-numeric string such as `12abc` is refused, where PHP 8 converts it with a warning.
- Header names are compared case-sensitively, as the code writes them. HTTP's case-insensitive matching is outside the code.
- Config.UrlHost: models `parse_url` for URLs of the form `scheme://authority...`, colon-free scheme-relative `//authority...`, and bare hosts. Other shapes that `parse_url` accepts are not modelled: scheme-relative URLs holding a colon such as `//host:8080`, `host:port` without a scheme, and malformed ports beyond the digit check.
- Clock.ConsistentIff: pins the key read down only through the signature it yields, not to its day, because HMAC-SHA256 is an uninterpreted parameter. Two days could give one signature under some function. `Clock.KeyDaySigns` proves the direction from equal days to equal signatures.
- Invalid UTF-8 input to `json_decode` is not modelled, because Dafny strings hold only Unicode scalar values.
- JsonEncode.Encode: "fails exactly when nested too deep" holds for the strings modelled, which are valid Unicode. A PHP string holding bytes that are not valid UTF-8 also makes `json_encode` fail (`JSON_ERROR_UTF8`), and such strings are not modelled.
- AmazonErrors.EncodeFailsOnlyForDeepLog: for the same reason, a message or log entry holding invalid UTF-8 bytes, which would also send `getError` down the prefixed-message path, is not modelled.
- JsonParser.Decode: decimal object keys stay string keys in every decoded reply. PHP's `json_decode($text, true)` turns a key such as `"0"` or `"1"` into an integer key, and `json_encode` writes an array keyed exactly `0, 1, 2, ...` in order as a JSON list. So the `RawJson` getters of the three responses give `{"0":"x"}` where PHP gives `["x"]`, at the top level of a reply or nested inside it. Only an empty object is written as a list here.
- Service.GetCode: like `Service.CancelCode` and `Service.GetBalance`, builds its request from one timestamp with `Signer.MakeRequest`. That is the corrected behaviour recorded under Findings. The code as written reads the clock six times (`Clock.MakeRequestAsWritten`). The two agree only when the clock does not move between the reads (`Clock.SteadyClockAgrees`). When it ticks, the model's `net` parameter is handed the consistent request, where the code hands over the inconsistent one.
- Service.CancelCode: builds its request from one timestamp, for the same reason as `Service.GetCode`.
- Service.GetBalance: builds its request from one timestamp, for the same reason as `Service.GetCode`.
- AmazonDebug.GetLog: run ids are kept as string keys. PHP turns a decimal id such as `"0"` or `"12"` into an integer array key. So a whole log whose ids are exactly `0, 1, 2, ...` in order encodes as a JSON list, not an object. The model always gives an object keyed by the id text.
- The wrapper class src/AmazonIncentives.php is not part of this model, nor are its interfaces, `newClient`, src/Amazon, vendor and the test scripts. They only forward to the modelled core or set it up.

## Findings

| source | as written | input that shows it | evidently intended | confidence | as-written member | corrected member |
|---|---|---|---|---|---|---|
| src/AWS/AWS.php:244-258 | Each builder (canonical headers, string to sign, scope date, credential, derived key) calls `getTimestamp()` again. `getCode` also reads it once and sends that value as `x-amz-date`. | The clock shows 20220610T235959Z for the header, canonical and time reads, and 20220611T000000Z for the scope, credential and key reads. The scope date 20220611 then disagrees with the signed date 20220610. | One timestamp, read once per call, feeds every part of the request. | not executed | Clock.MidnightBreaksRequest | Clock.OneTimestampConsistent |
