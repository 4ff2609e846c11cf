/** The clock as `AWS` reads it. `getCode`, `cancelCode` and `getBalance`
    do not take one timestamp for a request: each builder calls
    `getTimestamp` (`gmdate`) for itself, so a request is assembled from six
    separate reads of the clock. When the clock ticks between two of them,
    the request signs one time and sends another. `Signer` is the corrected
    model, in which one timestamp feeds every builder. */
module Clock {
  import opened Base
  import opened Bytes
  import opened Signer
  import Config

  /** The reads that reach the request, in the order a call makes them: the
      date line of the canonical headers, the `x-amz-date` header, the time
      line of the string to sign, the scope date of the string to sign, the
      date of the credential, and the date the signing key is derived from.
      A seventh read, in `makeRequest`, feeds debug logging only. */
  datatype Reads = Reads(canonicalTime: Timestamp, headerTime: Timestamp, signedTime: Timestamp,
                         scopeTime: Timestamp, credentialTime: Timestamp, keyTime: Timestamp)

  /** Six reads of a clock that did not move. */
  function Steady(ts: Timestamp): Reads
  {
    Reads(ts, ts, ts, ts, ts, ts)
  }

  /** `buildStringToSign` as written: the time line and the scope date come
      from two reads. */
  function StringToSignAsWritten(endpoint: string, time: Timestamp, date: Timestamp, canonicalHash: string): string
  {
    Algorithm + "\n" + time + "\n" + Scope(date, Region(endpoint)) + "\n" + canonicalHash
  }

  /** `buildAuthSignature` as written: the credential date and the key's date
      come from two reads. */
  function AuthorizationAsWritten(c: Crypto, cfg: Config.Config, credentialTime: Timestamp, keyTime: Timestamp,
                                  stringToSign: string): string
  {
    var region := Region(cfg.endpoint);
    (Algorithm + " Credential=" + cfg.accessKey + "/" + DateString(credentialTime) + "/" + region + "/"
     + ServiceName + "/" + TerminationString)
    + "," + (" SignedHeaders=" + (AcceptHeader + ";" + HostHeader + ";" + AmzDateHeader + ";" + AmzTargetHeader))
    + "," + (" Signature=" + Signature(c, cfg.secret, keyTime, region, stringToSign))
  }

  /** The request a call hands to the client, as written. */
  function MakeRequestAsWritten(c: Crypto, cfg: Config.Config, clock: Reads, op: string, payload: string): (r: HttpRequest)
    ensures r.body == payload && |r.headers| == 6
    ensures r.url == Url(cfg.endpoint, op)
  {
    var canonical := CanonicalRequest(c, cfg.endpoint, clock.canonicalTime, op, payload);
    var stringToSign := StringToSignAsWritten(cfg.endpoint, clock.signedTime, clock.scopeTime, HashHex(c, canonical));
    var authorization := AuthorizationAsWritten(c, cfg, clock.credentialTime, clock.keyTime, stringToSign);
    HttpRequest(Url(cfg.endpoint, op), BuildHeaders(payload, authorization, clock.headerTime, Target(op)), payload)
  }

  /** The canonical request and string to sign behind an as-written request. */
  function CanonicalAsWritten(c: Crypto, cfg: Config.Config, clock: Reads, op: string, payload: string): string
  {
    CanonicalRequest(c, cfg.endpoint, clock.canonicalTime, op, payload)
  }

  function SignedAsWritten(c: Crypto, cfg: Config.Config, clock: Reads, op: string, payload: string): string
  {
    StringToSignAsWritten(cfg.endpoint, clock.signedTime, clock.scopeTime,
                          HashHex(c, CanonicalAsWritten(c, cfg, clock, op, payload)))
  }

  /** A clock that does not move gives the single-timestamp request. */
  lemma SteadyClockAgrees(c: Crypto, cfg: Config.Config, ts: Timestamp, op: string, payload: string)
    ensures MakeRequestAsWritten(c, cfg, Steady(ts), op, payload) == MakeRequest(c, cfg, ts, op, payload)
    ensures SignedAsWritten(c, cfg, Steady(ts), op, payload)
         == StringToSign(cfg.endpoint, ts, HashHex(c, CanonicalRequest(c, cfg.endpoint, ts, op, payload)))
  {
  }

  /** Two header lines of one name are equal exactly when their values are. */
  lemma HeaderLineValues(name: string, a: string, b: string)
    ensures HeaderLine(name, a) == HeaderLine(name, b) <==> a == b
  {
    if HeaderLine(name, a) == HeaderLine(name, b) {
      assert HeaderLine(name, a)[|name| + 1..] == a;
      assert HeaderLine(name, b)[|name| + 1..] == b;
    }
  }

  /** The as-written string to sign, line by line. */
  lemma StringToSignAsWrittenLayout(endpoint: string, time: Timestamp, date: Timestamp, canonicalHash: string)
    requires NoNewline(canonicalHash)
    ensures Split(StringToSignAsWritten(endpoint, time, date, canonicalHash), '\n')
         == [Algorithm, time, Scope(date, Region(endpoint)), canonicalHash]
  {
    var sc := Scope(date, Region(endpoint));
    TimestampPlain(time);
    TimestampPlain(date);
    RegionPlain(endpoint);
    LineFree();
    assert '\n' !in sc;
    Split4(Algorithm, time, sc, canonicalHash, '\n');
  }

  /** What the service checks of a signed request: the date header sent is
      the date line that was signed, the string to sign carries the same
      time, its scope carries that time's date, and the `Authorization`
      header sent is the one the service computes for that string to sign
      with the same date: the credential names that date and the signature
      uses a key derived from it. */
  predicate Consistent(c: Crypto, cfg: Config.Config, headers: seq<string>, canonical: string, stringToSign: string)
  {
    var lines, signed := Split(canonical, '\n'), Split(stringToSign, '\n');
    |headers| == 6 && |lines| == 10 && |signed| == 4 && IsTimestamp(signed[1]) && |signed[2]| >= 8
    && headers[3] == lines[5]
    && headers[3] == HeaderLine(AmzDateHeader, signed[1])
    && signed[2][..8] == signed[1][..8]
    && headers[2] == HeaderLine(AuthorizationHeader, Authorization(c, cfg, signed[1], stringToSign))
  }

  /** Two texts built around the same fixed parts agree exactly when the
      parts that vary agree, given that the first varying parts have one
      length. */
  lemma {:induction false} AroundFixed<T>(p: seq<T>, d1: seq<T>, d2: seq<T>, m: seq<T>, s1: seq<T>, s2: seq<T>)
    requires |d1| == |d2|
    ensures p + d1 + m + s1 == p + d2 + m + s2 <==> d1 == d2 && s1 == s2
  {
    if p + d1 + m + s1 == p + d2 + m + s2 {
      var x, y := p + d1 + m + s1, p + d2 + m + s2;
      assert x[|p|..|p| + |d1|] == d1;
      assert y[|p|..|p| + |d1|] == d2;
      assert x[|p| + |d1| + |m|..] == s1;
      assert y[|p| + |d1| + |m|..] == s2;
    }
  }

  /** The credential part before the date. */
  function CredentialHead(cfg: Config.Config): string
  {
    Algorithm + " Credential=" + cfg.accessKey + "/"
  }

  /** Everything between the credential date and the signature. */
  function AfterDate(cfg: Config.Config): string
  {
    "/" + Region(cfg.endpoint) + "/" + ServiceName + "/" + TerminationString
    + "," + (" SignedHeaders=" + SignedHeaders) + "," + " Signature="
  }

  /** The as-written `Authorization` value around its two clock-dependent
      parts, and the single-timestamp one as its special case. */
  lemma AuthorizationParts(c: Crypto, cfg: Config.Config, credentialTime: Timestamp, keyTime: Timestamp,
                           ts: Timestamp, stringToSign: string)
    ensures AuthorizationAsWritten(c, cfg, credentialTime, keyTime, stringToSign)
         == CredentialHead(cfg) + DateString(credentialTime) + AfterDate(cfg)
            + Signature(c, cfg.secret, keyTime, Region(cfg.endpoint), stringToSign)
    ensures Authorization(c, cfg, ts, stringToSign) == AuthorizationAsWritten(c, cfg, ts, ts, stringToSign)
  {
    Regroup(CredentialHead(cfg), DateString(credentialTime), "/", Region(cfg.endpoint), "/", ServiceName, "/",
            TerminationString, ",", " SignedHeaders=" + SignedHeaders, ",", " Signature=",
            Signature(c, cfg.secret, keyTime, Region(cfg.endpoint), stringToSign));
  }

  /** The `Authorization` value's parts, regrouped around the date and the
      signature. */
  lemma Regroup<T>(h: seq<T>, d: seq<T>, a1: seq<T>, rg: seq<T>, a2: seq<T>, sv: seq<T>, a3: seq<T>, tm: seq<T>,
                   c1: seq<T>, sp: seq<T>, c2: seq<T>, sl: seq<T>, sig: seq<T>)
    ensures h + d + a1 + rg + a2 + sv + a3 + tm + c1 + sp + c2 + (sl + sig)
         == h + d + (a1 + rg + a2 + sv + a3 + tm + c1 + sp + c2 + sl) + sig
  {
  }

  /** The as-written `Authorization` value is the one computed for the
      signing time exactly when the credential date is that time's date and
      the signature agrees with the one keyed by that time's date. */
  lemma AuthorizationIff(c: Crypto, cfg: Config.Config, credentialTime: Timestamp, keyTime: Timestamp,
                         ts: Timestamp, stringToSign: string)
    ensures AuthorizationAsWritten(c, cfg, credentialTime, keyTime, stringToSign) == Authorization(c, cfg, ts, stringToSign)
        <==> DateString(credentialTime) == DateString(ts)
             && Signature(c, cfg.secret, keyTime, Region(cfg.endpoint), stringToSign)
                == Signature(c, cfg.secret, ts, Region(cfg.endpoint), stringToSign)
  {
    var region := Region(cfg.endpoint);
    AuthorizationParts(c, cfg, credentialTime, keyTime, ts, stringToSign);
    AuthorizationParts(c, cfg, ts, ts, ts, stringToSign);
    AroundFixed(CredentialHead(cfg), DateString(credentialTime), DateString(ts), AfterDate(cfg),
                Signature(c, cfg.secret, keyTime, region, stringToSign), Signature(c, cfg.secret, ts, region, stringToSign));
  }

  /** The lines of the canonical request and the string to sign behind an
      as-written request. */
  lemma AsWrittenLines(c: Crypto, cfg: Config.Config, clock: Reads, op: string, payload: string)
    requires NoNewline(cfg.endpoint) && NoNewline(op)
    ensures var lines := Split(CanonicalAsWritten(c, cfg, clock, op, payload), '\n');
      |lines| == 10 && lines[5] == HeaderLine(AmzDateHeader, clock.canonicalTime)
    ensures var signed := Split(SignedAsWritten(c, cfg, clock, op, payload), '\n');
      |signed| == 4 && signed[1] == clock.signedTime && signed[2] == Scope(clock.scopeTime, Region(cfg.endpoint))
  {
    var hash := HashHex(c, CanonicalAsWritten(c, cfg, clock, op, payload));
    HexPlain(hash);
    CanonicalRequestLayout(c, cfg.endpoint, clock.canonicalTime, op, payload);
    StringToSignAsWrittenLayout(cfg.endpoint, clock.signedTime, clock.scopeTime, hash);
  }

  /** The as-written request is consistent exactly when the clock showed the
      same second to the canonical headers, the date header and the time
      line, the same day to the scope and the credential, and a key read
      that signs as the time line's day would. HMAC is a parameter, so the
      key's day is pinned down only through the signature it yields;
      `KeyDaySigns` gives the direction from days to signatures. */
  lemma ConsistentIff(c: Crypto, cfg: Config.Config, clock: Reads, op: string, payload: string)
    requires NoNewline(cfg.endpoint) && NoNewline(op)
    ensures var stringToSign := SignedAsWritten(c, cfg, clock, op, payload);
      Consistent(c, cfg, MakeRequestAsWritten(c, cfg, clock, op, payload).headers,
                 CanonicalAsWritten(c, cfg, clock, op, payload), stringToSign)
      <==> clock.canonicalTime == clock.headerTime && clock.signedTime == clock.headerTime
           && DateString(clock.scopeTime) == DateString(clock.signedTime)
           && DateString(clock.credentialTime) == DateString(clock.signedTime)
           && Signature(c, cfg.secret, clock.keyTime, Region(cfg.endpoint), stringToSign)
              == Signature(c, cfg.secret, clock.signedTime, Region(cfg.endpoint), stringToSign)
  {
    var stringToSign := SignedAsWritten(c, cfg, clock, op, payload);
    var r := MakeRequestAsWritten(c, cfg, clock, op, payload);
    AsWrittenLines(c, cfg, clock, op, payload);
    ScopeDateStartsAmzDate(clock.scopeTime, Region(cfg.endpoint), payload, "", "");
    assert clock.signedTime[..8] == DateString(clock.signedTime);
    assert r.headers[3] == HeaderLine(AmzDateHeader, clock.headerTime);
    var authorization := AuthorizationAsWritten(c, cfg, clock.credentialTime, clock.keyTime, stringToSign);
    assert r.headers[2] == HeaderLine(AuthorizationHeader, authorization);
    HeaderLineValues(AmzDateHeader, clock.headerTime, clock.canonicalTime);
    HeaderLineValues(AmzDateHeader, clock.headerTime, clock.signedTime);
    HeaderLineValues(AuthorizationHeader, authorization, Authorization(c, cfg, clock.signedTime, stringToSign));
    AuthorizationIff(c, cfg, clock.credentialTime, clock.keyTime, clock.signedTime, stringToSign);
  }

  /** A key read on the time line's day signs as that day does. */
  lemma KeyDaySigns(c: Crypto, cfg: Config.Config, clock: Reads, stringToSign: string)
    requires DateString(clock.keyTime) == DateString(clock.signedTime)
    ensures Signature(c, cfg.secret, clock.keyTime, Region(cfg.endpoint), stringToSign)
         == Signature(c, cfg.secret, clock.signedTime, Region(cfg.endpoint), stringToSign)
  {
    SignatureDeterminedBy(c, cfg.secret, clock.keyTime, clock.signedTime, Region(cfg.endpoint), stringToSign);
  }

  /** Reads that agree to the second where the time is sent and signed, and
      to the day everywhere else, give a consistent request. */
  lemma SameDayConsistent(c: Crypto, cfg: Config.Config, clock: Reads, op: string, payload: string)
    requires NoNewline(cfg.endpoint) && NoNewline(op)
    requires clock.canonicalTime == clock.headerTime == clock.signedTime
    requires DateString(clock.scopeTime) == DateString(clock.credentialTime) == DateString(clock.keyTime)
             == DateString(clock.signedTime)
    ensures Consistent(c, cfg, MakeRequestAsWritten(c, cfg, clock, op, payload).headers,
                       CanonicalAsWritten(c, cfg, clock, op, payload), SignedAsWritten(c, cfg, clock, op, payload))
  {
    KeyDaySigns(c, cfg, clock, SignedAsWritten(c, cfg, clock, op, payload));
    ConsistentIff(c, cfg, clock, op, payload);
  }

  /** With one timestamp the request is always consistent: the date header,
      the canonical date line, the time line, the scope, the credential and
      the signing key all carry that timestamp. */
  lemma OneTimestampConsistent(c: Crypto, cfg: Config.Config, ts: Timestamp, op: string, payload: string)
    requires NoNewline(cfg.endpoint) && NoNewline(op)
    ensures var canonical := CanonicalRequest(c, cfg.endpoint, ts, op, payload);
      Consistent(c, cfg, MakeRequest(c, cfg, ts, op, payload).headers, canonical,
                 StringToSign(cfg.endpoint, ts, HashHex(c, canonical)))
  {
    SteadyClockAgrees(c, cfg, ts, op, payload);
    ConsistentIff(c, cfg, Steady(ts), op, payload);
  }

  const BeforeMidnight: Timestamp := "20220610T235959Z"
  const AfterMidnight: Timestamp := "20220611T000000Z"

  /** The clock passes midnight between the date header and the scope: every
      line is well formed, yet the request is not consistent. */
  lemma MidnightBreaksRequest(c: Crypto, cfg: Config.Config, op: string, payload: string)
    requires NoNewline(cfg.endpoint) && NoNewline(op)
    ensures var clock := Reads(BeforeMidnight, BeforeMidnight, BeforeMidnight, AfterMidnight, AfterMidnight, AfterMidnight);
      !Consistent(c, cfg, MakeRequestAsWritten(c, cfg, clock, op, payload).headers,
                  CanonicalAsWritten(c, cfg, clock, op, payload), SignedAsWritten(c, cfg, clock, op, payload))
  {
    var clock := Reads(BeforeMidnight, BeforeMidnight, BeforeMidnight, AfterMidnight, AfterMidnight, AfterMidnight);
    assert DateString(AfterMidnight)[7] != DateString(BeforeMidnight)[7];
    ConsistentIff(c, cfg, clock, op, payload);
  }
}
