/** The client configuration: five string settings and a debug flag, each
    taken from the constructor argument when it is truthy and otherwise from
    the environment. The endpoint is given as a URL and only its host is kept,
    as PHP's `parse_url($endpoint, PHP_URL_HOST)` extracts it. */
module Config {
  import opened Base
  import opened Php

  datatype Config = Config(endpoint: string, accessKey: string, secret: string,
                           partner: string, currency: string, debug: bool)

  /** The string settings, each with its environment variable. */
  datatype Setting = Endpoint | AccessKey | Secret | Partner | Currency

  function EnvName(s: Setting): string
  {
    match s
    case Endpoint => "AWS_GIFT_CARD_ENDPOINT"
    case AccessKey => "AWS_GIFT_CARD_KEY"
    case Secret => "AWS_GIFT_CARD_SECRET"
    case Partner => "AWS_GIFT_CARD_PARTNER_ID"
    case Currency => "AWS_GIFT_CARD_CURRENCY"
  }

  const DebugName: string := "AWS_DEBUG"

  /** The process environment `$_ENV`. */
  type Env = map<string, string>

  /** What `parseEnv` returns: a string for the settings, a flag for debugging. */
  datatype EnvValue = EnvText(text: string) | EnvFlag(flag: bool)

  /** `parseEnv`: the debug variable's truthiness (`!empty`), a known
      setting's value or `''` when it is unset, and `''` for any other name. */
  function ParseEnv(env: Env, key: string): (r: EnvValue)
    ensures key == DebugName <==> r.EnvFlag?
    ensures r.EnvFlag? ==> (r.flag <==> DebugName in env && Truthy(env[DebugName]))
    ensures r.EnvText? && r.text != "" ==> key in env && r.text == env[key]
    ensures (forall s: Setting :: EnvName(s) != key) ==> r == EnvText("") || r.EnvFlag?
  {
    if key == DebugName then EnvFlag(DebugName in env && Truthy(env[DebugName]))
    else if key == EnvName(AccessKey) || key == EnvName(Secret) || key == EnvName(Partner)
         || key == EnvName(Endpoint) || key == EnvName(Currency)
    then EnvText(if key in env then env[key] else "")
    else EnvText("")
  }

  /** `parseEnv` for a string setting. */
  function EnvSetting(env: Env, s: Setting): string
  {
    ParseEnv(env, EnvName(s)).text
  }

  /** A scheme character: a letter, a digit, `+`, `-` or `.`. */
  predicate IsSchemeChar(c: char) {
    ('a' <= c <= 'z') || ('A' <= c <= 'Z') || IsDigit(c) || c == '+' || c == '-' || c == '.'
  }

  /** Index of the first `c` in `s`. */
  function FirstIndex(s: string, c: char): (r: Option<nat>)
    ensures r.Some? ==> r.value < |s| && s[r.value] == c && c !in s[..r.value]
    ensures r.None? ==> c !in s
  {
    if |s| == 0 then None
    else if s[0] == c then Some(0)
    else match FirstIndex(s[1..], c)
      case None => None
      case Some(i) => assert s[..i + 1] == [s[0]] + s[1..][..i]; Some(i + 1)
  }

  /** Index of the last `c` in `s`. */
  function LastIndex(s: string, c: char): (r: Option<nat>)
    ensures r.Some? ==> r.value < |s| && s[r.value] == c && c !in s[r.value + 1..]
    ensures r.None? ==> c !in s
  {
    if |s| == 0 then None
    else if s[|s| - 1] == c then Some(|s| - 1)
    else
      var r := LastIndex(s[..|s| - 1], c);
      assert r.Some? ==> s[r.value + 1..] == s[..|s| - 1][r.value + 1..] + [s[|s| - 1]];
      assert r.None? ==> s == s[..|s| - 1] + [s[|s| - 1]];
      r
  }

  predicate EndsAuthority(c: char) {
    c == '/' || c == '?' || c == '#'
  }

  /** The length of the longest prefix free of `/`, `?` and `#`. */
  function AuthorityLength(s: string): (n: nat)
    ensures n <= |s|
    ensures forall i :: 0 <= i < n ==> !EndsAuthority(s[i])
    ensures n < |s| ==> EndsAuthority(s[n])
  {
    if |s| == 0 || EndsAuthority(s[0]) then 0 else 1 + AuthorityLength(s[1..])
  }

  /** The authority of a URL written `scheme://authority...`, where the
      scheme is everything before the first colon, or of a scheme-relative
      `//authority...` that holds no colon at all. */
  function Authority(url: string): (r: Option<string>)
  {
    match FirstIndex(url, ':')
    case None =>
      if 2 <= |url| && url[0] == '/' && url[1] == '/' then
        var rest := url[2..];
        Some(rest[..AuthorityLength(rest)])
      else None
    case Some(e) =>
      if e > 0 && (forall i :: 0 <= i < e ==> IsSchemeChar(url[i]))
         && e + 2 < |url| && url[e + 1] == '/' && url[e + 2] == '/'
      then
        var rest := url[e + 3..];
        Some(rest[..AuthorityLength(rest)])
      else None
  }

  predicate IsSpace(c: char) {
    c == ' ' || c == '\t' || c == '\n' || c == 0x0B as char || c == 0x0C as char || c == '\r'
  }

  /** `strtol(t, &end, 10)`: leading white space, an optional sign, then
      digits; None when no digit is read. */
  function Strtol(t: string): (r: Option<int>)
    decreases |t|
  {
    if |t| > 0 && IsSpace(t[0]) then Strtol(t[1..])
    else
      var neg := |t| > 0 && t[0] == '-';
      var a := if |t| > 0 && (t[0] == '-' || t[0] == '+') then 1 else 0;
      var digits := LeadingDigits(t[a..]);
      if |digits| == 0 then None
      else
        var v: int := DigitsValue(digits);
        Some(if neg then -v else v)
  }

  function LeadingDigits(t: string): (d: string)
    ensures |d| <= |t| && d == t[..|d|]
    ensures forall i :: 0 <= i < |d| ==> IsDigit(d[i])
    ensures |d| == |t| || !IsDigit(t[|d|])
  {
    if |t| > 0 && IsDigit(t[0]) then [t[0]] + LeadingDigits(t[1..]) else ""
  }

  /** The port text after the last colon is acceptable: empty, or at most
      five characters that `strtol` reads as 0 to 65535. */
  predicate PortAccepted(t: string) {
    |t| == 0 || (|t| <= 5 && Strtol(t).Some? && 0 <= Strtol(t).value <= 65535)
  }

  /** PHP copies a host with each control character replaced by `_`. */
  function ReplaceControl(s: string): (r: string)
    ensures |r| == |s|
    ensures forall i :: 0 <= i < |s| ==> r[i] == (if s[i] < ' ' || s[i] == 0x7F as char then '_' else s[i])
  {
    if |s| == 0 then "" else [if s[0] < ' ' || s[0] == 0x7F as char then '_' else s[0]] + ReplaceControl(s[1..])
  }

  /** The authority without its user part, which ends at the last `@`. */
  function StripUserInfo(a: string): (r: string)
    ensures '@' !in a ==> r == a
    ensures LastIndex(a, '@').Some? ==> r == a[LastIndex(a, '@').value + 1..] && '@' !in r
  {
    match LastIndex(a, '@')
    case None => a
    case Some(at) => a[at + 1..]
  }

  /** The host of an authority with the user part removed: a bracketed IPv6
      literal is kept whole; otherwise the port starts at the last colon, and
      an empty host or an unacceptable port is a failure. */
  function HostOf(hostPort: string): Option<string>
  {
    if |hostPort| > 0 && hostPort[0] == '[' && hostPort[|hostPort| - 1] == ']' then
      Some(ReplaceControl(hostPort))
    else
      match LastIndex(hostPort, ':')
      case None => if |hostPort| == 0 then None else Some(ReplaceControl(hostPort))
      case Some(p) =>
        if !PortAccepted(hostPort[p + 1..]) || p == 0 then None
        else Some(ReplaceControl(hostPort[..p]))
  }

  /** `parse_url($url, PHP_URL_HOST)` for URLs of the form
      `scheme://[userinfo@]host[:port][/?#...]`. None covers both failure and
      "no host". */
  function UrlHost(url: string): (r: Option<string>)
    ensures Authority(url).None? ==> r.None?
  {
    match Authority(url)
    case None => None
    case Some(a) => HostOf(StripUserInfo(a))
  }

  /** The value `setEndpoint` stores: `parse_url(...) ?: ''`. */
  function EndpointValue(url: string): (r: string)
    ensures r == "" || UrlHost(url) == Some(r)
    ensures UrlHost(url).Some? && Truthy(UrlHost(url).value) ==> r == UrlHost(url).value
  {
    match UrlHost(url)
    case Some(h) => if Truthy(h) then h else ""
    case None => ""
  }

  /** `setEndpoint`: the host of the URL, or `''` when there is none. */
  function SetEndpoint(c: Config, url: string): (r: Config)
  {
    c.(endpoint := EndpointValue(url))
  }

  /** The setter for a string setting (`setAccessKey`, `setSecret`, ...). */
  function Set(c: Config, s: Setting, value: string): (r: Config)
  {
    match s
    case Endpoint => SetEndpoint(c, value)
    case AccessKey => c.(accessKey := value)
    case Secret => c.(secret := value)
    case Partner => c.(partner := value)
    case Currency => c.(currency := value)
  }

  /** The getter for a string setting. */
  function Value(c: Config, s: Setting): string
  {
    match s
    case Endpoint => c.endpoint
    case AccessKey => c.accessKey
    case Secret => c.secret
    case Partner => c.partner
    case Currency => c.currency
  }

  /** The constructor's arguments, each of which may be null. */
  datatype Args = Args(endpoint: Option<string>, key: Option<string>, secret: Option<string>,
                       partner: Option<string>, currency: Option<string>, debug: Option<bool>)

  function Arg(args: Args, s: Setting): Option<string>
  {
    match s
    case Endpoint => args.endpoint
    case AccessKey => args.key
    case Secret => args.secret
    case Partner => args.partner
    case Currency => args.currency
  }

  /** `($arg) ?: parseEnv(NAME)` for a string setting. */
  function Chosen(args: Args, env: Env, s: Setting): string
  {
    match Arg(args, s)
    case Some(v) => if Truthy(v) then v else EnvSetting(env, s)
    case None => EnvSetting(env, s)
  }

  /** The constructor: each setter is given the truthy argument or the
      environment's value; debugging is on when either says so. */
  function NewConfig(args: Args, env: Env): (c: Config)
  {
    var blank := Config("", "", "", "", "", false);
    var c1 := Set(blank, AccessKey, Chosen(args, env, AccessKey));
    var c2 := Set(c1, Secret, Chosen(args, env, Secret));
    var c3 := Set(c2, Partner, Chosen(args, env, Partner));
    var c4 := Set(c3, Endpoint, Chosen(args, env, Endpoint));
    var c5 := Set(c4, Currency, Chosen(args, env, Currency));
    c5.(debug := args.debug == Some(true) || ParseEnv(env, DebugName).flag)
  }

  /** Each setter changes its own setting and nothing else, and its getter
      returns what was set (for the endpoint, the URL's host). */
  lemma SetterTouchesOneSetting(c: Config, s: Setting, value: string)
    ensures forall t :: t != s ==> Value(Set(c, s, value), t) == Value(c, t)
    ensures Set(c, s, value).debug == c.debug
    ensures s != Endpoint ==> Value(Set(c, s, value), s) == value
    ensures s == Endpoint ==> Value(Set(c, s, value), s) == EndpointValue(value)
  {
  }

  /** A string setting is the argument when it is truthy, and otherwise the
      environment's value, `''` when the variable is unset. */
  lemma SettingMerge(args: Args, env: Env, s: Setting)
    requires s != Endpoint
    ensures Arg(args, s).Some? && Truthy(Arg(args, s).value) ==>
      Value(NewConfig(args, env), s) == Arg(args, s).value
    ensures (Arg(args, s).None? || !Truthy(Arg(args, s).value)) ==>
      Value(NewConfig(args, env), s) == (if EnvName(s) in env then env[EnvName(s)] else "")
  {
  }

  /** The endpoint is the host of whichever URL the merge chose: the
      argument's when it is truthy, else the environment's. */
  lemma EndpointMerge(args: Args, env: Env, scheme: string, host: string, rest: string)
    requires Chosen(args, env, Endpoint) == scheme + "://" + host + rest
    requires |scheme| > 0 && forall i :: 0 <= i < |scheme| ==> IsSchemeChar(scheme[i])
    requires Truthy(host) && host[0] != '['
    requires forall i :: 0 <= i < |host| ==> PlainHostChar(host[i])
    requires |rest| == 0 || EndsAuthority(rest[0])
    ensures NewConfig(args, env).endpoint == host
  {
    NewConfigEndpoint(args, env);
    HostOfUrl(scheme, host, rest);
  }

  lemma NewConfigEndpoint(args: Args, env: Env)
    ensures NewConfig(args, env).endpoint == EndpointValue(Chosen(args, env, Endpoint))
  {
  }

  /** Debugging is on exactly when the argument is true or `AWS_DEBUG` is
      set to something other than `''` and `'0'`; an explicit false does not
      override the environment. */
  lemma DebugMerge(args: Args, env: Env)
    ensures NewConfig(args, env).debug
      <==> args.debug == Some(true) || (DebugName in env && Truthy(env[DebugName]))
  {
  }

  /** A character a host name can hold without `parse_url` splitting or
      rewriting it. */
  predicate PlainHostChar(c: char) {
    c != ':' && c != '@' && !EndsAuthority(c) && ' ' <= c && c != 0x7F as char
  }

  /** A URL `scheme://host/...` yields its host. */
  lemma HostOfUrl(scheme: string, host: string, rest: string)
    requires |scheme| > 0 && forall i :: 0 <= i < |scheme| ==> IsSchemeChar(scheme[i])
    requires |host| > 0 && host[0] != '['
    requires forall i :: 0 <= i < |host| ==> PlainHostChar(host[i])
    requires |rest| == 0 || EndsAuthority(rest[0])
    ensures UrlHost(scheme + "://" + host + rest) == Some(host)
  {
    AuthorityOfUrl(scheme, host, rest);
    assert StripUserInfo(host) == host;
    assert HostOf(host) == Some(ReplaceControl(host));
    assert ReplaceControl(host) == host;
  }

  lemma AuthorityOfUrl(scheme: string, host: string, rest: string)
    requires |scheme| > 0 && forall i :: 0 <= i < |scheme| ==> IsSchemeChar(scheme[i])
    requires forall i :: 0 <= i < |host| ==> !EndsAuthority(host[i])
    requires |rest| == 0 || EndsAuthority(rest[0])
    ensures Authority(scheme + "://" + host + rest) == Some(host)
  {
    var url := scheme + ("://" + (host + rest));
    assert scheme + "://" + host + rest == url;
    FirstIndexAfter(scheme, "://" + (host + rest), ':');
    var tail := url[|scheme| + 3..];
    assert tail == host + rest;
    AuthorityLengthOf(host, rest);
    assert tail[..|host|] == host;
  }

  /** A URL `scheme://user@host:port/...` yields its host: the user part
      ends at the last `@`, and the port, after the last colon, is at most
      five digits worth at most 65535. */
  lemma {:induction false} HostOfUserPortUrl(scheme: string, user: string, host: string, port: string, rest: string)
    requires |scheme| > 0 && forall i :: 0 <= i < |scheme| ==> IsSchemeChar(scheme[i])
    requires forall i :: 0 <= i < |user| ==> user[i] != '@' && !EndsAuthority(user[i])
    requires |host| > 0 && host[0] != '['
    requires forall i :: 0 <= i < |host| ==> PlainHostChar(host[i])
    requires |port| <= 5 && forall i :: 0 <= i < |port| ==> IsDigit(port[i])
    requires |port| == 0 || DigitsValue(port) <= 65535
    requires |rest| == 0 || EndsAuthority(rest[0])
    ensures UrlHost(scheme + "://" + (user + "@" + host + ":" + port) + rest) == Some(host)
  {
    var hostPort := host + ":" + port;
    var a := user + "@" + host + ":" + port;
    var url := scheme + "://" + a + rest;
    assert Authority(url) == Some(a) by {
      UserPortAuthority(scheme, user, host, port, rest);
    }
    assert StripUserInfo(a) == hostPort by {
      UserHostPortPlain(user, host, port);
      assert a == user + "@" + hostPort;
      StripUser(user, hostPort);
    }
    assert HostOf(hostPort) == Some(host) by {
      HostPort(host, port);
    }
  }

  /** The authority of `scheme://user@host:port...` is `user@host:port`. */
  lemma UserPortAuthority(scheme: string, user: string, host: string, port: string, rest: string)
    requires |scheme| > 0 && forall i :: 0 <= i < |scheme| ==> IsSchemeChar(scheme[i])
    requires forall i :: 0 <= i < |user| ==> user[i] != '@' && !EndsAuthority(user[i])
    requires forall i :: 0 <= i < |host| ==> PlainHostChar(host[i])
    requires forall i :: 0 <= i < |port| ==> IsDigit(port[i])
    requires |rest| == 0 || EndsAuthority(rest[0])
    ensures Authority(scheme + "://" + (user + "@" + host + ":" + port) + rest) == Some(user + "@" + host + ":" + port)
  {
    UserHostPortPlain(user, host, port);
    AuthorityOfUrl(scheme, user + "@" + host + ":" + port, rest);
  }

  /** The authority `user@host:port` holds nothing that ends an authority,
      and the part after the `@` holds no `@`. */
  lemma UserHostPortPlain(user: string, host: string, port: string)
    requires forall i :: 0 <= i < |user| ==> user[i] != '@' && !EndsAuthority(user[i])
    requires forall i :: 0 <= i < |host| ==> PlainHostChar(host[i])
    requires forall i :: 0 <= i < |port| ==> IsDigit(port[i])
    ensures var a := user + "@" + host + ":" + port; forall i :: 0 <= i < |a| ==> !EndsAuthority(a[i])
    ensures '@' !in host + ":" + port
  {
    var hostPort := host + ":" + port;
    var a := user + "@" + host + ":" + port;
    assert forall i :: 0 <= i < |hostPort| ==>
      hostPort[i] == if i < |host| then host[i] else if i == |host| then ':' else port[i - |host| - 1];
    assert a == user + "@" + hostPort;
    assert forall i :: 0 <= i < |a| ==>
      a[i] == if i < |user| then user[i] else if i == |user| then '@' else hostPort[i - |user| - 1];
  }

  /** The user part ends at the only `@`. */
  lemma StripUser(user: string, hostPort: string)
    requires '@' !in hostPort
    ensures StripUserInfo(user + "@" + hostPort) == hostPort
  {
    var a := user + "@" + hostPort;
    assert a[|user| + 1..] == hostPort;
    LastIndexAt(a, '@', |user|);
  }

  /** A plain host followed by an acceptable port gives the host. */
  lemma HostPort(host: string, port: string)
    requires |host| > 0 && host[0] != '['
    requires forall i :: 0 <= i < |host| ==> PlainHostChar(host[i])
    requires |port| <= 5 && forall i :: 0 <= i < |port| ==> IsDigit(port[i])
    requires |port| == 0 || DigitsValue(port) <= 65535
    ensures HostOf(host + ":" + port) == Some(host)
  {
    var hostPort := host + ":" + port;
    assert hostPort[|host| + 1..] == port;
    assert ':' !in port by {
      assert forall i :: 0 <= i < |port| ==> IsDigit(port[i]);
    }
    LastIndexAt(hostPort, ':', |host|);
    PortDigitsAccepted(port);
    assert hostPort[..|host|] == host;
    assert ReplaceControl(host) == host;
  }

  /** A position holding `c` with no `c` after it is the last `c`. */
  lemma LastIndexAt(s: string, c: char, i: nat)
    requires i < |s| && s[i] == c && c !in s[i + 1..]
    ensures LastIndex(s, c) == Some(i)
  {
    assert s[i] in s;
  }

  /** Up to five digits worth at most 65535 make an acceptable port. */
  lemma PortDigitsAccepted(port: string)
    requires |port| <= 5 && forall i :: 0 <= i < |port| ==> IsDigit(port[i])
    requires |port| == 0 || DigitsValue(port) <= 65535
    ensures PortAccepted(port)
  {
    if |port| > 0 {
      assert !IsSpace(port[0]) && port[0] != '-' && port[0] != '+';
      assert port[0..] == port;
      assert LeadingDigits(port) == port;
    }
  }

  /** The first `c` is at the end of a prefix that lacks it. */
  lemma {:induction false} FirstIndexAfter(a: string, b: string, c: char)
    requires forall i :: 0 <= i < |a| ==> a[i] != c
    requires |b| > 0 && b[0] == c
    ensures FirstIndex(a + b, c) == Some(|a|)
    decreases |a|
  {
    if |a| > 0 {
      assert (a + b)[1..] == a[1..] + b;
      FirstIndexAfter(a[1..], b, c);
    } else {
      assert a + b == b;
    }
  }

  lemma {:induction false} AuthorityLengthOf(host: string, rest: string)
    requires forall i :: 0 <= i < |host| ==> !EndsAuthority(host[i])
    requires |rest| == 0 || EndsAuthority(rest[0])
    ensures AuthorityLength(host + rest) == |host|
    decreases |host|
  {
    if |host| > 0 {
      assert (host + rest)[1..] == host[1..] + rest;
      AuthorityLengthOf(host[1..], rest);
    } else {
      assert host + rest == rest;
    }
  }

  /** A bare host name has no host: it is read as a path. So handing the
      getter's value back to the setter clears the endpoint. */
  lemma BareHostClears(c: Config, host: string)
    requires ':' !in host && !("//" <= host)
    ensures UrlHost(host) == None
    ensures SetEndpoint(c, host).endpoint == ""
  {
  }

  /** A scheme-relative URL `//host/...` without a colon yields its host. */
  lemma SchemeRelativeHost(c: Config, host: string, rest: string)
    requires |host| > 0 && host[0] != '['
    requires forall i :: 0 <= i < |host| ==> PlainHostChar(host[i])
    requires ':' !in rest && (|rest| == 0 || EndsAuthority(rest[0]))
    ensures UrlHost("//" + host + rest) == Some(host)
    ensures SetEndpoint(c, "//" + host + rest).endpoint == if Truthy(host) then host else ""
  {
    var url := "//" + host + rest;
    assert url[2..] == host + rest;
    assert ':' !in url by {
      assert forall i :: 0 <= i < |url| ==> url[i] == if i < 2 then '/' else if i < 2 + |host| then host[i - 2] else rest[i - 2 - |host|];
    }
    AuthorityLengthOf(host, rest);
    assert (host + rest)[..|host|] == host;
    assert StripUserInfo(host) == host;
    assert HostOf(host) == Some(ReplaceControl(host));
    assert ReplaceControl(host) == host;
  }

  /** The endpoint setting of a URL with a truthy host is that host. */
  lemma SetEndpointKeepsHost(c: Config, scheme: string, host: string, rest: string)
    requires |scheme| > 0 && forall i :: 0 <= i < |scheme| ==> IsSchemeChar(scheme[i])
    requires Truthy(host)
    requires forall i :: 0 <= i < |host| ==> PlainHostChar(host[i])
    requires host[0] != '['
    requires |rest| == 0 || EndsAuthority(rest[0])
    ensures SetEndpoint(c, scheme + "://" + host + rest).endpoint == host
    ensures SetEndpoint(SetEndpoint(c, scheme + "://" + host + rest), host).endpoint == ""
  {
    HostOfUrl(scheme, host, rest);
    BareHostClears(c, host);
  }
}
