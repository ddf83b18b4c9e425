/**
 * The DNS-O-Matic provider of internal/settings/providers/dnsomatic/provider.go:
 * validation at construction, the query of the update request, and the
 * classification of the vendor's answer into a new IP or one error kind.
 *
 * The HTTP round trip, JSON decoding, URL encoding and the net and
 * verification packages are not modelled; what the provider needs of them is
 * passed in (see Lib, Exchange and ExtraSettings).
 */
module DnsOMatic {
  import opened Wrappers
  import opened Strings

  // ---------------------------------------------------------------------------
  // Collaborators

  /**
   * The DNS-O-Matic credential predicates of the settings matcher
   * (common.Matcher); their patterns are not part of this model.
   */
  datatype CredentialMatcher = CredentialMatcher(
    dnsOMaticUsername: string -> bool,
    dnsOMaticPassword: string -> bool)

  /**
   * The foreign functions Update calls, over an abstract IP type:
   * verification's SearchIPv4/SearchIPv6 (IP literals of one family found in a
   * text, in order), net.ParseIP, `ip.To4() != nil`, ip.Equal, ip.String and
   * utils.BuildURLQueryHostname.
   */
  datatype Lib<!IP> = Lib(
    searchIPv4: string -> seq<string>,
    searchIPv6: string -> seq<string>,
    parseIP: string -> Option<IP>,
    isIPv4: IP -> bool,
    equal: (IP, IP) -> bool,
    ipString: IP -> string,
    buildURLQueryHostname: (string, string) -> string)

  /** ipversion.IPVersion; the provider stores it and does not consult it. */
  datatype IPVersion = IP4or6 | IP4 | IP6

  // ---------------------------------------------------------------------------
  // Construction and validation

  /** The provider-specific settings, already decoded from the JSON payload. */
  datatype ExtraSettings = ExtraSettings(username: string, password: string, useProviderIP: bool)

  datatype SettingsError =
    | DecodeFailed(reason: string)        // json.Unmarshal's error, returned as is
    | MalformedUsername(username: string)
    | MalformedPassword
    | EmptyUsername
    | EmptyPassword

  /** The provider record; it is never changed after construction. */
  datatype Provider = Provider(
    domain: string,
    host: string,
    ipVersion: IPVersion,
    username: string,
    password: string,
    useProviderIP: bool,
    matcher: CredentialMatcher)

  /** A fully validated provider: both credentials match their shape and are non-empty. */
  ghost predicate Validated(p: Provider)
  {
    && p.matcher.dnsOMaticUsername(p.username)
    && p.matcher.dnsOMaticPassword(p.password)
    && |p.username| > 0
    && |p.password| > 0
  }

  /** isValid: four checks in a fixed order; the first that fails gives the error. */
  function IsValid(p: Provider): Option<SettingsError>
  {
    if !p.matcher.dnsOMaticUsername(p.username) then Some(MalformedUsername(p.username))
    else if !p.matcher.dnsOMaticPassword(p.password) then Some(MalformedPassword)
    else if |p.username| == 0 then Some(EmptyUsername)
    else if |p.password| == 0 then Some(EmptyPassword)
    else None
  }

  /** The checks of isValid as data: each pairs "passes" with the error it reports. */
  function Checks(p: Provider): seq<(bool, SettingsError)>
  {
    [ (p.matcher.dnsOMaticUsername(p.username), MalformedUsername(p.username)),
      (p.matcher.dnsOMaticPassword(p.password), MalformedPassword),
      (|p.username| != 0, EmptyUsername),
      (|p.password| != 0, EmptyPassword) ]
  }

  /** Reference meaning of "first failure wins" over any list of checks. */
  function FirstFailure(checks: seq<(bool, SettingsError)>): (r: Option<SettingsError>)
    ensures r.None? <==> forall i :: 0 <= i < |checks| ==> checks[i].0
    ensures r.Some? ==>
      exists i :: 0 <= i < |checks| && !checks[i].0 && checks[i].1 == r.value
        && forall j :: 0 <= j < i ==> checks[j].0
  {
    if |checks| == 0 then None
    else if !checks[0].0 then Some(checks[0].1)
    else
      var r := FirstFailure(checks[1..]);
      assert r.Some? ==> (exists i :: 0 <= i < |checks| && !checks[i].0 && checks[i].1 == r.value
                                 && forall j :: 0 <= j < i ==> checks[j].0) by {
        if r.Some? {
          var i :| 0 <= i < |checks[1..]| && !checks[1..][i].0 && checks[1..][i].1 == r.value
            && forall j :: 0 <= j < i ==> checks[1..][j].0;
          assert forall j :: 0 <= j < i + 1 ==> checks[j].0 by {
            forall j | 0 <= j < i + 1 ensures checks[j].0 {
              if j > 0 { assert checks[j] == checks[1..][j - 1]; }
            }
          }
        }
      }
      assert r.None? ==> forall i :: 0 <= i < |checks| ==> checks[i].0 by {
        if r.None? {
          forall i | 0 <= i < |checks| ensures checks[i].0 {
            if i > 0 { assert checks[i] == checks[1..][i - 1]; }
          }
        }
      }
      r
  }

  /** isValid reports exactly the first failing check, in the source's order. */
  lemma IsValidIsFirstFailure(p: Provider)
    ensures IsValid(p) == FirstFailure(Checks(p))
  {
    var cs := Checks(p);
    assert cs[3..][1..] == [];
    assert FirstFailure(cs[3..]) == if cs[3].0 then None else Some(cs[3].1);
    assert cs[2..][1..] == cs[3..];
    assert FirstFailure(cs[2..]) == if cs[2].0 then FirstFailure(cs[3..]) else Some(cs[2].1);
    assert cs[1..][1..] == cs[2..];
    assert FirstFailure(cs[1..]) == if cs[1].0 then FirstFailure(cs[2..]) else Some(cs[1].1);
  }

  /** isValid succeeds exactly for validated providers. */
  lemma IsValidSucceedsIffValidated(p: Provider)
    ensures IsValid(p).None? <==> Validated(p)
  {
  }

  /**
   * The shape checks come first: when the username predicate rejects "", an
   * empty username is reported as malformed, never as empty.
   */
  lemma EmptyUsernameReportedAsMalformed(p: Provider)
    requires p.username == "" && !p.matcher.dnsOMaticUsername("")
    ensures IsValid(p) == Some(MalformedUsername(""))
  {
  }

  /** The "empty" errors are reachable only through credentials whose shape the matcher accepts. */
  lemma EmptyErrorsNeedShapeMatch(p: Provider)
    ensures IsValid(p) == Some(EmptyUsername) <==>
      p.matcher.dnsOMaticUsername(p.username) && p.matcher.dnsOMaticPassword(p.password) && p.username == ""
    ensures IsValid(p) == Some(EmptyPassword) <==>
      p.matcher.dnsOMaticUsername(p.username) && p.matcher.dnsOMaticPassword(p.password)
      && p.username != "" && p.password == ""
  {
  }

  /**
   * New: builds the provider from the supplied values and validates it; a
   * provider exists only when validation succeeds, and it holds the supplied
   * values unchanged.
   */
  function New(data: Result<ExtraSettings, string>, domain: string, host: string,
               ipVersion: IPVersion, matcher: CredentialMatcher): (r: Result<Provider, SettingsError>)
    ensures data.Failure? ==> r == Failure(DecodeFailed(data.error))
    ensures r.Success? ==> Validated(r.value)
    ensures r.Success? ==>
      && r.value.domain == domain && r.value.host == host && r.value.ipVersion == ipVersion
      && r.value.username == data.value.username && r.value.password == data.value.password
      && r.value.useProviderIP == data.value.useProviderIP && r.value.matcher == matcher
    ensures data.Success? ==>
      (r.Success? <==> matcher.dnsOMaticUsername(data.value.username)
                       && matcher.dnsOMaticPassword(data.value.password)
                       && data.value.username != "" && data.value.password != "")
  {
    match data
    case Failure(reason) => Failure(DecodeFailed(reason))
    case Success(extra) =>
      var p := Provider(domain, host, ipVersion, extra.username, extra.password, extra.useProviderIP, matcher);
      match IsValid(p)
      case Some(e) => Failure(e)
      case None => Success(p)
  }

  /** When decoding succeeds, New fails with exactly the error isValid reports. */
  lemma NewReportsValidationError(data: ExtraSettings, domain: string, host: string,
                                  ipVersion: IPVersion, matcher: CredentialMatcher, e: SettingsError)
    requires IsValid(Provider(domain, host, ipVersion, data.username, data.password,
                              data.useProviderIP, matcher)) == Some(e)
    ensures New(Success(data), domain, host, ipVersion, matcher) == Failure(e)
  {
  }

  // ---------------------------------------------------------------------------
  // The update request

  const Scheme := "https"
  const UpdateHost := "updates.dnsomatic.com"
  const UpdatePath := "/nic/update"
  const NoChange := "NOCHG"
  const WildcardOn := "ON"
  const WildcardHost := "*"

  /** The request URL before encoding: basic-auth user info and the query values. */
  datatype UpdateURL = UpdateURL(
    scheme: string,
    host: string,
    path: string,
    user: string,
    password: string,
    query: map<string, string>)

  /** The query DNS-O-Matic is sent, stated key by key. */
  function Query(p: Provider, myIP: string, buildURLQueryHostname: (string, string) -> string): map<string, string>
  {
    var hostname := if p.host == WildcardHost then p.domain else buildURLQueryHostname(p.host, p.domain);
    var wildcard := if p.host == WildcardHost then WildcardOn else NoChange;
    var common := map["hostname" := hostname, "wildcard" := wildcard, "mx" := NoChange, "backmx" := NoChange];
    if p.useProviderIP then common else common["myip" := myIP]
  }

  /**
   * The query-building part of Update: successive url.Values.Set calls, each
   * replacing the key's value; `wildcard` is set to NOCHG and then, for the
   * wildcard host, overwritten with ON.
   */
  method BuildQuery(p: Provider, myIP: string, buildURLQueryHostname: (string, string) -> string)
    returns (values: map<string, string>)
    ensures values == Query(p, myIP, buildURLQueryHostname)
  {
    values := map[];
    if !p.useProviderIP {
      values := values["myip" := myIP];
    }
    values := values["wildcard" := NoChange];
    if p.host == WildcardHost {
      values := values["hostname" := p.domain];
      values := values["wildcard" := WildcardOn];
    } else {
      values := values["hostname" := buildURLQueryHostname(p.host, p.domain)];
    }
    values := values["mx" := NoChange];
    values := values["backmx" := NoChange];
  }

  /** The request of Update for `ip`: fixed endpoint, the credentials, and the query. */
  function Request<IP>(lib: Lib<IP>, p: Provider, ip: IP): UpdateURL
  {
    UpdateURL(Scheme, UpdateHost, UpdatePath, p.username, p.password,
              Query(p, lib.ipString(ip), lib.buildURLQueryHostname))
  }

  /** Building the request URL, as Update does at provider.go:107-126. */
  method BuildRequest<IP>(lib: Lib<IP>, p: Provider, ip: IP) returns (u: UpdateURL)
    ensures u == Request(lib, p, ip)
  {
    var values := BuildQuery(p, lib.ipString(ip), lib.buildURLQueryHostname);
    u := UpdateURL(Scheme, UpdateHost, UpdatePath, p.username, p.password, values);
  }

  /** myip is sent exactly when the vendor is not asked to detect the IP, and it is the IP's text. */
  lemma QueryMyIP(p: Provider, myIP: string, build: (string, string) -> string)
    ensures "myip" in Query(p, myIP, build) <==> !p.useProviderIP
    ensures "myip" in Query(p, myIP, build) ==> Query(p, myIP, build)["myip"] == myIP
  {
  }

  /** The wildcard host targets the bare domain with wildcard ON; any other host is joined, NOCHG. */
  lemma QueryWildcard(p: Provider, myIP: string, build: (string, string) -> string)
    ensures p.host == "*" ==>
      Query(p, myIP, build)["wildcard"] == "ON" && Query(p, myIP, build)["hostname"] == p.domain
    ensures p.host != "*" ==>
      Query(p, myIP, build)["wildcard"] == "NOCHG" && Query(p, myIP, build)["hostname"] == build(p.host, p.domain)
  {
  }

  /** mx and backmx are always NOCHG, and no key beyond the five named is ever sent. */
  lemma QueryKeys(p: Provider, myIP: string, build: (string, string) -> string)
    ensures Query(p, myIP, build)["mx"] == "NOCHG" && Query(p, myIP, build)["backmx"] == "NOCHG"
    ensures Query(p, myIP, build).Keys ==
      {"hostname", "wildcard", "mx", "backmx"} + (if p.useProviderIP then {} else {"myip"})
  {
  }

  // ---------------------------------------------------------------------------
  // The answer and its classification

  const StatusOK := 200

  /**
   * The vendor's answer words. The constants package is not part of this
   * model; its values are taken to be the DynDNS2 return codes, and only
   * "dnserr" is a literal of the provider itself.
   */
  const Nohost := "nohost"
  const Notfqdn := "notfqdn"
  const Badauth := "badauth"
  const Badagent := "badagent"
  const Abuse := "abuse"
  const Dnserr := "dnserr"
  const Nineoneone := "911"

  /** The whole body read from the response, or the error io.ReadAll gave. */
  datatype Body = Body(text: string) | ReadFailed(reason: string)

  datatype Response = Response(status: int, body: Body)

  /** The outcome of the HTTP round trip: a response, or client.Do's error. */
  datatype Exchange = Delivered(response: Response) | TransportFailed(reason: string)

  datatype UpdateError =
    | Transport(reason: string)
    | UnmarshalResponse(reason: string)
    | BadHTTPStatus(status: int, body: string)
    | HostnameNotExists
    | Auth
    | BannedUserAgent
    | AbuseReported
    | DNSServerSide(body: string)
    | UnknownResponse(body: string)
    | NoIPInResponse
    | IPReceivedMalformed(candidate: string)
    | IPReceivedMismatch(received: string)

  /** A body that is, as a whole, one of the failure words. */
  predicate IsFailureWord(s: string)
  {
    s == Nohost || s == Notfqdn || s == Badauth || s == Badagent || s == Abuse || s == Dnserr || s == Nineoneone
  }

  /** The body looks like a success: it contains "nochg" or "good". */
  predicate LooksSuccessful(s: string)
  {
    Contains(s, "nochg") || Contains(s, "good")
  }

  /** IP literals found in the body, of the requested IP's family. */
  function Candidates<IP>(lib: Lib<IP>, ip: IP, s: string): seq<string>
  {
    if lib.isIPv4(ip) then lib.searchIPv4(s) else lib.searchIPv6(s)
  }

  /** The IP extraction step: first candidate only, parsed, then compared unless the vendor picks the IP. */
  function ExtractIP<IP>(lib: Lib<IP>, p: Provider, ip: IP, s: string): Result<IP, UpdateError>
  {
    var ips := Candidates(lib, ip, s);
    if |ips| == 0 then Failure(NoIPInResponse)
    else match lib.parseIP(ips[0])
      case None => Failure(IPReceivedMalformed(ips[0]))
      case Some(newIP) =>
        if !p.useProviderIP && !lib.equal(ip, newIP) then Failure(IPReceivedMismatch(lib.ipString(newIP)))
        else Success(newIP)
  }

  /** The decision part of Update (provider.go:140-187): from the response to a new IP or one error. */
  function Classify<IP>(lib: Lib<IP>, p: Provider, ip: IP, response: Response): Result<IP, UpdateError>
  {
    match response.body
    case ReadFailed(reason) => Failure(UnmarshalResponse(reason))
    case Body(s) =>
      if response.status != StatusOK then Failure(BadHTTPStatus(response.status, s))
      else if s == Nohost || s == Notfqdn then Failure(HostnameNotExists)
      else if s == Badauth then Failure(Auth)
      else if s == Badagent then Failure(BannedUserAgent)
      else if s == Abuse then Failure(AbuseReported)
      else if s == Dnserr || s == Nineoneone then Failure(DNSServerSide(s))
      else if !LooksSuccessful(s) then Failure(UnknownResponse(s))
      else ExtractIP(lib, p, ip, s)
  }

  /**
   * Update: builds the request, hands it to the transport and classifies the
   * answer; a transport error is returned as is.
   */
  method Update<IP>(lib: Lib<IP>, p: Provider, ip: IP, exchange: UpdateURL -> Exchange)
    returns (r: Result<IP, UpdateError>)
    ensures exchange(Request(lib, p, ip)).TransportFailed? ==>
      r == Failure(Transport(exchange(Request(lib, p, ip)).reason))
    ensures exchange(Request(lib, p, ip)).Delivered? ==>
      r == Classify(lib, p, ip, exchange(Request(lib, p, ip)).response)
  {
    var u := BuildRequest(lib, p, ip);
    var answer := exchange(u);
    match answer
    case TransportFailed(reason) =>
      r := Failure(Transport(reason));
    case Delivered(response) =>
      r := Classify(lib, p, ip, response);
  }

  // ---------------------------------------------------------------------------
  // Properties of the classification

  /** A body that cannot be read fails before the status is looked at, whatever the status. */
  lemma ReadFailureFirst<IP>(lib: Lib<IP>, p: Provider, ip: IP, status: int, reason: string)
    ensures Classify(lib, p, ip, Response(status, ReadFailed(reason))) == Failure(UnmarshalResponse(reason))
  {
  }

  /** Any status other than exactly 200 fails with the code and the body, whatever the body says. */
  lemma BadStatusAlwaysFails<IP>(lib: Lib<IP>, p: Provider, ip: IP, status: int, s: string)
    requires status != 200
    ensures Classify(lib, p, ip, Response(status, Body(s))) == Failure(BadHTTPStatus(status, s))
  {
  }

  /** With status 200, the failure words map to their error kinds on whole-body equality. */
  lemma FailureWords<IP>(lib: Lib<IP>, p: Provider, ip: IP)
    ensures Classify(lib, p, ip, Response(200, Body("nohost"))) == Failure(HostnameNotExists)
    ensures Classify(lib, p, ip, Response(200, Body("notfqdn"))) == Failure(HostnameNotExists)
    ensures Classify(lib, p, ip, Response(200, Body("badauth"))) == Failure(Auth)
    ensures Classify(lib, p, ip, Response(200, Body("badagent"))) == Failure(BannedUserAgent)
    ensures Classify(lib, p, ip, Response(200, Body("abuse"))) == Failure(AbuseReported)
    ensures Classify(lib, p, ip, Response(200, Body("dnserr"))) == Failure(DNSServerSide("dnserr"))
    ensures Classify(lib, p, ip, Response(200, Body("911"))) == Failure(DNSServerSide("911"))
  {
  }

  /** The vendor-classified errors arise only from status 200 and a body equal to one failure word. */
  lemma FailureWordsOnlyOnExactBody<IP>(lib: Lib<IP>, p: Provider, ip: IP, response: Response)
    ensures var r := Classify(lib, p, ip, response);
      r.Failure? && (r.error.HostnameNotExists? || r.error.Auth? || r.error.BannedUserAgent?
                     || r.error.AbuseReported? || r.error.DNSServerSide?)
      <==> response.status == 200 && response.body.Body? && IsFailureWord(response.body.text)
  {
  }

  /** A 200 body that is no failure word and contains neither success word is unrecognised. */
  lemma UnknownResponseIff<IP>(lib: Lib<IP>, p: Provider, ip: IP, response: Response)
    ensures Classify(lib, p, ip, response).Failure? && Classify(lib, p, ip, response).error.UnknownResponse?
      <==> response.status == 200 && response.body.Body? && !IsFailureWord(response.body.text)
           && !LooksSuccessful(response.body.text)
  {
  }

  /**
   * Success, stated in full: status 200, a body that is no failure word and
   * looks successful, a first candidate of the requested family that parses,
   * and that equals the requested IP unless the vendor picks the IP. The IP
   * returned is the parsed first candidate.
   */
  lemma SuccessIff<IP>(lib: Lib<IP>, p: Provider, ip: IP, response: Response)
    ensures Classify(lib, p, ip, response).Success? <==>
      && response.status == 200 && response.body.Body?
      && var s := response.body.text;
      && !IsFailureWord(s) && LooksSuccessful(s)
      && |Candidates(lib, ip, s)| > 0
      && lib.parseIP(Candidates(lib, ip, s)[0]).Some?
      && (p.useProviderIP || lib.equal(ip, lib.parseIP(Candidates(lib, ip, s)[0]).value))
    ensures Classify(lib, p, ip, response).Success? ==>
      Classify(lib, p, ip, response).value == lib.parseIP(Candidates(lib, ip, response.body.text)[0]).value
  {
  }

  /** When the IP is sent, a success always reports an IP equal to the one requested. */
  lemma SuccessReturnsRequestedIP<IP>(lib: Lib<IP>, p: Provider, ip: IP, response: Response)
    requires !p.useProviderIP
    requires Classify(lib, p, ip, response).Success?
    ensures lib.equal(ip, Classify(lib, p, ip, response).value)
  {
  }

  /** The extraction failures, each tied to the step that produces it. */
  lemma ExtractionFailures<IP>(lib: Lib<IP>, p: Provider, ip: IP, s: string)
    requires !IsFailureWord(s) && LooksSuccessful(s)
    ensures |Candidates(lib, ip, s)| == 0 ==>
      Classify(lib, p, ip, Response(200, Body(s))) == Failure(NoIPInResponse)
    ensures |Candidates(lib, ip, s)| > 0 && lib.parseIP(Candidates(lib, ip, s)[0]).None? ==>
      Classify(lib, p, ip, Response(200, Body(s))) == Failure(IPReceivedMalformed(Candidates(lib, ip, s)[0]))
    ensures (&& |Candidates(lib, ip, s)| > 0 && lib.parseIP(Candidates(lib, ip, s)[0]).Some?
             && !p.useProviderIP && !lib.equal(ip, lib.parseIP(Candidates(lib, ip, s)[0]).value)) ==>
      Classify(lib, p, ip, Response(200, Body(s)))
        == Failure(IPReceivedMismatch(lib.ipString(lib.parseIP(Candidates(lib, ip, s)[0]).value)))
  {
  }

  /** A successful-looking body with status 204 still fails: only 200 is accepted. */
  lemma GoodBodyWithStatus204<IP>(lib: Lib<IP>, p: Provider, ip: IP)
    ensures Classify(lib, p, ip, Response(204, Body("good 1.2.3.4"))).Failure?
    ensures Classify(lib, p, ip, Response(204, Body("good 1.2.3.4"))).error == BadHTTPStatus(204, "good 1.2.3.4")
  {
  }

  /** A failure word followed by more text is no longer that failure: it goes on to IP extraction. */
  lemma FailureWordWithSuffixIsNotFailure<IP>(lib: Lib<IP>, p: Provider, ip: IP)
    ensures Classify(lib, p, ip, Response(200, Body("badauth good")))
      == ExtractIP(lib, p, ip, "badauth good")
  {
    assert OccursAt("badauth good", "good", 8);
  }

  /** "nochg" with no IP literal of the requested family fails with NoIPInResponse. */
  lemma NochgWithoutIP<IP>(lib: Lib<IP>, p: Provider, ip: IP)
    requires |Candidates(lib, ip, "nochg")| == 0
    ensures Classify(lib, p, ip, Response(200, Body("nochg"))) == Failure(NoIPInResponse)
  {
    assert OccursAt("nochg", "nochg", 0);
  }
}
