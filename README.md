# ddns-updater: credential shapes and the DNS-O-Matic update protocol, in Dafny

This project models two parts of ddns-updater, a tool that keeps DNS records at
Dynamic DNS vendors in step with a host's public IP:

- **The credential matcher** (`internal/regex/regex.go`). It holds seven
  anchored regular expressions, one per vendor credential field: the GoDaddy
  key and secret, the DuckDNS token, the Namecheap password, the Dreamhost key,
  the Cloudflare key and the Cloudflare user service key. Module `Regex`
  writes each pattern's language as a predicate on `Matcher` that follows the
  pattern's structure. Its lemmas prove which strings each one accepts:
  - the GoDaddy key's unique split at `_`;
  - the DuckDNS token's dash positions, and the UUID group lengths;
  - the literal `v1.0` prefix of the service key;
  - anchoring at both ends;
  - how the permissive Cloudflare key relates to the other patterns.

  `NewMatcher` compiles the seven patterns in order and stops at the first
  compile error.
- **The DNS-O-Matic provider** (`internal/settings/providers/dnsomatic/provider.go`),
  in module `DnsOMatic`:
  - `New` and `isValid`: the provider is an immutable record that exists only
    once its credentials pass four checks, applied in a fixed order.
  - `BuildQuery`: an imperative method making the successive `url.Values.Set`
    calls. It is proved equal to the declarative query `Query`, and lemmas
    state `Query`'s keys and values.
  - `Classify`: a total function taking the HTTP response to either the new IP
    or exactly one error kind. Lemmas prove its branches in the source's order,
    in both directions.
  - `Update`: composes the request, an abstract HTTP exchange, and `Classify`.

Module `Strings` gives `strings.Contains`: a recursive search, proved to hold
exactly when an occurrence index exists. Module `Wrappers` holds `Option` and
`Result`.

Calls into code that is not part of this model are parameters:
- The DNS-O-Matic credential predicates of `common.Matcher` are the two
  functions of `CredentialMatcher`.
- `SearchIPv4`/`SearchIPv6`, `net.ParseIP`, `To4`, `Equal`, `String` and
  `utils.BuildURLQueryHostname` are the fields of `Lib`, over an abstract IP type.
- The HTTP round trip is a function from the request to an `Exchange`: a
  response, or a transport error.
- Pattern compilation is a function from pattern text to an optional error.

The answer words come from the constants package, which is not part of this
model. Their values are taken to be the DynDNS2 return codes `nohost`,
`notfqdn`, `badauth`, `badagent`, `abuse` and `911`; only `dnserr` is a
literal of the provider itself. The general classification lemmas hold for any
values; only the example lemmas `FailureWords`,
`FailureWordWithSuffixIsNotFailure` and `NochgWithoutIP` use them.

Points where the code is narrower than a reader might assume:
- Only status exactly 200 is accepted, not any 2xx.
- All shape checks run before any emptiness check.
- The received IP is parsed with `net.ParseIP`, which accepts either family.
  A candidate of the requested family that fails to parse as that family is
  not rejected for that reason.
- The received IP is compared with `ip.Equal`, not byte for byte.

## Model

| member | source | states |
|---|---|---|
| `Regex.Matcher.GodaddyKey` | internal/regex/regex.go:53 | the language of `^[A-Za-z0-9]{10,14}\_[A-Za-z0-9]{22}$`; see GodaddyKeyFromParts, GodaddyKeyToParts, GodaddyKeySplitUnique, GodaddyKeyNotExtensible |
| `Regex.Matcher.GodaddySecret` | internal/regex/regex.go:54 | the language of `^[A-Za-z0-9]{22}$`; see FixedLengthFullMatch, CloudflareKeyLanguage |
| `Regex.Matcher.DuckDNSToken` | internal/regex/regex.go:55 | the language of the 8-4-4-4-12 lower-case hex pattern; see DuckDNSTokenByIndex, DuckDNSTokenGroups, DuckDNSTokenRejectsUpperCase |
| `Regex.Matcher.NamecheapPassword` | internal/regex/regex.go:56 | the language of `^[a-f0-9]{32}$`; see FixedLengthFullMatch, CloudflareKeyLanguage |
| `Regex.Matcher.DreamhostKey` | internal/regex/regex.go:57 | the language of `^[a-zA-Z0-9]{16}$`; see FixedLengthFullMatch, CloudflareKeyLanguage |
| `Regex.Matcher.CloudflareKey` | internal/regex/regex.go:58 | the language of `^[a-zA-Z0-9]+$`; see CloudflareKeyLanguage |
| `Regex.Matcher.CloudflareUserServiceKey` | internal/regex/regex.go:59-61 | the language of `^v1\.0.+$`; see ServiceKeyByPrefix, ServiceKeyHasPrefix, ServiceKeyEdgeCases |
| `DnsOMatic.IsValid` | internal/settings/providers/dnsomatic/provider.go:58-70 | isValid's switch; see IsValidIsFirstFailure, IsValidSucceedsIffValidated, EmptyUsernameReportedAsMalformed, EmptyErrorsNeedShapeMatch |
| `DnsOMatic.Query` | internal/settings/providers/dnsomatic/provider.go:113-125 | the query values; see BuildQuery, QueryMyIP, QueryWildcard, QueryKeys |
| `DnsOMatic.Request` | internal/settings/providers/dnsomatic/provider.go:107-126 | the request URL; see BuildRequest, Update |
| `DnsOMatic.Candidates` | internal/settings/providers/dnsomatic/provider.go:168-174 | the IP literals of the requested IP's family; see SuccessIff, ExtractionFailures |
| `DnsOMatic.ExtractIP` | internal/settings/providers/dnsomatic/provider.go:168-187 | first candidate, parsed, compared unless the vendor picks the IP; see ExtractionFailures, SuccessIff, SuccessReturnsRequestedIP |
| `DnsOMatic.Classify` | internal/settings/providers/dnsomatic/provider.go:140-187 | the response classification; see ReadFailureFirst, BadStatusAlwaysFails, FailureWordsOnlyOnExactBody, UnknownResponseIff, ExtractionFailures, SuccessIff |
| `Regex.NewMatcher` | internal/regex/regex.go:20-51 | a matcher is returned iff all seven patterns compile; otherwise the error of the first pattern that fails to compile, every earlier one having compiled |
| `Regex.FirstCompileError` | internal/regex/regex.go:21-49 | patterns are compiled in order; none compiles with an error iff the result is None, otherwise it is the first failing index and its error |
| `Regex.GodaddyKeyFromParts` | internal/regex/regex.go:22 | 10 to 14 alphanumerics, `_`, then 22 alphanumerics (a GoDaddy secret) always form an accepted GoDaddy key |
| `Regex.GodaddyKeyToParts` | internal/regex/regex.go:22 | an accepted GoDaddy key has length 33 to 37 and is its first (length - 23) alphanumerics, `_`, and a GoDaddy secret |
| `Regex.GodaddyKeySplitUnique` | internal/regex/regex.go:22 | the split of a GoDaddy key into key part and secret part is unique |
| `Regex.GodaddyKeyNotExtensible` | internal/regex/regex.go:22 | appending any character to an accepted GoDaddy key makes it rejected |
| `Regex.DuckDNSTokenByIndex` | internal/regex/regex.go:30 | a DuckDNS token is exactly a 36-character string with `-` at indices 8, 13, 18, 23 and lower-case hex everywhere else (both directions) |
| `Regex.DuckDNSTokenRejectsUpperCase` | internal/regex/regex.go:30 | a string holding an upper-case letter is never a DuckDNS token |
| `Regex.DuckDNSTokenGroups` | internal/regex/regex.go:30 | five lower-case hex groups joined by `-` are accepted iff their lengths are 8, 4, 4, 4 and 12 |
| `Regex.ServiceKeyByPrefix` | internal/regex/regex.go:46 | `v1.0` followed by `rest` is accepted iff `rest` is non-empty and holds no newline |
| `Regex.ServiceKeyHasPrefix` | internal/regex/regex.go:46 | every accepted service key has length at least 5 and starts with the literal characters `v`, `1`, `.`, `0` |
| `Regex.ServiceKeyEdgeCases` | internal/regex/regex.go:46 | `v1.0` alone, `v1x0abc` and a key with a newline after the prefix are rejected; `v1.0x` is accepted |
| `Regex.FixedLengthFullMatch` | internal/regex/regex.go:26-38 | GoDaddy secret, DuckDNS token, Namecheap password and Dreamhost key are full-string matches: one more character in front or behind rejects |
| `Regex.CloudflareKeyLanguage` | internal/regex/regex.go:42 | the Cloudflare key rejects the empty string, is closed under concatenation, contains every GoDaddy secret, Dreamhost key and Namecheap password, and no DuckDNS token |
| `Strings.Contains` | internal/settings/providers/dnsomatic/provider.go:164 | strings.Contains holds iff some index starts an occurrence of the substring |
| `DnsOMatic.FirstFailure` | internal/settings/providers/dnsomatic/provider.go:59-68 | the reference meaning of a switch of guards: None iff every check passes, otherwise the error of the first failing check, all earlier ones passing |
| `DnsOMatic.IsValidIsFirstFailure` | internal/settings/providers/dnsomatic/provider.go:58-70 | isValid returns the first failure among malformed username, malformed password, empty username and empty password, in that order |
| `DnsOMatic.IsValidSucceedsIffValidated` | internal/settings/providers/dnsomatic/provider.go:58-70 | isValid returns nil iff both credentials match their predicate and both are non-empty |
| `DnsOMatic.EmptyUsernameReportedAsMalformed` | internal/settings/providers/dnsomatic/provider.go:60-65 | when the username predicate rejects "", an empty username yields the malformed-username error, not the empty one |
| `DnsOMatic.EmptyErrorsNeedShapeMatch` | internal/settings/providers/dnsomatic/provider.go:58-68 | the empty-username (empty-password) error occurs iff both shapes match and the username (password, after a non-empty username) is empty |
| `DnsOMatic.New` | internal/settings/providers/dnsomatic/provider.go:33-56 | a decode error is returned as is; a provider is returned iff both credentials are non-empty and shape-matched, it is validated, and it holds the supplied domain, host, IP version, credentials, mode and matcher unchanged |
| `DnsOMatic.NewReportsValidationError` | internal/settings/providers/dnsomatic/provider.go:52-54 | New fails with exactly the error isValid reports |
| `DnsOMatic.BuildQuery` | internal/settings/providers/dnsomatic/provider.go:113-125 | the successive Set calls, including the overwrite of wildcard, build exactly the query Query describes |
| `DnsOMatic.BuildRequest` | internal/settings/providers/dnsomatic/provider.go:107-126 | the request goes to https://updates.dnsomatic.com/nic/update with the provider's username and password as user info and the query of Query |
| `DnsOMatic.QueryMyIP` | internal/settings/providers/dnsomatic/provider.go:114-116 | the query contains myip iff the vendor is not asked to pick the IP, and then its value is the requested IP's string form |
| `DnsOMatic.QueryWildcard` | internal/settings/providers/dnsomatic/provider.go:117-123 | for host `*`, wildcard is ON and hostname is the domain; otherwise wildcard is NOCHG and hostname is BuildURLQueryHostname(host, domain) |
| `DnsOMatic.QueryKeys` | internal/settings/providers/dnsomatic/provider.go:113-125 | mx and backmx are NOCHG, and the keys are exactly hostname, wildcard, mx and backmx, plus myip when it is sent |
| `DnsOMatic.Update` | internal/settings/providers/dnsomatic/provider.go:105-188 | a transport error is returned as is; otherwise the result is the classification of the response to exactly the request BuildRequest describes |
| `DnsOMatic.ReadFailureFirst` | internal/settings/providers/dnsomatic/provider.go:140-143 | a body read failure yields the unmarshal-response error whatever the status |
| `DnsOMatic.BadStatusAlwaysFails` | internal/settings/providers/dnsomatic/provider.go:146-149 | any status other than 200 yields the bad-status error with that code and the body, whatever the body |
| `DnsOMatic.GoodBodyWithStatus204` | internal/settings/providers/dnsomatic/provider.go:146-149 | `good 1.2.3.4` with status 204 fails with BadHTTPStatus(204, body) |
| `DnsOMatic.FailureWords` | internal/settings/providers/dnsomatic/provider.go:151-162 | with status 200, nohost and notfqdn give hostname-not-exists, badauth auth, badagent banned user agent, abuse abuse, dnserr and 911 the DNS server-side error carrying the body |
| `DnsOMatic.FailureWordsOnlyOnExactBody` | internal/settings/providers/dnsomatic/provider.go:151-162 | the five vendor-classified errors occur iff the status is 200 and the whole body equals a failure word |
| `DnsOMatic.FailureWordWithSuffixIsNotFailure` | internal/settings/providers/dnsomatic/provider.go:151-166 | `badauth good` is not the auth error: it contains `good` and goes on to IP extraction |
| `DnsOMatic.UnknownResponseIff` | internal/settings/providers/dnsomatic/provider.go:164-166 | the unknown-response error occurs iff the status is 200 and the body is no failure word and contains neither `nochg` nor `good` |
| `DnsOMatic.ExtractionFailures` | internal/settings/providers/dnsomatic/provider.go:168-186 | for an accepted body, no candidate of the requested family gives no-IP, an unparsable first candidate gives malformed-IP with that candidate, and a parsed IP unequal to the requested one (when it is sent) gives mismatch with its string form |
| `DnsOMatic.NochgWithoutIP` | internal/settings/providers/dnsomatic/provider.go:164-178 | `nochg` with status 200 and no IP literal of the requested family gives the no-IP error |
| `DnsOMatic.SuccessIff` | internal/settings/providers/dnsomatic/provider.go:146-187 | success iff status 200, the body is no failure word and contains `nochg` or `good`, the first candidate of the requested family parses, and it equals the requested IP unless the vendor picks the IP; the IP returned is that parsed first candidate |
| `DnsOMatic.SuccessReturnsRequestedIP` | internal/settings/providers/dnsomatic/provider.go:184-187 | when the IP is sent, every success returns an IP equal to the requested one |

## Left out

- The regex engine: `regexp.Compile` and `MatchString` are not modelled. Each pattern's language is stated as a predicate. Compilation is a parameter that yields an optional error.
- Runes and bytes: Go strings are UTF-8 bytes and the patterns match runes. Here both are Dafny characters, and invalid UTF-8 is not modelled.
- JSON decoding in `New` (provider.go:35-42) is not modelled. `New` takes the decoded username, password and provider-IP flag, or the decoder's error.
- The HTTP exchange is an abstract function:
  - `http.NewRequestWithContext`, whose error cannot arise for this fixed GET URL given a non-nil context, is not modelled;
  - the user-agent header, `client.Do`, cancellation and closing the body are inside the abstract function;
  - its result is a response, or a transport error that is returned as is.
- URL encoding: `url.UserPassword`, `values.Encode` and `u.String()` are not modelled. The request is a record whose query is a map from key to value.
- These calls are parameters with no properties assumed: `verification.SearchIPv4/SearchIPv6`, `net.ParseIP`, `To4`, `Equal`, `String`, `utils.BuildURLQueryHostname` and the two `common.Matcher` predicates.
- Error wrapping: the `fmt.Errorf` message texts are not modelled. Each error is a constructor carrying the values the message holds.
- Presentation and getters (provider.go:72-103): `String`, `Domain`, `Host`, `IPVersion`, `Proxied`, `BuildDomainName` and `HTML` only expose or format fields, and none is used by the logic above.
