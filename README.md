# Authorization attribute converters

A model of the four stateless converters of Istio's authorization plugin
(`pilot/pkg/networking/plugin/authz`). They turn text from an authorization
policy into the structured values the proxy's access-control filter takes:

- `stringMatch(s, list)`: list membership where an entry is an exact
  string, the lone `*`, `prefix*` or `*suffix` (module `ListMatch`);
- `convertToCidr(v)`: an address or CIDR literal to an address prefix and a
  prefix length (section 3.1 of RFC 4632, section 2.3 of RFC 4291) (modules
  `AddressRange` and `IpAddress`);
- `convertToPort(v)`: a decimal port literal to a 16-bit port (section 3.1
  of RFC 793) (module `PortParse`);
- `convertToHeaderMatcher(k, v)`: a header value pattern to an exact or an
  anchored regex matcher (module `HeaderMatch`).

The implementation file `util.go` is not part of this model. The behaviour
comes from the test tables of `util_test.go`. Each table row is a lemma. The
general contracts those rows illustrate are lemmas and `ensures` clauses.
Errors are values: `Errors.Result` carries either the converted value or an
`Error` with its kind (`InvalidCidrRange`, `InvalidIpAddress`, `InvalidPort`)
and the offending literal. `Errors.MessagePrefix` gives the start of the
message that callers match on. `Text` holds the string helpers: splitting on
a separator with its join inverse, and decimal digit strings.

Behaviour chosen where the tests are silent:

- With a `/`, the prefix length is checked before the address. So
  `1921/ab` is an invalid cidr range, not an invalid address.
- The address text is returned as written.
- A value pattern counts as a wildcard pattern when it starts or ends with
  `*`. A `*` inside the value only leaves it an exact match.

## Model

| member | source | states |
|---|---|---|
| `ListMatch.StringMatch` | pilot/pkg/networking/plugin/authz/util_test.go:27-61 | the result is true exactly when some entry accepts the candidate verbatim, as `*`, as `prefix*` or as `*suffix` |
| `ListMatch.ExactEntryMatches` | pilot/pkg/networking/plugin/authz/util_test.go:34-37 | a list holding the candidate verbatim accepts it |
| `ListMatch.WildcardEntryMatches` | pilot/pkg/networking/plugin/authz/util_test.go:38-41 | a list holding the lone `*` accepts every candidate |
| `ListMatch.PrefixEntryMatches` | pilot/pkg/networking/plugin/authz/util_test.go:42-45 | an entry `t*` accepts every candidate starting with `t` |
| `ListMatch.SuffixEntryMatches` | pilot/pkg/networking/plugin/authz/util_test.go:46-49 | an entry `*t` accepts every candidate ending with `t` |
| `ListMatch.NoWildcardIsMembership` | pilot/pkg/networking/plugin/authz/util_test.go:50-53 | with no `*` in any entry the result is plain membership, in both directions, so a substring does not match |
| `ListMatch.StringMatchAppend` | pilot/pkg/networking/plugin/authz/util_test.go:56-57 | the result on a concatenated list is the OR of the results on its parts |
| `ListMatch.OrderIrrelevant` | pilot/pkg/networking/plugin/authz/util_test.go:56-57 | lists with the same entries in any order give the same result |
| `ListMatch.ExactMatchRow` | pilot/pkg/networking/plugin/authz/util_test.go:35-36 | "product page" matches ["review page", "product page"] |
| `ListMatch.WildcardMatchRow` | pilot/pkg/networking/plugin/authz/util_test.go:39-40 | "product page" matches ["review page", "*"] |
| `ListMatch.PrefixMatchRow` | pilot/pkg/networking/plugin/authz/util_test.go:43-44 | "product page" matches ["review page", "product*"] |
| `ListMatch.SuffixMatchRow` | pilot/pkg/networking/plugin/authz/util_test.go:47-48 | "product page" matches ["review page", "*page"] |
| `ListMatch.NotMatchedRow` | pilot/pkg/networking/plugin/authz/util_test.go:51-52 | "product page" does not match ["review page", "xyz product page"] |
| `AddressRange.ConvertToCidr` | pilot/pkg/networking/plugin/authz/util_test.go:63-128 | an accepted range has an IPv4 or IPv6 address that is the literal's own leading text; an error carries the literal and is a cidr or address error, never a port error |
| `AddressRange.WithoutSlash` | pilot/pkg/networking/plugin/authz/util_test.go:93-113 | without `/`: accepted exactly when the text is IPv4 (length 32) or IPv6 (length 128), address unchanged, else an invalid ip address error |
| `AddressRange.WithOneSlash` | pilot/pkg/networking/plugin/authz/util_test.go:76-92 | with one `/`: a length that is not a non-empty digit string (so also a negative one) is an invalid cidr range; then a non-IP address is an invalid ip address; otherwise the address text and the number are returned unchanged |
| `AddressRange.ManySlashes` | pilot/pkg/networking/plugin/authz/util_test.go:70-74 | two or more `/` always give an invalid cidr range error |
| `AddressRange.Reparse` | pilot/pkg/networking/plugin/authz/util_test.go:85-92 | a converted range written back as `address/length` converts to the same range |
| `AddressRange.TwoSlashesRow` | pilot/pkg/networking/plugin/authz/util_test.go:70-74 | "192.168.0.0//16" is an invalid cidr range, and its message starts "invalid cidr range" |
| `AddressRange.NonNumericLengthRow` | pilot/pkg/networking/plugin/authz/util_test.go:75-79 | "192.168.0.0/ab" is an invalid cidr range, and its message starts "invalid cidr range" |
| `AddressRange.NegativeLengthRow` | pilot/pkg/networking/plugin/authz/util_test.go:80-84 | "192.168.0.0/-16" is an invalid cidr range, and its message starts "invalid cidr range" |
| `AddressRange.ValidRangeRow` | pilot/pkg/networking/plugin/authz/util_test.go:85-92 | "192.168.0.0/16" gives address "192.168.0.0" and length 16 |
| `AddressRange.InvalidAddressRow` | pilot/pkg/networking/plugin/authz/util_test.go:93-97 | "19216800" is an invalid ip address, and its message starts "invalid ip address" |
| `AddressRange.IPv4AddressRow` | pilot/pkg/networking/plugin/authz/util_test.go:98-105 | "192.168.0.0" gives length 32, address unchanged |
| `AddressRange.IPv6AddressRow` | pilot/pkg/networking/plugin/authz/util_test.go:106-113 | "2001:abcd:85a3::8a2e:370:1234" gives length 128, address unchanged |
| `AddressRange.IPv6LiteralIsIPv6` | pilot/pkg/networking/plugin/authz/util_test.go:108-110 | the tested IPv6 literal, with its `::`, is recognised as IPv6 |
| `IpAddress.AddressHasNoSlash` | pilot/pkg/networking/plugin/authz/util_test.go:85-113 | an address literal never contains `/`, and no text is both IPv4 and IPv6 |
| `IpAddress.FormatIPv4IsIPv4` | pilot/pkg/networking/plugin/authz/util_test.go:98-105 | four values in 0..255 written as a dotted quad are recognised as IPv4 |
| `PortParse.ConvertToPort` | pilot/pkg/networking/plugin/authz/util_test.go:130-171 | accepted exactly when the literal is a non-empty digit string of value at most 65535, returning that value; otherwise an invalid port error carrying the literal |
| `PortParse.PortRoundTrip` | pilot/pkg/networking/plugin/authz/util_test.go:152-156 | every port written in decimal converts back to itself |
| `PortParse.OutOfRangeRejected` | pilot/pkg/networking/plugin/authz/util_test.go:147-151 | a number above 65535 is an invalid port |
| `PortParse.SignedRejected` | pilot/pkg/networking/plugin/authz/util_test.go:137-141 | a literal starting with `-` is an invalid port |
| `PortParse.ErrorMessageNamesLiteral` | pilot/pkg/networking/plugin/authz/util_test.go:161-166 | every port error message starts with `invalid port <literal>:` |
| `PortParse.NegativePortRow` | pilot/pkg/networking/plugin/authz/util_test.go:137-141 | "-80" fails with message start "invalid port -80:" |
| `PortParse.NonNumericPortRow` | pilot/pkg/networking/plugin/authz/util_test.go:142-146 | "xyz" fails with message start "invalid port xyz:" |
| `PortParse.PortTooLargeRow` | pilot/pkg/networking/plugin/authz/util_test.go:147-151 | "91234" fails with message start "invalid port 91234:" |
| `PortParse.ValidPortRow` | pilot/pkg/networking/plugin/authz/util_test.go:152-156 | "443" gives port 443 |
| `HeaderMatch.ConvertToHeaderMatcher` | pilot/pkg/networking/plugin/authz/util_test.go:173-210 | the header name is kept; the matcher is exact, with the value itself, exactly when the value has no `*` at either end; a regex matcher's pattern reads back as the value's literal middle |
| `HeaderMatch.LiteralMiddle` | pilot/pkg/networking/plugin/authz/util_test.go:194-198 | the middle is a slice of the pattern with only `*` around it and no `*` at its own ends |
| `HeaderMatch.ContainsRegex` | pilot/pkg/networking/plugin/authz/util_test.go:197-198 | the built `^.*<escaped m>.*$` pattern reads back as the literal it was built from |
| `HeaderMatch.UnquoteQuoteMeta` | pilot/pkg/networking/plugin/authz/util_test.go:197-198 | escaping the middle loses nothing: removing the escapes gives it back |
| `HeaderMatch.QuoteMetaUnchanged` | pilot/pkg/networking/plugin/authz/util_test.go:194-198 | escaping leaves text unchanged exactly when it has no regex metacharacter |
| `HeaderMatch.WrappedPattern` | pilot/pkg/networking/plugin/authz/util_test.go:191-201 | `*m*` gives the regex built from `m`, which is `^.*m.*$` verbatim when `m` has no metacharacter |
| `HeaderMatch.ExactMatchRow` | pilot/pkg/networking/plugin/authz/util_test.go:180-190 | ":path", "/productpage" gives an exact matcher on "/productpage" |
| `HeaderMatch.RegexMatchRow` | pilot/pkg/networking/plugin/authz/util_test.go:191-201 | ":path", "*/productpage*" gives the regex "^.*/productpage.*$" |
| `Errors.MessagePrefixesDistinguishKinds` | pilot/pkg/networking/plugin/authz/util_test.go:118-166 | a message of one kind, whatever cause text follows its start, never starts with the message start of another kind, so matching on the start tells them apart |

## Left out

- The Go test drivers (the loops over the cases, `t.Errorf`, `reflect.DeepEqual`, the prefix check on error text) are not modelled; each case is a lemma instead.
- The protobuf wrapper types of the Envoy API are replaced with plain datatypes. Serialising them to proxy configuration is out of scope.
- `IpAddress.IsIPv4` and `IpAddress.IsIPv6` are a simplified recognizer, not Go's `net.ParseIP`. IPv4 fields have at most three digits. IPv6 with an embedded IPv4 tail and zone suffixes are not accepted.
- `AddressRange.ConvertToCidr`: no upper bound on the prefix length is checked (so `/33` on IPv4 is accepted), because no test fixes one. The length is an unbounded `nat`, not the proxy's 32-bit field.
- `AddressRange.ConvertToCidr`: the address is not put in canonical form; the tests show it passed through unchanged.
- `PortParse.ConvertToPort`: any digit string whose value exceeds 65535, however large, gives one InvalidPort error carrying the literal; the tests pin only 91234. The cause text after the message start is not modelled.
- `Errors.MessagePrefix`: only the stable start of each message is modelled, not the underlying parse error that follows it.
- `HeaderMatch.ConvertToHeaderMatcher`: its ensures also fix patterns with a `*` on one side only: the result is a regex that reads back as the stripped middle. This follows the general strip-and-anchor rule, and no test covers it.
- `HeaderMatch.QuoteMeta` escapes the regex metacharacters with a backslash, but it is not claimed to equal Go's `regexp.QuoteMeta` on every input.
