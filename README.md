# gamedig-web request core, modelled in Dafny

The service exposes `GET /query/:type?host=…`. It turns the query string into
options for the GameDig game-server query library and returns the library's
JSON answer. The model covers the logic that `index.ts` implements itself:

- **Host/port parsing** (`parseHostAndPort`): `HostPort.ParseHostAndPort` trims
  the input. It then tries the bracketed form `[literal]:d{1,5}` and then a
  split at the last colon when one to five ASCII digits follow it. Otherwise
  the whole trimmed string is the host. The regular expressions are written as
  explicit character predicates (`Text.IsDigit`, `Text.IsPortDigits`,
  `Text.IndexOf`, `Text.LastIndexOf`).
- **Endpoint resolution** (`resolveEndpoint`): `Resolver.ResolveEndpoint` is a
  pure decision function. The DNS answers are an oracle value `Resolver.Dns`:
  the outcome of `resolveSrv` for each name, and whether `lookup` finds an
  address for each name. The SRV attempt is a separate function,
  `Resolver.TrySrv`. It returns the first record or nothing, so SRV problems
  can never fail a request.
- **The handler body**: `Handler.HandleQuery` makes the same decisions as the
  code, in the same order:
  - user-port choice (`Handler.UserPort`);
  - the `host_type_missing` check;
  - resolution, mapping a failure to `host_unreachable`;
  - the options loop (`Handler.BuildOptions`, a `for` loop that updates a map),
    specified by the order-free description `Handler.OptionsFor`;
  - the call to the query library, an oracle that answers or throws, mapping a
    throw to `query_failed`;
  - removing `raw` from the answer unless `?raw=` is `true`/`1`.

Modules: `Wrappers` (Option), `Text` (string primitives), `HostPort`,
`Resolver`, `Handler`.

The model keeps these behaviours of the code:
- The bracketed form returns the literal *without* its brackets
  (index.ts:84).
- Ports up to 99999 are accepted, with no 65535 bound (index.ts:92-93).
- `"::1"` parses as host `":"` with port 1, and `"fe80::1"` as host `"fe80:"`
  with port 1 (index.ts:88-95).
- `"foo :80"` keeps the space in the host (index.ts:94).
- In `parseHostAndPort`, the `Number.isFinite` fallbacks (index.ts:84, 95)
  can never apply, because one to five digits always give a finite number.
  The model returns the port in both branches.
- The user port is chosen with `Number.isFinite` (index.ts:127-131), but the
  options loop copies `port` whenever `Number` is not NaN (index.ts:160-161).
  A `port` of `Infinity` is therefore skipped as a user port and then copied
  into the options anyway (`Handler.InfinitePortOverrides`).

## Model

| member | source | states |
|---|---|---|
| `Text.IsWhitespace` | index.ts:78 | the characters `trim` removes; among ASCII exactly TAB, LF, VT, FF, CR and space, and never a digit, `:`, `[` or `]` |
| `Text.TrimStart` | index.ts:78 | the result is the suffix of the input left after dropping leading whitespace; everything dropped is whitespace and the result does not start with whitespace |
| `Text.TrimEnd` | index.ts:78 | the result is the prefix of the input left after dropping trailing whitespace; everything dropped is whitespace and the result does not end with whitespace |
| `Text.Trim` | index.ts:78 | the trimmed string has no whitespace at either end and is no longer than the input |
| `Text.TrimFixpoint` | index.ts:78 | `trim` leaves a string unchanged exactly when it has no whitespace at either end |
| `Text.TrimIdempotent` | index.ts:78 | trimming twice equals trimming once |
| `Text.DigitsValue` | index.ts:93 | the decimal value of an n-digit string is below 10^n |
| `Text.PortDigitsBound` | index.ts:92 | a port of one to five digits is at most 99999 |
| `Text.LastIndexOf` | index.ts:88 | the result is -1 when the character is absent; otherwise it holds the character and no later index does |
| `Text.IndexOf` | index.ts:81 | the result is -1 when the character is absent; otherwise it holds the character and no earlier index does (how `[^\]]+` ends at the first `]`) |
| `Text.Lower` | index.ts:165 | `toLowerCase` on ASCII: same length, no upper-case ASCII letter left, every other character unchanged, each upper-case letter replaced by its lower-case form |
| `Text.LowerMatches` | index.ts:165 | lower-casing a string gives a lower-case word exactly when the string spells that word in any mix of cases |
| `HostPort.MatchBracketed` | index.ts:81 | a match is always of the form `[h]:d` with `h` non-empty and free of `]`, and `d` one to five digits |
| `HostPort.MatchBracketedComplete` | index.ts:81 | every string of that form is matched, with exactly those two groups |
| `HostPort.ParseHostAndPort` | index.ts:77-100 | any returned port is at most 99999; without a port the host is the whole trimmed input |
| `HostPort.ParseTrimmed` | index.ts:80-99 | on an already trimmed string: any port is at most 99999, and without a port the host is the string itself |
| `HostPort.ParseBare` | index.ts:78 | an input without whitespace at either end is parsed as it is |
| `HostPort.ParseBracketed` | index.ts:81-84 | a trimmed input `[X]:D` gives host `X` without brackets and port value(D) |
| `HostPort.ParseRoundTrip` | index.ts:88-96 | for `h` that does not start with `[` or with whitespace, and digits `d` (1–5), parsing `h + ":" + d` gives back `h` and value(d), because the split is at the last colon |
| `HostPort.ParseNoPort` | index.ts:89-99 | no port is returned exactly when the bracketed form does not match and the text after the last colon is not 1–5 digits; the host is then the trimmed input |
| `HostPort.NoColonNoPort` | index.ts:88-89 | a trimmed input without a colon gives itself as host and no port |
| `HostPort.LoopbackWithoutBrackets` | index.ts:88-96 | `"::1"` gives host `":"` and port 1 |
| `HostPort.BareIpv6SplitsAtLastColon` | index.ts:88-96 | `"fe80::1"` gives host `"fe80:"` and port 1 |
| `HostPort.SpaceBeforeColonKept` | index.ts:94 | `"foo :80"` gives host `"foo "` and port 80 |
| `HostPort.PortAbove65535Accepted` | index.ts:92-95 | `"mc.example.com:99999"` gives port 99999 |
| `HostPort.BracketedLoopback` | index.ts:80-84 | `"[::1]:25565"` gives host `"::1"` and port 25565 |
| `Resolver.SrvPrefix` | index.ts:31-33 | a prefix exists exactly for `minecraft`, and it is `_minecraft._tcp` |
| `Resolver.TrySrv` | index.ts:44-64 | a record is returned only for a type with a prefix when `resolveSrv(prefix.host)` gives a non-empty list whose first target resolves, and it is that first record; otherwise the lookup failed, was empty, or its first target did not resolve |
| `Resolver.ResolveEndpoint` | index.ts:37-75 | a user port always wins and then `portFromSrv` is false; `portFromSrv` holds exactly when an SRV record was usable and there is no user port, with host and port then taken from that record; the result is `HostUnreachable` exactly when no SRV record was usable and the original host does not resolve; after a fallback the endpoint is the original host with the user port |
| `Resolver.NoPrefixIgnoresSrv` | index.ts:44-45 | for a type without a prefix the outcome does not depend on the SRV answers: the original host, resolved or unreachable |
| `Resolver.FirstRecordWins` | index.ts:48-60 | when the first SRV record's target resolves, it is used whatever records follow it |
| `Handler.WhitelistFacts` | index.ts:9-28 | `type`, `host` and `raw` are in neither whitelist; `port` is numeric only |
| `Handler.HostParam` | index.ts:109-111 | a host is parsed exactly when `host` is present and not empty (a falsy empty string is skipped), and it is `parseHostAndPort` of that value |
| `Handler.HostOrTypeMissing` | index.ts:113 | a missing type, a missing host, and a host made only of whitespace are rejected; a request that passes has a type and a non-empty parsed host |
| `Handler.Find` | index.ts:151 | a key is found exactly when it is among the query's keys, and the value returned is paired with it in the query |
| `Handler.ParseNumber` | index.ts:160 | a blank string gives 0; the result is infinite exactly for `Infinity`, `+Infinity` or `-Infinity` after trimming; NaN comes only from non-blank text that is not all digits |
| `Handler.ParseNumberDigits` | index.ts:124 | a non-empty digit string gives its decimal value |
| `Handler.InfinityIsInfinite` | index.ts:124 | `Number("Infinity")` is a positive infinity: not NaN, and not finite |
| `Handler.CoerceBool` | index.ts:165-170 | true exactly for `true` in any case or `1`; false exactly for `false` in any case or `0`; otherwise no value |
| `Handler.Coerce` | index.ts:159-171 | only whitelisted keys give a value; a numeric key is written exactly when `Number` is not NaN (infinities included), a boolean key exactly when the value coerces, each with that value |
| `Handler.Forwarded` | index.ts:152-153 | `host` and `raw` are never copied; `port` is copied exactly when the endpoint port did not come from SRV; every other whitelisted key is always copied |
| `Handler.OptionsFor` | index.ts:144-172 | the options always hold `type` and the resolved host; only whitelisted keys are added, never `raw`; `port` is present when the endpoint has one or the query's port is not NaN and is forwarded; an SRV port is never overwritten; a whitelisted key whose value does not coerce stays absent; every copied value overrides the base options, and without one the endpoint port stays |
| `Handler.OverlayFacts` | index.ts:144-172 | the same facts for the base options overlaid with any map whose keys are exactly the entries that give a value |
| `Handler.CopiedMapFacts` | index.ts:151-172 | the copied entries are exactly the keys whose entry is forwarded and coerces, each with that value, and every one is whitelisted |
| `Handler.WrittenStep` | index.ts:151-172 | handling one more query entry whose key is new adds that key, with the coerced value, or leaves the map as it was |
| `Handler.BuildOptions` | index.ts:144-172 | the loop over the query entries builds exactly `OptionsFor`: the base options overlaid with every forwarded entry that coerces |
| `Handler.PortParam` | index.ts:122-125 | present exactly when the query has `port`, and then `Number` of its value |
| `Handler.UserPort` | index.ts:121-132 | the `port` parameter when `Number` makes it finite; otherwise (absent, NaN or infinite) the port parsed from `host`, if any |
| `Handler.SendRaw` | index.ts:179-180 | `raw` is kept exactly when the `raw` parameter is `true` in any case or `1` |
| `Handler.StripRaw` | index.ts:182-184 | the answer loses its `raw` field unless it was requested; every other field is kept with its value |
| `Handler.HandleQuery` | index.ts:107-195 | `host_type_missing` exactly when the type or the parsed host is empty or missing; otherwise `host_unreachable` exactly when resolution fails; otherwise the library is called with `OptionsFor`, a throw becomes `query_failed` with its message, and an answer is returned with `raw` removed unless requested, with nothing else changed |
| `Handler.UserPortReachesOptions` | index.ts:121-163 | unless the `port` parameter reads as an infinity, a user port ends up as the options' `port`, whatever SRV returned |
| `Handler.InfinitePortOverrides` | index.ts:121-163 | a `port` parameter that reads as an infinity is not the user port (the port in `host` is, if any), yet it becomes the options' `port` whenever SRV did not supply it |
| `Handler.SrvRecordReachesOptions` | index.ts:44-60 | without a user port, a usable SRV record's target and port become the options' host and port, and the `port` parameter cannot replace them |
| `Handler.EmptyHostRejected` | index.ts:110-115 | a `host` of the form `":" + digits` parses to an empty host and is rejected as missing |

## Left out

- HTTP plumbing: Express routing, the path parameter extraction, the 404
  fallback, `app.listen`, writing JSON and status codes to the socket, and
  logging. The response is a value (`Handler.Response`) carrying the status,
  kind and message.
- DNS itself: `resolveSrv` and `lookup` are the oracle `Resolver.Dns`, so no
  timeouts, record caching or resolver errors beyond "fails".
- `GameDig.query`: an oracle from options to an answer or a thrown message.
  Its answer is always an object, so the `typeof result === "object"` guard
  has no other case.
- `Handler.ParseNumber`: JavaScript `Number` is modelled only for optionally
  signed decimal integers and `Infinity` with an optional sign, with
  surrounding whitespace, plus blank strings (which give 0). Fractions,
  exponents, and hexadecimal, octal and binary literals are treated as NaN.
  Numbers are unbounded integers, not doubles, so a digit string too long
  for a double stays finite instead of becoming `Infinity`.
- `Handler.UserPortReachesOptions`: its premise excludes only a `port`
  parameter that spells `Infinity`. A `port` such as `1e400`, or a digit
  string over 309 digits long, is also infinite in JavaScript and would also
  override the user port. The model reads the first as NaN and the second
  as a finite number.
- `Text.Lower`: `toLowerCase` is modelled on ASCII letters only. It is only
  compared against `true`, `false`, `1` and `0`.
- Repeated query parameters: Express turns them into arrays and the code takes
  the first element. The model takes one value per key and requires distinct
  keys (`Handler.KeysDistinct`). It does not model a repeated `host`, which
  the source would pass to `trim` as an array. It also does not model
  `String(array)` for a repeated `raw`, or nested query objects.
- `srvByType` is a plain object, so keys inherited from `Object.prototype`
  (such as `constructor`) also give a truthy "prefix". The model treats every
  type except `minecraft` as having no prefix.
- async/await and concurrency between requests: no state is shared.
