/**
 * The body of the `GET /query/:type` handler without its I/O: choosing the
 * user port, rejecting a missing type or host, building the query options from
 * the whitelisted parameters, and shaping the library's answer.
 */
module Handler {
  import opened Wrappers
  import opened Text
  import opened HostPort
  import opened Resolver

  /** Whitelisted numeric options. */
  const NumericKeys: set<string> :=
    {"port", "maxRetries", "socketTimeout", "attemptTimeout", "ipFamily"}

  /** Whitelisted boolean options. */
  const BooleanKeys: set<string> :=
    {"givenPortOnly", "debug", "requestRules", "requestPlayers", "requestRulesRequired",
     "requestPlayersRequired", "stripColors", "portCache", "noBreadthOrder", "checkOldIDs"}

  /** Neither `type`, `host` nor `raw` is whitelisted; `port` is numeric only. */
  lemma WhitelistFacts()
    ensures "type" !in NumericKeys && "type" !in BooleanKeys
    ensures "host" !in NumericKeys && "host" !in BooleanKeys
    ensures "raw" !in NumericKeys && "raw" !in BooleanKeys
    ensures "port" in NumericKeys && "port" !in BooleanKeys
  {
  }

  /** A JavaScript number that is not NaN, as far as the model reads numbers:
      a finite integer, or an infinity with its sign. */
  datatype Number = Finite(value: int) | Infinite(negative: bool)

  /** No whitelisted key is one the handler sets or strips itself. */
  lemma NotWhitelisted(k: string)
    requires k in NumericKeys + BooleanKeys
    ensures k != "type" && k != "host" && k != "raw"
  {
  }

  /** A value placed in the query options. */
  datatype Value = Str(s: string) | Num(n: Number) | Bool(b: bool)

  type Options = map<string, Value>

  /** The parsed query string, in the order `Object.entries` lists it: one
      entry per key, each with its (first) value. */
  type Query = seq<(string, string)>

  predicate KeysDistinct(q: Query) {
    forall i, j :: 0 <= i < j < |q| ==> q[i].0 != q[j].0
  }

  function KeysOf(q: Query): set<string> {
    set i | 0 <= i < |q| :: q[i].0
  }

  /** `req.query[key]`. */
  function Find(q: Query, key: string): (r: Option<string>)
    ensures r.None? <==> key !in KeysOf(q)
    ensures r.Some? ==> exists i :: 0 <= i < |q| && q[i] == (key, r.value)
  {
    if q == [] then None
    else
      var r := if q[0].0 == key then Some(q[0].1) else Find(q[1..], key);
      assert KeysOf(q) == {q[0].0} + KeysOf(q[1..]) by {
        forall k | k in KeysOf(q) ensures k in {q[0].0} + KeysOf(q[1..]) {
          var i :| 0 <= i < |q| && q[i].0 == k;
          if i > 0 { assert q[1..][i - 1].0 == k; }
        }
        forall k | k in KeysOf(q[1..]) ensures k in KeysOf(q) {
          var i :| 0 <= i < |q[1..]| && q[1..][i].0 == k;
          assert q[i + 1].0 == k;
        }
      }
      assert r.Some? ==> exists i :: 0 <= i < |q| && q[i] == (key, r.value) by {
        if r.Some? && q[0].0 != key {
          var i :| 0 <= i < |q[1..]| && q[1..][i] == (key, r.value);
          assert q[i + 1] == (key, r.value);
        }
      }
      r
  }

  /** Appending an entry with a new key only adds that key. */
  lemma {:induction false} FindAppend(p: Query, x: (string, string), key: string)
    ensures Find(p + [x], key) == if Find(p, key).Some? then Find(p, key)
                                  else if x.0 == key then Some(x.1) else None
  {
    if p != [] {
      assert (p + [x])[1..] == p[1..] + [x];
      FindAppend(p[1..], x, key);
    } else {
      assert (p + [x])[1..] == [];
    }
  }

  /** JavaScript `Number(s)` restricted to optionally signed decimal integers
      and the infinities: surrounding whitespace is ignored, a blank string is 0,
      `Infinity` with an optional sign is infinite, and every other string is
      NaN (`None`). */
  function ParseNumber(s: string): (r: Option<Number>)
    // a blank string is 0
    ensures Trim(s) == [] ==> r == Some(Finite(0))
    // NaN comes only from non-blank text that is not all digits
    ensures r.None? ==> Trim(s) != [] && !AllDigits(Trim(s))
    // the result is infinite exactly for a signed or unsigned `Infinity`
    ensures r.Some? && r.value.Infinite? <==> Trim(s) == "Infinity" || Trim(s) == "+Infinity" || Trim(s) == "-Infinity"
  {
    var t := Trim(s);
    if t == [] then Some(Finite(0))
    else if t == "Infinity" || t == "+Infinity" then Some(Infinite(false))
    else if t == "-Infinity" then Some(Infinite(true))
    else if (t[0] == '+' || t[0] == '-') && |t| > 1 && AllDigits(t[1..]) then
      var magnitude: int := DigitsValue(t[1..]);
      Some(Finite(if t[0] == '-' then -magnitude else magnitude))
    else if AllDigits(t) then Some(Finite(DigitsValue(t)))
    else None
  }

  /** A plain digit string is read as its decimal value. */
  lemma ParseNumberDigits(s: string)
    requires s != [] && AllDigits(s)
    ensures ParseNumber(s) == Some(Finite(DigitsValue(s)))
  {
    assert Bare(s);
    TrimFixpoint(s);
    assert s[0] != 'I' && s[0] != '+' && s[0] != '-';
  }

  /** The word `Infinity` is a number, and an infinite one: `Number.isNaN`
      rejects it but `Number.isFinite` does too. */
  lemma InfinityIsInfinite(s: string)
    requires s == "Infinity"
    ensures ParseNumber(s) == Some(Infinite(false))
  {
    assert Bare(s);
    TrimFixpoint(s);
  }

  /** The boolean coercion: the lower-cased value `true`/`1` is true,
      `false`/`0` is false, anything else is no value. `true` and `false` may
      be written in any case; `1` and `0` only as themselves. */
  function CoerceBool(s: string): (r: Option<bool>)
    ensures r == Some(true) <==> SpellsIgnoringCase(s, "true") || s == "1"
    ensures r == Some(false) <==> SpellsIgnoringCase(s, "false") || s == "0"
  {
    LowerMatches(s, "true");
    LowerMatches(s, "false");
    LowerMatches(s, "1");
    LowerMatches(s, "0");
    assert SpellsIgnoringCase(s, "1") <==> s == "1";
    assert SpellsIgnoringCase(s, "0") <==> s == "0";
    var v := Lower(s);
    if v == "true" || v == "1" then Some(true)
    else if v == "false" || v == "0" then Some(false)
    else None
  }

  /** What one whitelisted entry contributes: a number for a numeric key that
      is not NaN, a boolean for a boolean key that coerces, otherwise nothing. */
  function Coerce(key: string, raw: string): (r: Option<Value>)
    // only whitelisted keys produce a value
    ensures r.Some? ==> key in NumericKeys || key in BooleanKeys
    // a numeric key is written exactly when `Number` is not NaN, infinities included
    ensures key in NumericKeys ==>
              (r.Some? <==> ParseNumber(raw).Some?) && (r.Some? ==> r.value == Num(ParseNumber(raw).value))
    // a boolean key is written exactly when the value coerces
    ensures key in BooleanKeys && key !in NumericKeys ==>
              (r.Some? <==> CoerceBool(raw).Some?) && (r.Some? ==> r.value == Bool(CoerceBool(raw).value))
  {
    if key in NumericKeys then
      match ParseNumber(raw)
      case Some(n) => Some(Num(n))
      case None => None
    else if key in BooleanKeys then
      match CoerceBool(raw)
      case Some(b) => Some(Bool(b))
      case None => None
    else None
  }

  /** The loop's skip conditions: `host` and `raw` are never copied, and `port`
      is not copied when the endpoint's port came from SRV. */
  predicate Forwarded(key: string, ep: Endpoint)
    ensures Forwarded(key, ep) ==> key != "host" && key != "raw"
    ensures key == "port" ==> (Forwarded(key, ep) <==> !ep.portFromSrv)
    // every whitelisted key other than `port` is always forwarded
    ensures key in NumericKeys + BooleanKeys && key != "port" ==> Forwarded(key, ep)
  {
    WhitelistFacts();
    key != "host" && key != "raw" && !(key == "port" && ep.portFromSrv)
  }

  /** The value the loop writes for one entry, if any. */
  function Copy(ep: Endpoint, key: string, raw: string): Option<Value> {
    if Forwarded(key, ep) then Coerce(key, raw) else None
  }

  /** The value the loop writes for `key`, if any. */
  function Copied(q: Query, ep: Endpoint, key: string): Option<Value> {
    match Find(q, key)
    case Some(raw) => Copy(ep, key, raw)
    case None => None
  }

  /** The entries of `q` that `write` turns into a value, keyed by name. */
  function Written(q: Query, write: (string, string) -> Option<Value>): Options {
    map k | k in KeysOf(q) && write(k, Find(q, k).value).Some? :: write(k, Find(q, k).value).value
  }

  function Writer(ep: Endpoint): (string, string) -> Option<Value> {
    (key, raw) => Copy(ep, key, raw)
  }

  /** Every entry the loop copies, keyed by option name. */
  function CopiedMap(q: Query, ep: Endpoint): Options {
    Written(q, Writer(ep))
  }

  /** The options before the loop: type, resolved host, and the port if there is one. */
  function BaseOptions(queryType: string, ep: Endpoint): Options {
    map["type" := Str(queryType), "host" := Str(ep.host)]
      + if ep.port.Some? then map["port" := Num(Finite(ep.port.value))] else map[]
  }

  /** The options handed to the query library: the base options overlaid with
      every forwarded entry whose value coerces. */
  function OptionsFor(queryType: string, ep: Endpoint, q: Query): (opts: Options)
    // type and the resolved host are always present and never overwritten
    ensures "type" in opts && opts["type"] == Str(queryType)
    ensures "host" in opts && opts["host"] == Str(ep.host)
    // nothing outside the whitelist is forwarded, and never `raw`
    ensures forall k :: k in opts ==> k == "type" || k == "host" || k in NumericKeys || k in BooleanKeys
    ensures "raw" !in opts
    // a port is present if the endpoint has one or the query's `port` parses and is forwarded
    ensures "port" in opts <==> ep.port.Some? || Copied(q, ep, "port").Some?
    // an SRV port is never overwritten from the query string
    ensures ep.portFromSrv && ep.port.Some? ==> opts["port"] == Num(Finite(ep.port.value))
    // a whitelisted key whose value does not coerce is left as it was
    ensures forall k :: k in NumericKeys + BooleanKeys && k != "port" ==>
              (k in opts <==> Copied(q, ep, k).Some?)
    // a copied value overrides the base options, including a user port
    ensures forall k :: Copied(q, ep, k).Some? ==> k in opts && opts[k] == Copied(q, ep, k).value
    ensures ep.port.Some? && Copied(q, ep, "port").None? ==> opts["port"] == Num(Finite(ep.port.value))
  {
    CopiedMapFacts(q, ep);
    OverlayFacts(queryType, ep, CopiedMap(q, ep), k => Copied(q, ep, k));
    BaseOptions(queryType, ep) + CopiedMap(q, ep)
  }

  /** The facts of `OptionsFor`, for any map `copied` whose keys are those
      that `c` gives a value for. */
  lemma OverlayFacts(queryType: string, ep: Endpoint, copied: Options, c: string -> Option<Value>)
    requires forall k :: k in copied <==> c(k).Some?
    requires forall k :: k in copied ==> copied[k] == c(k).value
    requires forall k :: c(k).Some? ==> Forwarded(k, ep) && (k in NumericKeys || k in BooleanKeys)
    ensures var opts := BaseOptions(queryType, ep) + copied;
            && "type" in opts && opts["type"] == Str(queryType)
            && "host" in opts && opts["host"] == Str(ep.host)
            && (forall k :: k in opts ==> k == "type" || k == "host" || k in NumericKeys || k in BooleanKeys)
            && "raw" !in opts
            && ("port" in opts <==> ep.port.Some? || c("port").Some?)
            && (ep.portFromSrv && ep.port.Some? ==> opts["port"] == Num(Finite(ep.port.value)))
            && (forall k :: k in NumericKeys + BooleanKeys && k != "port" ==> (k in opts <==> c(k).Some?))
            && (forall k :: c(k).Some? ==> k in opts && opts[k] == c(k).value)
            && (ep.port.Some? && c("port").None? ==> opts["port"] == Num(Finite(ep.port.value)))
  {
    WhitelistFacts();
    var base := BaseOptions(queryType, ep);
    forall k | k in NumericKeys + BooleanKeys && k != "port"
      ensures k in base + copied <==> k in copied
    {
      NotWhitelisted(k);
    }
  }

  /** The copied entries are exactly the forwarded whitelisted keys whose value coerces. */
  lemma CopiedMapFacts(q: Query, ep: Endpoint)
    ensures forall k :: k in CopiedMap(q, ep) <==> Copied(q, ep, k).Some?
    ensures forall k :: k in CopiedMap(q, ep) ==> CopiedMap(q, ep)[k] == Copied(q, ep, k).value
    ensures forall k :: Copied(q, ep, k).Some? ==>
              Forwarded(k, ep) && (k in NumericKeys || k in BooleanKeys)
  {
  }

  /** Processing one more entry with a fresh key adds at most that key. */
  lemma WrittenStep(p: Query, x: (string, string), write: (string, string) -> Option<Value>)
    requires x.0 !in KeysOf(p)
    ensures Written(p + [x], write)
              == if write(x.0, x.1).Some?
                 then Written(p, write)[x.0 := write(x.0, x.1).value]
                 else Written(p, write)
  {
    var q := p + [x];
    assert KeysOf(q) == KeysOf(p) + {x.0} by {
      forall k | k in KeysOf(q) ensures k in KeysOf(p) + {x.0} {
        var i :| 0 <= i < |q| && q[i].0 == k;
        if i < |p| { assert p[i].0 == k; }
      }
      forall k | k in KeysOf(p) ensures k in KeysOf(q) {
        var i :| 0 <= i < |p| && p[i].0 == k;
        assert q[i].0 == k;
      }
      assert q[|p|].0 == x.0;
    }
    forall k ensures Find(q, k) == if k == x.0 then Some(x.1) else Find(p, k) {
      FindAppend(p, x, k);
    }
  }

  /** Updating an overlay updates its top layer. */
  lemma OverlayUpdate(base: Options, top: Options, k: string, v: Value)
    ensures (base + top)[k := v] == base + top[k := v]
  {
  }

  /** The loop of the handler that copies whitelisted query parameters into the options. */
  method BuildOptions(queryType: string, ep: Endpoint, q: Query) returns (opts: Options)
    requires KeysDistinct(q)
    ensures opts == OptionsFor(queryType, ep, q)
  {
    WhitelistFacts();
    opts := map["type" := Str(queryType), "host" := Str(ep.host)];
    if ep.port.Some? {
      opts := opts["port" := Num(Finite(ep.port.value))];
    }
    ghost var base := BaseOptions(queryType, ep);
    assert opts == base + CopiedMap(q[..0], ep);
    for i := 0 to |q|
      invariant opts == base + CopiedMap(q[..i], ep)
    {
      var (key, raw) := q[i];
      ghost var before := CopiedMap(q[..i], ep);
      assert q[..i + 1] == q[..i] + [q[i]];
      assert key !in KeysOf(q[..i]);
      WrittenStep(q[..i], q[i], Writer(ep));
      if key == "host" || key == "raw" {
        continue;
      }
      if key == "port" && ep.portFromSrv {
        continue;
      }
      if key in NumericKeys {
        match ParseNumber(raw)
        case Some(n) =>
          OverlayUpdate(base, before, key, Num(n));
          opts := opts[key := Num(n)];
        case None =>
      } else if key in BooleanKeys {
        match CoerceBool(raw)
        case Some(b) =>
          OverlayUpdate(base, before, key, Bool(b));
          opts := opts[key := Bool(b)];
        case None =>
      }
    }
    assert q[..|q|] == q;
  }

  /** `req.query.host`, parsed, when it is present and not the empty string. */
  function HostParam(q: Query): (r: Option<Parsed>)
    // an absent or empty `host` is falsy and is not parsed
    ensures r.Some? <==> Find(q, "host").Some? && Find(q, "host").value != ""
    ensures r.Some? ==> r.value == ParseHostAndPort(Find(q, "host").value)
  {
    match Find(q, "host")
    case Some(v) => if v == "" then None else Some(ParseHostAndPort(v))
    case None => None
  }

  /** The request is rejected as `host_type_missing`: no type, no host, or a
      host that parses to the empty string. */
  predicate HostOrTypeMissing(queryType: string, q: Query)
    ensures queryType == "" || Find(q, "host").None? ==> HostOrTypeMissing(queryType, q)
    // a host made only of whitespace trims to nothing and is rejected
    ensures Find(q, "host").Some? && Trim(Find(q, "host").value) == [] ==> HostOrTypeMissing(queryType, q)
    ensures !HostOrTypeMissing(queryType, q) ==>
              queryType != "" && HostParam(q).Some? && HostParam(q).value.host != ""
  {
    queryType == "" || HostParam(q).None? || HostParam(q).value.host == ""
  }

  /** `Number(req.query.port)`, when the parameter is present. */
  function PortParam(q: Query): (r: Option<Option<Number>>)
    ensures r.None? <==> Find(q, "port").None?
    ensures r.Some? ==> r.value == ParseNumber(Find(q, "port").value)
  {
    match Find(q, "port")
    case Some(v) => Some(ParseNumber(v))
    case None => None
  }

  /** The `port` parameter reads as an infinity: not NaN, yet not finite. */
  predicate PortIsInfinite(q: Query) {
    PortParam(q).Some? && PortParam(q).value.Some? && PortParam(q).value.value.Infinite?
  }

  /** The user port: the `port` parameter if `Number` makes it finite, otherwise
      the port written into `host`, otherwise none. */
  function UserPort(q: Query, parsed: Parsed): (r: Option<int>)
    ensures PortParam(q).Some? && PortParam(q).value.Some? && PortParam(q).value.value.Finite? ==>
              r == Some(PortParam(q).value.value.value)
    ensures !(PortParam(q).Some? && PortParam(q).value.Some? && PortParam(q).value.value.Finite?) ==>
              (r.Some? <==> parsed.port.Some?) && (r.Some? ==> r.value == parsed.port.value)
  {
    var queryPort := PortParam(q);
    if queryPort.Some? && queryPort.value.Some? && queryPort.value.value.Finite? then
      Some(queryPort.value.value.value)
    else if parsed.port.Some? then Some(parsed.port.value)
    else None
  }

  /** `?raw=` lower-cased is `true` or `1`: the same test as a true boolean option. */
  function SendRaw(q: Query): (r: bool)
    ensures r <==> Find(q, "raw").Some?
                   && (SpellsIgnoringCase(Find(q, "raw").value, "true") || Find(q, "raw").value == "1")
  {
    match Find(q, "raw")
    case Some(v) => CoerceBool(v) == Some(true)
    case None => false
  }

  /** A JSON value as the query library returns it. */
  datatype Json =
    | JNull
    | JBool(b: bool)
    | JNum(n: int)
    | JStr(s: string)
    | JArray(items: seq<Json>)
    | JObject(fields: map<string, Json>)

  /** What `GameDig.query` does: answer with an object, or throw with a message. */
  datatype GameOutcome = Answer(result: map<string, Json>) | Thrown(message: string)

  /** The HTTP response: a 200 with the JSON body, or an error status with its kind. */
  datatype Response =
    | Ok(body: map<string, Json>)
    | Error(status: int, kind: string, message: string, details: Option<string>)

  const MissingError: Response := Error(400, "host_type_missing", "Missing type or host", None)

  const UnreachableError: Response :=
    Error(400, "host_unreachable",
          "Host not reachable or cannot be resolved. Please ensure the host is reachable.", None)

  function QueryFailedError(details: string): Response {
    Error(502, "query_failed", "Query to game server failed", Some(details))
  }

  /** `delete result.raw` unless `raw` was requested; nothing else changes. */
  function StripRaw(result: map<string, Json>, sendRaw: bool): (body: map<string, Json>)
    ensures body.Keys == if sendRaw then result.Keys else result.Keys - {"raw"}
    ensures forall k :: k in body ==> body[k] == result[k]
  {
    if sendRaw then result else result - {"raw"}
  }

  /** The handler of `GET /query/:type`, with DNS and the query library as oracles. */
  method HandleQuery(queryType: string, q: Query, dns: Dns, gamedig: Options -> GameOutcome)
    returns (resp: Response)
    requires KeysDistinct(q)
    ensures resp == MissingError <==> HostOrTypeMissing(queryType, q)
    ensures !HostOrTypeMissing(queryType, q) ==>
              var parsed := HostParam(q).value;
              var res := ResolveEndpoint(dns, queryType, parsed.host, UserPort(q, parsed));
              && (resp == UnreachableError <==> res.HostUnreachable?)
              && (res.Resolved? ==>
                    match gamedig(OptionsFor(queryType, res.endpoint, q))
                    case Thrown(m) => resp == QueryFailedError(m)
                    case Answer(result) =>
                      && resp.Ok?
                      && resp.body.Keys == (if SendRaw(q) then result.Keys else result.Keys - {"raw"})
                      && forall k :: k in resp.body ==> resp.body[k] == result[k])
  {
    var parsed := HostParam(q);
    if queryType == "" || parsed.None? || parsed.value.host == "" {
      return MissingError;
    }
    assert !HostOrTypeMissing(queryType, q);
    var hostPort := parsed.value;
    var userPort := UserPort(q, hostPort);
    var resolution := ResolveEndpoint(dns, queryType, hostPort.host, userPort);
    if resolution.HostUnreachable? {
      return UnreachableError;
    }
    var opts := BuildOptions(queryType, resolution.endpoint, q);
    match gamedig(opts)
    case Thrown(m) =>
      resp := QueryFailedError(m);
    case Answer(result) =>
      resp := Ok(StripRaw(result, SendRaw(q)));
  }

  /** A user port reaches the options unchanged, whatever the SRV answers were,
      unless the `port` parameter is an infinity (see `InfinitePortOverrides`). */
  lemma UserPortReachesOptions(queryType: string, q: Query, dns: Dns)
    requires !HostOrTypeMissing(queryType, q)
    requires !PortIsInfinite(q)
    requires UserPort(q, HostParam(q).value).Some?
    requires ResolveEndpoint(dns, queryType, HostParam(q).value.host, UserPort(q, HostParam(q).value)).Resolved?
    ensures var parsed := HostParam(q).value;
            var ep := ResolveEndpoint(dns, queryType, parsed.host, UserPort(q, parsed)).endpoint;
            var opts := OptionsFor(queryType, ep, q);
            "port" in opts && opts["port"] == Num(Finite(UserPort(q, parsed).value))
  {
    var parsed := HostParam(q).value;
    var ep := ResolveEndpoint(dns, queryType, parsed.host, UserPort(q, parsed)).endpoint;
    var userPort := UserPort(q, parsed).value;
    assert ep.port == Some(userPort) && !ep.portFromSrv;
    if Copied(q, ep, "port").Some? {
      WhitelistFacts();
      assert Copied(q, ep, "port") == Some(Num(PortParam(q).value.value));
    }
  }

  /** Without a user port, a usable SRV record supplies both host and port to the
      options, and the `port` parameter cannot replace that port. */
  lemma SrvRecordReachesOptions(queryType: string, q: Query, dns: Dns)
    requires !HostOrTypeMissing(queryType, q)
    requires UserPort(q, HostParam(q).value).None?
    requires TrySrv(dns, queryType, HostParam(q).value.host).Some?
    ensures var parsed := HostParam(q).value;
            var rec := TrySrv(dns, queryType, parsed.host).value;
            var res := ResolveEndpoint(dns, queryType, parsed.host, None);
            && res.Resolved? && res.endpoint.portFromSrv
            && OptionsFor(queryType, res.endpoint, q)["host"] == Str(rec.name)
            && OptionsFor(queryType, res.endpoint, q)["port"] == Num(Finite(rec.port))
  {
  }

  /** An input such as `":80"` leaves an empty host and is rejected as missing. */
  lemma EmptyHostRejected(queryType: string, q: Query, d: string)
    requires Find(q, "host") == Some(":" + d)
    requires IsPortDigits(d)
    ensures HostOrTypeMissing(queryType, q)
  {
    var v := ":" + d;
    assert "" + ":" + d == v;
    ParseRoundTrip("", d);
    assert ParseHostAndPort(v).host == "";
  }

  /** `Number.isFinite` chooses the user port but `Number.isNaN` guards the copy,
      so a `port` of `Infinity` is skipped as a user port (the host's port, if
      any, is used to resolve) and is then copied over the options' port
      anyway, unless SRV supplied that port. */
  lemma InfinitePortOverrides(queryType: string, q: Query, dns: Dns)
    requires !HostOrTypeMissing(queryType, q)
    requires PortIsInfinite(q)
    requires ResolveEndpoint(dns, queryType, HostParam(q).value.host, UserPort(q, HostParam(q).value)).Resolved?
    ensures var parsed := HostParam(q).value;
            var userPort := UserPort(q, parsed);
            var ep := ResolveEndpoint(dns, queryType, parsed.host, userPort).endpoint;
            var opts := OptionsFor(queryType, ep, q);
            && (userPort.Some? <==> parsed.port.Some?)
            && (userPort.Some? ==> ep.port == userPort && !ep.portFromSrv)
            && (!ep.portFromSrv ==> "port" in opts && opts["port"] == Num(PortParam(q).value.value))
  {
    var parsed := HostParam(q).value;
    var ep := ResolveEndpoint(dns, queryType, parsed.host, UserPort(q, parsed)).endpoint;
    if !ep.portFromSrv {
      WhitelistFacts();
      assert Copied(q, ep, "port") == Some(Num(PortParam(q).value.value));
    }
  }
}
