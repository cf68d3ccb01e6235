/**
 * `resolveEndpoint`: picks the host and port to query. For query types that
 * have a service-record prefix it tries an SRV lookup first (best effort: any
 * failure falls back), then confirms the original host resolves to an address.
 * DNS is not modelled: its answers are given as an oracle.
 */
module Resolver {
  import opened Wrappers

  /** One SRV answer: target name and port. */
  datatype SrvRecord = SrvRecord(name: string, port: nat)

  /** What `resolveSrv` does: reject, or return its records in order. */
  datatype SrvOutcome = SrvFailed | SrvRecords(records: seq<SrvRecord>)

  /** The DNS answers for one request: `srv` for `resolveSrv`, `resolves` for
      whether `lookup` finds an A/AAAA address for a name. */
  datatype Dns = Dns(srv: string -> SrvOutcome, resolves: string -> bool)

  datatype Endpoint = Endpoint(host: string, port: Option<int>, portFromSrv: bool)

  datatype Resolution = Resolved(endpoint: Endpoint) | HostUnreachable

  /** The SRV prefix table: only `minecraft` has one. */
  const SrvByType: map<string, string> := map["minecraft" := "_minecraft._tcp"]

  /** `srvByType[type]`: only `minecraft` has a service-record prefix. */
  function SrvPrefix(queryType: string): (r: Option<string>)
    ensures r.Some? <==> queryType == "minecraft"
    ensures r.Some? ==> r.value == "_minecraft._tcp"
  {
    if queryType in SrvByType then Some(SrvByType[queryType]) else None
  }

  /** The service-discovery attempt: the first SRV record of `prefix.host`,
      provided the lookup succeeds, returns at least one record, and that
      record's target resolves. Every other outcome is "no record". */
  function TrySrv(dns: Dns, queryType: string, host: string): (r: Option<SrvRecord>)
    ensures r.Some? ==> SrvPrefix(queryType).Some?
    ensures r.Some? ==> dns.resolves(r.value.name)
    ensures r.Some? ==> dns.srv(SrvPrefix(queryType).value + "." + host).SrvRecords?
    ensures r.Some? ==> var rs := dns.srv(SrvPrefix(queryType).value + "." + host).records;
                        |rs| > 0 && r.value == rs[0]
    ensures r.None? && SrvPrefix(queryType).Some? ==>
              match dns.srv(SrvPrefix(queryType).value + "." + host)
              case SrvFailed => true
              case SrvRecords(rs) => rs == [] || !dns.resolves(rs[0].name)
  {
    match SrvPrefix(queryType)
    case None => None
    case Some(prefix) =>
      match dns.srv(prefix + "." + host)
      case SrvFailed => None
      case SrvRecords(rs) =>
        if |rs| > 0 && dns.resolves(rs[0].name) then Some(rs[0]) else None
  }

  /** `resolveEndpoint`, with `userPort` already reduced to a finite number or absent. */
  function ResolveEndpoint(dns: Dns, queryType: string, host: string, userPort: Option<int>): (r: Resolution)
    // a user port always wins and then the port is never from SRV
    ensures r.Resolved? && userPort.Some? ==>
              r.endpoint.port == userPort && !r.endpoint.portFromSrv
    // without a user port, the port is the SRV port or absent
    ensures r.Resolved? && userPort.None? ==>
              (r.endpoint.portFromSrv <==> r.endpoint.port.Some?)
    // a usable SRV record is always taken, and its target becomes the host
    ensures TrySrv(dns, queryType, host).Some? ==>
              && r.Resolved?
              && r.endpoint.host == TrySrv(dns, queryType, host).value.name
              && (userPort.None? ==> r.endpoint.port == Some(TrySrv(dns, queryType, host).value.port))
    // the port comes from SRV exactly when a record was usable and the user gave no port
    ensures (r.Resolved? && r.endpoint.portFromSrv)
              <==> TrySrv(dns, queryType, host).Some? && userPort.None?
    // SRV problems are never fatal: only the final address check fails a request
    ensures r.HostUnreachable? <==>
              TrySrv(dns, queryType, host).None? && !dns.resolves(host)
    // after a fallback the host is the one the user gave
    ensures TrySrv(dns, queryType, host).None? && r.Resolved? ==>
              r.endpoint == Endpoint(host, userPort, false)
  {
    match TrySrv(dns, queryType, host)
    case Some(rec) =>
      Resolved(Endpoint(rec.name, if userPort.Some? then userPort else Some(rec.port), userPort.None?))
    case None =>
      if dns.resolves(host) then Resolved(Endpoint(host, userPort, false)) else HostUnreachable
  }

  /** For a type without a prefix no SRV lookup happens: the outcome does not
      depend on the SRV answers at all, only on whether the host resolves. */
  lemma NoPrefixIgnoresSrv(dns1: Dns, dns2: Dns, queryType: string, host: string, userPort: Option<int>)
    requires SrvPrefix(queryType).None?
    requires dns1.resolves(host) == dns2.resolves(host)
    ensures ResolveEndpoint(dns1, queryType, host, userPort) == ResolveEndpoint(dns2, queryType, host, userPort)
    ensures ResolveEndpoint(dns1, queryType, host, userPort)
              == if dns1.resolves(host) then Resolved(Endpoint(host, userPort, false)) else HostUnreachable
  {
  }

  /** Only the first SRV record matters: later records never change the outcome. */
  lemma FirstRecordWins(dns: Dns, queryType: string, host: string, userPort: Option<int>, rec: SrvRecord, rest: seq<SrvRecord>)
    requires SrvPrefix(queryType).Some?
    requires dns.srv(SrvPrefix(queryType).value + "." + host) == SrvRecords([rec] + rest)
    requires dns.resolves(rec.name)
    ensures ResolveEndpoint(dns, queryType, host, userPort)
              == Resolved(Endpoint(rec.name, if userPort.Some? then userPort else Some(rec.port), userPort.None?))
  {
    assert ([rec] + rest)[0] == rec;
  }
}
