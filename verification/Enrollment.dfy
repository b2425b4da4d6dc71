/**
 Enrollment (internal/server/store/enroll.go): the correlation waterfall serial, fqdn, MAC, hostname
 over the hosts table, and the agent row that points at the host it finds or creates. `lower` is the
 database's case folding. Where several rows match, the database picks any.
 */
module Enrollment {
  import opened Wire

  datatype HostFacts = HostFacts(
    hostname: string,
    fqdn: string,
    os: string,
    osVersion: string,
    serialNumber: Option<string>,
    macAddresses: seq<string>,
    primaryIp: Option<string>)

  datatype Host = Host(
    hostname: string,
    fqdn: Option<string>,
    os: string,
    osVersion: string,
    serialNumber: Option<string>,
    macAddresses: seq<string>,
    primaryIp: Option<string>)

  datatype AgentRow = AgentRow(hostId: nat, agentVersion: string, active: bool, fingerprint: string)

  datatype Registry = Registry(hosts: map<nat, Host>, agents: map<nat, AgentRow>, nextId: nat)

  // ---------------------------------------------------------------- the waterfall

  predicate SerialMatch(h: Host, f: HostFacts) {
    StrVal(f.serialNumber) != "" && h.serialNumber == f.serialNumber
  }

  predicate FqdnMatch(lower: string -> string, h: Host, f: HostFacts) {
    f.fqdn != "" && h.fqdn.Some? && lower(h.fqdn.value) == lower(f.fqdn)
  }

  predicate MacMatch(h: Host, f: HostFacts) {
    exists m :: m in f.macAddresses && m in h.macAddresses
  }

  function BySerial(hosts: map<nat, Host>, f: HostFacts): set<nat> {
    set id | id in hosts && SerialMatch(hosts[id], f)
  }

  function ByFqdn(lower: string -> string, hosts: map<nat, Host>, f: HostFacts): set<nat> {
    set id | id in hosts && FqdnMatch(lower, hosts[id], f)
  }

  function ByMac(hosts: map<nat, Host>, f: HostFacts): set<nat> {
    set id | id in hosts && MacMatch(hosts[id], f)
  }

  function ByName(hosts: map<nat, Host>, f: HostFacts): set<nat> {
    set id | id in hosts && hosts[id].hostname == f.hostname
  }

  /** The rows of the first tier that has any. */
  function Candidates(lower: string -> string, hosts: map<nat, Host>, f: HostFacts): set<nat> {
    if BySerial(hosts, f) != {} then BySerial(hosts, f)
    else if ByFqdn(lower, hosts, f) != {} then ByFqdn(lower, hosts, f)
    else if ByMac(hosts, f) != {} then ByMac(hosts, f)
    else ByName(hosts, f)
  }

  /** The host an enrollment works on: a candidate, or a new row when all tiers miss. */
  predicate Chosen(lower: string -> string, r: Registry, f: HostFacts, host: nat) {
    if Candidates(lower, r.hosts, f) == {} then host == r.nextId else host in Candidates(lower, r.hosts, f)
  }

  /** The row written: an update keeps the old serial when none is reported. */
  function Written(r: Registry, f: HostFacts, host: nat): Host {
    Host(f.hostname, Some(f.fqdn), f.os, f.osVersion,
         if f.serialNumber.None? && host in r.hosts then r.hosts[host].serialNumber else f.serialNumber,
         f.macAddresses, f.primaryIp)
  }

  /** The unique index on serial numbers rejects the write. */
  predicate SerialClash(r: Registry, f: HostFacts, host: nat) {
    f.serialNumber.Some? && exists id :: id in r.hosts && id != host && r.hosts[id].serialNumber == f.serialNumber
  }

  predicate FingerprintUsed(r: Registry, fingerprint: string) {
    exists a :: a in r.agents && r.agents[a].fingerprint == fingerprint
  }

  function Enrolled(r: Registry, f: HostFacts, version: string, fingerprint: string, host: nat): Registry {
    var base := if host in r.hosts then r.nextId else r.nextId + 1;
    Registry(r.hosts[host := Written(r, f, host)], r.agents[base := AgentRow(host, version, true, fingerprint)], base + 1)
  }

  class Store {
    var hosts: map<nat, Host>
    var agents: map<nat, AgentRow>
    var nextId: nat

    function State(): Registry
      reads this
    {
      Registry(hosts, agents, nextId)
    }

    constructor ()
      ensures State() == Registry(map[], map[], 0)
    {
      hosts, agents, nextId := map[], map[], 0;
    }

    /** One row of a query, if it has any. */
    method QueryRow(ids: set<nat>) returns (id: Option<nat>)
      ensures id.None? <==> ids == {}
      ensures id.Some? ==> id.value in ids
    {
      if ids == {} {
        return None;
      }
      var one :| one in ids;
      return Some(one);
    }

    /** The four queries, each guarded by its fact being present. */
    method FindHost(lower: string -> string, f: HostFacts) returns (found: Option<nat>)
      ensures found.None? <==> Candidates(lower, hosts, f) == {}
      ensures found.Some? ==> found.value in Candidates(lower, hosts, f)
    {
      if f.serialNumber.Some? && f.serialNumber.value != "" {
        found := QueryRow(BySerial(hosts, f));
        if found.Some? {
          return;
        }
      }
      if f.fqdn != "" {
        found := QueryRow(ByFqdn(lower, hosts, f));
        if found.Some? {
          return;
        }
      }
      if |f.macAddresses| > 0 {
        found := QueryRow(ByMac(hosts, f));
        if found.Some? {
          return;
        }
      }
      found := QueryRow(ByName(hosts, f));
    }

    /** resolveOrCreateHost with updateHost; fails if the unique index on serials rejects the row. */
    method ResolveOrCreateHost(lower: string -> string, f: HostFacts) returns (host: nat, ok: bool)
      requires forall id :: id in hosts ==> id < nextId
      modifies this`hosts, this`nextId
      ensures Chosen(lower, old(State()), f, host)
      ensures ok <==> f.serialNumber.None? || forall id :: id in old(hosts) && id != host ==> old(hosts)[id].serialNumber != f.serialNumber
      ensures ok ==> host in hosts && hosts == old(hosts)[host := hosts[host]]
      ensures ok ==> hosts[host].hostname == f.hostname && hosts[host].fqdn == Some(f.fqdn) && hosts[host].os == f.os
      ensures ok ==> hosts[host].osVersion == f.osVersion && hosts[host].macAddresses == f.macAddresses && hosts[host].primaryIp == f.primaryIp
      ensures ok && f.serialNumber.Some? ==> hosts[host].serialNumber == f.serialNumber
      ensures ok && f.serialNumber.None? ==> hosts[host].serialNumber == if host in old(hosts) then old(hosts)[host].serialNumber else None
      ensures ok ==> hosts == old(hosts)[host := Written(old(State()), f, host)]
      ensures ok ==> nextId == if host in old(hosts) then old(nextId) else old(nextId) + 1
      ensures !ok ==> State() == old(State())
    {
      var found := FindHost(lower, f);
      CandidatesAreHosts(lower, State(), f);
      host := if found.Some? then found.value else nextId;
      if f.serialNumber.Some? && exists id :: id in hosts && id != host && hosts[id].serialNumber == f.serialNumber {
        return host, false;
      }
      if found.Some? {
        var serial := if f.serialNumber.Some? then f.serialNumber else hosts[host].serialNumber;
        hosts := hosts[host := Host(f.hostname, Some(f.fqdn), f.os, f.osVersion, serial, f.macAddresses, f.primaryIp)];
      } else {
        nextId := nextId + 1;
        hosts := hosts[host := Host(f.hostname, Some(f.fqdn), f.os, f.osVersion, f.serialNumber, f.macAddresses, f.primaryIp)];
      }
      return host, true;
    }

    /** Enroll: one transaction; a failure of either insert rolls everything back. */
    method Enroll(lower: string -> string, f: HostFacts, version: string, fingerprint: string)
      returns (agent: nat, host: nat, ok: bool)
      requires RegistryOk(State())
      modifies this
      ensures Chosen(lower, old(State()), f, host)
      ensures ok <==>
                && (f.serialNumber.None? || forall id :: id in old(hosts) && id != host ==> old(hosts)[id].serialNumber != f.serialNumber)
                && (forall a :: a in old(agents) ==> old(agents)[a].fingerprint != fingerprint)
      ensures ok ==> agent !in old(agents) && agents == old(agents)[agent := AgentRow(host, version, true, fingerprint)]
      ensures ok ==> host in hosts && hosts == old(hosts)[host := hosts[host]]
      ensures ok ==> hosts[host].hostname == f.hostname && hosts[host].fqdn == Some(f.fqdn) && hosts[host].os == f.os
      ensures ok ==> hosts[host].osVersion == f.osVersion && hosts[host].macAddresses == f.macAddresses && hosts[host].primaryIp == f.primaryIp
      ensures State() == if ok then Enrolled(old(State()), f, version, fingerprint, host) else old(State())
    {
      var savedHosts, savedNext := hosts, nextId;
      agent := nextId;
      host, ok := ResolveOrCreateHost(lower, f);
      if !ok {
        return;
      }
      if exists a :: a in agents && agents[a].fingerprint == fingerprint {
        hosts, nextId := savedHosts, savedNext;
        ok := false;
        return;
      }
      agent := nextId;
      agents := agents[agent := AgentRow(host, version, true, fingerprint)];
      nextId := nextId + 1;
    }
  }

  // ---------------------------------------------------------------- invariants over enrollments

  ghost predicate SerialsUnique(hosts: map<nat, Host>) {
    forall a, b :: a in hosts && b in hosts && hosts[a].serialNumber.Some? && hosts[a].serialNumber == hosts[b].serialNumber ==> a == b
  }

  ghost predicate RegistryOk(r: Registry) {
    && SerialsUnique(r.hosts)
    && (forall id :: id in r.hosts ==> id < r.nextId)
    && (forall a :: a in r.agents ==> a < r.nextId && r.agents[a].hostId in r.hosts)
    && (forall a, b :: a in r.agents && b in r.agents && r.agents[a].fingerprint == r.agents[b].fingerprint ==> a == b)
  }

  lemma SerialCandidates(lower: string -> string, r: Registry, f: HostFacts, host: nat)
    requires SerialsUnique(r.hosts) && StrVal(f.serialNumber) != ""
    requires host in r.hosts && r.hosts[host].serialNumber == f.serialNumber
    ensures Candidates(lower, r.hosts, f) == {host}
  {
    assert host in BySerial(r.hosts, f);
    assert forall id :: id in BySerial(r.hosts, f) ==> id == host;
  }

  /** How a host matches the facts: one is the strongest tier, four the weakest. */
  predicate MatchesAt(lower: string -> string, tier: int, h: Host, f: HostFacts) {
    || (tier == 1 && f.serialNumber.Some? && f.serialNumber.value != "" && h.serialNumber == f.serialNumber)
    || (tier == 2 && f.fqdn != "" && h.fqdn.Some? && lower(h.fqdn.value) == lower(f.fqdn))
    || (tier == 3 && exists m :: m in f.macAddresses && m in h.macAddresses)
    || (tier == 4 && h.hostname == f.hostname)
  }

  predicate AnyAt(lower: string -> string, hosts: map<nat, Host>, tier: int, f: HostFacts) {
    exists id :: id in hosts && MatchesAt(lower, tier, hosts[id], f)
  }

  /** The waterfall: a host is a candidate iff it matches on some tier and no host matches on a stronger one. */
  lemma CandidateIff(lower: string -> string, hosts: map<nat, Host>, f: HostFacts, id: nat)
    requires id in hosts
    ensures id in Candidates(lower, hosts, f) <==>
            exists tier :: MatchesAt(lower, tier, hosts[id], f) && forall t :: 1 <= t < tier ==> !AnyAt(lower, hosts, t, f)
  {
    assert BySerial(hosts, f) == {} <==> !AnyAt(lower, hosts, 1, f) by {
      assert forall i :: i in hosts ==> (i in BySerial(hosts, f) <==> MatchesAt(lower, 1, hosts[i], f));
    }
    assert ByFqdn(lower, hosts, f) == {} <==> !AnyAt(lower, hosts, 2, f) by {
      assert forall i :: i in hosts ==> (i in ByFqdn(lower, hosts, f) <==> MatchesAt(lower, 2, hosts[i], f));
    }
    assert ByMac(hosts, f) == {} <==> !AnyAt(lower, hosts, 3, f) by {
      assert forall i :: i in hosts ==> (i in ByMac(hosts, f) <==> MatchesAt(lower, 3, hosts[i], f));
    }
    if id in Candidates(lower, hosts, f) {
      var tier := if BySerial(hosts, f) != {} then 1 else if ByFqdn(lower, hosts, f) != {} then 2 else if ByMac(hosts, f) != {} then 3 else 4;
      assert MatchesAt(lower, tier, hosts[id], f);
    }
    if tier :| MatchesAt(lower, tier, hosts[id], f) && forall t :: 1 <= t < tier ==> !AnyAt(lower, hosts, t, f) {
      assert AnyAt(lower, hosts, tier, f);
    }
  }

  /** A non-empty serial finds its row in the first tier or is nowhere, so it never clashes. */
  lemma ClashOf(lower: string -> string, r: Registry, f: HostFacts, host: nat)
    requires RegistryOk(r) && Chosen(lower, r, f, host)
    ensures SerialClash(r, f, host) <==>
            f.serialNumber == Some("") && exists id :: id in r.hosts && id != host && r.hosts[id].serialNumber == Some("")
  {
    if StrVal(f.serialNumber) != "" {
      if id :| id in r.hosts && r.hosts[id].serialNumber == f.serialNumber {
        SerialCandidates(lower, r, f, id);
      }
    }
  }

  /**
   When an enrollment can be rejected, from the facts and the table alone: the facts carry an empty
   serial, some host has the empty serial, and it is not the one host the waterfall finds.
   */
  lemma ClashIff(lower: string -> string, r: Registry, f: HostFacts)
    requires RegistryOk(r)
    ensures (exists host :: Chosen(lower, r, f, host) && SerialClash(r, f, host)) <==>
            f.serialNumber == Some("") &&
            exists id :: id in r.hosts && r.hosts[id].serialNumber == Some("") && Candidates(lower, r.hosts, f) != {id}
  {
    CandidatesAreHosts(lower, r, f);
    var found := Candidates(lower, r.hosts, f);
    if host :| Chosen(lower, r, f, host) && SerialClash(r, f, host) {
      ClashOf(lower, r, f, host);
    }
    if id :| f.serialNumber == Some("") && id in r.hosts && r.hosts[id].serialNumber == Some("") && found != {id} {
      var host := r.nextId;
      if found != {} {
        host := Other(found, id);
      }
      assert Chosen(lower, r, f, host) && SerialClash(r, f, host);
    }
  }

  /** A non-empty set other than `{x}` has a member other than `x`. */
  lemma Other(s: set<nat>, x: nat) returns (y: nat)
    requires s != {} && s != {x}
    ensures y in s && y != x
  {
    assert s <= (s - {x}) + {x};
    y :| y in s - {x};
  }

  function EmptySerial(hostname: string): HostFacts {
    HostFacts(hostname, "", "linux", "", Some(""), [], None)
  }

  /** Two machines that both report an empty serial number: the first enrolls, the second cannot. */
  lemma SecondEmptySerialFails(lower: string -> string, a: string, b: string, version: string, cert: string) returns (r: Registry)
    requires a != b
    ensures var empty := Registry(map[], map[], 0);
            && Chosen(lower, empty, EmptySerial(a), 0) && !SerialClash(empty, EmptySerial(a), 0)
            && r == Enrolled(empty, EmptySerial(a), version, cert, 0) && RegistryOk(r)
    ensures forall host :: Chosen(lower, r, EmptySerial(b), host) ==> SerialClash(r, EmptySerial(b), host)
  {
    var empty := Registry(map[], map[], 0);
    r := Enrolled(empty, EmptySerial(a), version, cert, 0);
    assert r.hosts[0].serialNumber == Some("") && r.hosts[0].hostname == a && r.hosts.Keys == {0};
    assert Candidates(lower, r.hosts, EmptySerial(b)) == {};
  }

  /**
   One enrollment keeps serials and fingerprints unique and every agent on an existing host; it adds
   a host only when all four tiers miss, and it succeeds unless the fingerprint is taken or an empty
   serial is already in use elsewhere.
   */
  lemma EnrollKeepsRegistry(lower: string -> string, r: Registry, f: HostFacts, version: string, fingerprint: string, host: nat)
    requires RegistryOk(r) && Chosen(lower, r, f, host) && !SerialClash(r, f, host) && !FingerprintUsed(r, fingerprint)
    ensures var r' := Enrolled(r, f, version, fingerprint, host);
            && RegistryOk(r')
            && r'.hosts.Keys == r.hosts.Keys + (if Candidates(lower, r.hosts, f) == {} then {host} else {})
            && (Candidates(lower, r.hosts, f) == {} <==> host !in r.hosts)
  {
  }

  lemma CandidatesAreHosts(lower: string -> string, r: Registry, f: HostFacts)
    ensures Candidates(lower, r.hosts, f) <= r.hosts.Keys
  {
  }

  /** One request of a run, with the row the database happened to pick. */
  datatype Request = Request(facts: HostFacts, version: string, fingerprint: string, host: nat)

  ghost predicate Succeeds(lower: string -> string, r: Registry, q: Request) {
    Chosen(lower, r, q.facts, q.host) && !SerialClash(r, q.facts, q.host) && !FingerprintUsed(r, q.fingerprint)
  }

  ghost predicate Run(lower: string -> string, r: Registry, qs: seq<Request>)
    decreases |qs|
  {
    qs == [] || (Chosen(lower, r, qs[0].facts, qs[0].host) && Run(lower, Next(lower, r, qs[0]), qs[1..]))
  }

  ghost function Next(lower: string -> string, r: Registry, q: Request): Registry {
    if Succeeds(lower, r, q) then Enrolled(r, q.facts, q.version, q.fingerprint, q.host) else r
  }

  ghost function Final(lower: string -> string, r: Registry, qs: seq<Request>): Registry
    decreases |qs|
  {
    if qs == [] then r else Final(lower, Next(lower, r, qs[0]), qs[1..])
  }

  /** No request of the run puts a different serial on the host. */
  ghost predicate KeepsSerial(qs: seq<Request>, host: nat, serial: Option<string>) {
    forall q :: q in qs && q.host == host ==> q.facts.serialNumber.None? || q.facts.serialNumber == serial
  }

  /**
   Over every run of enrollments the registry stays consistent, no host disappears, at most one host
   is added per request, and a host keeps its serial unless a request resolved to it with another.
   */
  lemma {:induction false} RunsKeepRegistry(lower: string -> string, r: Registry, qs: seq<Request>, host: nat)
    requires RegistryOk(r) && Run(lower, r, qs)
    ensures RegistryOk(Final(lower, r, qs))
    ensures r.hosts.Keys <= Final(lower, r, qs).hosts.Keys && |Final(lower, r, qs).hosts| <= |r.hosts| + |qs|
    ensures host in r.hosts && KeepsSerial(qs, host, r.hosts[host].serialNumber) ==>
              Final(lower, r, qs).hosts[host].serialNumber == r.hosts[host].serialNumber
    decreases |qs|
  {
    if qs != [] {
      NextKeepsRegistry(lower, r, qs[0], host);
      assert qs[0] in qs && forall x :: x in qs[1..] ==> x in qs;
      RunsKeepRegistry(lower, Next(lower, r, qs[0]), qs[1..], host);
    }
  }

  lemma NextKeepsRegistry(lower: string -> string, r: Registry, q: Request, host: nat)
    requires RegistryOk(r) && Chosen(lower, r, q.facts, q.host)
    ensures var r' := Next(lower, r, q);
            && RegistryOk(r') && r.hosts.Keys <= r'.hosts.Keys && |r'.hosts| <= |r.hosts| + 1
            && (host in r.hosts && (q.host == host ==> q.facts.serialNumber.None? || q.facts.serialNumber == r.hosts[host].serialNumber) ==>
                  r'.hosts[host].serialNumber == r.hosts[host].serialNumber)
  {
    if Succeeds(lower, r, q) {
      EnrollKeepsRegistry(lower, r, q.facts, q.version, q.fingerprint, q.host);
      var r' := Next(lower, r, q);
      assert |r'.hosts| == |r'.hosts.Keys| && |r.hosts| == |r.hosts.Keys|;
    }
  }

  /**
   Stable identity: after a successful enrollment with a non-empty serial, and any run in which no
   request resolving to that host reports a different serial, every enrollment reporting the serial
   resolves to the same host and no other.
   */
  lemma SameSerialSameHost(lower: string -> string, r: Registry, first: Request, qs: seq<Request>, again: HostFacts)
    requires RegistryOk(r) && Succeeds(lower, r, first) && StrVal(first.facts.serialNumber) != ""
    requires Run(lower, Next(lower, r, first), qs) && KeepsSerial(qs, first.host, first.facts.serialNumber)
    requires again.serialNumber == first.facts.serialNumber
    ensures Candidates(lower, Final(lower, Next(lower, r, first), qs).hosts, again) == {first.host}
  {
    EnrollKeepsRegistry(lower, r, first.facts, first.version, first.fingerprint, first.host);
    var r' := Next(lower, r, first);
    assert r'.hosts[first.host].serialNumber == first.facts.serialNumber;
    RunsKeepRegistry(lower, r', qs, first.host);
    SerialCandidates(lower, Final(lower, r', qs), again, first.host);
  }

  /** Requests of the run that resolve to the host report the same name, domain name and addresses. */
  ghost predicate KeepsFacts(qs: seq<Request>, host: nat, f: HostFacts) {
    forall q :: q in qs && q.host == host ==>
      q.facts.hostname == f.hostname && q.facts.fqdn == f.fqdn && q.facts.macAddresses == f.macAddresses
  }

  ghost predicate ShowsFacts(r: Registry, host: nat, f: HostFacts) {
    && host in r.hosts && r.hosts[host].hostname == f.hostname
    && r.hosts[host].fqdn == Some(f.fqdn) && r.hosts[host].macAddresses == f.macAddresses
  }

  lemma {:induction false} FactsStay(lower: string -> string, r: Registry, qs: seq<Request>, host: nat, f: HostFacts)
    requires Run(lower, r, qs) && ShowsFacts(r, host, f) && KeepsFacts(qs, host, f)
    ensures ShowsFacts(Final(lower, r, qs), host, f)
    decreases |qs|
  {
    if qs != [] {
      assert qs[0] in qs && forall q :: q in qs[1..] ==> q in qs;
      assert ShowsFacts(Next(lower, r, qs[0]), host, f);
      FactsStay(lower, Next(lower, r, qs[0]), qs[1..], host, f);
    }
  }

  /** The facts agree on a tier below the serial number: domain name up to case, an address, or the name. */
  predicate FactsMatch(lower: string -> string, tier: int, f: HostFacts, again: HostFacts) {
    || (tier == 2 && again.fqdn != "" && lower(f.fqdn) == lower(again.fqdn))
    || (tier == 3 && exists m :: m in f.macAddresses && m in again.macAddresses)
    || (tier == 4 && f.hostname == again.hostname)
  }

  /**
   Stable identity on the other tiers: after a successful enrollment, and any run whose requests resolving
   to that host report the same name, domain name and addresses, facts that agree with it on a tier and
   match no host on a stronger one have that host among their candidates.
   */
  lemma SameFactsSameHost(lower: string -> string, r: Registry, first: Request, qs: seq<Request>, again: HostFacts, tier: int)
    requires RegistryOk(r) && Succeeds(lower, r, first)
    requires Run(lower, Next(lower, r, first), qs) && KeepsFacts(qs, first.host, first.facts)
    requires FactsMatch(lower, tier, first.facts, again)
    requires forall t :: 1 <= t < tier ==> !AnyAt(lower, Final(lower, Next(lower, r, first), qs).hosts, t, again)
    ensures first.host in Candidates(lower, Final(lower, Next(lower, r, first), qs).hosts, again)
  {
    var r' := Next(lower, r, first);
    var end := Final(lower, r', qs);
    assert ShowsFacts(r', first.host, first.facts);
    FactsStay(lower, r', qs, first.host, first.facts);
    assert MatchesAt(lower, tier, end.hosts[first.host], again);
    CandidateIff(lower, end.hosts, again, first.host);
  }
}
