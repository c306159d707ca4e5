/** The record/replay server as wired in wpr/replay.py: mode switches through callback lists, the archive
    and its fetchers (wpr/httpclient.py), and the DNS lookups that depend on them (wpr/dnsproxy.py). */
module Replay {
  import opened Basics
  import opened Numerals
  import opened PyStrings
  import opened HttpArchive
  import opened ScriptInjection
  import ChunkedCoding
  import opened HttpProxy
  import opened ArchivedRequest

  type Host = string
  type Address = string

  // ---------------------------------------------------------------- wiring

  datatype Callback = ClearDnsCache | ClearArchive | InitializeArchiveHosts | FetchFromWeb | FetchFromArchive

  datatype Wiring = Wiring(record: seq<Callback>, replay: seq<Callback>)

  /** The callbacks in order of registration. Forwarding without private passthrough has no lookup
      object to register and ends in an AttributeError (None). */
  function Wire(dnsForwarding: bool, privatePassthrough: bool): Option<Wiring> {
    if dnsForwarding && !privatePassthrough then None
    else
      var hosts := if dnsForwarding then [InitializeArchiveHosts] else [];
      Some(Wiring([ClearDnsCache, ClearArchive] + hosts + [FetchFromWeb], hosts + [FetchFromArchive]))
  }

  /** The registrations one after the other. Without private passthrough there is no lookup object whose
      method could be registered. */
  method RegisterCallbacks(dnsForwarding: bool, privatePassthrough: bool) returns (wiring: Option<Wiring>)
    ensures wiring == Wire(dnsForwarding, privatePassthrough)
    ensures wiring.None? <==> dnsForwarding && !privatePassthrough
  {
    var record: seq<Callback>, replay: seq<Callback> := [ClearDnsCache, ClearArchive], [];
    if dnsForwarding {
      var initializeHosts: Option<Callback> := None;
      if privatePassthrough {
        initializeHosts := Some(InitializeArchiveHosts);
      }
      if initializeHosts.None? {
        return None;
      }
      record, replay := record + [initializeHosts.value], replay + [initializeHosts.value];
    }
    ghost var hosts := if dnsForwarding then [InitializeArchiveHosts] else [];
    assert record == [ClearDnsCache, ClearArchive] + hosts && replay == hosts;
    wiring := Some(Wiring(record + [FetchFromWeb], replay + [FetchFromArchive]));
  }

  datatype Config = Config(
    wiring: Wiring, script: string, zlib: Zlib, proxyIp: Address, isPrivate: Address -> bool,
    conditionalStatus: (Request, Response) -> int, createResponse: int -> Response)
  {
    predicate Forwarding() {
      Wire(true, true) == Some(wiring)
    }
    /** One of the wirings a server can have. */
    ghost predicate Wired() {
      exists forwarding, passthrough :: Wire(forwarding, passthrough) == Some(wiring)
    }
  }

  // ---------------------------------------------------------------- state

  /** Archive keys are requests without their untrimmed headers. A cached None is asked for again. */
  datatype State = State(
    managerRecords: bool, fetcherRecords: bool, archive: map<Request, Response>,
    dnsCache: map<Host, Option<Address>>, archiveHosts: set<Host>)

  function HostsOf(archive: map<Request, Response>): set<Host> {
    set k | k in archive :: k.host + "."
  }

  function Initial(record: bool, loaded: map<Request, Response>): State {
    var archive := if record then map[] else loaded;
    State(record, record, archive, map[], HostsOf(archive))
  }

  function Apply(c: Callback, st: State): State {
    match c
    case ClearDnsCache => st.(dnsCache := map[])
    case ClearArchive => st.(archive := map[])
    case InitializeArchiveHosts => st.(archiveHosts := HostsOf(st.archive))
    case FetchFromWeb => st.(fetcherRecords := true)
    case FetchFromArchive => st.(fetcherRecords := false)
  }

  function ApplyAll(cs: seq<Callback>, st: State): State {
    if cs == [] then st else ApplyAll(cs[1..], Apply(cs[0], st))
  }

  function ToRecord(config: Config, st: State): State {
    ApplyAll(config.wiring.record, st.(managerRecords := true))
  }

  function ToReplay(config: Config, st: State): State {
    ApplyAll(config.wiring.replay, st.(managerRecords := false))
  }

  // ---------------------------------------------------------------- lookups

  /** What asking a real name server gives: an exception, or an answer that may be empty. */
  datatype DnsOutcome = DnsFails | DnsAnswers(address: Option<Address>)

  function RealLookup(cache: map<Host, Option<Address>>, host: Host, outcome: DnsOutcome)
    : (Option<Address>, map<Host, Option<Address>>)
  {
    if host in cache && cache[host].Some? then (cache[host], cache)
    else match outcome
      case DnsFails => (None, cache)
      case DnsAnswers(address) => (address, cache[host := address])
  }

  /** Archived hosts go to the proxy unasked; others only if their real address is not private. */
  function PrivateLookup(config: Config, st: State, host: Host, outcome: DnsOutcome): (Option<Address>, State) {
    if host in st.archiveHosts then (Some(config.proxyIp), st)
    else
      var (address, cache) := RealLookup(st.dnsCache, host, outcome);
      (match address
       case None => None
       case Some(a) => Some(if config.isPrivate(a) then a else config.proxyIp),
       st.(dnsCache := cache))
  }

  // ---------------------------------------------------------------- requests

  /** A reply, whether a web fetch for it succeeded, and the archive entry it comes from, if any. */
  datatype Reply = Reply(served: Option<Response>, fetched: bool, entry: Option<Request>)

  predicate IsConditional(r: Request) {
    exists h :: h in CONDITIONAL && h in r.headers
  }

  /** Record mode: a repeated request is answered from the archive, a new one fetched and stored. */
  function Record(config: Config, st: State, request: Request, dns: DnsOutcome, http: Option<Response>): (Reply, State) {
    var key := request.Key();
    if key in st.archive then
      (Reply(Some(Inject(st.archive[key], config.script, config.zlib)), false, Some(key)), st)
    else
      var (address, cache) := RealLookup(st.dnsCache, request.host, dns);
      var st' := st.(dnsCache := cache);
      if address.None? || http.None? then (Reply(None, false, None), st')
      else (Reply(Some(Inject(http.value, config.script, config.zlib)), true, Some(key)),
            st'.(archive := st.archive[key := http.value]))
  }

  /** Replay mode: the archived response, or for a conditional request that of its unconditional form. */
  function FromArchive(config: Config, st: State, request: Request): Reply {
    if request.Key() in st.archive then
      Reply(Some(Inject(st.archive[request.Key()], config.script, config.zlib)), false, Some(request.Key()))
    else
      var stripped := WithoutConditions(request).Key();
      if !IsConditional(request) || stripped !in st.archive then Reply(None, false, None)
      else
        var response := st.archive[stripped];
        var status := if response.status == 200 then config.conditionalStatus(request, response) else 200;
        if status != 200 then
          Reply(Some(Inject(config.createResponse(status), config.script, config.zlib)), false, None)
        else Reply(Some(Inject(response, config.script, config.zlib)), false, Some(stripped))
  }

  /** Sending a response that injection did not copy leaves its content-length in the archived object. */
  function AfterSending(config: Config, st: State, reply: Reply): State {
    if reply.entry.None? || reply.entry.value !in st.archive then st
    else
      var r := st.archive[reply.entry.value];
      if PointIn(r, config.script, config.zlib).Some? then st
      else st.(archive := st.archive[reply.entry.value := WithLength(r)])
  }

  function Serve(config: Config, st: State, request: Request, dns: DnsOutcome, http: Option<Response>): (Reply, State) {
    var (reply, st') := if st.fetcherRecords then Record(config, st, request, dns, http)
                        else (FromArchive(config, st, request), st);
    (reply, AfterSending(config, st', reply))
  }

  // ---------------------------------------------------------------- runs

  datatype Step =
    | SwitchToRecord
    | SwitchToReplay
    | HttpRequest(request: Request, dns: DnsOutcome, http: Option<Response>)
    | DnsQuery(host: Host, dns: DnsOutcome)

  function Next(config: Config, st: State, step: Step): State {
    match step
    case SwitchToRecord => ToRecord(config, st)
    case SwitchToReplay => ToReplay(config, st)
    case HttpRequest(request, dns, http) => Serve(config, st, request, dns, http).1
    case DnsQuery(host, dns) => PrivateLookup(config, st, host, dns).1
  }

  function Run(config: Config, st: State, steps: seq<Step>): State {
    if steps == [] then st else Next(config, Run(config, st, steps[..|steps| - 1]), steps[|steps| - 1])
  }

  /** Manager and fetcher agree on the mode. With forwarding, only archived hosts are kept, and in replay
      mode all of them. */
  ghost predicate Consistent(config: Config, st: State) {
    && st.managerRecords == st.fetcherRecords
    && (config.Forwarding() ==>
          && st.archiveHosts <= HostsOf(st.archive)
          && (!st.managerRecords ==> st.archiveHosts == HostsOf(st.archive)))
  }

  /** What a switch does. Without forwarding there is no lookup that keeps hosts. */
  lemma WiredSwitches(config: Config, st: State)
    requires config.Wired()
    ensures ToRecord(config, st) == State(true, true, map[], map[], if config.Forwarding() then {} else st.archiveHosts)
    ensures ToReplay(config, st)
            == st.(managerRecords := false, fetcherRecords := false,
                   archiveHosts := if config.Forwarding() then HostsOf(st.archive) else st.archiveHosts)
  {
    var forwarding, passthrough :| Wire(forwarding, passthrough) == Some(config.wiring);
    if forwarding {
      WithForwarding(config, st);
    } else {
      WithoutForwarding(config, st);
    }
  }

  lemma WithForwarding(config: Config, st: State)
    requires config.Forwarding()
    ensures ToRecord(config, st) == State(true, true, map[], map[], {})
    ensures ToReplay(config, st) == st.(managerRecords := false, fetcherRecords := false,
                                        archiveHosts := HostsOf(st.archive))
  {
    ApplyFour(ClearDnsCache, ClearArchive, InitializeArchiveHosts, FetchFromWeb, st.(managerRecords := true));
    ApplyTwo(InitializeArchiveHosts, FetchFromArchive, st.(managerRecords := false));
    assert config.wiring.record == [ClearDnsCache, ClearArchive, InitializeArchiveHosts, FetchFromWeb];
    assert config.wiring.replay == [InitializeArchiveHosts, FetchFromArchive];
    assert HostsOf(map[]) == {};
  }

  lemma WithoutForwarding(config: Config, st: State)
    requires Wire(false, false) == Some(config.wiring)
    ensures !config.Forwarding()
    ensures ToRecord(config, st) == State(true, true, map[], map[], st.archiveHosts)
    ensures ToReplay(config, st) == st.(managerRecords := false, fetcherRecords := false)
  {
    ApplyThree(ClearDnsCache, ClearArchive, FetchFromWeb, st.(managerRecords := true));
    ApplyOne(FetchFromArchive, st.(managerRecords := false));
    assert config.wiring.record == [ClearDnsCache, ClearArchive, FetchFromWeb];
    assert config.wiring.replay == [FetchFromArchive];
    assert |Wire(true, true).value.replay| == 2;
  }

  lemma ApplyOne(a: Callback, st: State)
    ensures ApplyAll([a], st) == Apply(a, st)
  {
    assert [a][1..] == [];
  }

  lemma ApplyThree(a: Callback, b: Callback, c: Callback, st: State)
    ensures ApplyAll([a, b, c], st) == Apply(c, Apply(b, Apply(a, st)))
  {
    assert [a, b, c][1..] == [b, c];
    ApplyTwo(b, c, Apply(a, st));
  }

  lemma ApplyTwo(a: Callback, b: Callback, st: State)
    ensures ApplyAll([a, b], st) == Apply(b, Apply(a, st))
  {
    assert [a, b][1..] == [b] && [b][1..] == [];
    assert ApplyAll([b], Apply(a, st)) == ApplyAll([], Apply(b, Apply(a, st)));
  }

  lemma ApplyFour(a: Callback, b: Callback, c: Callback, d: Callback, st: State)
    ensures ApplyAll([a, b, c, d], st) == Apply(d, Apply(c, Apply(b, Apply(a, st))))
  {
    assert [a, b, c, d][1..] == [b, c, d] && [b, c, d][1..] == [c, d];
    assert ApplyAll([b, c, d], Apply(a, st)) == ApplyAll([c, d], Apply(b, Apply(a, st)));
    ApplyTwo(c, d, Apply(b, Apply(a, st)));
  }

  lemma ServeKeepsMode(config: Config, st: State, request: Request, dns: DnsOutcome, http: Option<Response>)
    ensures var st' := Serve(config, st, request, dns, http).1;
      && st'.managerRecords == st.managerRecords && st'.fetcherRecords == st.fetcherRecords
      && st'.archiveHosts == st.archiveHosts
      && st.archive.Keys <= st'.archive.Keys
      && (!st.fetcherRecords ==> st'.archive.Keys == st.archive.Keys)
  {
  }

  lemma HostsMonotone(a: map<Request, Response>, b: map<Request, Response>)
    requires a.Keys <= b.Keys
    ensures HostsOf(a) <= HostsOf(b)
    ensures a.Keys == b.Keys ==> HostsOf(a) == HostsOf(b)
  {
    forall h | h in HostsOf(a) ensures h in HostsOf(b) {
      var k :| k in a && k.host + "." == h;
      assert k in b;
    }
    if a.Keys == b.Keys {
      forall h | h in HostsOf(b) ensures h in HostsOf(a) {
        var k :| k in b && k.host + "." == h;
        assert k in a;
      }
    }
  }

  /** In every state reached from a start in either mode, by any mode commands, requests and name
      queries, with any outcomes: the modes agree, and with forwarding the hosts kept in replay mode are
      exactly the archived ones. */
  lemma {:induction false} AlwaysConsistent(config: Config, record: bool, loaded: map<Request, Response>, steps: seq<Step>)
    requires config.Wired()
    ensures Consistent(config, Run(config, Initial(record, loaded), steps))
  {
    if steps != [] {
      var before := Run(config, Initial(record, loaded), steps[..|steps| - 1]);
      AlwaysConsistent(config, record, loaded, steps[..|steps| - 1]);
      WiredSwitches(config, before);
      match steps[|steps| - 1]
      case SwitchToRecord =>
      case SwitchToReplay =>
      case DnsQuery(_, _) =>
      case HttpRequest(request, dns, http) =>
        ServeKeepsMode(config, before, request, dns, http);
        HostsMonotone(before.archive, Serve(config, before, request, dns, http).1.archive);
    }
  }

  /** In replay mode an archived host resolves to the proxy without a name server being asked. */
  lemma ArchivedHostsResolveToProxy(config: Config, record: bool, loaded: map<Request, Response>, steps: seq<Step>,
                                    k: Request, dns: DnsOutcome)
    requires config.Forwarding()
    requires var st := Run(config, Initial(record, loaded), steps); !st.managerRecords && k in st.archive
    ensures var st := Run(config, Initial(record, loaded), steps);
      PrivateLookup(config, st, k.host + ".", dns) == (Some(config.proxyIp), st)
  {
    AlwaysConsistent(config, record, loaded, steps);
  }

  /** In replay mode a name is answered without a name server exactly when it is the text of some archived
      host, so not when that host carries a port. */
  lemma KeptNamesAreHostTexts(config: Config, record: bool, loaded: map<Request, Response>, steps: seq<Step>,
                              name: Host)
    requires config.Forwarding()
    requires !Run(config, Initial(record, loaded), steps).managerRecords
    ensures var st := Run(config, Initial(record, loaded), steps);
      name + "." in st.archiveHosts <==> exists k :: k in st.archive && k.host == name
  {
    AlwaysConsistent(config, record, loaded, steps);
    var st := Run(config, Initial(record, loaded), steps);
    if name + "." in st.archiveHosts {
      var k :| k in st.archive && k.host + "." == name + ".";
      assert (k.host + ".")[..|k.host|] == k.host && (name + ".")[..|name|] == name;
    }
  }

  /** With one archived request, to a server on another port, the server's name is not kept: it fails to
      resolve when no name server knows it. */
  lemma PortHidesHost(config: Config, k: Request, response: Response)
    requires config.Forwarding() && k.host == "example.com:8080"
    ensures var st := Initial(false, map[k := response]);
      PrivateLookup(config, st, "example.com.", DnsFails) == (None, st)
  {
    var st := Initial(false, map[k := response]);
    assert Run(config, st, []) == st;
    KeptNamesAreHostTexts(config, false, map[k := response], [], "example.com");
    assert "example.com" + "." == "example.com.";
    assert |"example.com"| != |"example.com:8080"|;
  }

  /** Whatever the callbacks around it: hosts are forgotten exactly when the archive is cleared before they
      are computed anew, or holds nothing anyway. */
  lemma CallbackOrderMatters(before: seq<Callback>, after: seq<Callback>, st: State)
    requires InitializeArchiveHosts !in after
    ensures ApplyAll(before + [InitializeArchiveHosts] + after, st).archiveHosts == {}
            <==> ClearArchive in before || st.archive == map[]
  {
    ApplyPlus(before + [InitializeArchiveHosts], after, st);
    ApplyPlus(before, [InitializeArchiveHosts], st);
    var between := ApplyAll(before, st);
    ApplyOne(InitializeArchiveHosts, between);
    HostsStay(after, Apply(InitializeArchiveHosts, between));
    ArchiveAfter(before, st);
    if between.archive != map[] {
      var k :| k in between.archive;
      assert k.host + "." in HostsOf(between.archive);
    }
  }

  lemma {:induction false} ApplyPlus(a: seq<Callback>, b: seq<Callback>, st: State)
    ensures ApplyAll(a + b, st) == ApplyAll(b, ApplyAll(a, st))
  {
    if a == [] {
      assert a + b == b;
    } else {
      TailOfSum(a, b);
      ApplyPlus(a[1..], b, Apply(a[0], st));
    }
  }

  lemma {:induction false} HostsStay(cs: seq<Callback>, st: State)
    requires InitializeArchiveHosts !in cs
    ensures ApplyAll(cs, st).archiveHosts == st.archiveHosts
  {
    if cs != [] {
      HostsStay(cs[1..], Apply(cs[0], st));
    }
  }

  lemma {:induction false} ArchiveAfter(cs: seq<Callback>, st: State)
    ensures ApplyAll(cs, st).archive == if ClearArchive in cs then map[] else st.archive
  {
    if cs != [] {
      ArchiveAfter(cs[1..], Apply(cs[0], st));
      assert cs == [cs[0]] + cs[1..];
    }
  }

  // ---------------------------------------------------------------- what a name resolves to

  /** The host has this address: the one remembered, or if there is none the one a name server gives. */
  ghost predicate HasAddress(st: State, host: Host, dns: DnsOutcome, address: Address) {
    if host in st.dnsCache && st.dnsCache[host].Some? then st.dnsCache[host] == Some(address)
    else dns == DnsAnswers(Some(address))
  }

  /** In every state: a host that is not kept resolves to its own address if that is private, to the proxy if
      it is public, and to nothing exactly if it has none. No answer ever leads past the proxy to a public
      address. */
  lemma UnkeptHostResolves(config: Config, st: State, host: Host, dns: DnsOutcome)
    requires host !in st.archiveHosts
    ensures var answer := PrivateLookup(config, st, host, dns).0;
      && (forall a :: HasAddress(st, host, dns, a) ==> answer == Some(if config.isPrivate(a) then a else config.proxyIp))
      && (answer == None <==> forall a :: !HasAddress(st, host, dns, a))
      && (answer.Some? ==> answer.value == config.proxyIp || config.isPrivate(answer.value))
  {
    if host in st.dnsCache && st.dnsCache[host].Some? {
      assert HasAddress(st, host, dns, st.dnsCache[host].value);
    } else if dns.DnsAnswers? && dns.address.Some? {
      assert HasAddress(st, host, dns, dns.address.value);
    }
  }

  /** Asking again gives the same answer, whatever a name server would say by now, and changes nothing more;
      and no other host is touched. */
  lemma AnswersAreRemembered(config: Config, st: State, host: Host, dns: DnsOutcome, again: DnsOutcome)
    ensures var (answer, st') := PrivateLookup(config, st, host, dns);
      && (answer.Some? ==> PrivateLookup(config, st', host, again) == (answer, st'))
      && st' == st.(dnsCache := st'.dnsCache)
      && (forall h :: h != host ==> (h in st'.dnsCache <==> h in st.dnsCache)
                                    && (h in st.dnsCache ==> st'.dnsCache[h] == st.dnsCache[h]))
  {
  }

  /** An address that was learned is remembered until the archive is cleared for recording. */
  lemma {:induction false} AddressesStay(config: Config, st: State, steps: seq<Step>, host: Host)
    requires config.Wired() && NoRecordSwitch(steps) && host in st.dnsCache && st.dnsCache[host].Some?
    ensures var later := Run(config, st, steps);
      host in later.dnsCache && later.dnsCache[host] == st.dnsCache[host]
  {
    if steps != [] {
      var before := steps[..|steps| - 1];
      AddressesStay(config, st, before, host);
      StepRemembers(config, Run(config, st, before), steps[|steps| - 1], host);
    }
  }

  lemma StepRemembers(config: Config, st: State, step: Step, host: Host)
    requires config.Wired() && !step.SwitchToRecord? && host in st.dnsCache && st.dnsCache[host].Some?
    ensures host in Next(config, st, step).dnsCache && Next(config, st, step).dnsCache[host] == st.dnsCache[host]
  {
    match step
    case SwitchToReplay =>
      WiredSwitches(config, st);
      hide ToReplay;
    case DnsQuery(asked, dns) => LookupRemembers(st.dnsCache, asked, dns, host);
    case HttpRequest(request, dns, http) =>
      LookupRemembers(st.dnsCache, request.host, dns, host);
      hide Inject, FromArchive, WithLength, Request.Key, RealLookup;
  }

  lemma LookupRemembers(cache: map<Host, Option<Address>>, asked: Host, dns: DnsOutcome, host: Host)
    requires host in cache && cache[host].Some?
    ensures var later := RealLookup(cache, asked, dns).1; host in later && later[host] == cache[host]
  {
  }

  // ---------------------------------------------------------------- what a request is served

  /** A request the archive holds is answered from it, in both modes, and one it does not hold is fetched when
      recording exactly if its host has an address and the fetch succeeds; then it is archived, and
      otherwise nothing is served and the archive stays as it is. */
  lemma RecordingFetchesOnce(config: Config, st: State, request: Request, dns: DnsOutcome, http: Option<Response>)
    ensures var key := request.Key();
      var (reply, st') := Serve(config, st, request, dns, http);
      && (key in st.archive ==>
            reply == Reply(Some(Inject(st.archive[key], config.script, config.zlib)), false, Some(key)))
      && (st.fetcherRecords && key !in st.archive ==>
            && (reply.fetched <==> http.Some? && exists a :: HasAddress(st, request.host, dns, a))
            && (if reply.fetched
                then && reply.served == Some(Inject(http.value, config.script, config.zlib)) && reply.entry == Some(key)
                     && st'.archive.Keys == st.archive.Keys + {key} && LooksLike(http.value, st'.archive[key])
                else reply == Reply(None, false, None) && st'.archive == st.archive))
  {
    hide Inject, AfterSending;
    if st.fetcherRecords && request.Key() !in st.archive {
      RecordMeans(config, st, request, dns, http);
      var (reply, stored) := Record(config, st, request, dns, http);
      SendingKeepsKeys(config, stored, reply);
      hide Record;
      if reply.fetched {
        SendKeepsEntries(config, stored, reply, request.Key());
      }
    }
  }

  lemma SendingKeepsKeys(config: Config, st: State, reply: Reply)
    ensures AfterSending(config, st, reply).archive.Keys == st.archive.Keys
    ensures reply.entry == None ==> AfterSending(config, st, reply) == st
  {
    hide WithLength;
  }

  lemma RecordMeans(config: Config, st: State, request: Request, dns: DnsOutcome, http: Option<Response>)
    requires request.Key() !in st.archive
    ensures var key := request.Key();
      var (reply, st') := Record(config, st, request, dns, http);
      && (reply.fetched <==> http.Some? && exists a :: HasAddress(st, request.host, dns, a))
      && (if reply.fetched
          then && reply == Reply(Some(Inject(http.value, config.script, config.zlib)), true, Some(key))
               && st'.archive == st.archive[key := http.value]
          else reply == Reply(None, false, None) && st'.archive == st.archive)
  {
    hide Inject;
    if request.host in st.dnsCache && st.dnsCache[request.host].Some? {
      assert HasAddress(st, request.host, dns, st.dnsCache[request.host].value);
    } else if dns.DnsAnswers? && dns.address.Some? {
      assert HasAddress(st, request.host, dns, dns.address.value);
    }
  }

  /** In replay mode a request that is not in the archive is served only if it carries a condition and the
      archive holds its form without conditions: then that page, or the response for the status that the
      condition comes to, if the page itself was found and that status differs from 200. */
  lemma ConditionalIsServed(config: Config, st: State, request: Request, dns: DnsOutcome, http: Option<Response>)
    requires !st.fetcherRecords && request.Key() !in st.archive
    ensures var key := WithoutConditions(request).Key();
      var served := Serve(config, st, request, dns, http).0.served;
      var conditional := exists h :: h in {"if-none-match", "if-match", "if-modified-since", "if-unmodified-since"}
                                     && h in request.headers;
      if !conditional || key !in st.archive then served == None
      else
        var page := st.archive[key];
        var status := config.conditionalStatus(request, page);
        served == Some(Inject(if page.status == 200 && status != 200 then config.createResponse(status) else page,
                              config.script, config.zlib))
  {
    hide Inject, WithoutConditions;
  }

  /** A page that is sent as it was recorded, and is not chunked, declares its length from then on. */
  lemma SendingLeavesLength(config: Config, st: State, request: Request, dns: DnsOutcome, http: Option<Response>)
    ensures var key := request.Key();
      var (reply, st') := Serve(config, st, request, dns, http);
      reply.entry == Some(key) ==>
        && key in st'.archive
        && (PointIn(st'.archive[key], config.script, config.zlib).None?
            && GetHeader(st'.archive[key].headers, "transfer-encoding") != Some("chunked")
            ==> GetHeader(st'.archive[key].headers, LENGTH_KEY).Some?)
  {
    var key := request.Key();
    hide Inject;
    var (reply, st') := Serve(config, st, request, dns, http);
    if reply.entry == Some(key) {
      var stored := if st.fetcherRecords then Record(config, st, request, dns, http).1 else st;
      assert key in stored.archive;
      var page := stored.archive[key];
      if PointIn(page, config.script, config.zlib).None? {
        GainedLength(page);
      }
    }
  }

  lemma GainedLength(page: Response)
    ensures GetHeader(WithLength(page).headers, "transfer-encoding") != Some("chunked") ==>
              GetHeader(WithLength(page).headers, LENGTH_KEY).Some?
  {
    GainsLength(page);
    CountZero(WithLength(page).headers, LENGTH_KEY);
  }

  // ---------------------------------------------------------------- record and replay agree

  predicate NoRecordSwitch(steps: seq<Step>) {
    steps != [] ==> !steps[|steps| - 1].SwitchToRecord? && NoRecordSwitch(steps[..|steps| - 1])
  }

  /** Two responses alike in everything but perhaps the content-length they declare. */
  ghost predicate LooksLike(a: Response, b: Response) {
    && a.version == b.version && a.status == b.status && a.reason == b.reason
    && a.data == b.data && a.delays == b.delays
    && forall k :: k != LENGTH_KEY ==> GetHeader(a.headers, k) == GetHeader(b.headers, k)
  }

  /** What of an archived response a later reply can show. */
  ghost predicate SameReply(config: Config, a: Response, b: Response) {
    LooksLike(a, b) && LooksLike(Inject(a, config.script, config.zlib), Inject(b, config.script, config.zlib))
  }

  /** A content-length gained by sending does not change what is injected next time. */
  lemma LengthKeepsInjection(config: Config, r: Response)
    requires PointIn(r, config.script, config.zlib).None?
    ensures SameReply(config, r, WithLength(r))
  {
    var r' := WithLength(r);
    if r' != r {
      var value := Print(|Concat(r.data)|, 10);
      AppendedIsSet(r.headers, LENGTH_KEY, value);
      forall k | k != LENGTH_KEY ensures GetHeader(r'.headers, k) == GetHeader(r.headers, k) {
        SetThenGet(r.headers, LENGTH_KEY, value, k);
      }
      assert LooksLike(r, r') && TextOf(r', config.zlib) == TextOf(r, config.zlib);
    }
  }

  lemma SendKeepsEntries(config: Config, st: State, reply: Reply, k: Request)
    requires k in st.archive
    ensures k in AfterSending(config, st, reply).archive
    ensures SameReply(config, st.archive[k], AfterSending(config, st, reply).archive[k])
  {
    if reply.entry == Some(k) && PointIn(st.archive[k], config.script, config.zlib).None? {
      LengthKeepsInjection(config, st.archive[k]);
    }
  }

  lemma StepKeepsEntries(config: Config, st: State, step: Step, k: Request)
    requires config.Wired() && !step.SwitchToRecord? && k in st.archive
    ensures k in Next(config, st, step).archive
    ensures SameReply(config, st.archive[k], Next(config, st, step).archive[k])
  {
    match step
    case SwitchToReplay => WiredSwitches(config, st);
    case DnsQuery(_, _) =>
    case HttpRequest(request, dns, http) =>
      if st.fetcherRecords {
        var (reply, st') := Record(config, st, request, dns, http);
        SendKeepsEntries(config, st', reply, k);
      } else {
        SendKeepsEntries(config, st, FromArchive(config, st, request), k);
      }
  }

  lemma {:induction false} RunKeepsEntries(config: Config, st: State, steps: seq<Step>, k: Request)
    requires config.Wired() && NoRecordSwitch(steps) && k in st.archive
    ensures k in Run(config, st, steps).archive
    ensures SameReply(config, st.archive[k], Run(config, st, steps).archive[k])
  {
    if steps != [] {
      var before := steps[..|steps| - 1];
      RunKeepsEntries(config, st, before, k);
      StepKeepsEntries(config, Run(config, st, before), steps[|steps| - 1], k);
    }
  }

  /** A request answered under its own key, at any moment and in either mode; then any steps that do not
      clear the archive; then the same key again, in either mode: it is not fetched again, the archived
      response is the one first stored, and the reply is the first reply, but perhaps for the
      content-length that sending adds. */
  lemma RecordedIsReplayed(config: Config, st: State, first: Step, steps: seq<Step>, again: Step)
    requires config.Wired() && NoRecordSwitch(steps)
    requires first.HttpRequest? && again.HttpRequest? && first.request.Key() == again.request.Key()
    requires Serve(config, st, first.request, first.dns, first.http).0.entry == Some(first.request.Key())
    ensures var k := first.request.Key();
      var (reply, after) := Serve(config, st, first.request, first.dns, first.http);
      var later := Run(config, after, steps);
      var (reply', _) := Serve(config, later, again.request, again.dns, again.http);
      && k in after.archive && k in later.archive && LooksLike(after.archive[k], later.archive[k])
      && (reply.fetched ==> LooksLike(first.http.value, after.archive[k]))
      && reply.served.Some? && reply'.served.Some? && !reply'.fetched && reply'.entry == Some(k)
      && LooksLike(reply.served.value, reply'.served.value)
  {
    hide Inject;
    var k := first.request.Key();
    var (reply, after) := Serve(config, st, first.request, first.dns, first.http);
    var stored := if st.fetcherRecords then Record(config, st, first.request, first.dns, first.http).1 else st;
    assert k in stored.archive && reply.served == Some(Inject(stored.archive[k], config.script, config.zlib));
    SendKeepsEntries(config, stored, reply, k);
    RunKeepsEntries(config, after, steps, k);
  }

  // ---------------------------------------------------------------- from the archive to the client

  /** The whole way of a chunked page: its chunks, with one script block put into one of them, reach the
      client if and only if no sleep fails, no chunk is empty, and neither the chunks nor the script contain
      the edit separator. With a separator, splitting makes more chunks than there are delays, and the last
      ones are silently not sent. */
  lemma InjectedBodyArrives(r: Response, script: string, z: Zlib, useDelays: bool, tail: string)
    requires r.Aligned() && r.Chunked() && !r.Compressed() && PointIn(r, script, z).Some?
    ensures var sent := Inject(r, script, z);
      ChunkedCoding.ReadBody(BodyBytes(sent, useDelays) + tail) == ChunkedCoding.Body(sent.data, tail)
      <==> && SendsAll(r, useDelays) && (forall c :: c in r.data ==> c != "")
           && AllFree(r.data, CHUNK_EDIT_SEPARATOR) && !Contains(script, CHUNK_EDIT_SEPARATOR)
    ensures OneChunkGrew(r.data, Inject(r, script, z).data, Block(script))
            <==> AllFree(r.data, CHUNK_EDIT_SEPARATOR) && !Contains(script, CHUNK_EDIT_SEPARATOR)
  {
    hide Inject, BodyBytes, PointIn, OneChunkGrew;
    var sent := Inject(r, script, z);
    InjectKeepsHeaders(r, script, z);
    InjectKeepsDelays(r, script, z);
    InjectInsertsOneBlock(r, script, z);
    NothingDropped(sent, useDelays, tail);
    if |sent.data| == |r.data| {
      GrownChunksEmpty(r.data, sent.data, Block(script));
    }
  }

  /** The same for a page that is not chunked. Every length it declares tells what is written if and only
      if no byte of the new body is lost and the lengths recorded behind the first are right. Free of
      separators, the new body is lost in part only where the old one would be. */
  lemma InjectedLengthIsWritten(r: Response, script: string, z: Zlib, useDelays: bool)
    requires PointIn(r, script, z).Some? && !r.Chunked()
    ensures var page := Inject(r, script, z);
      LengthsSay(WithLength(page).headers, |BodyBytes(WithLength(page), useDelays)|)
      <==> SendsEveryByte(page, useDelays) && LengthsSay(LaterHeaders(r.headers), |Concat(page.data)|)
    ensures r.Aligned() && !r.Compressed()
            && AllFree(r.data, CHUNK_EDIT_SEPARATOR) && !Contains(script, CHUNK_EDIT_SEPARATOR) ==>
              SendsEveryByte(Inject(r, script, z), useDelays) == SendsEveryByte(r, useDelays)
  {
    hide BodyBytes, Concat, Inject, PointIn, OneChunkGrew, SendsEveryByte;
    var page := Inject(r, script, z);
    InjectKeepsHeaders(r, script, z);
    InjectDeclaresLength(r, script, z);
    assert WithLength(page) == page;
    DeclaredLengthIsWritten(page, useDelays);
    var n, written := |Concat(page.data)|, |BodyBytes(page, useDelays)|;
    if LengthsSay(page.headers, written) {
      FirstLengthSays(page.headers, n, written);
    }
    if r.Aligned() && !r.Compressed()
       && AllFree(r.data, CHUNK_EDIT_SEPARATOR) && !Contains(script, CHUNK_EDIT_SEPARATOR) {
      InjectInsertsOneBlock(r, script, z);
      InjectKeepsDelays(r, script, z);
      SameBytesReached(r, page, Block(script), useDelays);
    }
  }

  const SPLIT_PAGE := Response(11, 200, "OK", [("content-type", "text/html"), ("transfer-encoding", "chunked")],
                               ["<head>" + CHUNK_EDIT_SEPARATOR + "A", "B"], Timed(0, [0, 0]))

  /** A page of two chunks, one holding the separator: it is split into three, and the last is not sent. */
  lemma SeparatorExample(z: Zlib)
    ensures SPLIT_PAGE.Aligned()
    ensures var sent := Inject(SPLIT_PAGE, "x()", z);
      && sent.data == ["<head>" + Block("x()"), "A", "B"]
      && ChunkedCoding.ReadBody(BodyBytes(sent, true)) == ChunkedCoding.Body(["<head>" + Block("x()"), "A"], "")
  {
    SplitPageHeaders();
    SplitPagePoint(z);
    SplitPageData(z);
    var sent := Inject(SPLIT_PAGE, "x()", z);
    InjectKeepsHeaders(SPLIT_PAGE, "x()", z);
    InjectKeepsDelays(SPLIT_PAGE, "x()", z);
    hide Inject, Block, ChunkedCoding.ReadBody;
    ClientReads(sent, true, "");
    assert BodyBytes(sent, true) + "" == BodyBytes(sent, true);
    SentMeans(sent, true, 1);
    SentMeans(sent, true, 2);
    assert Reached(sent, true, 1) && !Reached(sent, true, 2);
    var chunks := ["<head>" + Block("x()"), "A"];
    assert sent.data[..2] == chunks;
    assert Completes(sent.data, sent.delays.data, true);
    assert ChunkedCoding.FirstEmpty(chunks) == 2;
  }

  lemma SplitPageHeaders()
    ensures SPLIT_PAGE.IsText() && IsHtml(SPLIT_PAGE) && !SPLIT_PAGE.Compressed() && SPLIT_PAGE.Chunked()
  {
    var h := SPLIT_PAGE.headers;
    assert h[1..] == [("transfer-encoding", "chunked")] && h[1..][1..] == [];
    assert "content-type"[0] == 'c' && "transfer-encoding"[0] == 't' && "content-encoding"[8] == 'e';
    assert GetHeader(h, "content-encoding") == GetHeader(h[1..], "content-encoding") == None;
    assert GetHeader(h, "transfer-encoding") == GetHeader(h[1..], "transfer-encoding") == Some("chunked");
  }

  const SPLIT_TEXT := "<head>" + (CHUNK_EDIT_SEPARATOR + ("A" + (CHUNK_EDIT_SEPARATOR + "B")))

  lemma SplitPagePoint(z: Zlib)
    ensures TextOf(SPLIT_PAGE, z) == Some(SPLIT_TEXT) && PointIn(SPLIT_PAGE, "x()", z) == Some(6)
  {
    SplitPageHeaders();
    JoinPieces("<head>", "A", "B");
    NoCallInPage();
    HeadAtStart("<head>", CHUNK_EDIT_SEPARATOR + ("A" + (CHUNK_EDIT_SEPARATOR + "B")));
    hide FindTag, FindFrom, MatchEnd, Find;
  }

  lemma NoCallInPage()
    ensures Find(SPLIT_TEXT, "x()") < 0
  {
    assert 'x' !in CHUNK_EDIT_SEPARATOR && 'x' !in "<head>";
    hide Find;
    AbsentChar(SPLIT_TEXT, "x()");
  }

  lemma JoinPieces(a: string, b: string, c: string)
    ensures Join(CHUNK_EDIT_SEPARATOR, [a + CHUNK_EDIT_SEPARATOR + b, c])
            == a + (CHUNK_EDIT_SEPARATOR + (b + (CHUNK_EDIT_SEPARATOR + c)))
    ensures Join(CHUNK_EDIT_SEPARATOR, [a, b, c]) == a + (CHUNK_EDIT_SEPARATOR + (b + (CHUNK_EDIT_SEPARATOR + c)))
  {
    assert [a + CHUNK_EDIT_SEPARATOR + b, c][1..] == [c];
    assert [a, b, c][1..] == [b, c] && [b, c][1..] == [c];
    assert Join(CHUNK_EDIT_SEPARATOR, [b, c]) == b + CHUNK_EDIT_SEPARATOR + c;
  }

  lemma HeadAtStart(head: string, rest: string)
    requires head == "<head>"
    ensures MatchEnd(head + rest, HEAD_TAG) == Some(6)
  {
    var text := head + rest;
    assert TagAt(text, HEAD_TAG, 0);
    assert FindTag(text, HEAD_TAG, 0) == Some(0);
    assert text[5..6] == ">";
    assert At(text, ">", 5);
  }

  lemma SplitPageData(z: Zlib)
    ensures Inject(SPLIT_PAGE, "x()", z).data == ["<head>" + Block("x()"), "A", "B"]
  {
    SplitPageHeaders();
    SplitPagePoint(z);
    SplitPieces("<head>", Block("x()"), "A", "B");
    BlockIsPlain();
    hide Block, Split, Join;
    assert Inject(SPLIT_PAGE, "x()", z).data == Split(InsertAt(SPLIT_TEXT, 6, "x()"), CHUNK_EDIT_SEPARATOR);
  }

  lemma BlockIsPlain()
    ensures '[' !in Block("x()")
  {
  }

  lemma SplitPieces(head: string, block: string, b: string, c: string)
    requires '[' !in head && '[' !in block && '[' !in b && '[' !in c
    ensures var text := head + (CHUNK_EDIT_SEPARATOR + (b + (CHUNK_EDIT_SEPARATOR + c)));
      && |head| <= |text|
      && Split(text[..|head|] + (block + text[|head|..]), CHUNK_EDIT_SEPARATOR) == [head + block, b, c]
  {
    var rest := CHUNK_EDIT_SEPARATOR + (b + (CHUNK_EDIT_SEPARATOR + c));
    JoinPieces(head + block, b, c);
    InsertBehind(head, block, rest);
    AbsentChar(head + block, CHUNK_EDIT_SEPARATOR);
    AbsentChar(b, CHUNK_EDIT_SEPARATOR);
    AbsentChar(c, CHUNK_EDIT_SEPARATOR);
    hide Join, Split;
    ChunkCodec([head + block, b, c], "");
  }

  lemma InsertBehind(head: string, block: string, rest: string)
    ensures (head + rest)[..|head|] + (block + (head + rest)[|head|..]) == (head + block) + rest
  {
  }

  lemma InjectKeepsDelays(r: Response, script: string, z: Zlib)
    ensures Inject(r, script, z).delays == r.delays
  {
  }

  /** A chunk that grew was not empty before, and no other chunk changed. */
  lemma GrownChunksEmpty(before: seq<string>, after: seq<string>, block: string)
    requires OneChunkGrew(before, after, block)
    ensures |after| == |before|
    ensures forall i :: 0 <= i < |before| ==> (after[i] == "" <==> before[i] == "")
    ensures (forall c :: c in before ==> c != "") <==> (forall c :: c in after ==> c != "")
  {
    var i: nat, o: nat :| GrewAt(before, after, block, i, o);
    assert forall j :: 0 <= j < |before| ==> (after[j] == "" <==> before[j] == "");
    EmptyAt(before);
    EmptyAt(after);
  }

  lemma EmptyAt(chunks: seq<string>)
    ensures (forall c :: c in chunks ==> c != "") <==> forall i :: 0 <= i < |chunks| ==> chunks[i] != ""
  {
    assert forall i :: 0 <= i < |chunks| ==> chunks[i] in chunks;
  }

  lemma SameBytesReached(r: Response, page: Response, block: string, useDelays: bool)
    requires OneChunkGrew(r.data, page.data, block) && page.delays == r.delays
    ensures SendsEveryByte(page, useDelays) == SendsEveryByte(r, useDelays)
  {
    GrownChunksEmpty(r.data, page.data, block);
    forall i: nat ensures Reached(page, useDelays, i) == Reached(r, useDelays, i) {
    }
  }

  lemma InjectDeclaresLength(r: Response, script: string, z: Zlib)
    requires PointIn(r, script, z).Some? && !r.Chunked()
    ensures var page := Inject(r, script, z);
      && GetHeader(page.headers, LENGTH_KEY) == Some(Print(|Concat(page.data)|, 10))
      && (LengthsSay(page.headers, |Concat(page.data)|) <==> LengthsSay(LaterHeaders(r.headers), |Concat(page.data)|))
  {
    WithTextDeclaresLength(r, InsertAt(TextOf(r, z).value, PointIn(r, script, z).value, script), z);
  }

  lemma FirstLengthSays(headers: seq<Header>, n: nat, m: nat)
    requires GetHeader(headers, LENGTH_KEY) == Some(Print(n, 10)) && LengthsSay(headers, m)
    ensures m == n
  {
    GetIsEntry(headers, LENGTH_KEY);
    SamePrint(m, n);
  }

  lemma {:induction false} GetIsEntry(headers: seq<Header>, key: string)
    ensures GetHeader(headers, key).Some? ==> (key, GetHeader(headers, key).value) in headers
  {
    if headers != [] && headers[0].0 != key {
      GetIsEntry(headers[1..], key);
    }
  }

  // ---------------------------------------------------------------- the server

  class ReplayServer {
    const config: Config
    var isRecordMode: bool
    var fetcherRecords: bool
    var archive: map<Request, Response>
    var dnsCache: map<Host, Option<Address>>
    var archiveHosts: set<Host>

    function Value(): State
      reads this
    {
      State(isRecordMode, fetcherRecords, archive, dnsCache, archiveHosts)
    }

    /** `replay`: the archive is loaded unless it is to be recorded, before its hosts are first computed. */
    constructor (config: Config, record: bool, loaded: map<Request, Response>)
      ensures this.config == config && Value() == Initial(record, loaded)
      ensures isRecordMode == record && archive == if record then map[] else loaded
    {
      var archive := if record then map[] else loaded;
      this.config, this.isRecordMode, this.fetcherRecords := config, record, record;
      this.archive, this.dnsCache, this.archiveHosts := archive, map[], HostsOf(archive);
    }

    method Call(callback: Callback)
      modifies this
      ensures Value() == Apply(callback, old(Value()))
    {
      match callback {
        case ClearDnsCache => dnsCache := map[];
        case ClearArchive => archive := map[];
        case InitializeArchiveHosts => archiveHosts := HostsOf(archive);
        case FetchFromWeb => fetcherRecords := true;
        case FetchFromArchive => fetcherRecords := false;
      }
    }

    method CallAll(callbacks: seq<Callback>)
      modifies this
      ensures Value() == ApplyAll(callbacks, old(Value()))
    {
      for i := 0 to |callbacks|
        invariant ApplyAll(callbacks[i..], Value()) == ApplyAll(callbacks, old(Value()))
      {
        Call(callbacks[i]);
        assert callbacks[i..][1..] == callbacks[i + 1..];
      }
    }

    /** Just after a switch to record, archive, host set and DNS cache are empty. */
    method SetRecordMode()
      modifies this
      ensures Value() == ToRecord(config, old(Value()))
      ensures config.Wired() ==> archive == map[] && dnsCache == map[]
      ensures config.Forwarding() ==> archiveHosts == {}
    {
      assert config.Forwarding() ==> config.Wired();
      if config.Wired() {
        WiredSwitches(config, Value());
      }
      isRecordMode := true;
      CallAll(config.wiring.record);
    }

    method SetReplayMode()
      modifies this
      ensures Value() == ToReplay(config, old(Value()))
    {
      isRecordMode := false;
      CallAll(config.wiring.replay);
    }

    method ResolveReal(host: Host, outcome: DnsOutcome) returns (address: Option<Address>)
      modifies `dnsCache
      ensures (address, dnsCache) == RealLookup(old(dnsCache), host, outcome)
    {
      if host in dnsCache && dnsCache[host].Some? {
        return dnsCache[host];
      }
      match outcome {
        case DnsFails => address := None;
        case DnsAnswers(a) => address := a; dnsCache := dnsCache[host := a];
      }
    }

    method Resolve(host: Host, outcome: DnsOutcome) returns (address: Option<Address>)
      modifies `dnsCache
      ensures (address, Value()) == PrivateLookup(config, old(Value()), host, outcome)
    {
      if host in archiveHosts {
        return Some(config.proxyIp);
      }
      address := ResolveReal(host, outcome);
      if address.Some? && !config.isPrivate(address.value) {
        address := Some(config.proxyIp);
      }
    }

    method Fetch(request: Request, dns: DnsOutcome, http: Option<Response>) returns (reply: Reply)
      modifies this
      ensures (reply, Value()) == if old(fetcherRecords) then Record(config, old(Value()), request, dns, http)
                                  else (FromArchive(config, old(Value()), request), old(Value()))
    {
      if !fetcherRecords {
        return FromArchive(config, Value(), request);
      }
      var key := request.Key();
      var response: Response;
      if key in archive {
        response := archive[key];
        reply := Reply(Some(Inject(response, config.script, config.zlib)), false, Some(key));
      } else {
        var address := ResolveReal(request.host, dns);
        if address.None? || http.None? {
          return Reply(None, false, None);
        }
        response := http.value;
        archive := archive[key := response];
        reply := Reply(Some(Inject(response, config.script, config.zlib)), true, Some(key));
      }
    }

    method HandleRequest(request: Request, dns: DnsOutcome, http: Option<Response>) returns (reply: Reply)
      modifies this
      ensures (reply, Value()) == Serve(config, old(Value()), request, dns, http)
    {
      reply := Fetch(request, dns, http);
      if reply.entry.Some? && reply.entry.value in archive {
        var response := archive[reply.entry.value];
        if PointIn(response, config.script, config.zlib).None? {
          archive := archive[reply.entry.value := WithLength(response)];
        }
      }
    }
  }
}
