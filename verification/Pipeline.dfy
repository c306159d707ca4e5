/** The job pipeline (stoneridge.py, srmaster.py, srcloner.py, srdeferrer.py, srscheduler.py): requests
    travel from the incoming queue through the cloner, possibly deferred and tried again, and fan out
    over netconfigs and then operating systems. */
module Pipeline {
  import opened Basics

  const NETCONFIGS := ["broadband", "umts", "gsm"]
  const OPERATING_SYSTEMS := ["linux", "mac", "windows"]

  datatype Message = Message(
    nightly: bool, ldap: string, sha: string, netconfigs: seq<string>, systems: seq<string>,
    srid: Option<string>, attempt: int)

  predicate AllIn(names: seq<string>, known: seq<string>) {
    names != [] ==> names[0] in known && AllIn(names[1..], known)
  }

  /** `enqueue`: validation and defaults; None is the ValueError. */
  function Enqueued(m: Message): Option<Message> {
    if !AllIn(m.netconfigs, NETCONFIGS) || !AllIn(m.systems, OPERATING_SYSTEMS) then None
    else if m.nightly && (m.ldap != "" || m.sha != "") then None
    else if !m.nightly && (m.ldap == "" || m.sha == "") then None
    else Some(m.(netconfigs := if m.netconfigs == [] then NETCONFIGS else m.netconfigs,
                 systems := if m.systems == [] then OPERATING_SYSTEMS else m.systems))
  }

  method Validated(m: Message) returns (result: Option<Message>)
    ensures result == Enqueued(m)
  {
    var netconfigs, systems := m.netconfigs, m.systems;
    if netconfigs == [] {
      netconfigs := NETCONFIGS;
    } else {
      for i := 0 to |netconfigs|
        invariant AllIn(netconfigs, NETCONFIGS) == AllIn(netconfigs[i..], NETCONFIGS)
      {
        assert netconfigs[i..][1..] == netconfigs[i + 1..];
        if netconfigs[i] !in NETCONFIGS {
          return None;
        }
      }
    }
    if systems == [] {
      systems := OPERATING_SYSTEMS;
    } else {
      for i := 0 to |systems|
        invariant AllIn(systems, OPERATING_SYSTEMS) == AllIn(systems[i..], OPERATING_SYSTEMS)
      {
        assert systems[i..][1..] == systems[i + 1..];
        if systems[i] !in OPERATING_SYSTEMS {
          return None;
        }
      }
    }
    if m.nightly && (m.ldap != "" || m.sha != "") {
      return None;
    }
    if !m.nightly && (m.ldap == "" || m.sha == "") {
      return None;
    }
    result := Some(m.(netconfigs := netconfigs, systems := systems));
  }

  // ---------------------------------------------------------------- the cloner

  /** What the cloner finds and what goes wrong: directory listings, whether the downloads work, and
      whether the deferrer can be started. */
  datatype Site = Site(files: seq<string>, distFiles: seq<string>, downloads: bool, deferrerStarts: bool)

  datatype Verdict = Cloned | Deferred(next: Message) | Dropped(mailed: bool)

  function Subdirs(systems: seq<string>): seq<string> {
    (if "linux" in systems then ["try-linux64"] else [])
    + (if "mac" in systems then ["try-macosx64"] else [])
    + (if "windows" in systems then ["try-win32"] else [])
  }

  /** `exit_and_maybe_defer`: mail and drop after the last attempt, otherwise defer with the next one. */
  function MaybeDefer(m: Message, maxAttempts: int, site: Site): Verdict {
    if m.attempt + 1 > maxAttempts then Dropped(m.ldap != "")
    else if site.deferrerStarts then Deferred(m.(attempt := m.attempt + 1))
    else Dropped(false)
  }

  /** The arguments the master starts the cloner with: a nightly run gets no lists and no ldap. */
  function ClonerArgs(m: Message): Message {
    if m.nightly then m.(ldap := "", sha := "", netconfigs := [], systems := []) else m
  }

  predicate SomeMissing(subdirs: seq<string>, files: seq<string>) {
    subdirs != [] && (subdirs[0] !in files || SomeMissing(subdirs[1..], files))
  }

  /** The cloner's decision. Unknown names are refused by its argument parser; a try run without systems
      has no first directory and ends in an IndexError. */
  function CloneVerdict(m: Message, maxAttempts: int, site: Site): Verdict {
    if !AllIn(m.netconfigs, NETCONFIGS) || !AllIn(m.systems, OPERATING_SYSTEMS) then Dropped(false)
    else if !m.nightly && SomeMissing(Subdirs(m.systems), site.files) then MaybeDefer(m, maxAttempts, site)
    else if !m.nightly && Subdirs(m.systems) == [] then Dropped(false)
    else if !m.nightly && site.distFiles == [] then Dropped(m.ldap != "")
    else if m.nightly && site.files == [] then MaybeDefer(m, maxAttempts, site)
    else if site.downloads then Cloned
    else Dropped(false)
  }

  method RunCloner(m: Message, maxAttempts: int, site: Site) returns (verdict: Verdict)
    ensures verdict == CloneVerdict(m, maxAttempts, site)
  {
    if !AllIn(m.netconfigs, NETCONFIGS) || !AllIn(m.systems, OPERATING_SYSTEMS) {
      return Dropped(false);
    }
    var files := site.files;
    if !m.nightly {
      var subdirs := [];
      if "linux" in m.systems {
        subdirs := subdirs + ["try-linux64"];
      }
      if "mac" in m.systems {
        subdirs := subdirs + ["try-macosx64"];
      }
      if "windows" in m.systems {
        subdirs := subdirs + ["try-win32"];
      }
      assert subdirs == Subdirs(m.systems);
      for i := 0 to |subdirs|
        invariant SomeMissing(subdirs, files) == SomeMissing(subdirs[i..], files)
      {
        if subdirs[i] !in files {
          return MaybeDefer(m, maxAttempts, site);
        }
        assert subdirs[i..][1..] == subdirs[i + 1..];
      }
      if subdirs == [] {
        return Dropped(false);
      }
      if site.distFiles == [] {
        return Dropped(m.ldap != "");
      }
      files := site.distFiles;
    }
    if files == [] {
      return MaybeDefer(m, maxAttempts, site);
    }
    verdict := if site.downloads then Cloned else Dropped(false);
  }

  function Subdir(system: string): string {
    if system == "linux" then "try-linux64" else if system == "mac" then "try-macosx64" else "try-win32"
  }

  /** Whether the builds a message asks for are all listed. */
  ghost predicate Available(m: Message, site: Site) {
    if m.nightly then site.files != []
    else forall s :: s in m.systems ==> Subdir(s) in site.files
  }

  /** The cloner succeeds exactly when every build asked for is listed and can be downloaded; it defers
      exactly when one is missing, attempts are left and the deferrer starts; and it sends a mail, to who
      can be reached, exactly when one is missing after the last attempt or a listed one turns out empty. */
  lemma VerdictMeans(m: Message, maxAttempts: int, site: Site)
    requires AllIn(m.netconfigs, NETCONFIGS) && AllIn(m.systems, OPERATING_SYSTEMS)
    ensures CloneVerdict(m, maxAttempts, site) == Cloned
            <==> Available(m, site) && site.downloads && (!m.nightly ==> m.systems != [] && site.distFiles != [])
    ensures CloneVerdict(m, maxAttempts, site) == Deferred(m.(attempt := m.attempt + 1))
            <==> !Available(m, site) && m.attempt < maxAttempts && site.deferrerStarts
    ensures CloneVerdict(m, maxAttempts, site) == Dropped(true)
            <==> && m.ldap != ""
                 && (|| (!Available(m, site) && m.attempt >= maxAttempts)
                     || (!m.nightly && Available(m, site) && m.systems != [] && site.distFiles == []))
  {
    hide AllIn, SomeMissing, Subdirs, Subdir;
    if !m.nightly {
      MissingMeans(m.systems, site.files);
    }
  }

  lemma {:induction false} AllInMeans(names: seq<string>, known: seq<string>)
    ensures AllIn(names, known) <==> forall n :: n in names ==> n in known
  {
    if names != [] {
      AllInMeans(names[1..], known);
      assert names == [names[0]] + names[1..];
    }
  }

  lemma {:induction false} SomeMissingMeans(subdirs: seq<string>, files: seq<string>)
    ensures SomeMissing(subdirs, files) <==> exists d :: d in subdirs && d !in files
  {
    if subdirs != [] {
      SomeMissingMeans(subdirs[1..], files);
      assert subdirs == [subdirs[0]] + subdirs[1..];
    }
  }

  lemma MissingMeans(systems: seq<string>, files: seq<string>)
    requires AllIn(systems, OPERATING_SYSTEMS)
    ensures SomeMissing(Subdirs(systems), files) <==> exists s :: s in systems && Subdir(s) !in files
    ensures Subdirs(systems) == [] <==> systems == []
  {
    AllInMeans(systems, OPERATING_SYSTEMS);
    SomeMissingMeans(Subdirs(systems), files);
    hide AllIn, SomeMissing;
    forall d ensures d in Subdirs(systems) <==> exists s :: s in systems && Subdir(s) == d {
      if "linux" in systems { assert Subdir("linux") == "try-linux64"; }
      if "mac" in systems { assert Subdir("mac") == "try-macosx64"; }
      if "windows" in systems { assert Subdir("windows") == "try-win32"; }
    }
    if systems != [] {
      assert systems[0] in systems;
      assert Subdir(systems[0]) in Subdirs(systems);
    }
  }

  // ---------------------------------------------------------------- jobs and queues

  /** The ticket tells requests apart; the code carries no such number. */
  datatype Job = Job(ticket: nat, msg: Message)
  datatype Fan = Fan(ticket: nat, msg: Message, srid: string, tstamp: int)
  datatype NetJob = NetJob(ticket: nat, netconfig: string, systems: seq<string>, srid: string, tstamp: int, ldap: string)
  datatype ClientJob = ClientJob(ticket: nat, system: string, netconfig: string, srid: string, tstamp: int, ldap: string)

  /** One run of the cloner: for which request, and under which identifier. */
  datatype ClonerRun = ClonerRun(ticket: nat, srid: string)

  /** `incoming`, `net` and `client` are the message queues; `deferred` the waiting deferrers. The rest is
      history: the accepted messages by ticket, requests given up, requests fanned out, and cloner runs. */
  datatype State = State(
    submitted: seq<Message>, incoming: seq<Job>, deferred: seq<Job>, dropped: seq<Job>, fanned: seq<Fan>,
    net: seq<NetJob>, client: seq<ClientJob>, runs: seq<ClonerRun>)

  const EMPTY := State([], [], [], [], [], [], [], [])

  function NetJobs(f: Fan, netconfigs: seq<string>): seq<NetJob> {
    if netconfigs == [] then []
    else (if netconfigs[0] in NETCONFIGS
          then [NetJob(f.ticket, netconfigs[0], EffectiveSystems(f.msg), f.srid, f.tstamp, f.msg.ldap)] else [])
         + NetJobs(f, netconfigs[1..])
  }

  function ClientJobs(n: NetJob, systems: seq<string>): seq<ClientJob> {
    if systems == [] then []
    else (if systems[0] in OPERATING_SYSTEMS
          then [ClientJob(n.ticket, systems[0], n.netconfig, n.srid, n.tstamp, n.ldap)] else [])
         + ClientJobs(n, systems[1..])
  }

  function EffectiveNetconfigs(m: Message): seq<string> {
    if m.nightly then NETCONFIGS else m.netconfigs
  }

  function EffectiveSystems(m: Message): seq<string> {
    if m.nightly then OPERATING_SYSTEMS else m.systems
  }

  function RemoveAt<T>(s: seq<T>, i: nat): seq<T>
    requires i < |s|
  {
    s[..i] + s[i + 1..]
  }

  /** A new request; a request from the master's queue with what its cloner meets; a deferrer whose wait
      is over; a netconfig message taken by its scheduler. */
  datatype Step =
    | Submit(msg: Message)
    | Master(site: Site, uuid: string, now: int)
    | Retry(i: nat)
    | Schedule(i: nat)

  function Submitted(st: State, m: Message): State {
    match Enqueued(m.(attempt := 1))
    case None => st
    case Some(msg) => st.(submitted := st.submitted + [msg],
                          incoming := st.incoming + [Job(|st.submitted|, msg)])
  }

  function Handled(maxAttempts: int, st: State, site: Site, uuid: string, now: int): State {
    if st.incoming == [] then st
    else
      var job := st.incoming[0];
      var rest := st.incoming[1..];
      if !job.msg.nightly && (job.msg.ldap == "" || job.msg.sha == "") then
        st.(incoming := rest, dropped := st.dropped + [job])
      else
        var srid := match job.msg.srid case None => uuid case Some(s) => s;
        var st' := st.(incoming := rest, runs := st.runs + [ClonerRun(job.ticket, srid)]);
        match CloneVerdict(ClonerArgs(job.msg).(srid := Some(srid)), maxAttempts, site)
        case Cloned =>
          var f := Fan(job.ticket, job.msg, srid, now);
          st'.(fanned := st.fanned + [f], net := st.net + NetJobs(f, EffectiveNetconfigs(job.msg)))
        case Deferred(next) => st'.(deferred := st.deferred + [Job(job.ticket, next)])
        case Dropped(_) => st'.(dropped := st.dropped + [job])
  }

  function Retried(st: State, i: nat): State {
    if i >= |st.deferred| then st
    else match Enqueued(st.deferred[i].msg)
      case None => st.(deferred := RemoveAt(st.deferred, i))
      case Some(msg) => st.(deferred := RemoveAt(st.deferred, i),
                            incoming := st.incoming + [Job(st.deferred[i].ticket, msg)])
  }

  function Scheduled(st: State, i: nat): State {
    if i >= |st.net| then st
    else st.(net := RemoveAt(st.net, i), client := st.client + ClientJobs(st.net[i], st.net[i].systems))
  }

  function Next(maxAttempts: int, st: State, step: Step): State {
    match step
    case Submit(msg) => Submitted(st, msg)
    case Master(site, uuid, now) => Handled(maxAttempts, st, site, uuid, now)
    case Retry(i) => Retried(st, i)
    case Schedule(i) => Scheduled(st, i)
  }

  function Run(maxAttempts: int, steps: seq<Step>): State {
    if steps == [] then EMPTY
    else Next(maxAttempts, Run(maxAttempts, steps[..|steps| - 1]), steps[|steps| - 1])
  }

  // ---------------------------------------------------------------- where a request is

  function Count(jobs: seq<Job>, t: nat): nat {
    if jobs == [] then 0 else (if jobs[0].ticket == t then 1 else 0) + Count(jobs[1..], t)
  }

  function CountFans(fans: seq<Fan>, t: nat): nat {
    if fans == [] then 0 else (if fans[0].ticket == t then 1 else 0) + CountFans(fans[1..], t)
  }

  function Attempts(runs: seq<ClonerRun>, t: nat): nat {
    if runs == [] then 0
    else (if runs[|runs| - 1].ticket == t then 1 else 0) + Attempts(runs[..|runs| - 1], t)
  }

  function Places(st: State, t: nat): nat {
    Count(st.incoming, t) + Count(st.deferred, t) + Count(st.dropped, t) + CountFans(st.fanned, t)
  }

  lemma {:induction false} CountPlus(a: seq<Job>, b: seq<Job>, t: nat)
    ensures Count(a + b, t) == Count(a, t) + Count(b, t)
  {
    if a == [] {
      assert a + b == b;
    } else {
      CountPlus(a[1..], b, t);
      TailOfSum(a, b);
    }
  }

  lemma CountOne(job: Job, t: nat)
    ensures Count([job], t) == if job.ticket == t then 1 else 0
  {
    assert [job][1..] == [];
  }

  lemma {:induction false} CountFansMore(fans: seq<Fan>, f: Fan, t: nat)
    ensures CountFans(fans + [f], t) == CountFans(fans, t) + if f.ticket == t then 1 else 0
  {
    if fans == [] {
      assert fans + [f] == [f] && [f][1..] == [];
    } else {
      CountFansMore(fans[1..], f, t);
      TailOfSum(fans, [f]);
    }
  }

  lemma AttemptsMore(runs: seq<ClonerRun>, run: ClonerRun, t: nat)
    ensures Attempts(runs + [run], t) == Attempts(runs, t) + if run.ticket == t then 1 else 0
  {
    assert (runs + [run])[..|runs|] == runs;
  }

  lemma CountRemoved(jobs: seq<Job>, i: nat, t: nat)
    requires i < |jobs|
    ensures Count(jobs, t) == Count(RemoveAt(jobs, i), t) + if jobs[i].ticket == t then 1 else 0
  {
    assert jobs == jobs[..i] + ([jobs[i]] + jobs[i + 1..]);
    CountPlus(jobs[..i], [jobs[i]] + jobs[i + 1..], t);
    CountPlus([jobs[i]], jobs[i + 1..], t);
    CountPlus(jobs[..i], jobs[i + 1..], t);
    CountOne(jobs[i], t);
  }

  lemma CountHere(jobs: seq<Job>, i: nat)
    requires i < |jobs|
    ensures Count(jobs, jobs[i].ticket) >= 1
  {
    CountRemoved(jobs, i, jobs[i].ticket);
  }

  // ---------------------------------------------------------------- the fan-out product

  function Expansion(net: seq<NetJob>): multiset<ClientJob> {
    if net == [] then multiset{}
    else multiset(ClientJobs(net[0], net[0].systems)) + Expansion(net[1..])
  }

  function Products(fans: seq<Fan>): multiset<ClientJob> {
    if fans == [] then multiset{}
    else Products(fans[..|fans| - 1])
         + Expansion(NetJobs(fans[|fans| - 1], EffectiveNetconfigs(fans[|fans| - 1].msg)))
  }

  function Occurrences(names: seq<string>, name: string): nat {
    if names == [] then 0 else (if names[0] == name then 1 else 0) + Occurrences(names[1..], name)
  }

  lemma {:induction false} ClientJobsCount(n: NetJob, systems: seq<string>, c: ClientJob)
    ensures multiset(ClientJobs(n, systems))[c]
            == if c == ClientJob(n.ticket, c.system, n.netconfig, n.srid, n.tstamp, n.ldap)
                  && c.system in OPERATING_SYSTEMS
               then Occurrences(systems, c.system) else 0
  {
    if systems != [] {
      ClientJobsCount(n, systems[1..], c);
    }
  }

  /** The jobs of one client message of a fan-out: all but the two names come from the request. */
  predicate Carries(c: ClientJob, f: Fan) {
    c == ClientJob(f.ticket, c.system, c.netconfig, f.srid, f.tstamp, f.msg.ldap)
  }

  /** What a successful request turns into is a product: every known netconfig and every known system, as
      often as each is listed, with the one timestamp and identifier of that request and nothing else. */
  lemma {:induction false} FanOutIsProduct(f: Fan, netconfigs: seq<string>, c: ClientJob)
    ensures Expansion(NetJobs(f, netconfigs))[c]
            == if Carries(c, f) && c.netconfig in NETCONFIGS && c.system in OPERATING_SYSTEMS
               then Occurrences(netconfigs, c.netconfig) * Occurrences(EffectiveSystems(f.msg), c.system) else 0
  {
    if netconfigs != [] {
      var rest := netconfigs[1..];
      FanOutIsProduct(f, rest, c);
      FirstNetconfig(f, netconfigs, c);
      var each := Occurrences(EffectiveSystems(f.msg), c.system);
      Distribute(if netconfigs[0] == c.netconfig then 1 else 0, Occurrences(rest, c.netconfig), each);
      hide Expansion, NetJobs, ClientJobs;
    }
  }

  lemma FirstNetconfig(f: Fan, netconfigs: seq<string>, c: ClientJob)
    requires netconfigs != []
    ensures Expansion(NetJobs(f, netconfigs))[c]
            == Expansion(NetJobs(f, netconfigs[1..]))[c]
               + if netconfigs[0] in NETCONFIGS && netconfigs[0] == c.netconfig && Carries(c, f)
                    && c.system in OPERATING_SYSTEMS
                 then Occurrences(EffectiveSystems(f.msg), c.system) else 0
  {
    var more := NetJobs(f, netconfigs[1..]);
    if netconfigs[0] in NETCONFIGS {
      var n := NetJob(f.ticket, netconfigs[0], EffectiveSystems(f.msg), f.srid, f.tstamp, f.msg.ldap);
      ClientJobsCount(n, EffectiveSystems(f.msg), c);
      assert NetJobs(f, netconfigs) == [n] + more && ([n] + more)[1..] == more;
      hide ClientJobs;
    } else {
      assert NetJobs(f, netconfigs) == [] + more == more;
    }
  }

  lemma Distribute(a: nat, b: nat, c: nat)
    ensures (a + b) * c == a * c + b * c
  {
  }

  lemma {:induction false} ExpansionPlus(a: seq<NetJob>, b: seq<NetJob>)
    ensures Expansion(a + b) == Expansion(a) + Expansion(b)
  {
    if a == [] {
      assert a + b == b;
    } else {
      ExpansionPlus(a[1..], b);
      TailOfSum(a, b);
    }
  }

  lemma {:induction false} ExpansionRemoved(net: seq<NetJob>, i: nat)
    requires i < |net|
    ensures Expansion(net) == Expansion(RemoveAt(net, i)) + multiset(ClientJobs(net[i], net[i].systems))
  {
    if i == 0 {
      assert RemoveAt(net, 0) == net[1..];
    } else {
      ExpansionRemoved(net[1..], i - 1);
      RemovedTail(net, i);
    }
  }

  lemma RemovedTail(net: seq<NetJob>, i: nat)
    requires 0 < i < |net|
    ensures var r := RemoveAt(net, i); r != [] && r[0] == net[0] && r[1..] == RemoveAt(net[1..], i - 1)
  {
  }

  // ---------------------------------------------------------------- the invariant

  function Bound(maxAttempts: int): int {
    if maxAttempts > 1 then maxAttempts else 1
  }

  /** A message as `enqueue` lets it pass. */
  predicate WellFormed(m: Message) {
    && AllIn(m.netconfigs, NETCONFIGS) && AllIn(m.systems, OPERATING_SYSTEMS)
    && (if m.nightly then m.ldap == "" && m.sha == "" else m.ldap != "" && m.sha != "")
  }

  ghost predicate Pending(maxAttempts: int, runs: seq<ClonerRun>, jobs: seq<Job>) {
    forall i :: 0 <= i < |jobs| ==>
                  && WellFormed(jobs[i].msg)
                  && jobs[i].msg.attempt == Attempts(runs, jobs[i].ticket) + 1 <= Bound(maxAttempts)
  }

  ghost predicate OnePlaceEach(st: State) {
    forall t: nat :: Places(st, t) == if t < |st.submitted| then 1 else 0
  }

  ghost predicate AttemptsBounded(maxAttempts: int, st: State) {
    forall t: nat :: Attempts(st.runs, t) <= (if t < |st.submitted| then Bound(maxAttempts) else 0)
  }

  ghost predicate FanOutKept(st: State) {
    multiset(st.client) + Expansion(st.net) == Products(st.fanned)
  }

  ghost predicate Inv(maxAttempts: int, st: State) {
    && OnePlaceEach(st) && AttemptsBounded(maxAttempts, st) && FanOutKept(st)
    && Pending(maxAttempts, st.runs, st.incoming) && Pending(maxAttempts, st.runs, st.deferred)
  }

  lemma EnqueuedWellFormed(m: Message)
    ensures Enqueued(m).Some? ==> WellFormed(Enqueued(m).value) && Enqueued(m).value.attempt == m.attempt
    ensures WellFormed(m) ==> Enqueued(m).Some?
  {
    assert AllIn(OPERATING_SYSTEMS[3..], OPERATING_SYSTEMS) && AllIn(NETCONFIGS[3..], NETCONFIGS);
    assert AllIn(OPERATING_SYSTEMS[2..], OPERATING_SYSTEMS) && AllIn(NETCONFIGS[2..], NETCONFIGS);
    assert AllIn(OPERATING_SYSTEMS[1..], OPERATING_SYSTEMS) && AllIn(NETCONFIGS[1..], NETCONFIGS);
  }

  lemma SubmitKeeps(maxAttempts: int, st: State, m: Message)
    requires Inv(maxAttempts, st)
    ensures Inv(maxAttempts, Submitted(st, m))
  {
    var enqueued := Enqueued(m.(attempt := 1));
    EnqueuedWellFormed(m.(attempt := 1));
    if enqueued.Some? {
      var st' := Submitted(st, m);
      var job := Job(|st.submitted|, enqueued.value);
      forall t: nat ensures Places(st', t) == Places(st, t) + if t == |st.submitted| then 1 else 0 {
        CountPlus(st.incoming, [job], t);
        CountOne(job, t);
      }
      assert Attempts(st.runs, |st.submitted|) == 0 && Places(st, |st.submitted|) == 0;
    }
  }

  /** Taking the head off the queue and running its cloner: the other jobs still know their attempts. */
  lemma OthersKeepAttempts(maxAttempts: int, st: State, jobs: seq<Job>, run: ClonerRun)
    requires Pending(maxAttempts, st.runs, jobs) && Count(jobs, run.ticket) == 0
    ensures Pending(maxAttempts, st.runs + [run], jobs)
  {
    forall i | 0 <= i < |jobs|
      ensures Attempts(st.runs + [run], jobs[i].ticket) == Attempts(st.runs, jobs[i].ticket)
    {
      CountHere(jobs, i);
      AttemptsMore(st.runs, run, jobs[i].ticket);
    }
  }

  lemma {:induction false} HeadRuns(maxAttempts: int, st: State, srid: string)
    requires Inv(maxAttempts, st) && st.incoming != []
    ensures var job := st.incoming[0];
      var runs := st.runs + [ClonerRun(job.ticket, srid)];
      && job.ticket < |st.submitted|
      && Attempts(runs, job.ticket) == job.msg.attempt <= Bound(maxAttempts)
      && Pending(maxAttempts, runs, st.incoming[1..]) && Pending(maxAttempts, runs, st.deferred)
      && (forall t: nat :: Attempts(runs, t) <= if t < |st.submitted| then Bound(maxAttempts) else 0)
  {
    var job := st.incoming[0];
    var run := ClonerRun(job.ticket, srid);
    assert st.incoming == [job] + st.incoming[1..];
    CountPlus([job], st.incoming[1..], job.ticket);
    CountOne(job, job.ticket);
    assert Places(st, job.ticket) == 1;
    assert Pending(maxAttempts, st.runs, st.incoming[1..]);
    OthersKeepAttempts(maxAttempts, st, st.incoming[1..], run);
    OthersKeepAttempts(maxAttempts, st, st.deferred, run);
    forall t: nat
      ensures Attempts(st.runs + [run], t) == Attempts(st.runs, t) + if job.ticket == t then 1 else 0
    {
      AttemptsMore(st.runs, run, t);
    }
  }

  /** The three ways the head leaves the incoming queue for exactly one other place. */
  lemma HeadLeaves(st: State, t: nat)
    requires st.incoming != []
    ensures Count(st.incoming, t) == Count(st.incoming[1..], t) + if st.incoming[0].ticket == t then 1 else 0
  {
  }

  lemma {:induction false} HeadDefers(maxAttempts: int, st: State, srid: string, next: Message)
    requires Inv(maxAttempts, st) && st.incoming != []
    requires WellFormed(next) && next.attempt == st.incoming[0].msg.attempt + 1 <= maxAttempts
    ensures var job := st.incoming[0];
      Inv(maxAttempts, st.(incoming := st.incoming[1..], runs := st.runs + [ClonerRun(job.ticket, srid)],
                           deferred := st.deferred + [Job(job.ticket, next)]))
  {
    var job := st.incoming[0];
    var j := Job(job.ticket, next);
    HeadRuns(maxAttempts, st, srid);
    var st' := st.(incoming := st.incoming[1..], runs := st.runs + [ClonerRun(job.ticket, srid)], deferred := st.deferred + [j]);
    forall t: nat ensures Places(st', t) == Places(st, t) {
      HeadLeaves(st, t);
      CountPlus(st.deferred, [j], t);
      CountOne(j, t);
    }
  }

  lemma {:induction false} HeadDrops(maxAttempts: int, st: State, srid: string)
    requires Inv(maxAttempts, st) && st.incoming != []
    ensures var job := st.incoming[0];
      Inv(maxAttempts, st.(incoming := st.incoming[1..], runs := st.runs + [ClonerRun(job.ticket, srid)],
                           dropped := st.dropped + [job]))
  {
    var job := st.incoming[0];
    HeadRuns(maxAttempts, st, srid);
    var st' := st.(incoming := st.incoming[1..], runs := st.runs + [ClonerRun(job.ticket, srid)], dropped := st.dropped + [job]);
    forall t: nat ensures Places(st', t) == Places(st, t) {
      HeadLeaves(st, t);
      CountPlus(st.dropped, [job], t);
      CountOne(job, t);
    }
  }

  lemma {:induction false} HeadFansOut(maxAttempts: int, st: State, srid: string, f: Fan)
    requires Inv(maxAttempts, st) && st.incoming != [] && f.ticket == st.incoming[0].ticket
    ensures var job := st.incoming[0];
      Inv(maxAttempts, st.(incoming := st.incoming[1..], runs := st.runs + [ClonerRun(job.ticket, srid)],
                           fanned := st.fanned + [f], net := st.net + NetJobs(f, EffectiveNetconfigs(f.msg))))
  {
    var job := st.incoming[0];
    HeadRuns(maxAttempts, st, srid);
    FanOutMore(st, f);
    var st' := st.(incoming := st.incoming[1..], runs := st.runs + [ClonerRun(job.ticket, srid)],
                   fanned := st.fanned + [f], net := st.net + NetJobs(f, EffectiveNetconfigs(f.msg)));
    forall t: nat ensures Places(st', t) == Places(st, t) {
      HeadLeaves(st, t);
      CountFansMore(st.fanned, f, t);
    }
  }

  lemma FanOutMore(st: State, f: Fan)
    requires FanOutKept(st)
    ensures FanOutKept(st.(fanned := st.fanned + [f], net := st.net + NetJobs(f, EffectiveNetconfigs(f.msg))))
  {
    ExpansionPlus(st.net, NetJobs(f, EffectiveNetconfigs(f.msg)));
    assert (st.fanned + [f])[..|st.fanned|] == st.fanned;
  }

  /** A deferred request keeps the form `enqueue` accepts and carries the number of its next attempt. */
  lemma VerdictDefers(m: Message, maxAttempts: int, site: Site)
    requires CloneVerdict(m, maxAttempts, site).Deferred?
    ensures CloneVerdict(m, maxAttempts, site).next == m.(attempt := m.attempt + 1) && m.attempt + 1 <= maxAttempts
  {
  }

  lemma MasterKeeps(maxAttempts: int, st: State, site: Site, uuid: string, now: int)
    requires Inv(maxAttempts, st)
    ensures Inv(maxAttempts, Handled(maxAttempts, st, site, uuid, now))
  {
    if st.incoming != [] {
      var job := st.incoming[0];
      var srid := match job.msg.srid case None => uuid case Some(s) => s;
      var args := ClonerArgs(job.msg).(srid := Some(srid));
      hide CloneVerdict, Inv;
      MasterTakesWellFormed(maxAttempts, st);
      match CloneVerdict(args, maxAttempts, site)
      case Cloned => HeadFansOut(maxAttempts, st, srid, Fan(job.ticket, job.msg, srid, now));
      case Deferred(next) =>
        VerdictDefers(args, maxAttempts, site);
        HeadDefers(maxAttempts, st, srid, next);
      case Dropped(_) => HeadDrops(maxAttempts, st, srid);
    }
  }

  lemma MasterTakesWellFormed(maxAttempts: int, st: State)
    requires Inv(maxAttempts, st) && st.incoming != []
    ensures WellFormed(st.incoming[0].msg)
  {
  }

  lemma RetryKeeps(maxAttempts: int, st: State, i: nat)
    requires Inv(maxAttempts, st)
    ensures Inv(maxAttempts, Retried(st, i))
  {
    if i < |st.deferred| {
      var job := st.deferred[i];
      EnqueuedWellFormed(job.msg);
      var st' := Retried(st, i);
      var back := Job(job.ticket, Enqueued(job.msg).value);
      forall t: nat ensures Places(st', t) == Places(st, t) {
        CountRemoved(st.deferred, i, t);
        CountPlus(st.incoming, [back], t);
        CountOne(back, t);
      }
    }
  }

  lemma ScheduleKeeps(maxAttempts: int, st: State, i: nat)
    requires Inv(maxAttempts, st)
    ensures Inv(maxAttempts, Scheduled(st, i))
  {
    if i < |st.net| {
      ExpansionRemoved(st.net, i);
      var st' := Scheduled(st, i);
      forall t: nat ensures Places(st', t) == Places(st, t) {
      }
    }
  }

  lemma {:induction false} RunKeeps(maxAttempts: int, steps: seq<Step>)
    ensures Inv(maxAttempts, Run(maxAttempts, steps))
  {
    if steps != [] {
      var before := steps[..|steps| - 1];
      RunKeeps(maxAttempts, before);
      var st := Run(maxAttempts, before);
      match steps[|steps| - 1]
      case Submit(msg) => SubmitKeeps(maxAttempts, st, msg);
      case Master(site, uuid, now) => MasterKeeps(maxAttempts, st, site, uuid, now);
      case Retry(i) => RetryKeeps(maxAttempts, st, i);
      case Schedule(i) => ScheduleKeeps(maxAttempts, st, i);
    }
  }

  /** In every run, whatever the cloner meets and in whatever order messages are taken: each request is in
      exactly one place, its cloner has run at most max(1, maxAttempts) times, re-enqueueing a deferred
      request never fails, and the client messages together with those still to come are exactly the
      products of the requests that were cloned. */
  lemma JobsAreConserved(maxAttempts: int, steps: seq<Step>)
    ensures var st := Run(maxAttempts, steps);
      && (forall t: nat :: t < |st.submitted| ==> Places(st, t) == 1 && Attempts(st.runs, t) <= Bound(maxAttempts))
      && (forall i :: 0 <= i < |st.deferred| ==> Enqueued(st.deferred[i].msg).Some?)
      && (st.net == [] ==> multiset(st.client) == Products(st.fanned))
  {
    RunKeeps(maxAttempts, steps);
    var st := Run(maxAttempts, steps);
    forall i | 0 <= i < |st.deferred| ensures Enqueued(st.deferred[i].msg).Some? {
      EnqueuedWellFormed(st.deferred[i].msg);
    }
  }

  // ---------------------------------------------------------------- what a request asks for

  /** `m` is the request submitted as `s`, some attempts later. Only a nightly run loses its lists, when it
      is deferred, and gets all netconfigs and systems when it is queued again. */
  predicate SameRequest(m: Message, s: Message) {
    && m.nightly == s.nightly && m.ldap == s.ldap && m.sha == s.sha && m.attempt >= 1
    && (m.nightly && m.attempt > 1 ==> (m.netconfigs, m.systems) in {([], []), (NETCONFIGS, OPERATING_SYSTEMS)})
    && ((m.nightly && m.attempt > 1) || (m.netconfigs, m.systems) == (s.netconfigs, s.systems))
  }

  ghost predicate JobsAsk(submitted: seq<Message>, jobs: seq<Job>) {
    forall i :: 0 <= i < |jobs| ==> jobs[i].ticket < |submitted| && SameRequest(jobs[i].msg, submitted[jobs[i].ticket])
  }

  ghost predicate FansAsk(submitted: seq<Message>, fans: seq<Fan>) {
    forall i :: 0 <= i < |fans| ==> fans[i].ticket < |submitted| && SameRequest(fans[i].msg, submitted[fans[i].ticket])
  }

  ghost predicate Accepted(submitted: seq<Message>) {
    forall i :: 0 <= i < |submitted| ==> Enqueued(submitted[i]) == Some(submitted[i])
  }

  /** Wherever a request is, it is the one submitted under its ticket. */
  ghost predicate ContentKept(st: State) {
    && Accepted(st.submitted) && JobsAsk(st.submitted, st.incoming) && JobsAsk(st.submitted, st.deferred)
    && FansAsk(st.submitted, st.fanned)
  }

  /** What the cloner hands to the deferrer. */
  lemma ClonerArgsAsk(m: Message, s: Message)
    requires SameRequest(m, s) && Enqueued(s) == Some(s)
    ensures SameRequest(ClonerArgs(m).(attempt := m.attempt + 1), s)
  {
  }

  lemma EnqueuedAsks(m: Message, s: Message)
    requires SameRequest(m, s) && Enqueued(s) == Some(s) && Enqueued(m).Some?
    ensures SameRequest(Enqueued(m).value, s) && Enqueued(m).value.srid == m.srid
  {
    Defaults();
  }

  lemma EnqueuedTwice(m: Message)
    requires Enqueued(m).Some?
    ensures Enqueued(Enqueued(m).value) == Enqueued(m)
  {
    Defaults();
  }

  lemma Defaults()
    ensures AllIn(NETCONFIGS, NETCONFIGS) && AllIn(OPERATING_SYSTEMS, OPERATING_SYSTEMS)
  {
    AllInMeans(NETCONFIGS, NETCONFIGS);
    AllInMeans(OPERATING_SYSTEMS, OPERATING_SYSTEMS);
  }

  lemma MasterKeepsContent(maxAttempts: int, st: State, site: Site, uuid: string, now: int)
    requires ContentKept(st)
    ensures ContentKept(Handled(maxAttempts, st, site, uuid, now))
  {
    if st.incoming != [] {
      var job := st.incoming[0];
      var srid := match job.msg.srid case None => uuid case Some(s) => s;
      var args := ClonerArgs(job.msg).(srid := Some(srid));
      HeadAsks(st);
      hide ContentKept, CloneVerdict, ClonerArgs, NetJobs, SameRequest;
      match CloneVerdict(args, maxAttempts, site)
      case Cloned => FanAsks(st.(incoming := st.incoming[1..]), Fan(job.ticket, job.msg, srid, now));
      case Deferred(next) =>
        VerdictDefers(args, maxAttempts, site);
        OnlyRequestCounts(ClonerArgs(job.msg).(attempt := job.msg.attempt + 1), next, st.submitted[job.ticket]);
        DeferralAsks(st.(incoming := st.incoming[1..]), Job(job.ticket, next));
      case Dropped(_) => SameContent(st.(incoming := st.incoming[1..]), Handled(maxAttempts, st, site, uuid, now));
    }
  }

  lemma HeadAsks(st: State)
    requires ContentKept(st) && st.incoming != []
    ensures var job := st.incoming[0];
      && ContentKept(st.(incoming := st.incoming[1..])) && job.ticket < |st.submitted|
      && SameRequest(job.msg, st.submitted[job.ticket])
      && SameRequest(ClonerArgs(job.msg).(attempt := job.msg.attempt + 1), st.submitted[job.ticket])
  {
    ClonerArgsAsk(st.incoming[0].msg, st.submitted[st.incoming[0].ticket]);
    hide SameRequest, ClonerArgs, Enqueued;
  }

  lemma OnlyRequestCounts(m: Message, next: Message, s: Message)
    requires SameRequest(m, s) && next == m.(srid := next.srid)
    ensures SameRequest(next, s)
  {
  }

  lemma FanAsks(st: State, f: Fan)
    requires ContentKept(st) && f.ticket < |st.submitted| && SameRequest(f.msg, st.submitted[f.ticket])
    ensures ContentKept(st.(fanned := st.fanned + [f]))
  {
    hide SameRequest, Enqueued;
  }

  lemma DeferralAsks(st: State, job: Job)
    requires ContentKept(st) && job.ticket < |st.submitted| && SameRequest(job.msg, st.submitted[job.ticket])
    ensures ContentKept(st.(deferred := st.deferred + [job]))
  {
    hide SameRequest, Enqueued;
  }

  /** Only these four fields count. */
  lemma SameContent(st: State, st': State)
    requires st'.submitted == st.submitted && st'.incoming == st.incoming
    requires st'.deferred == st.deferred && st'.fanned == st.fanned
    ensures ContentKept(st') == ContentKept(st)
  {
  }

  lemma SubmitKeepsContent(st: State, m: Message)
    requires ContentKept(st)
    ensures ContentKept(Submitted(st, m))
  {
    if Enqueued(m.(attempt := 1)).Some? {
      EnqueuedTwice(m.(attempt := 1));
      hide Enqueued;
    }
  }

  lemma RetryKeepsContent(st: State, i: nat)
    requires ContentKept(st)
    ensures ContentKept(Retried(st, i))
  {
    if i < |st.deferred| && Enqueued(st.deferred[i].msg).Some? {
      EnqueuedAsks(st.deferred[i].msg, st.submitted[st.deferred[i].ticket]);
      hide Enqueued, SameRequest;
    }
  }

  lemma StepKeepsContent(maxAttempts: int, st: State, step: Step)
    requires ContentKept(st)
    ensures ContentKept(Next(maxAttempts, st, step))
  {
    hide ContentKept, Handled, Submitted, Retried;
    match step
    case Submit(msg) => SubmitKeepsContent(st, msg);
    case Master(site, uuid, now) => MasterKeepsContent(maxAttempts, st, site, uuid, now);
    case Retry(i) => RetryKeepsContent(st, i);
    case Schedule(i) => ScheduleKeepsContent(st, i);
  }

  lemma ScheduleKeepsContent(st: State, i: nat)
    requires ContentKept(st)
    ensures ContentKept(Scheduled(st, i))
  {
  }

  // ---------------------------------------------------------------- what is accepted, and what the master decides

  lemma ThreeNames(a: string, b: string, c: string, name: string)
    requires a != b && b != c && a != c
    ensures Occurrences([a, b, c], name) == if name in [a, b, c] then 1 else 0
  {
    assert [a, b, c][1..] == [b, c] && [b, c][1..] == [c] && [c][1..] == [];
    assert Occurrences([b, c], name) == (if b == name then 1 else 0) + Occurrences([c], name);
  }

  /** A request is accepted exactly when it names known netconfigs and systems and is either nightly, without
      ldap and sha, or has both. An empty list then stands for all three names; nothing else is changed. */
  lemma AcceptedMeans(m: Message)
    ensures Enqueued(m).Some?
            <==> && (forall n :: n in m.netconfigs ==> n in ["broadband", "umts", "gsm"])
                 && (forall o :: o in m.systems ==> o in ["linux", "mac", "windows"])
                 && (if m.nightly then m.ldap == "" && m.sha == "" else m.ldap != "" && m.sha != "")
    ensures Enqueued(m).Some? ==>
              var s := Enqueued(m).value;
              && s == m.(netconfigs := s.netconfigs, systems := s.systems)
              && (m.netconfigs != [] ==> s.netconfigs == m.netconfigs)
              && (m.netconfigs == [] ==>
                    forall n :: Occurrences(s.netconfigs, n) == if n in ["broadband", "umts", "gsm"] then 1 else 0)
              && (m.systems != [] ==> s.systems == m.systems)
              && (m.systems == [] ==>
                    forall o :: Occurrences(s.systems, o) == if o in ["linux", "mac", "windows"] then 1 else 0)
  {
    AllInMeans(m.netconfigs, NETCONFIGS);
    AllInMeans(m.systems, OPERATING_SYSTEMS);
    hide AllIn, Occurrences;
    assert "linux"[0] == 'l' && "mac"[0] == 'm' && "windows"[0] == 'w';
    assert "broadband"[0] == 'b' && "umts"[0] == 'u' && "gsm"[0] == 'g';
    forall n ensures Occurrences(NETCONFIGS, n) == if n in ["broadband", "umts", "gsm"] then 1 else 0 {
      ThreeNames("broadband", "umts", "gsm", n);
    }
    forall o ensures Occurrences(OPERATING_SYSTEMS, o) == if o in ["linux", "mac", "windows"] then 1 else 0 {
      ThreeNames("linux", "mac", "windows", o);
    }
  }

  /** All builds are listed, there is something in them, and it can be downloaded. */
  ghost predicate CanBeCloned(m: Message, site: Site) {
    Available(m, site) && site.downloads && (!m.nightly ==> site.distFiles != [])
  }

  ghost predicate CanBeDeferred(m: Message, maxAttempts: int, site: Site) {
    !Available(m, site) && m.attempt < maxAttempts && site.deferrerStarts
  }

  /** What handling does to the request at the head of the queue. */
  ghost predicate Decided(maxAttempts: int, st: State, st': State, site: Site, uuid: string, now: int)
    requires st.incoming != []
  {
    var job := st.incoming[0];
    var srid := if job.msg.srid.Some? then job.msg.srid.value else uuid;
    && st'.submitted == st.submitted && st'.incoming == st.incoming[1..] && st'.client == st.client
    && st'.runs == st.runs + [ClonerRun(job.ticket, srid)]
    && st'.fanned == st.fanned + (if CanBeCloned(job.msg, site) then [Fan(job.ticket, job.msg, srid, now)] else [])
    && (if CanBeDeferred(job.msg, maxAttempts, site)
        then && |st'.deferred| == |st.deferred| + 1 && st'.deferred[..|st.deferred|] == st.deferred
             && IsNextAttempt(job, srid, st'.deferred[|st.deferred|])
        else st'.deferred == st.deferred)
    && st'.dropped == st.dropped + (if CanBeCloned(job.msg, site) || CanBeDeferred(job.msg, maxAttempts, site) then []
                                    else [job])
  }

  predicate IsNextAttempt(job: Job, srid: string, later: Job) {
    later.ticket == job.ticket && later.msg.attempt == job.msg.attempt + 1 && later.msg.srid == Some(srid)
  }

  /** In every reachable state, whatever the cloner meets: the request at the head of the queue gets exactly one
      cloner run, under its identifier or a new one. It is fanned out if and only if its builds are all
      listed, not empty and can be downloaded; deferred for its next attempt if and only if one is missing,
      attempts are left and the deferrer starts; and otherwise given up. */
  lemma MasterDecides(maxAttempts: int, steps: seq<Step>, site: Site, uuid: string, now: int)
    requires Run(maxAttempts, steps).incoming != []
    ensures var st := Run(maxAttempts, steps);
      Decided(maxAttempts, st, Next(maxAttempts, st, Master(site, uuid, now)), site, uuid, now)
  {
    RunKeeps(maxAttempts, steps);
    ContentStays(maxAttempts, steps);
    var st := Run(maxAttempts, steps);
    HeadListsSystems(st);
    MasterTakesWellFormed(maxAttempts, st);
    HandledIsDecided(maxAttempts, st, site, uuid, now);
  }

  /** An accepted request waits at the end of the incoming queue for its first attempt; so does, in every
      reachable state, a deferred one whose wait is over, for the attempt it was deferred to. */
  lemma RequestsGetTheirTurn(maxAttempts: int, steps: seq<Step>, m: Message, i: nat)
    ensures var st := Run(maxAttempts, steps);
      && (Enqueued(m).Some? ==>
            Next(maxAttempts, st, Submit(m)).incoming
            == st.incoming + [Job(|st.submitted|, Enqueued(m).value.(attempt := 1))])
      && (i < |st.deferred| ==>
            var later := Next(maxAttempts, st, Retry(i)).incoming;
            && later != [] && later[..|later| - 1] == st.incoming
            && IsBack(st.deferred[i], later[|later| - 1]))
  {
    var st := Run(maxAttempts, steps);
    RunKeeps(maxAttempts, steps);
    hide Run;
    if i < |st.deferred| {
      EnqueuedWellFormed(st.deferred[i].msg);
      hide Inv, Enqueued;
      EnqueuedKeeps(st.deferred[i].msg);
    }
  }

  predicate IsBack(job: Job, later: Job) {
    later.ticket == job.ticket && later.msg.attempt == job.msg.attempt && later.msg.srid == job.msg.srid
  }

  lemma EnqueuedKeeps(m: Message)
    ensures Enqueued(m).Some? ==> Enqueued(m).value.srid == m.srid && Enqueued(m).value.attempt == m.attempt
  {
  }

  lemma HeadListsSystems(st: State)
    requires ContentKept(st) && st.incoming != []
    ensures !st.incoming[0].msg.nightly ==> st.incoming[0].msg.systems != []
  {
  }

  lemma HandledIsDecided(maxAttempts: int, st: State, site: Site, uuid: string, now: int)
    requires st.incoming != [] && WellFormed(st.incoming[0].msg)
    requires !st.incoming[0].msg.nightly ==> st.incoming[0].msg.systems != []
    ensures Decided(maxAttempts, st, Handled(maxAttempts, st, site, uuid, now), site, uuid, now)
  {
    var job := st.incoming[0];
    var srid := match job.msg.srid case None => uuid case Some(s) => s;
    var args := ClonerArgs(job.msg).(srid := Some(srid));
    ArgsMean(job.msg, srid, site);
    VerdictMeans(args, maxAttempts, site);
    hide CloneVerdict, ClonerArgs, NetJobs, AllIn, Available;
    if CloneVerdict(args, maxAttempts, site).Deferred? {
      VerdictDefers(args, maxAttempts, site);
    }
  }

  lemma ArgsMean(m: Message, srid: string, site: Site)
    requires WellFormed(m) && (!m.nightly ==> m.systems != [])
    ensures var args := ClonerArgs(m).(srid := Some(srid));
      && AllIn(args.netconfigs, NETCONFIGS) && AllIn(args.systems, OPERATING_SYSTEMS)
      && (Available(args, site) <==> Available(m, site)) && args.nightly == m.nightly && args.attempt == m.attempt
      && args.srid == Some(srid) && (!m.nightly ==> args.systems != [])
  {
  }

  // ---------------------------------------------------------------- under which identifier

  /** The identifier of a request's first cloner run. */
  function Identifier(runs: seq<ClonerRun>, t: nat): Option<string> {
    if runs == [] then None
    else match Identifier(runs[..|runs| - 1], t)
      case Some(s) => Some(s)
      case None => if runs[|runs| - 1].ticket == t then Some(runs[|runs| - 1].srid) else None
  }

  lemma IdentifierMore(runs: seq<ClonerRun>, run: ClonerRun, t: nat)
    ensures Identifier(runs + [run], t)
            == match Identifier(runs, t)
               case Some(s) => Some(s)
               case None => if run.ticket == t then Some(run.srid) else None
  {
    assert (runs + [run])[..|runs|] == runs;
  }

  lemma {:induction false} NoIdentifier(runs: seq<ClonerRun>, t: nat)
    requires Attempts(runs, t) == 0
    ensures Identifier(runs, t) == None
  {
    if runs != [] {
      NoIdentifier(runs[..|runs| - 1], t);
    }
  }

  /** The request carries the identifier of its first cloner run, or before that what was submitted. */
  ghost predicate Knows(submitted: seq<Message>, runs: seq<ClonerRun>, job: Job) {
    && job.ticket < |submitted|
    && job.msg.srid == match Identifier(runs, job.ticket)
                       case None => submitted[job.ticket].srid
                       case Some(s) => Some(s)
  }

  ghost predicate AllKnow(submitted: seq<Message>, runs: seq<ClonerRun>, jobs: seq<Job>) {
    forall i :: 0 <= i < |jobs| ==> Knows(submitted, runs, jobs[i])
  }

  ghost predicate FansKnow(runs: seq<ClonerRun>, fans: seq<Fan>) {
    forall i :: 0 <= i < |fans| ==> Identifier(runs, fans[i].ticket) == Some(fans[i].srid)
  }

  ghost predicate RunsKnow(submitted: seq<Message>, runs: seq<ClonerRun>) {
    && (forall i :: 0 <= i < |runs| ==> Identifier(runs, runs[i].ticket) == Some(runs[i].srid))
    && (forall t: nat :: t < |submitted| && submitted[t].srid.Some? ==> Identifier(runs, t) in {None, submitted[t].srid})
  }

  /** All cloner runs and client messages of a request have one identifier, the submitted one if any. */
  ghost predicate IdentifiersKept(st: State) {
    && AllKnow(st.submitted, st.runs, st.incoming) && AllKnow(st.submitted, st.runs, st.deferred)
    && FansKnow(st.runs, st.fanned) && RunsKnow(st.submitted, st.runs)
  }

  lemma OthersKnow(submitted: seq<Message>, runs: seq<ClonerRun>, jobs: seq<Job>, run: ClonerRun)
    requires AllKnow(submitted, runs, jobs) && Count(jobs, run.ticket) == 0
    ensures AllKnow(submitted, runs + [run], jobs)
  {
    forall i | 0 <= i < |jobs| ensures Knows(submitted, runs + [run], jobs[i]) {
      CountHere(jobs, i);
      IdentifierMore(runs, run, jobs[i].ticket);
    }
  }

  /** A cloner run under the identifier the request carries, or under a new one if it carries none. */
  lemma RunUnderOwnIdentifier(submitted: seq<Message>, runs: seq<ClonerRun>, fans: seq<Fan>, job: Job, srid: string)
    requires Knows(submitted, runs, job) && FansKnow(runs, fans) && RunsKnow(submitted, runs)
    requires job.msg.srid in {None, Some(srid)}
    ensures var more := runs + [ClonerRun(job.ticket, srid)];
      && Identifier(more, job.ticket) == Some(srid) && FansKnow(more, fans) && RunsKnow(submitted, more)
  {
    var run := ClonerRun(job.ticket, srid);
    forall t ensures Identifier(runs + [run], t)
                     == match Identifier(runs, t)
                        case Some(s) => Some(s)
                        case None => if run.ticket == t then Some(run.srid) else None
    {
      IdentifierMore(runs, run, t);
    }
    hide Identifier;
  }

  lemma HeadIsAlone(maxAttempts: int, st: State)
    requires Inv(maxAttempts, st) && st.incoming != []
    ensures var t := st.incoming[0].ticket; Count(st.incoming[1..], t) == 0 && Count(st.deferred, t) == 0
  {
    HeadLeaves(st, st.incoming[0].ticket);
    assert Places(st, st.incoming[0].ticket) <= 1;
  }

  lemma MasterKeepsIdentifiers(maxAttempts: int, st: State, site: Site, uuid: string, now: int)
    requires Inv(maxAttempts, st) && IdentifiersKept(st)
    ensures IdentifiersKept(Handled(maxAttempts, st, site, uuid, now))
  {
    if st.incoming != [] {
      var job := st.incoming[0];
      var srid := match job.msg.srid case None => uuid case Some(s) => s;
      var args := ClonerArgs(job.msg).(srid := Some(srid));
      var st' := Handled(maxAttempts, st, site, uuid, now);
      HeadRunsIdentified(maxAttempts, st, srid);
      MasterTakesWellFormed(maxAttempts, st);
      hide CloneVerdict, ClonerArgs, NetJobs, Identifier, Inv, Knows;
      if CloneVerdict(args, maxAttempts, site).Deferred? {
        VerdictDefers(args, maxAttempts, site);
        var j := Job(job.ticket, CloneVerdict(args, maxAttempts, site).next);
        assert st'.deferred == st.deferred + [j];
        KnowsFirst(st.submitted, st'.runs, j, srid);
      }
    }
  }

  lemma KnowsFirst(submitted: seq<Message>, runs: seq<ClonerRun>, job: Job, srid: string)
    requires job.ticket < |submitted| && Identifier(runs, job.ticket) == Some(srid) && job.msg.srid == Some(srid)
    ensures Knows(submitted, runs, job)
  {
  }

  lemma HeadRunsIdentified(maxAttempts: int, st: State, srid: string)
    requires Inv(maxAttempts, st) && IdentifiersKept(st) && st.incoming != []
    requires st.incoming[0].msg.srid in {None, Some(srid)}
    ensures var job := st.incoming[0];
      var st' := st.(incoming := st.incoming[1..], runs := st.runs + [ClonerRun(job.ticket, srid)]);
      IdentifiersKept(st') && job.ticket < |st.submitted| && Identifier(st'.runs, job.ticket) == Some(srid)
  {
    var job := st.incoming[0];
    var run := ClonerRun(job.ticket, srid);
    HeadIsAlone(maxAttempts, st);
    hide Inv;
    assert Knows(st.submitted, st.runs, job);
    OthersKnow(st.submitted, st.runs, st.incoming[1..], run);
    OthersKnow(st.submitted, st.runs, st.deferred, run);
    RunUnderOwnIdentifier(st.submitted, st.runs, st.fanned, job, srid);
  }

  lemma SubmitKeepsIdentifiers(maxAttempts: int, st: State, m: Message)
    requires Inv(maxAttempts, st) && IdentifiersKept(st)
    ensures IdentifiersKept(Submitted(st, m))
  {
    assert Attempts(st.runs, |st.submitted|) == 0;
    NoIdentifier(st.runs, |st.submitted|);
    hide Identifier, Enqueued, Inv;
  }

  lemma RetryKeepsIdentifiers(st: State, i: nat)
    requires IdentifiersKept(st)
    ensures IdentifiersKept(Retried(st, i))
  {
    if i < |st.deferred| && Enqueued(st.deferred[i].msg).Some? {
      assert Enqueued(st.deferred[i].msg).value.srid == st.deferred[i].msg.srid;
      hide Identifier, Enqueued;
    }
  }

  lemma {:induction false} IdentifiersStay(maxAttempts: int, steps: seq<Step>)
    ensures IdentifiersKept(Run(maxAttempts, steps))
  {
    if steps != [] {
      var before := steps[..|steps| - 1];
      IdentifiersStay(maxAttempts, before);
      RunKeeps(maxAttempts, before);
      var st := Run(maxAttempts, before);
      hide Inv, Handled, Retried, Submitted;
      match steps[|steps| - 1]
      case Submit(msg) => SubmitKeepsIdentifiers(maxAttempts, st, msg);
      case Master(site, uuid, now) => MasterKeepsIdentifiers(maxAttempts, st, site, uuid, now);
      case Retry(i) => RetryKeepsIdentifiers(st, i);
      case Schedule(i) =>
    }
  }

  lemma {:induction false} ContentStays(maxAttempts: int, steps: seq<Step>)
    ensures ContentKept(Run(maxAttempts, steps))
  {
    if steps != [] {
      ContentStays(maxAttempts, steps[..|steps| - 1]);
      StepKeepsContent(maxAttempts, Run(maxAttempts, steps[..|steps| - 1]), steps[|steps| - 1]);
    }
  }

  /** In every run each request, waiting, deferred or fanned out, is the one submitted under its ticket, over
      any number of retries, but for the lists of a nightly run; and it is known under one identifier: the
      submitted one, or the one its first cloner run was given. */
  lemma RequestsKeepTheirContent(maxAttempts: int, steps: seq<Step>)
    ensures ContentKept(Run(maxAttempts, steps)) && IdentifiersKept(Run(maxAttempts, steps))
  {
    ContentStays(maxAttempts, steps);
    IdentifiersStay(maxAttempts, steps);
  }

  // ---------------------------------------------------------------- what the clients get

  /** Client messages that were sent or that a scheduler still has to send. */
  function Delivered(st: State): multiset<ClientJob> {
    multiset(st.client) + Expansion(st.net)
  }

  /** How often a pair of netconfig and system is run. The lists of a nightly request do not count. */
  function TimesDue(s: Message, c: ClientJob): nat {
    Occurrences(EffectiveNetconfigs(s), c.netconfig) * Occurrences(EffectiveSystems(s), c.system)
  }

  /** How often a pair was asked for. */
  function TimesAsked(s: Message, c: ClientJob): nat {
    Occurrences(s.netconfigs, c.netconfig) * Occurrences(s.systems, c.system)
  }

  lemma {:induction false} UnknownNeverOccurs(names: seq<string>, known: seq<string>, name: string)
    requires AllIn(names, known) && name !in known
    ensures Occurrences(names, name) == 0
  {
    if names != [] {
      UnknownNeverOccurs(names[1..], known, name);
    }
  }

  /** One fan-out, against the message that was submitted. */
  lemma FanOutAsSubmitted(f: Fan, s: Message, c: ClientJob)
    requires SameRequest(f.msg, s) && Enqueued(s) == Some(s)
    ensures Expansion(NetJobs(f, EffectiveNetconfigs(f.msg)))[c]
            == if c == ClientJob(f.ticket, c.system, c.netconfig, f.srid, f.tstamp, s.ldap) then TimesDue(s, c) else 0
  {
    Defaults();
    FanOutIsProduct(f, EffectiveNetconfigs(f.msg), c);
    hide Expansion, NetJobs, AllIn;
    if c.netconfig !in NETCONFIGS {
      UnknownNeverOccurs(EffectiveNetconfigs(s), NETCONFIGS, c.netconfig);
    }
    if c.system !in OPERATING_SYSTEMS {
      UnknownNeverOccurs(EffectiveSystems(s), OPERATING_SYSTEMS, c.system);
    }
  }

  lemma {:induction false} CountFansHere(fans: seq<Fan>, f: Fan)
    requires f in fans
    ensures CountFans(fans, f.ticket) >= 1
  {
    if fans[0] != f {
      CountFansHere(fans[1..], f);
    }
  }

  lemma LastFan(fans: seq<Fan>, c: ClientJob)
    requires fans != []
    ensures var init, last := fans[..|fans| - 1], fans[|fans| - 1];
      && CountFans(fans, c.ticket) == CountFans(init, c.ticket) + (if last.ticket == c.ticket then 1 else 0)
      && Products(fans)[c] == Products(init)[c] + Expansion(NetJobs(last, EffectiveNetconfigs(last.msg)))[c]
      && (last.ticket != c.ticket ==> Expansion(NetJobs(last, EffectiveNetconfigs(last.msg)))[c] == 0)
  {
    var init, last := fans[..|fans| - 1], fans[|fans| - 1];
    assert fans == init + [last];
    CountFansMore(init, last, c.ticket);
    FanOutIsProduct(last, EffectiveNetconfigs(last.msg), c);
  }

  lemma {:induction false} NoFanNoProduct(fans: seq<Fan>, c: ClientJob)
    requires CountFans(fans, c.ticket) == 0
    ensures Products(fans)[c] == 0
  {
    if fans != [] {
      LastFan(fans, c);
      NoFanNoProduct(fans[..|fans| - 1], c);
    }
  }

  lemma {:induction false} ProductOfFan(fans: seq<Fan>, f: Fan, c: ClientJob)
    requires f in fans && c.ticket == f.ticket
    ensures Products(fans)[c] >= Expansion(NetJobs(f, EffectiveNetconfigs(f.msg)))[c]
    ensures CountFans(fans, c.ticket) == 1 ==>
              Products(fans)[c] == Expansion(NetJobs(f, EffectiveNetconfigs(f.msg)))[c]
  {
    var init, last := fans[..|fans| - 1], fans[|fans| - 1];
    assert fans == init + [last];
    LastFan(fans, c);
    hide Products, Expansion, NetJobs, CountFans;
    if f in init {
      CountFansHere(init, f);
      ProductOfFan(init, f, c);
    } else if CountFans(init, c.ticket) == 0 {
      NoFanNoProduct(init, c);
    }
  }

  /** In every run the client messages, sent or still to be sent, are exactly those that are due: for a request
      that was fanned out every pair of its submitted netconfigs and systems as often as both are listed,
      or of all netconfigs and systems once if it is nightly, under its one identifier and timestamp; and
      for any other nothing. */
  lemma ClientsGetWhatIsDue(maxAttempts: int, steps: seq<Step>, c: ClientJob)
    ensures var st := Run(maxAttempts, steps);
      && (CountFans(st.fanned, c.ticket) == 0 ==> Delivered(st)[c] == 0)
      && forall f :: f in st.fanned && f.ticket == c.ticket ==>
           && f.ticket < |st.submitted|
           && var s := st.submitted[f.ticket];
              Delivered(st)[c]
              == if c == ClientJob(f.ticket, c.system, c.netconfig, f.srid, f.tstamp, s.ldap) then TimesDue(s, c) else 0
  {
    RunKeeps(maxAttempts, steps);
    ContentStays(maxAttempts, steps);
    var st := Run(maxAttempts, steps);
    assert Delivered(st) == Products(st.fanned) && Places(st, c.ticket) <= 1;
    hide Delivered, Products, Expansion, NetJobs, Inv, Run, TimesDue;
    if CountFans(st.fanned, c.ticket) == 0 {
      NoFanNoProduct(st.fanned, c);
    }
    forall f | f in st.fanned && f.ticket == c.ticket
      ensures f.ticket < |st.submitted|
      ensures Delivered(st)[c]
              == if c == ClientJob(f.ticket, c.system, c.netconfig, f.srid, f.tstamp, st.submitted[f.ticket].ldap)
                 then TimesDue(st.submitted[f.ticket], c) else 0
    {
      CountFansHere(st.fanned, f);
      ProductOfFan(st.fanned, f, c);
      FanOutAsSubmitted(f, st.submitted[f.ticket], c);
    }
  }

  lemma AllOccurOnce(c: ClientJob)
    ensures Occurrences(NETCONFIGS, c.netconfig) == if c.netconfig in NETCONFIGS then 1 else 0
    ensures Occurrences(OPERATING_SYSTEMS, c.system) == if c.system in OPERATING_SYSTEMS then 1 else 0
  {
    ThreeNames("broadband", "umts", "gsm", c.netconfig);
    ThreeNames("linux", "mac", "windows", c.system);
    assert "linux"[0] == 'l' && "mac"[0] == 'm' && "windows"[0] == 'w';
    assert "broadband"[0] == 'b' && "umts"[0] == 'u' && "gsm"[0] == 'g';
  }

  /** Every netconfig and every system is listed, each once. */
  ghost predicate ListsAllOnce(s: Message) {
    && (forall n :: n in NETCONFIGS ==> Occurrences(s.netconfigs, n) == 1)
    && (forall o :: o in OPERATING_SYSTEMS ==> Occurrences(s.systems, o) == 1)
  }

  /** The client messages of a fan-out are exactly the pairs of its submitted lists, as often as listed. */
  ghost predicate GetsWhatItAskedFor(st: State, f: Fan)
    requires f.ticket < |st.submitted|
  {
    var s := st.submitted[f.ticket];
    forall c: ClientJob :: c.ticket == f.ticket ==>
      Delivered(st)[c] == if Of(c, f, s) then TimesAsked(s, c) else 0
  }

  predicate Of(c: ClientJob, f: Fan, s: Message) {
    c == ClientJob(f.ticket, c.system, c.netconfig, f.srid, f.tstamp, s.ldap)
  }

  lemma OneTimesOne(a: nat, b: nat)
    requires a * b == 1
    ensures a == 1 && b == 1
  {
    assert a != 0 && b != 0;
    assert a * b == a * (b - 1) + a && a * b == (a - 1) * b + b;
  }

  /** What is due is what was asked for, whichever pair is looked at, exactly under this condition. */
  lemma DueIsAskedIff(f: Fan, s: Message)
    requires Enqueued(s) == Some(s)
    ensures (forall c :: Of(c, f, s) ==> TimesDue(s, c) == TimesAsked(s, c)) <==> !s.nightly || ListsAllOnce(s)
  {
    if s.nightly {
      if ListsAllOnce(s) {
        forall c | Of(c, f, s) ensures TimesDue(s, c) == TimesAsked(s, c) {
          ListedLikeAll(s, c);
        }
      }
      if forall c :: Of(c, f, s) ==> TimesDue(s, c) == TimesAsked(s, c) {
        forall n, o | n in NETCONFIGS && o in OPERATING_SYSTEMS
          ensures Occurrences(s.netconfigs, n) == 1 && Occurrences(s.systems, o) == 1
        {
          var c := ClientJob(f.ticket, o, n, f.srid, f.tstamp, s.ldap);
          AllOccurOnce(c);
          assert Of(c, f, s) && TimesDue(s, c) == 1;
          OneTimesOne(Occurrences(s.netconfigs, n), Occurrences(s.systems, o));
        }
        assert "gsm" in NETCONFIGS && "mac" in OPERATING_SYSTEMS;
      }
    }
  }

  lemma ListedLikeAll(s: Message, c: ClientJob)
    requires Enqueued(s) == Some(s) && ListsAllOnce(s)
    ensures Occurrences(s.netconfigs, c.netconfig) == Occurrences(NETCONFIGS, c.netconfig)
    ensures Occurrences(s.systems, c.system) == Occurrences(OPERATING_SYSTEMS, c.system)
  {
    AllOccurOnce(c);
    if c.netconfig !in NETCONFIGS {
      UnknownNeverOccurs(s.netconfigs, NETCONFIGS, c.netconfig);
    }
    if c.system !in OPERATING_SYSTEMS {
      UnknownNeverOccurs(s.systems, OPERATING_SYSTEMS, c.system);
    }
  }

  /** In every run a fanned-out request becomes exactly the client messages it asked for if and only if it
      is not nightly or lists every netconfig and every system once. Any other nightly request is accepted,
      but its lists are overwritten. */
  lemma ClientsGetWhatWasAsked(maxAttempts: int, steps: seq<Step>, f: Fan)
    requires f in Run(maxAttempts, steps).fanned
    ensures var st := Run(maxAttempts, steps);
      && f.ticket < |st.submitted|
      && (GetsWhatItAskedFor(st, f) <==> !st.submitted[f.ticket].nightly || ListsAllOnce(st.submitted[f.ticket]))
  {
    ContentStays(maxAttempts, steps);
    var st := Run(maxAttempts, steps);
    var s := st.submitted[f.ticket];
    forall c: ClientJob | c.ticket == f.ticket
      ensures Delivered(st)[c] == if Of(c, f, s) then TimesDue(s, c) else 0
    {
      ClientsGetWhatIsDue(maxAttempts, steps, c);
    }
    hide Run, Delivered, TimesDue, TimesAsked, ListsAllOnce;
    DueIsAskedIff(f, s);
    assert forall c :: Of(c, f, s) ==> c.ticket == f.ticket;
  }

  const GSM_ON_LINUX := Message(true, "", "", ["gsm"], ["linux"], None, 1)
  const READY := Site(["build"], [], true, true)

  /** A request accepted and cloned at its first attempt. */
  lemma FirstAttempt(m: Message)
    requires m.nightly && m.attempt == 1 && Enqueued(m) == Some(m)
    ensures var st := Run(5, [Submit(m), Master(READY, "id", 7)]);
      && st.submitted == [m]
      && st.fanned == [Fan(0, m, if m.srid.Some? then m.srid.value else "id", 7)]
  {
    var first: seq<Step> := [Submit(m)];
    var both: seq<Step> := first + [Master(READY, "id", 7)];
    assert first[..0] == [] && both[..1] == first && both == [Submit(m), Master(READY, "id", 7)];
    assert Run(5, []) == EMPTY;
    assert m.(attempt := 1) == m;
    var st := Run(5, first);
    assert st == EMPTY.(submitted := [m], incoming := [Job(0, m)]);
    var srid := if m.srid.Some? then m.srid.value else "id";
    NightlyReady(ClonerArgs(m).(srid := Some(srid)));
    hide CloneVerdict;
  }

  lemma NightlyReady(m: Message)
    requires m.nightly && m.netconfigs == [] && m.systems == []
    ensures CloneVerdict(m, 5, READY) == Cloned
  {
  }

  /** A nightly request for GSM on Linux is run with broadband on the Mac. */
  lemma NightlyListsAreOverwritten()
    ensures var st := Run(5, [Submit(GSM_ON_LINUX), Master(READY, "id", 7)]);
      Delivered(st)[ClientJob(0, "mac", "broadband", "id", 7, "")] == 1
  {
    var m := GSM_ON_LINUX;
    assert m.netconfigs[1..] == [] && m.systems[1..] == [];
    assert Enqueued(m) == Some(m);
    FirstAttempt(m);
    var c := ClientJob(0, "mac", "broadband", "id", 7, "");
    AllOccurOnce(c);
    assert TimesDue(m, c) == 1;
    hide Run, Delivered, TimesDue, Enqueued;
    ClientsGetWhatIsDue(5, [Submit(m), Master(READY, "id", 7)], c);
    assert Fan(0, m, "id", 7) in Run(5, [Submit(m), Master(READY, "id", 7)]).fanned;
  }

  // ---------------------------------------------------------------- progress

  function AttemptsLeft(maxAttempts: int, m: Message): nat {
    if m.attempt < maxAttempts then maxAttempts - m.attempt else 0
  }

  /** The steps a waiting request can still take part in, at most. */
  function Weight(maxAttempts: int, job: Job): nat {
    2 * AttemptsLeft(maxAttempts, job.msg) + 1 + |EffectiveNetconfigs(job.msg)|
  }

  function Weights(maxAttempts: int, jobs: seq<Job>): nat {
    if jobs == [] then 0 else Weight(maxAttempts, jobs[0]) + Weights(maxAttempts, jobs[1..])
  }

  /** An upper bound on the steps that can still be made. */
  function WorkLeft(maxAttempts: int, st: State): nat {
    Weights(maxAttempts, st.incoming) + Weights(maxAttempts, st.deferred) + |st.deferred| + |st.net|
  }

  /** A step that takes a message or a deferrer that is there. */
  predicate Effective(st: State, step: Step) {
    match step
    case Submit(_) => false
    case Master(_, _, _) => st.incoming != []
    case Retry(i) => i < |st.deferred|
    case Schedule(i) => i < |st.net|
  }

  lemma {:induction false} WeightsPlus(maxAttempts: int, a: seq<Job>, b: seq<Job>)
    ensures Weights(maxAttempts, a + b) == Weights(maxAttempts, a) + Weights(maxAttempts, b)
  {
    if a == [] {
      assert a + b == b;
    } else {
      WeightsPlus(maxAttempts, a[1..], b);
      TailOfSum(a, b);
    }
  }

  lemma WeightOfOne(maxAttempts: int, job: Job)
    ensures Weights(maxAttempts, [job]) == Weight(maxAttempts, job)
  {
    assert [job][1..] == [];
  }

  lemma WeightsRemoved(maxAttempts: int, jobs: seq<Job>, i: nat)
    requires i < |jobs|
    ensures Weights(maxAttempts, jobs) == Weights(maxAttempts, RemoveAt(jobs, i)) + Weight(maxAttempts, jobs[i])
  {
    assert jobs == jobs[..i] + ([jobs[i]] + jobs[i + 1..]);
    WeightsPlus(maxAttempts, jobs[..i], [jobs[i]] + jobs[i + 1..]);
    WeightsPlus(maxAttempts, [jobs[i]], jobs[i + 1..]);
    WeightsPlus(maxAttempts, jobs[..i], jobs[i + 1..]);
    WeightOfOne(maxAttempts, jobs[i]);
  }

  lemma {:induction false} FewNetJobs(f: Fan, netconfigs: seq<string>)
    ensures |NetJobs(f, netconfigs)| <= |netconfigs|
  {
    if netconfigs != [] {
      FewNetJobs(f, netconfigs[1..]);
    }
  }

  /** Being deferred costs a request more than the step back into the queue takes. */
  lemma DeferralWeighsLess(maxAttempts: int, job: Job, next: Message)
    requires next == ClonerArgs(job.msg).(srid := next.srid, attempt := job.msg.attempt + 1) && next.attempt <= maxAttempts
    ensures Weight(maxAttempts, Job(job.ticket, next)) + 1 < Weight(maxAttempts, job)
  {
  }

  lemma MasterWorks(maxAttempts: int, st: State, site: Site, uuid: string, now: int)
    requires st.incoming != []
    ensures WorkLeft(maxAttempts, Handled(maxAttempts, st, site, uuid, now)) < WorkLeft(maxAttempts, st)
  {
    var job := st.incoming[0];
    var srid := match job.msg.srid case None => uuid case Some(s) => s;
    var args := ClonerArgs(job.msg).(srid := Some(srid));
    hide CloneVerdict, ClonerArgs, NetJobs, Weight;
    assert Weights(maxAttempts, st.incoming) == Weight(maxAttempts, job) + Weights(maxAttempts, st.incoming[1..]);
    WeighsSomething(maxAttempts, job);
    match CloneVerdict(args, maxAttempts, site)
    case Cloned => FewNetJobs(Fan(job.ticket, job.msg, srid, now), EffectiveNetconfigs(job.msg));
    case Deferred(next) =>
      VerdictDefers(args, maxAttempts, site);
      AttemptOf(job.msg);
      DeferralWeighsLess(maxAttempts, job, next);
      WeightsPlus(maxAttempts, st.deferred, [Job(job.ticket, next)]);
      WeightOfOne(maxAttempts, Job(job.ticket, next));
    case Dropped(_) =>
  }

  lemma WeighsSomething(maxAttempts: int, job: Job)
    ensures Weight(maxAttempts, job) > |EffectiveNetconfigs(job.msg)|
  {
  }

  lemma AttemptOf(m: Message)
    ensures ClonerArgs(m).attempt == m.attempt
  {
  }

  lemma RetryWorks(maxAttempts: int, st: State, i: nat)
    requires ContentKept(st) && i < |st.deferred|
    ensures WorkLeft(maxAttempts, Retried(st, i)) < WorkLeft(maxAttempts, st)
  {
    var job := st.deferred[i];
    WeightsRemoved(maxAttempts, st.deferred, i);
    if Enqueued(job.msg).Some? {
      var back := Job(job.ticket, Enqueued(job.msg).value);
      SameWeight(maxAttempts, job, st.submitted[job.ticket]);
      WeightsPlus(maxAttempts, st.incoming, [back]);
      WeightOfOne(maxAttempts, back);
    }
  }

  lemma SameWeight(maxAttempts: int, job: Job, s: Message)
    requires SameRequest(job.msg, s) && Enqueued(s) == Some(s) && Enqueued(job.msg).Some?
    ensures Weight(maxAttempts, Job(job.ticket, Enqueued(job.msg).value)) == Weight(maxAttempts, job)
  {
  }

  lemma StepWorks(maxAttempts: int, st: State, step: Step)
    requires ContentKept(st) && Effective(st, step)
    ensures WorkLeft(maxAttempts, Next(maxAttempts, st, step)) < WorkLeft(maxAttempts, st)
  {
    hide ContentKept, Handled, Retried;
    match step
    case Master(site, uuid, now) => MasterWorks(maxAttempts, st, site, uuid, now);
    case Retry(i) => RetryWorks(maxAttempts, st, i);
    case Schedule(i) =>
  }

  /** Behind `steps`, each of `more` is effective. */
  predicate AllEffective(maxAttempts: int, steps: seq<Step>, more: seq<Step>) {
    more != [] ==>
      && AllEffective(maxAttempts, steps, more[..|more| - 1])
      && Effective(Run(maxAttempts, steps + more[..|more| - 1]), more[|more| - 1])
  }

  /** Nothing waits: every request is given up or fanned out, and all its messages are with the clients. */
  ghost predicate Settled(st: State) {
    && st.incoming == [] && st.deferred == [] && st.net == []
    && (forall t: nat :: t < |st.submitted| ==> Count(st.dropped, t) + CountFans(st.fanned, t) == 1)
    && multiset(st.client) == Products(st.fanned)
  }

  lemma LastStep(maxAttempts: int, steps: seq<Step>, more: seq<Step>)
    requires more != []
    ensures Run(maxAttempts, steps + more)
            == Next(maxAttempts, Run(maxAttempts, steps + more[..|more| - 1]), more[|more| - 1])
  {
    assert (steps + more)[..|steps + more| - 1] == steps + more[..|more| - 1];
    hide Next;
  }

  lemma {:induction false} WorkFalls(maxAttempts: int, steps: seq<Step>, more: seq<Step>)
    requires AllEffective(maxAttempts, steps, more)
    ensures |more| + WorkLeft(maxAttempts, Run(maxAttempts, steps + more)) <= WorkLeft(maxAttempts, Run(maxAttempts, steps))
    decreases |more|
  {
    if more == [] {
      assert steps + more == steps;
    } else {
      var before := more[..|more| - 1];
      WorkFalls(maxAttempts, steps, before);
      LastStep(maxAttempts, steps, more);
      ContentStays(maxAttempts, steps + before);
      hide ContentKept, Effective, WorkLeft, Next, Run;
      StepWorks(maxAttempts, Run(maxAttempts, steps + before), more[|more| - 1]);
    }
  }

  /** No step is left to make. */
  ghost predicate Quiet(st: State) {
    forall step :: !Effective(st, step)
  }

  lemma NothingWaits(maxAttempts: int, st: State)
    requires Inv(maxAttempts, st) && Quiet(st)
    ensures Settled(st)
  {
    assert !Effective(st, Retry(0));
    assert !Effective(st, Schedule(0));
    assert !Effective(st, Master(Site([], [], true, true), "", 0));
    assert Expansion(st.net) == multiset{};
    forall t: nat | t < |st.submitted| ensures Count(st.dropped, t) + CountFans(st.fanned, t) == 1 {
      assert Places(st, t) == 1 && Count([], t) == 0;
    }
  }

  /** Without new requests every run comes to an end, after a number of steps that is known beforehand; and
      wherever no step is left to make, every accepted request has been given up or fanned out, with all
      its messages sent. */
  lemma RunsSettle(maxAttempts: int, steps: seq<Step>, more: seq<Step>)
    requires AllEffective(maxAttempts, steps, more)
    ensures |more| <= WorkLeft(maxAttempts, Run(maxAttempts, steps))
    ensures Quiet(Run(maxAttempts, steps + more)) ==> Settled(Run(maxAttempts, steps + more))
  {
    WorkFalls(maxAttempts, steps, more);
    RunKeeps(maxAttempts, steps + more);
    hide Run, Quiet, Settled, Inv;
    if Quiet(Run(maxAttempts, steps + more)) {
      NothingWaits(maxAttempts, Run(maxAttempts, steps + more));
    }
  }

  // ---------------------------------------------------------------- crashes

  /** The master may also die after its cloner ran and some messages were sent, and a scheduler after some
      of its messages were sent, before acknowledging: the message then stays in the queue and will be
      delivered again. */
  datatype Event =
    | Lives(step: Step)
    | MasterDies(site: Site, uuid: string, now: int, sent: nat)
    | SchedulerDies(i: nat, sent: nat)

  function Died(maxAttempts: int, st: State, site: Site, uuid: string, now: int, sent: nat): State {
    var done := Handled(maxAttempts, st, site, uuid, now);
    st.(runs := done.runs, deferred := done.deferred,
        net := if |st.net| + sent <= |done.net| then done.net[..|st.net| + sent] else done.net)
  }

  function HalfScheduled(st: State, i: nat, sent: nat): State {
    if i >= |st.net| then st
    else
      var jobs := ClientJobs(st.net[i], st.net[i].systems);
      st.(client := st.client + if sent <= |jobs| then jobs[..sent] else jobs)
  }

  function RunWithCrashes(maxAttempts: int, events: seq<Event>): State {
    if events == [] then EMPTY
    else AfterEvent(maxAttempts, RunWithCrashes(maxAttempts, events[..|events| - 1]), events[|events| - 1])
  }

  function AfterEvent(maxAttempts: int, st: State, event: Event): State {
    match event
    case Lives(step) => Next(maxAttempts, st, step)
    case MasterDies(site, uuid, now, sent) => Died(maxAttempts, st, site, uuid, now, sent)
    case SchedulerDies(i, sent) => HalfScheduled(st, i, sent)
  }

  ghost predicate AllWellFormed(jobs: seq<Job>) {
    forall i :: 0 <= i < |jobs| ==> WellFormed(jobs[i].msg)
  }

  ghost predicate NoneLost(st: State) {
    && (forall t: nat :: t < |st.submitted| ==> Places(st, t) >= 1)
    && AllWellFormed(st.incoming) && AllWellFormed(st.deferred)
  }

  lemma HandledPlaces(maxAttempts: int, st: State, site: Site, uuid: string, now: int, t: nat)
    requires st.incoming != []
    ensures Places(Handled(maxAttempts, st, site, uuid, now), t) == Places(st, t)
    ensures Count(Handled(maxAttempts, st, site, uuid, now).deferred, t) >= Count(st.deferred, t)
  {
    hide CloneVerdict, ClonerArgs, NetJobs;
    var job := st.incoming[0];
    var st' := Handled(maxAttempts, st, site, uuid, now);
    HeadLeaves(st, t);
    CountPlus(st.dropped, [job], t);
    CountOne(job, t);
    if |st'.deferred| > |st.deferred| {
      var j := st'.deferred[|st.deferred|];
      CountPlus(st.deferred, [j], t);
      CountOne(j, t);
    }
    if |st'.fanned| > |st.fanned| {
      CountFansMore(st.fanned, st'.fanned[|st.fanned|], t);
    }
  }

  lemma HandledWellFormed(maxAttempts: int, st: State, site: Site, uuid: string, now: int)
    requires st.incoming != [] && AllWellFormed(st.incoming) && AllWellFormed(st.deferred)
    ensures var st' := Handled(maxAttempts, st, site, uuid, now);
      AllWellFormed(st'.incoming) && AllWellFormed(st'.deferred)
  {
    var job := st.incoming[0];
    var srid := match job.msg.srid case None => uuid case Some(s) => s;
    var args := ClonerArgs(job.msg).(srid := Some(srid));
    assert WellFormed(args);
    if CloneVerdict(args, maxAttempts, site).Deferred? {
      VerdictDefers(args, maxAttempts, site);
    }
  }

  /** Because a message is acknowledged only after it was handled, no request is ever lost, even if master
      and schedulers die any number of times at any moment of their handling. */
  lemma {:induction false} CrashesLoseNothing(maxAttempts: int, events: seq<Event>)
    ensures NoneLost(RunWithCrashes(maxAttempts, events))
  {
    if events != [] {
      var before := events[..|events| - 1];
      CrashesLoseNothing(maxAttempts, before);
      var st := RunWithCrashes(maxAttempts, before);
      hide NoneLost, Handled, Died;
      match events[|events| - 1]
      case MasterDies(site, uuid, now, sent) => DeathLosesNothing(maxAttempts, st, site, uuid, now, sent);
      case SchedulerDies(i, sent) => HalfLosesNothing(st, i, sent);
      case Lives(Master(site, uuid, now)) => MasterLosesNothing(maxAttempts, st, site, uuid, now);
      case Lives(Submit(msg)) => SubmitLosesNothing(st, msg);
      case Lives(Retry(i)) => RetryLosesNothing(st, i);
      case Lives(Schedule(i)) => ScheduleLosesNothing(st, i);
    }
  }

  lemma MasterLosesNothing(maxAttempts: int, st: State, site: Site, uuid: string, now: int)
    requires NoneLost(st)
    ensures NoneLost(Handled(maxAttempts, st, site, uuid, now))
  {
    if st.incoming != [] {
      HandledWellFormed(maxAttempts, st, site, uuid, now);
      forall t: nat ensures Places(Handled(maxAttempts, st, site, uuid, now), t) == Places(st, t) {
        HandledPlaces(maxAttempts, st, site, uuid, now, t);
      }
    }
  }

  lemma ScheduleLosesNothing(st: State, i: nat)
    requires NoneLost(st)
    ensures NoneLost(Scheduled(st, i))
  {
    forall t: nat ensures Places(Scheduled(st, i), t) == Places(st, t) {
    }
  }

  lemma DeathLosesNothing(maxAttempts: int, st: State, site: Site, uuid: string, now: int, sent: nat)
    requires NoneLost(st)
    ensures NoneLost(Died(maxAttempts, st, site, uuid, now, sent))
  {
    if st.incoming != [] {
      HandledWellFormed(maxAttempts, st, site, uuid, now);
    }
    forall t: nat ensures Places(Died(maxAttempts, st, site, uuid, now, sent), t) >= Places(st, t) {
      if st.incoming != [] {
        hide Handled;
        HandledPlaces(maxAttempts, st, site, uuid, now, t);
      }
    }
  }

  lemma HalfLosesNothing(st: State, i: nat, sent: nat)
    requires NoneLost(st)
    ensures NoneLost(HalfScheduled(st, i, sent))
  {
    forall t: nat ensures Places(HalfScheduled(st, i, sent), t) == Places(st, t) {
    }
  }

  lemma SubmitLosesNothing(st: State, m: Message)
    requires NoneLost(st)
    ensures NoneLost(Submitted(st, m))
  {
    var enqueued := Enqueued(m.(attempt := 1));
    EnqueuedWellFormed(m.(attempt := 1));
    if enqueued.Some? {
      var job := Job(|st.submitted|, enqueued.value);
      forall t: nat ensures Places(Submitted(st, m), t) == Places(st, t) + if t == |st.submitted| then 1 else 0 {
        CountPlus(st.incoming, [job], t);
        CountOne(job, t);
      }
    }
  }

  lemma RetryLosesNothing(st: State, i: nat)
    requires NoneLost(st)
    ensures NoneLost(Retried(st, i))
  {
    if i < |st.deferred| {
      var job := st.deferred[i];
      EnqueuedWellFormed(job.msg);
      hide Enqueued, WellFormed;
      var back := Job(job.ticket, Enqueued(job.msg).value);
      forall t: nat ensures Places(Retried(st, i), t) == Places(st, t) {
        CountRemoved(st.deferred, i, t);
        CountPlus(st.incoming, [back], t);
        CountOne(back, t);
      }
    }
  }

  /** Nothing that was fanned out is missing from what the clients got or are still to get. */
  ghost predicate AllDelivered(st: State) {
    Products(st.fanned) <= Delivered(st)
  }

  lemma ExpansionOfPrefix(a: seq<NetJob>, b: seq<NetJob>)
    requires a <= b
    ensures Expansion(a) <= Expansion(b)
  {
    assert b == a + b[|a|..];
    ExpansionPlus(a, b[|a|..]);
  }

  lemma HandledNet(maxAttempts: int, st: State, site: Site, uuid: string, now: int)
    ensures var done := Handled(maxAttempts, st, site, uuid, now);
      && st.net <= done.net && done.client == st.client
      && (FanOutOf(st, done) || (done.fanned == st.fanned && done.net == st.net))
  {
    hide CloneVerdict, ClonerArgs, NetJobs;
  }

  ghost predicate FanOutOf(st: State, done: State) {
    && done.fanned != [] && done.fanned[..|done.fanned| - 1] == st.fanned
    && var f := done.fanned[|done.fanned| - 1]; done.net == st.net + NetJobs(f, EffectiveNetconfigs(f.msg))
  }

  lemma MasterDelivers(maxAttempts: int, st: State, site: Site, uuid: string, now: int)
    requires AllDelivered(st)
    ensures AllDelivered(Handled(maxAttempts, st, site, uuid, now))
  {
    HandledNet(maxAttempts, st, site, uuid, now);
    hide Handled;
    var done := Handled(maxAttempts, st, site, uuid, now);
    if FanOutOf(st, done) {
      var f := done.fanned[|done.fanned| - 1];
      ExpansionPlus(st.net, NetJobs(f, EffectiveNetconfigs(f.msg)));
    }
  }

  lemma DeathDelivers(maxAttempts: int, st: State, site: Site, uuid: string, now: int, sent: nat)
    requires AllDelivered(st)
    ensures AllDelivered(Died(maxAttempts, st, site, uuid, now, sent))
  {
    HandledNet(maxAttempts, st, site, uuid, now);
    hide Handled;
    ExpansionOfPrefix(st.net, Died(maxAttempts, st, site, uuid, now, sent).net);
  }

  lemma ScheduleDelivers(st: State, i: nat, sent: nat)
    requires AllDelivered(st)
    ensures AllDelivered(Scheduled(st, i)) && AllDelivered(HalfScheduled(st, i, sent))
  {
    if i < |st.net| {
      ExpansionRemoved(st.net, i);
    }
  }

  lemma {:induction false} CrashesKeepContent(maxAttempts: int, events: seq<Event>)
    ensures ContentKept(RunWithCrashes(maxAttempts, events))
  {
    if events != [] {
      var before := events[..|events| - 1];
      CrashesKeepContent(maxAttempts, before);
      var st := RunWithCrashes(maxAttempts, before);
      match events[|events| - 1]
      case Lives(step) =>
        hide ContentKept;
        StepKeepsContent(maxAttempts, st, step);
      case MasterDies(site, uuid, now, sent) =>
        MasterKeepsContent(maxAttempts, st, site, uuid, now);
        hide Handled, SameRequest, Enqueued;
      case SchedulerDies(i, sent) => hide SameRequest, Enqueued;
    }
  }

  lemma {:induction false} CrashesDeliver(maxAttempts: int, events: seq<Event>)
    ensures AllDelivered(RunWithCrashes(maxAttempts, events))
  {
    if events != [] {
      var before := events[..|events| - 1];
      CrashesDeliver(maxAttempts, before);
      var st := RunWithCrashes(maxAttempts, before);
      hide AllDelivered, Handled, Died, Scheduled, HalfScheduled;
      match events[|events| - 1]
      case MasterDies(site, uuid, now, sent) => DeathDelivers(maxAttempts, st, site, uuid, now, sent);
      case SchedulerDies(i, sent) => ScheduleDelivers(st, i, sent);
      case Lives(Master(site, uuid, now)) => MasterDelivers(maxAttempts, st, site, uuid, now);
      case Lives(Schedule(i)) => ScheduleDelivers(st, i, 0);
      case Lives(_) => SameDelivered(maxAttempts, st, events[|events| - 1].step);
    }
  }

  lemma SameDelivered(maxAttempts: int, st: State, step: Step)
    requires AllDelivered(st) && (step.Submit? || step.Retry?)
    ensures AllDelivered(Next(maxAttempts, st, step))
  {
  }

  /** Delivery at least once: however often master and schedulers die, for every request that was fanned
      out the clients get, or will get, every pair at least as often as it is due. */
  lemma DeliveredAtLeastOnce(maxAttempts: int, events: seq<Event>, f: Fan, c: ClientJob)
    requires f in RunWithCrashes(maxAttempts, events).fanned
    ensures var st := RunWithCrashes(maxAttempts, events);
      && f.ticket < |st.submitted|
      && var s := st.submitted[f.ticket];
         c == ClientJob(f.ticket, c.system, c.netconfig, f.srid, f.tstamp, s.ldap) ==> Delivered(st)[c] >= TimesDue(s, c)
  {
    CrashesKeepContent(maxAttempts, events);
    CrashesDeliver(maxAttempts, events);
    hide RunWithCrashes, TimesDue, Delivered, Expansion, Products, NetJobs;
    var st := RunWithCrashes(maxAttempts, events);
    if c.ticket == f.ticket {
      ProductOfFan(st.fanned, f, c);
      FanOutAsSubmitted(f, st.submitted[f.ticket], c);
    }
  }

  /** In every run, with any deaths, the clients of a request submitted as `s` get each pair at least as often as
      it was asked for. */
  ghost predicate NeverTooLittle(s: Message) {
    forall maxAttempts, events, f, c :: TooLittleNowhere(s, maxAttempts, events, f, c)
  }

  ghost predicate TooLittleNowhere(s: Message, maxAttempts: int, events: seq<Event>, f: Fan, c: ClientJob) {
    var st := RunWithCrashes(maxAttempts, events);
    f in st.fanned && f.ticket < |st.submitted| && st.submitted[f.ticket] == s && Of(c, f, s)
    ==> Delivered(st)[c] >= TimesAsked(s, c)
  }

  ghost predicate AsksTwice(s: Message) {
    exists c :: TimesAsked(s, c) > 1
  }

  /** A request that is accepted gets at least what it asked for, in all runs, if and only if it is not nightly
      or asks for no pair more than once. */
  lemma AtLeastWhatWasAsked(s: Message)
    requires Enqueued(s) == Some(s) && s.attempt == 1
    ensures NeverTooLittle(s) <==> !s.nightly || !AsksTwice(s)
  {
    if !s.nightly || !AsksTwice(s) {
      forall maxAttempts, events, f, c ensures TooLittleNowhere(s, maxAttempts, events, f, c) {
        EnoughIsDue(s, maxAttempts, events, f, c);
      }
    } else {
      var c :| TimesAsked(s, c) > 1;
      TooLittleSomewhere(s, c);
    }
  }

  lemma EnoughIsDue(s: Message, maxAttempts: int, events: seq<Event>, f: Fan, c: ClientJob)
    requires Enqueued(s) == Some(s) && (!s.nightly || TimesAsked(s, c) <= 1)
    ensures TooLittleNowhere(s, maxAttempts, events, f, c)
  {
    var st := RunWithCrashes(maxAttempts, events);
    hide RunWithCrashes, Delivered;
    if f in st.fanned && f.ticket < |st.submitted| && st.submitted[f.ticket] == s && Of(c, f, s) {
      DeliveredAtLeastOnce(maxAttempts, events, f, c);
      if s.nightly {
        AllOccurOnce(c);
        if c.netconfig !in NETCONFIGS {
          UnknownNeverOccurs(s.netconfigs, NETCONFIGS, c.netconfig);
        }
        if c.system !in OPERATING_SYSTEMS {
          UnknownNeverOccurs(s.systems, OPERATING_SYSTEMS, c.system);
        }
      }
    }
  }

  /** A run without any death in which a pair asked for twice is run once. */
  lemma TooLittleSomewhere(s: Message, pair: ClientJob)
    requires Enqueued(s) == Some(s) && s.attempt == 1 && s.nightly && TimesAsked(s, pair) > 1
    ensures !NeverTooLittle(s)
  {
    var a, b := Submit(s), Master(READY, "id", 7);
    var f := Fan(0, s, if s.srid.Some? then s.srid.value else "id", 7);
    var c := ClientJob(0, pair.system, pair.netconfig, f.srid, 7, s.ldap);
    FirstAttempt(s);
    TwoEvents(5, a, b);
    hide Run, RunWithCrashes, Delivered, TimesAsked, TimesDue, Enqueued;
    assert f in Run(5, [a, b]).fanned;
    ClientsGetWhatIsDue(5, [a, b], c);
    DueOnce(s, c);
    SamePair(s, c, pair);
    IsTooLittle(s, [Lives(a), Lives(b)], f, c);
  }

  lemma IsTooLittle(s: Message, events: seq<Event>, f: Fan, c: ClientJob)
    requires var st := RunWithCrashes(5, events);
      && f in st.fanned && f.ticket < |st.submitted| && st.submitted[f.ticket] == s && Of(c, f, s)
      && Delivered(st)[c] < TimesAsked(s, c)
    ensures !NeverTooLittle(s)
  {
    hide RunWithCrashes, Delivered, TimesAsked;
    assert !TooLittleNowhere(s, 5, events, f, c);
  }

  lemma SamePair(s: Message, c: ClientJob, d: ClientJob)
    requires c.netconfig == d.netconfig && c.system == d.system
    ensures TimesAsked(s, c) == TimesAsked(s, d)
  {
  }

  lemma DueOnce(s: Message, c: ClientJob)
    requires s.nightly
    ensures TimesDue(s, c) <= 1
  {
    AllOccurOnce(c);
  }

  lemma TwoEvents(maxAttempts: int, a: Step, b: Step)
    ensures RunWithCrashes(maxAttempts, [Lives(a), Lives(b)]) == Run(maxAttempts, [a, b])
  {
    assert [Lives(a), Lives(b)][..1] == [Lives(a)] && [Lives(a)][..0] == [];
    assert [a, b][..1] == [a] && [a][..0] == [];
    assert RunWithCrashes(maxAttempts, [Lives(a)]) == AfterEvent(maxAttempts, RunWithCrashes(maxAttempts, []), Lives(a));
    assert Run(maxAttempts, [a]) == Next(maxAttempts, Run(maxAttempts, []), a);
    hide Next;
  }

  // ---------------------------------------------------------------- the daemons

  class Daemons {
    const maxAttempts: int
    var submitted: seq<Message>
    var incoming: seq<Job>
    var deferred: seq<Job>
    var dropped: seq<Job>
    var fanned: seq<Fan>
    var net: seq<NetJob>
    var client: seq<ClientJob>
    var runs: seq<ClonerRun>

    function Value(): State
      reads this
    {
      State(submitted, incoming, deferred, dropped, fanned, net, client, runs)
    }

    constructor (maxAttempts: int)
      ensures this.maxAttempts == maxAttempts && Value() == EMPTY
    {
      this.maxAttempts, submitted, incoming, deferred, dropped := maxAttempts, [], [], [], [];
      fanned, net, client, runs := [], [], [], [];
    }

    /** A client of `stoneridge.enqueue`; false is the ValueError. */
    method Enqueue(m: Message) returns (ok: bool)
      modifies `submitted, `incoming
      ensures Value() == Submitted(old(Value()), m)
      ensures ok <==> Enqueued(m.(attempt := 1)).Some?
    {
      var msg := Validated(m.(attempt := 1));
      ok := msg.Some?;
      if ok {
        incoming := incoming + [Job(|submitted|, msg.value)];
        submitted := submitted + [msg.value];
      }
    }

    /** The master on the head of its queue; the message is acknowledged, that is removed, at the end. */
    method MasterHandle(site: Site, uuid: string, now: int)
      requires incoming != []
      modifies this
      ensures Value() == Handled(maxAttempts, old(Value()), site, uuid, now)
    {
      hide CloneVerdict, NetJobs, ClonerArgs;
      var job := incoming[0];
      var srid := if job.msg.srid.None? then uuid else job.msg.srid.value;
      var netconfigs := if job.msg.nightly then NETCONFIGS else job.msg.netconfigs;
      if !job.msg.nightly && (job.msg.ldap == "" || job.msg.sha == "") {
        dropped := dropped + [job];
      } else {
        runs := runs + [ClonerRun(job.ticket, srid)];
        var verdict := RunCloner(ClonerArgs(job.msg).(srid := Some(srid)), maxAttempts, site);
        match verdict {
          case Deferred(next) => deferred := deferred + [Job(job.ticket, next)];
          case Dropped(_) => dropped := dropped + [job];
          case Cloned =>
            var f := Fan(job.ticket, job.msg, srid, now);
            fanned := fanned + [f];
            FanOut(f, netconfigs);
        }
      }
      incoming := incoming[1..];
    }

    method FanOut(f: Fan, netconfigs: seq<string>)
      modifies `net
      ensures net == old(net) + NetJobs(f, netconfigs)
    {
      assert net + [] == net;
      for i := 0 to |netconfigs|
        invariant old(net) + NetJobs(f, netconfigs) == net + NetJobs(f, netconfigs[i..])
      {
        ghost var rest := NetJobs(f, netconfigs[i + 1..]);
        assert netconfigs[i..][1..] == netconfigs[i + 1..];
        if netconfigs[i] in NETCONFIGS {
          var n := NetJob(f.ticket, netconfigs[i], EffectiveSystems(f.msg), f.srid, f.tstamp, f.msg.ldap);
          assert net + ([n] + rest) == (net + [n]) + rest;
          net := net + [n];
        } else {
          assert [] + rest == rest;
        }
      }
      assert netconfigs[|netconfigs|..] == [] && net + [] == net;
    }

    method SchedulerHandle(i: nat)
      requires i < |net|
      modifies `net, `client
      ensures Value() == Scheduled(old(Value()), i)
    {
      var n := net[i];
      ghost var before := client;
      for k := 0 to |n.systems|
        invariant net == old(net) && before + ClientJobs(n, n.systems) == client + ClientJobs(n, n.systems[k..])
      {
        ghost var rest := ClientJobs(n, n.systems[k + 1..]);
        assert n.systems[k..][1..] == n.systems[k + 1..];
        if n.systems[k] in OPERATING_SYSTEMS {
          var c := ClientJob(n.ticket, n.systems[k], n.netconfig, n.srid, n.tstamp, n.ldap);
          assert client + ([c] + rest) == (client + [c]) + rest;
          client := client + [c];
        } else {
          assert [] + rest == rest;
        }
      }
      assert n.systems[|n.systems|..] == [] && client + [] == client;
      net := RemoveAt(net, i);
    }

    /** A deferrer whose interval has passed. */
    method DeferrerRun(i: nat)
      requires i < |deferred|
      modifies `deferred, `incoming
      ensures Value() == Retried(old(Value()), i)
    {
      var msg := Validated(deferred[i].msg);
      if msg.Some? {
        incoming := incoming + [Job(deferred[i].ticket, msg.value)];
      }
      deferred := RemoveAt(deferred, i);
    }
  }
}
