/** One benchmarking session: `test_servers` (server choice, the WireGuard
    then OpenVPN grouping, the tested-hostname guard, append-only results)
    inside the `try`/`finally` that always ends with
    `restore_original_connection`. What the client and the speed test answer
    comes from a `World`, consulted by the position of each step in the
    session's plan. */
module Session {
  import opened Prelude
  import opened Commands
  import opened Catalog
  import opened Mullvad
  import opened Measure

  /** One successful measurement as `self.results` records it. */
  datatype TestResult = TestResult(
    server: string, country: string, city: string, provider: string,
    ping: real, download: real, upload: real, timestamp: string)

  /** The provider label a result carries. */
  function ResultLabel(p: Provider): string {
    match p
    case WireGuard => "WireGuard"
    case OpenVPN => "OpenVPN"
  }

  /** The outside world during a session: the client's answers to the
      connection attempt at plan position `i`, the speed-test run there, how
      numeric tokens read, and the timestamp `datetime.now()` gives there. */
  datatype World = World(probe: nat -> Probe, run: nat -> SpeedRun, num: Reader, clock: nat -> string)

  /** `servers_to_test`: the hand-picked servers when there are any, else
      the first `limit` relays, or all of them when `limit` is 0 (no limit). */
  function Selected(relays: seq<Relay>, limit: nat, specific: seq<Relay>): (s: seq<Relay>)
    ensures specific != [] ==> s == specific
    ensures specific == [] ==> s <= relays
    ensures specific == [] ==> |s| == (if limit == 0 || limit >= |relays| then |relays| else limit)
  {
    if specific != [] then specific
    else if limit != 0 then relays[..if limit < |relays| then limit else |relays|]
    else relays
  }

  const OnWireGuard: Relay -> bool := (r: Relay) => r.provider == WireGuard
  const OnOpenVPN: Relay -> bool := (r: Relay) => r.provider == OpenVPN

  /** A step of the session: a protocol switch, or an attempt at a relay. */
  datatype Step = Switch(tunnel: Tunnel) | Try(relay: Relay)

  function Attempts(group: seq<Relay>): (steps: seq<Step>)
    ensures |steps| == |group|
    ensures forall k :: 0 <= k < |group| ==> steps[k] == Try(group[k])
  {
    seq(|group|, k requires 0 <= k < |group| => Try(group[k]))
  }

  /** A group's protocol switch followed by its attempts; nothing at all
      for an empty group. */
  function Group(t: Tunnel, group: seq<Relay>): seq<Step> {
    if group == [] then [] else [Switch(t)] + Attempts(group)
  }

  /** The steps `test_servers` takes: the WireGuard servers, then the
      OpenVPN servers, each group in input order. */
  function Plan(servers: seq<Relay>): seq<Step> {
    Group(TunnelWireGuard, Keep(servers, OnWireGuard)) + Group(TunnelOpenVPN, Keep(servers, OnOpenVPN))
  }

  /** The loop's state: `tested_servers`, `current_protocol`,
      `self.results` and the commands issued so far. */
  datatype Progress = Progress(tested: set<string>, protocol: Option<Tunnel>, results: seq<TestResult>, trace: seq<Cmd>)

  function Begin(prior: seq<TestResult>): Progress {
    Progress({}, None, prior, [])
  }

  function ResultOf(r: Relay, m: Metrics, stamp: string): TestResult {
    TestResult(r.hostname, r.country, r.city, ResultLabel(r.provider), m.ping, m.download, m.upload, stamp)
  }

  /** One step at plan position `pos`. The WireGuard switch always runs and
      records the protocol; the OpenVPN switch runs unless the recorded
      protocol is already OpenVPN. An attempt at an already measured hostname
      is skipped; otherwise the relay is connected to, and only a confirmed
      connection is measured; only a successful measurement is recorded. */
  function Exec(st: Progress, step: Step, pos: nat, w: World): Progress {
    match step
    case Switch(t) =>
      if t == TunnelWireGuard then st.(protocol := Some(t), trace := st.trace + [SetTunnel(t)])
      else if st.protocol != Some(TunnelOpenVPN) then st.(trace := st.trace + [SetTunnel(t)])
      else st
    case Try(r) =>
      if r.hostname in st.tested then st
      else
        var a := ConnectTo(r.hostname, w.probe(pos));
        if !a.ok then st.(trace := st.trace + a.issued)
        else
          var measured := st.trace + a.issued + [SpeedTest];
          match RunSpeedTest(w.run(pos), w.num)
          case None => st.(trace := measured)
          case Some(m) =>
            Progress(st.tested + {r.hostname}, st.protocol, st.results + [ResultOf(r, m, w.clock(pos))], measured)
  }

  /** The steps run in order, step `i` at plan position `i`. */
  function Run(steps: seq<Step>, w: World, st0: Progress): Progress {
    if steps == [] then st0
    else Exec(Run(steps[..|steps| - 1], w, st0), steps[|steps| - 1], |steps| - 1, w)
  }

  /** The steps completed before an interrupt after `stop` steps, or all of
      them. */
  function Done(plan: seq<Step>, stop: Option<nat>): (d: seq<Step>)
    ensures d <= plan
    ensures stop.None? ==> d == plan
  {
    match stop
    case None => plan
    case Some(k) => if k < |plan| then plan[..k] else plan
  }

  /** `test_servers`, cut short after `stop` steps when an interrupt
      arrives. An empty selection returns before anything runs. */
  function TestServers(relays: seq<Relay>, limit: nat, specific: seq<Relay>, w: World,
                       prior: seq<TestResult>, stop: Option<nat>): Progress
  {
    var servers := Selected(relays, limit, specific);
    if servers == [] then Begin(prior)
    else Run(Done(Plan(servers), stop), w, Begin(prior))
  }

  /** What a session leaves behind: the results, every command issued, and
      whether an interrupt cut it short (which skips the report). */
  datatype Outcome = Outcome(results: seq<TestResult>, trace: seq<Cmd>, interrupted: bool)

  /** The `try`/`finally` around `test_servers` on both entry paths: the
      cleanup runs however the test ends, and the results gathered so far
      are kept. */
  function RunSession(relays: seq<Relay>, limit: nat, specific: seq<Relay>, w: World,
                      prior: seq<TestResult>, stop: Option<nat>): Outcome
  {
    var p := TestServers(relays, limit, specific, w, prior, stop);
    Outcome(p.results, p.trace + Cleanup, stop.Some?)
  }

  // ---------------------------------------------------------------------
  // The plan

  /** The relays attempted by `steps`, in order. */
  function Tries(steps: seq<Step>): seq<Relay> {
    if steps == [] then []
    else Tries(steps[..|steps| - 1]) + (if steps[|steps| - 1].Try? then [steps[|steps| - 1].relay] else [])
  }

  lemma {:induction false} TriesAppend(a: seq<Step>, b: seq<Step>)
    ensures Tries(a + b) == Tries(a) + Tries(b)
  {
    if b == [] {
      assert a + b == a;
    } else {
      var n := |b| - 1;
      assert (a + b)[..|a + b| - 1] == a + b[..n];
      assert (a + b)[|a + b| - 1] == b[n];
      TriesAppend(a, b[..n]);
    }
  }

  lemma {:induction false} TriesAttempts(group: seq<Relay>)
    ensures Tries(Attempts(group)) == group
  {
    if group != [] {
      var n := |group| - 1;
      assert Attempts(group)[..n] == Attempts(group[..n]);
      TriesAttempts(group[..n]);
      assert group == group[..n] + [group[n]];
    }
  }

  lemma TriesGroup(t: Tunnel, group: seq<Relay>)
    ensures Tries(Group(t, group)) == group
  {
    if group != [] {
      TriesAppend([Switch(t)], Attempts(group));
      assert [Switch(t)][..0] == [];
      TriesAttempts(group);
    }
  }

  /** Every WireGuard server is attempted before any OpenVPN server, each
      group in input order, and every selected server is attempted once. */
  lemma PlanOrder(servers: seq<Relay>)
    ensures Tries(Plan(servers)) == Keep(servers, OnWireGuard) + Keep(servers, OnOpenVPN)
    ensures multiset(Tries(Plan(servers))) == multiset(servers)
    ensures forall i, j :: 0 <= i < j < |Tries(Plan(servers))| ==>
              !(Tries(Plan(servers))[i].provider == OpenVPN && Tries(Plan(servers))[j].provider == WireGuard)
  {
    var wg, ov := Keep(servers, OnWireGuard), Keep(servers, OnOpenVPN);
    TriesAppend(Group(TunnelWireGuard, wg), Group(TunnelOpenVPN, ov));
    TriesGroup(TunnelWireGuard, wg);
    TriesGroup(TunnelOpenVPN, ov);
    KeepPartition(servers, OnWireGuard, OnOpenVPN);
    var ts := wg + ov;
    forall i, j | 0 <= i < j < |ts|
      ensures !(ts[i].provider == OpenVPN && ts[j].provider == WireGuard)
    {
      if i < |wg| {
        assert OnWireGuard(wg[i]);
      } else {
        assert OnOpenVPN(ov[i - |wg|]) && OnOpenVPN(ov[j - |wg|]);
      }
    }
  }

  /** A group holds its own switch exactly when it is non-empty, and no
      other. */
  lemma GroupSwitch(t: Tunnel, group: seq<Relay>, u: Tunnel)
    ensures Switch(u) in Group(t, group) <==> u == t && group != []
  {
    if group != [] {
      var g := Group(t, group);
      assert g[0] == Switch(t);
      assert forall k :: 1 <= k < |g| ==> g[k] == Try(group[k - 1]);
    }
  }

  /** A filter keeps something exactly when some element passes it. */
  lemma KeepSome(servers: seq<Relay>, p: Relay -> bool)
    ensures Keep(servers, p) != [] <==> exists k :: 0 <= k < |servers| && p(servers[k])
  {
    var kept := Keep(servers, p);
    assert kept != [] ==> kept[0] in servers && p(kept[0]);
  }

  /** Each protocol switch is planned exactly when its group is non-empty;
      the automatic setting is never part of the plan. */
  lemma PlanSwitches(servers: seq<Relay>)
    ensures Switch(TunnelWireGuard) in Plan(servers) <==> exists k :: 0 <= k < |servers| && servers[k].provider == WireGuard
    ensures Switch(TunnelOpenVPN) in Plan(servers) <==> exists k :: 0 <= k < |servers| && servers[k].provider == OpenVPN
    ensures Switch(TunnelAny) !in Plan(servers)
  {
    var wg, ov := Keep(servers, OnWireGuard), Keep(servers, OnOpenVPN);
    var g1, g2 := Group(TunnelWireGuard, wg), Group(TunnelOpenVPN, ov);
    assert Plan(servers) == g1 + g2;
    GroupSwitch(TunnelWireGuard, wg, TunnelWireGuard);
    GroupSwitch(TunnelWireGuard, wg, TunnelOpenVPN);
    GroupSwitch(TunnelWireGuard, wg, TunnelAny);
    GroupSwitch(TunnelOpenVPN, ov, TunnelWireGuard);
    GroupSwitch(TunnelOpenVPN, ov, TunnelOpenVPN);
    GroupSwitch(TunnelOpenVPN, ov, TunnelAny);
    KeepSome(servers, OnWireGuard);
    KeepSome(servers, OnOpenVPN);
    assert forall k :: 0 <= k < |servers| ==> (OnWireGuard(servers[k]) <==> servers[k].provider == WireGuard);
    assert forall k :: 0 <= k < |servers| ==> (OnOpenVPN(servers[k]) <==> servers[k].provider == OpenVPN);
  }

  // ---------------------------------------------------------------------
  // Running the steps

  /** The servers named by some results. */
  function Hosts(rs: seq<TestResult>): set<string> {
    set k | 0 <= k < |rs| :: rs[k].server
  }

  /** No server appears twice among the results. */
  ghost predicate UniqueServers(rs: seq<TestResult>) {
    forall i, j :: 0 <= i < j < |rs| ==> rs[i].server != rs[j].server
  }

  /** The relay a result was recorded for, read back from its fields. */
  function Source(x: TestResult): Relay {
    Relay(x.country, x.city, x.server, if x.provider == "WireGuard" then WireGuard else OpenVPN)
  }

  /** A result names its relay: server, country, city and provider label. */
  lemma SourceOf(r: Relay, m: Metrics, stamp: string)
    ensures Source(ResultOf(r, m, stamp)) == r
  {
  }

  /** An attempt issues only the controller's commands and the speed test:
      never a protocol switch. */
  lemma AttemptSwitchesNothing(hostname: string, probe: Probe, t: Tunnel)
    ensures SetTunnel(t) !in ConnectTo(hostname, probe).issued
  {
  }

  /** What one attempt does. An already measured hostname is skipped
      outright. Otherwise exactly one result is appended when the connection
      is confirmed and the measurement succeeds, recording that relay with
      the measured values, and no result is appended otherwise. */
  lemma TryOutcome(st: Progress, r: Relay, pos: nat, w: World)
    ensures r.hostname in st.tested ==> Exec(st, Try(r), pos, w) == st
    ensures var after := Exec(st, Try(r), pos, w);
            var m := RunSpeedTest(w.run(pos), w.num);
            && (after.results == st.results || after.results == st.results + [after.results[|st.results|]])
            && (|after.results| == |st.results| + 1 <==>
                  r.hostname !in st.tested && ConnectTo(r.hostname, w.probe(pos)).ok && m.Some?)
            && (|after.results| == |st.results| + 1 ==>
                  after.results[|st.results|] == ResultOf(r, m.value, w.clock(pos)))
  {
  }

  /** A step only adds: results and commands grow at their ends, and at
      most an attempt adds a result. */
  lemma ExecGrows(st: Progress, step: Step, pos: nat, w: World)
    ensures st.results <= Exec(st, step, pos, w).results
    ensures st.trace <= Exec(st, step, pos, w).trace
    ensures |Exec(st, step, pos, w).results| <= |st.results| + (if step.Try? then 1 else 0)
  {
  }

  /** Running a prefix of the steps gives a prefix of the results and of the
      commands: what an interrupted run gathered, the full run gathers too. */
  lemma {:induction false} RunPrefix(steps: seq<Step>, k: nat, w: World, st0: Progress)
    requires k <= |steps|
    ensures Run(steps[..k], w, st0).results <= Run(steps, w, st0).results
    ensures Run(steps[..k], w, st0).trace <= Run(steps, w, st0).trace
    decreases |steps|
  {
    if k < |steps| {
      var n := |steps| - 1;
      assert steps[..n][..k] == steps[..k];
      RunPrefix(steps[..n], k, w, st0);
      ExecGrows(Run(steps[..n], w, st0), steps[n], n, w);
    } else {
      assert steps[..k] == steps;
    }
  }

  /** The earlier results survive, and the recorded protocol is never
      OpenVPN (the OpenVPN switch does not record it). */
  lemma {:induction false} RunKeepsPrior(steps: seq<Step>, w: World, prior: seq<TestResult>)
    ensures prior <= Run(steps, w, Begin(prior)).results
    ensures Run(steps, w, Begin(prior)).protocol != Some(TunnelOpenVPN)
  {
    if steps != [] {
      var n := |steps| - 1;
      RunKeepsPrior(steps[..n], w, prior);
      ExecGrows(Run(steps[..n], w, Begin(prior)), steps[n], n, w);
    }
  }

  lemma HostsAppend(rs: seq<TestResult>, x: TestResult)
    ensures Hosts(rs + [x]) == Hosts(rs) + {x.server}
  {
    var ys := rs + [x];
    assert ys[|rs|] == x;
    forall h | h in Hosts(ys)
      ensures h in Hosts(rs) + {x.server}
    {
      var k :| 0 <= k < |ys| && ys[k].server == h;
      if k < |rs| {
        assert rs[k] == ys[k];
      }
    }
    forall h | h in Hosts(rs)
      ensures h in Hosts(ys)
    {
      var k :| 0 <= k < |rs| && rs[k].server == h;
      assert ys[k] == rs[k];
    }
  }

  /** The guard's invariant over the results recorded since position
      `base`: the tested hostnames are exactly their servers, none twice. */
  ghost predicate TestedInvariant(st: Progress, base: nat) {
    base <= |st.results| && st.tested == Hosts(st.results[base..]) && UniqueServers(st.results[base..])
  }

  /** One step keeps the guard's invariant. */
  lemma ExecTested(st: Progress, step: Step, pos: nat, w: World, base: nat)
    requires TestedInvariant(st, base)
    ensures TestedInvariant(Exec(st, step, pos, w), base)
  {
    var after := Exec(st, step, pos, w);
    ExecGrows(st, step, pos, w);
    if step.Try? {
      var r := step.relay;
      TryOutcome(st, r, pos, w);
      if |after.results| == |st.results| + 1 {
        var x := after.results[|st.results|];
        var olds := st.results[base..];
        assert after.results[base..] == olds + [x];
        HostsAppend(olds, x);
        assert x.server == r.hostname && r.hostname !in Hosts(olds);
        assert forall i :: 0 <= i < |olds| ==> olds[i].server in Hosts(olds);
      } else {
        assert after.results == st.results;
      }
    } else {
      assert after.results == st.results && after.tested == st.tested;
    }
  }

  /** The tested-hostname guard: the set of tested hostnames is exactly the
      set of servers measured in this session, and no server is measured
      twice. */
  lemma {:induction false} RunTested(steps: seq<Step>, w: World, prior: seq<TestResult>)
    ensures prior <= Run(steps, w, Begin(prior)).results
    ensures var st := Run(steps, w, Begin(prior));
            && st.tested == Hosts(st.results[|prior|..])
            && UniqueServers(st.results[|prior|..])
  {
    RunKeepsPrior(steps, w, prior);
    RunInvariant(steps, w, prior);
  }

  lemma {:induction false} RunInvariant(steps: seq<Step>, w: World, prior: seq<TestResult>)
    ensures TestedInvariant(Run(steps, w, Begin(prior)), |prior|)
  {
    if steps == [] {
      assert prior[|prior|..] == [];
    } else {
      var n := |steps| - 1;
      RunInvariant(steps[..n], w, prior);
      ExecTested(Run(steps[..n], w, Begin(prior)), steps[n], n, w, |prior|);
    }
  }

  /** Every result of the session was recorded for a relay it attempted, and
      there are no more of them than attempts. */
  lemma {:induction false} RunFrom(steps: seq<Step>, w: World, prior: seq<TestResult>)
    ensures prior <= Run(steps, w, Begin(prior)).results
    ensures |Run(steps, w, Begin(prior)).results| - |prior| <= |Tries(steps)|
    ensures var rs := Run(steps, w, Begin(prior)).results;
            forall k :: |prior| <= k < |rs| ==> Source(rs[k]) in Tries(steps)
  {
    RunKeepsPrior(steps, w, prior);
    if steps != [] {
      var n := |steps| - 1;
      var before := Run(steps[..n], w, Begin(prior));
      var after := Run(steps, w, Begin(prior));
      RunFrom(steps[..n], w, prior);
      ExecGrows(before, steps[n], n, w);
      assert Tries(steps) == Tries(steps[..n]) + (if steps[n].Try? then [steps[n].relay] else []);
      if |after.results| > |before.results| {
        var r := steps[n].relay;
        TryOutcome(before, r, n, w);
        SourceOf(r, RunSpeedTest(w.run(n), w.num).value, w.clock(n));
      }
    }
  }

  /** One step issues a protocol switch exactly when it is that switch,
      as long as the recorded protocol is not OpenVPN. */
  lemma ExecSwitch(st: Progress, step: Step, pos: nat, w: World, t: Tunnel)
    requires st.protocol != Some(TunnelOpenVPN)
    ensures SetTunnel(t) in Exec(st, step, pos, w).trace <==> SetTunnel(t) in st.trace || step == Switch(t)
  {
    match step
    case Switch(u) =>
    case Try(r) =>
      AttemptSwitchesNothing(r.hostname, w.probe(pos), t);
  }

  /** A protocol switch is issued exactly when the steps hold it: attempts
      never switch, and the OpenVPN switch is never suppressed, since the
      recorded protocol is never OpenVPN. */
  lemma {:induction false} RunSwitches(steps: seq<Step>, w: World, prior: seq<TestResult>, t: Tunnel)
    ensures SetTunnel(t) in Run(steps, w, Begin(prior)).trace <==> Switch(t) in steps
  {
    if steps != [] {
      var n := |steps| - 1;
      RunSwitches(steps[..n], w, prior, t);
      RunKeepsPrior(steps[..n], w, prior);
      ExecSwitch(Run(steps[..n], w, Begin(prior)), steps[n], n, w, t);
      assert steps == steps[..n] + [steps[n]];
    }
  }

  /** When no connection succeeds, nothing is measured and nothing is
      recorded. */
  lemma {:induction false} RunAllFail(steps: seq<Step>, w: World, prior: seq<TestResult>)
    requires forall i: nat :: !w.probe(i).connected
    ensures Run(steps, w, Begin(prior)).results == prior
    ensures SpeedTest !in Run(steps, w, Begin(prior)).trace
  {
    if steps != [] {
      var n := |steps| - 1;
      RunAllFail(steps[..n], w, prior);
    }
  }

  /** A step never lists the relays. */
  lemma ExecNeverLists(st: Progress, step: Step, pos: nat, w: World)
    requires ListRelays !in st.trace
    ensures ListRelays !in Exec(st, step, pos, w).trace
  {
    match step
    case Switch(t) =>
    case Try(r) =>
      var a := ConnectTo(r.hostname, w.probe(pos));
      assert ListRelays !in a.issued;
  }

  lemma {:induction false} RunNeverLists(steps: seq<Step>, w: World, prior: seq<TestResult>)
    ensures ListRelays !in Run(steps, w, Begin(prior)).trace
  {
    if steps != [] {
      var n := |steps| - 1;
      RunNeverLists(steps[..n], w, prior);
      ExecNeverLists(Run(steps[..n], w, Begin(prior)), steps[n], n, w);
    }
  }

  // ---------------------------------------------------------------------
  // The session as a whole

  /** The relays a possibly interrupted run attempted are among the
      selected servers, and there are no more attempts than servers. */
  lemma DoneTries(servers: seq<Relay>, stop: Option<nat>)
    ensures |Tries(Done(Plan(servers), stop))| <= |servers|
    ensures forall r :: r in Tries(Done(Plan(servers), stop)) ==> r in servers
  {
    var plan := Plan(servers);
    var done := Done(plan, stop);
    assert plan == done + plan[|done|..];
    TriesAppend(done, plan[|done|..]);
    PlanOrder(servers);
    assert |Tries(plan)| == |multiset(Tries(plan))| == |servers|;
    forall r | r in Tries(done)
      ensures r in servers
    {
      assert r in multiset(Tries(plan));
    }
  }

  /** However the session ends, its commands end with the cleanup
      (protocol back to automatic, then disconnect) and the earlier results
      are kept. */
  lemma SessionEnds(relays: seq<Relay>, limit: nat, specific: seq<Relay>, w: World,
                    prior: seq<TestResult>, stop: Option<nat>)
    ensures var o := RunSession(relays, limit, specific, w, prior, stop);
            && |o.trace| >= 2 && o.trace[|o.trace| - 2..] == Cleanup
            && prior <= o.results
            && o.interrupted == stop.Some?
  {
    var servers := Selected(relays, limit, specific);
    var p := TestServers(relays, limit, specific, w, prior, stop);
    assert (p.trace + Cleanup)[|p.trace|..] == Cleanup;
    if servers != [] {
      RunKeepsPrior(Done(Plan(servers), stop), w, prior);
    }
  }

  /** However the session ends, interrupted or not and whatever was
      selected, its commands end with the cleanup (protocol back to
      automatic, then disconnect); what it issued before is what the full
      session would have issued up to that point, and the results it keeps
      are the earlier ones followed by a prefix of the full session's new
      ones. An empty selection issues nothing but the cleanup. */
  lemma SessionCleanup(relays: seq<Relay>, limit: nat, specific: seq<Relay>, w: World,
                       prior: seq<TestResult>, stop: Option<nat>)
    ensures var o := RunSession(relays, limit, specific, w, prior, stop);
            var full := RunSession(relays, limit, specific, w, prior, None);
            && |o.trace| >= 2 && o.trace[|o.trace| - 2..] == [SetTunnel(TunnelAny), Disconnect]
            && o.trace[..|o.trace| - 2] <= full.trace
            && prior <= o.results && o.results <= full.results
            && o.interrupted == stop.Some?
    ensures Selected(relays, limit, specific) == [] ==>
              RunSession(relays, limit, specific, w, prior, stop) == Outcome(prior, Cleanup, stop.Some?)
  {
    var servers := Selected(relays, limit, specific);
    var o := RunSession(relays, limit, specific, w, prior, stop);
    var full := RunSession(relays, limit, specific, w, prior, None);
    var p := TestServers(relays, limit, specific, w, prior, stop);
    var q := TestServers(relays, limit, specific, w, prior, None);
    assert o.trace == p.trace + Cleanup && o.trace[..|o.trace| - 2] == p.trace;
    assert full.trace == q.trace + Cleanup;
    if servers != [] {
      var plan := Plan(servers);
      var done := Done(plan, stop);
      assert plan[..|done|] == done;
      RunPrefix(plan, |done|, w, Begin(prior));
      RunKeepsPrior(done, w, prior);
    }
  }

  /** The WireGuard switch is issued exactly when a WireGuard server was
      selected, the OpenVPN switch exactly when an OpenVPN server was (the
      `current_protocol` guard never suppresses it), and the protocol is set
      back to automatic only by the cleanup. */
  lemma SessionSwitches(relays: seq<Relay>, limit: nat, specific: seq<Relay>, w: World, prior: seq<TestResult>)
    ensures var servers := Selected(relays, limit, specific);
            var t := TestServers(relays, limit, specific, w, prior, None).trace;
            && (SetTunnel(TunnelWireGuard) in t <==> exists k :: 0 <= k < |servers| && servers[k].provider == WireGuard)
            && (SetTunnel(TunnelOpenVPN) in t <==> exists k :: 0 <= k < |servers| && servers[k].provider == OpenVPN)
            && SetTunnel(TunnelAny) !in t
  {
    var servers := Selected(relays, limit, specific);
    if servers != [] {
      var plan := Plan(servers);
      PlanSwitches(servers);
      RunSwitches(plan, w, prior, TunnelWireGuard);
      RunSwitches(plan, w, prior, TunnelOpenVPN);
      RunSwitches(plan, w, prior, TunnelAny);
    }
  }

  /** The results a session adds, interrupted or not: each was recorded for
      a selected server, no server twice, and never more than were
      selected. */
  lemma SessionResults(relays: seq<Relay>, limit: nat, specific: seq<Relay>, w: World,
                       prior: seq<TestResult>, stop: Option<nat>)
    ensures var servers := Selected(relays, limit, specific);
            var rs := RunSession(relays, limit, specific, w, prior, stop).results;
            && prior <= rs
            && |rs| - |prior| <= |servers|
            && UniqueServers(rs[|prior|..])
            && (forall k :: |prior| <= k < |rs| ==> Source(rs[k]) in servers)
  {
    var servers := Selected(relays, limit, specific);
    if servers != [] {
      var done := Done(Plan(servers), stop);
      RunFrom(done, w, prior);
      RunTested(done, w, prior);
      DoneTries(servers, stop);
    }
  }

  /** When no connection comes up, nothing is measured and no result is
      added. */
  lemma SessionAllFail(relays: seq<Relay>, limit: nat, specific: seq<Relay>, w: World,
                       prior: seq<TestResult>, stop: Option<nat>)
    requires forall i: nat :: !w.probe(i).connected
    ensures RunSession(relays, limit, specific, w, prior, stop).results == prior
    ensures SpeedTest !in RunSession(relays, limit, specific, w, prior, stop).trace
  {
    var servers := Selected(relays, limit, specific);
    if servers != [] {
      RunAllFail(Done(Plan(servers), stop), w, prior);
    }
  }

  /** A session never lists the relays. */
  lemma SessionNeverLists(relays: seq<Relay>, limit: nat, specific: seq<Relay>, w: World,
                          prior: seq<TestResult>, stop: Option<nat>)
    ensures ListRelays !in RunSession(relays, limit, specific, w, prior, stop).trace
  {
    var servers := Selected(relays, limit, specific);
    if servers != [] {
      RunNeverLists(Done(Plan(servers), stop), w, prior);
    }
  }
}
