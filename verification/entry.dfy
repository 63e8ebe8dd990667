/** The two ways a session is started: `command_line_mode`, and one round
    of `interactive_mode` once its prompts have produced the options. Both
    wrap the session in the `try`/`finally` that ends with the cleanup, and
    show the report unless the session was interrupted. */
module Entry {
  import opened Prelude
  import opened Commands
  import opened Catalog
  import opened Selection
  import opened Session
  import opened Ranking

  /** The flags that reach the core: "" for an absent string flag, 0 for no
      `--limit`. */
  datatype Flags = Flags(country: string, city: string, provider: string, limit: nat, list: bool)

  /** How a command-line run ends: its exit status, the session if one ran,
      the report if one was shown, and every command issued. */
  datatype CliRun = CliRun(exit: int, outcome: Option<Outcome>, report: Option<Report>, trace: seq<Cmd>)

  /** `command_line_mode` on a fresh tester: the status query that notes the
      current server, the catalog load and the filters; then exit 1 when
      nothing matches, exit 0 after `--list`, exit 1 without `--country`;
      otherwise one session, reported unless interrupted. */
  function CommandLine(flags: Flags, listing: Listing, w: World, stop: Option<nat>): CliRun {
    var loaded := LoadRelays([], listing);
    Decide(flags, [Status] + loaded.issued, FilterRelays(loaded.relays, flags.country, flags.city, flags.provider), w, stop)
  }

  /** What follows the setup commands once the matching relays are known. */
  function Decide(flags: Flags, setup: seq<Cmd>, relays: seq<Relay>, w: World, stop: Option<nat>): CliRun {
    if relays == [] then CliRun(1, None, None, setup)
    else if flags.list then CliRun(0, None, None, setup)
    else if flags.country == "" then CliRun(1, None, None, setup)
    else Finish(setup, RunSession(relays, flags.limit, [], w, [], stop))
  }

  /** The end of a command-line session: exit 0, the report unless
      interrupted, the session's commands after the setup. */
  function Finish(setup: seq<Cmd>, o: Outcome): CliRun {
    CliRun(0, Some(o), if o.interrupted then None else Display(o.results), setup + o.trace)
  }

  /** A session that ends with the cleanup still ends with it after the
      setup; its report is shown exactly when it was not interrupted and
      produced results, and ranks exactly those results. */
  lemma FinishFacts(setup: seq<Cmd>, o: Outcome)
    requires |o.trace| >= 2 && o.trace[|o.trace| - 2..] == Cleanup
    ensures var r := Finish(setup, o);
            && r.outcome == Some(o)
            && r.exit == 0 && |r.trace| >= 2 && r.trace[|r.trace| - 2..] == Cleanup
            && (r.report.Some? <==> !r.outcome.value.interrupted && r.outcome.value.results != [])
            && (r.report.Some? ==> multiset(r.report.value.ranked) == multiset(r.outcome.value.results))
  {
    assert (setup + o.trace)[|setup + o.trace| - 2..] == o.trace[|o.trace| - 2..];
  }

  /** Only queries: the status query and the catalog listing. */
  predicate ReadOnly(trace: seq<Cmd>) {
    forall k :: 0 <= k < |trace| ==> trace[k] == Status || trace[k] == ListRelays
  }

  /** A session runs exactly when some relay matched, `--list` is off and a
      country was given. The early exits (nothing matched, `--list`, no
      `--country`) only query, show no report, and exit 0 exactly for
      `--list` with some relay matched. */
  lemma CommandLineEarly(flags: Flags, listing: Listing, w: World, stop: Option<nat>)
    ensures var r := CommandLine(flags, listing, w, stop);
            var relays := FilterRelays(LoadRelays([], listing).relays, flags.country, flags.city, flags.provider);
            && (r.outcome.Some? <==> relays != [] && !flags.list && flags.country != "")
            && (r.outcome.None? ==> ReadOnly(r.trace) && r.report.None? && (r.exit == 0 <==> relays != [] && flags.list))
  {
    SetupQueries(listing);
  }

  /** The setup of a command-line run only queries. */
  lemma SetupQueries(listing: Listing)
    ensures ReadOnly([Status] + LoadRelays([], listing).issued)
  {
    assert [Status] + LoadRelays([], listing).issued == [Status, ListRelays];
  }

  /** A command-line session exits 0 and always ends with the cleanup; its
      report is shown exactly when it was not interrupted and produced
      results, and ranks exactly those results. */
  lemma CommandLineSession(flags: Flags, listing: Listing, w: World, stop: Option<nat>)
    ensures var r := CommandLine(flags, listing, w, stop);
            r.outcome.Some? ==>
              && r.exit == 0 && |r.trace| >= 2 && r.trace[|r.trace| - 2..] == Cleanup
              && (r.report.Some? <==> !r.outcome.value.interrupted && r.outcome.value.results != [])
              && (r.report.Some? ==> multiset(r.report.value.ranked) == multiset(r.outcome.value.results))
  {
    var loaded := LoadRelays([], listing);
    DecideSession(flags, [Status] + loaded.issued, FilterRelays(loaded.relays, flags.country, flags.city, flags.provider), w, stop);
  }

  lemma DecideSession(flags: Flags, setup: seq<Cmd>, relays: seq<Relay>, w: World, stop: Option<nat>)
    ensures var r := Decide(flags, setup, relays, w, stop);
            r.outcome.Some? ==>
              && r.exit == 0 && |r.trace| >= 2 && r.trace[|r.trace| - 2..] == Cleanup
              && (r.report.Some? <==> !r.outcome.value.interrupted && r.outcome.value.results != [])
              && (r.report.Some? ==> multiset(r.report.value.ranked) == multiset(r.outcome.value.results))
  {
    if relays != [] && !flags.list && flags.country != "" {
      SessionEnds(relays, flags.limit, [], w, [], stop);
      FinishFacts(setup, RunSession(relays, flags.limit, [], w, [], stop));
    }
  }

  /** The tester's state that outlives a round: the relay cache and the
      results gathered so far. */
  datatype Tester = Tester(cache: seq<Relay>, results: seq<TestResult>)

  /** The options one round's prompts produce: the chosen country and city,
      an optional provider ("" for any), the hand-picked servers (possibly
      none) and the limit (0 for none). */
  datatype RoundOptions = RoundOptions(country: string, city: string, provider: string, specific: seq<Relay>, limit: nat)

  datatype Round = Round(tester: Tester, report: Option<Report>, trace: seq<Cmd>)

  /** The start of `interactive_mode`: the catalog is loaded, then the
      current server is noted with a status query. */
  function InteractiveStart(listing: Listing): (Tester, seq<Cmd>) {
    var loaded := LoadRelays([], listing);
    (Tester(loaded.cache, []), loaded.issued + [Status])
  }

  /** One round of the interactive loop after its prompts: filter the cached
      catalog, test, report unless interrupted, clean up. The results
      accumulate across rounds, and the report ranks all of them. */
  function InteractiveRound(t: Tester, opts: RoundOptions, listing: Listing, w: World, stop: Option<nat>): Round {
    var loaded := LoadRelays(t.cache, listing);
    var relays := FilterRelays(loaded.relays, opts.country, opts.city, opts.provider);
    Conclude(loaded, RunSession(relays, opts.limit, opts.specific, w, t.results, stop))
  }

  /** The end of a round: the cache and all results are kept, the report is
      shown unless interrupted, and the load's commands precede the
      session's. */
  function Conclude(loaded: Loaded, o: Outcome): Round {
    Round(Tester(loaded.cache, o.results), if o.interrupted then None else Display(o.results), loaded.issued + o.trace)
  }

  /** What a round's end keeps of a session that ended with the cleanup and
      kept the earlier results. */
  lemma ConcludeFacts(loaded: Loaded, o: Outcome, prior: seq<TestResult>)
    requires |o.trace| >= 2 && o.trace[|o.trace| - 2..] == Cleanup && prior <= o.results
    ensures var r := Conclude(loaded, o);
            && prior <= r.tester.results && r.tester.cache == loaded.cache
            && (r.report.Some? ==> multiset(r.report.value.ranked) == multiset(r.tester.results))
            && (r.report.None? <==> o.interrupted || r.tester.results == [])
            && |r.trace| >= 2 && r.trace[|r.trace| - 2..] == Cleanup
            && (loaded.issued == [] ==> r.trace == o.trace)
  {
    assert (loaded.issued + o.trace)[|loaded.issued + o.trace| - 2..] == o.trace[|o.trace| - 2..];
    if loaded.issued == [] {
      assert loaded.issued + o.trace == o.trace;
    }
  }

  /** Across rounds, earlier results are kept and the report covers every
      result gathered so far, shown unless the round was interrupted or
      nothing was ever measured. */
  lemma RoundKeeps(t: Tester, opts: RoundOptions, listing: Listing, w: World, stop: Option<nat>)
    ensures var r := InteractiveRound(t, opts, listing, w, stop);
            && t.results <= r.tester.results
            && (r.report.Some? ==> multiset(r.report.value.ranked) == multiset(r.tester.results))
            && (r.report.None? <==> stop.Some? || r.tester.results == [])
  {
    var loaded := LoadRelays(t.cache, listing);
    var relays := FilterRelays(loaded.relays, opts.country, opts.city, opts.provider);
    SessionEnds(relays, opts.limit, opts.specific, w, t.results, stop);
    ConcludeFacts(loaded, RunSession(relays, opts.limit, opts.specific, w, t.results, stop), t.results);
  }

  /** Every round ends with the cleanup, and once the catalog is cached a
      round keeps it and does not list relays again. */
  lemma RoundCleanup(t: Tester, opts: RoundOptions, listing: Listing, w: World, stop: Option<nat>)
    ensures var r := InteractiveRound(t, opts, listing, w, stop);
            && |r.trace| >= 2 && r.trace[|r.trace| - 2..] == Cleanup
            && (t.cache != [] ==> r.tester.cache == t.cache && ListRelays !in r.trace)
  {
    var loaded := LoadRelays(t.cache, listing);
    var relays := FilterRelays(loaded.relays, opts.country, opts.city, opts.provider);
    SessionEnds(relays, opts.limit, opts.specific, w, t.results, stop);
    ConcludeFacts(loaded, RunSession(relays, opts.limit, opts.specific, w, t.results, stop), t.results);
    SessionNeverLists(relays, opts.limit, opts.specific, w, t.results, stop);
  }
}
