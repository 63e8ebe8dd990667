# TBI Speed for Mullvad — a Dafny model of the relay benchmarking core

TBI Speed benchmarks Mullvad VPN relays. It reads the relay catalog from
`mullvad relay list`, narrows it by country, city and provider (or by a
hand-typed index expression), connects to each chosen relay in turn,
runs `speedtest-cli --simple` through it, records ping, download and
upload, ranks the results by download speed and, however the session
ends, resets the tunnel protocol to `any` and disconnects.

This project models that core as pure functions over immutable data and
proves what it promises. The modules follow the program's structure:

- `Prelude`: `Option`, and `Keep`, the order-preserving filter behind every Python list comprehension.
- `Text`: the Python string built-ins the core relies on: `strip`, `lstrip('\t')`, `split`, `in`, `lower`, `split()[0]` and `int()`. It also defines `Join` and `Show` (the inverses of `split` and `int()`), which the core never calls; they only build the inputs of round-trip lemmas.
- `Sorting`: a stable insertion sort. It stands for Python's `sorted` and the ordering of strings.
- `Commands`: the `mullvad` commands the program issues, recorded as a trace.
- `Catalog`: `get_all_relays`, which parses the tab-indented relay listing and caches it.
- `Selection`: `filter_relays`, `get_countries`, `get_cities`, and the index-expression parser of `select_specific_servers`.
- `Mullvad`: `connect_to_specific_server` and `get_connected_server`.
- `Measure`: `run_speed_test` and its reading of the `--simple` report.
- `Session`: `test_servers` (the WireGuard pass, then the OpenVPN pass), the `tested` set, interruption, and the cleanup of `restore_original_connection`.
- `Ranking`: `display_results`, a stable ranking by descending download speed with the fastest singled out.
- `Entry`: `command_line_mode`, and one round of `interactive_mode` after its prompts.

Everything outside the core becomes an input.

- **The relay listing** is a `Listing`: the listing failed, or it succeeded with this output.
- **Each connection attempt** is a `Probe`: whether `mullvad connect` succeeded, and the output of `mullvad status`, if that command succeeded.
- **Each speed-test run** is a `SpeedRun`: timed out, failed, or completed with this output.
- **Python's `float()`** is a `Reader`, a partial function from token to number.
- **The clock** is a function from step to timestamp string.
- **The `World`** gathers the per-attempt answers. They are indexed by the attempt's position in the test plan.
- **A Ctrl-C** is a step count `stop`: the session is cut short after that many steps.
- **Python's `None`** for an optional string is modelled as `""`. The source only tests these for truthiness.

## Model

| member | source | states |
|---|---|---|
| Catalog.Classify | tbi_speed.py:107-116 | a line's depth is its number of leading tabs; a blank line is never an entry; the name holds no `(` and has no surrounding white space |
| Catalog.ParseLines | tbi_speed.py:106-130 | the scan over classified lines, carrying the country and city in force: at most one relay per line, each with a country and a city, WireGuard exactly when its name contains `wg`; `Catalog.ParseMembership` and `Catalog.ParseAppend` characterise it fully |
| Catalog.ParseCatalog | tbi_speed.py:106-130 | every parsed relay has a non-empty country and city, and its provider is WireGuard exactly when its name contains `wg` |
| Catalog.ParseMembership | tbi_speed.py:110-130 | a relay is in the parse exactly when some depth-2 entry line yields it while a country and a city are in force; it carries that line's name and the country and city in force there |
| Catalog.ParseAppend | tbi_speed.py:106-130 | the parse is a left-to-right scan: parsing two consecutive pieces of a listing gives the first piece's relays, then the second piece's relays parsed from where the first left off |
| Catalog.IgnoredLine | tbi_speed.py:107-114 | a line without `(` after stripping is ignored, blank lines included: deleting it changes neither the relays nor the country and city in force |
| Catalog.CountryInForce | tbi_speed.py:118-120 | the country in force is the name on the last untabbed entry line |
| Catalog.CityInForce | tbi_speed.py:118-122 | the city in force is the name on the last one-tab entry line, or none if an untabbed entry line came after it |
| Catalog.NoCountryYet | tbi_speed.py:103-123 | until the first untabbed entry line, the starting country (none) stays in force |
| Catalog.LoadRelays | tbi_speed.py:94-136 | a non-empty cache is returned without running anything; otherwise the listing runs once; a failed listing gives no relays; a successful one gives the parsed catalog, which becomes the cache |
| Catalog.LoadOnce | tbi_speed.py:95-96 | once a load has produced relays, the next load (and so every later one) returns the same relays and runs nothing |
| Catalog.EmptyNotCached | tbi_speed.py:95-136 | an empty catalog is not a cache hit: the next load runs the listing again |
| Selection.FilterRelays | tbi_speed.py:138-148 | the country, city and provider filters applied one after another, each only when given; `Selection.FilterIsKeep` states what it keeps |
| Selection.FilterIsKeep | tbi_speed.py:138-148 | the three optional filters applied one after another amount to one order-preserving filter; they keep exactly the catalog relays that pass every given filter (case-insensitive substring for country and city, equality with the lower-cased provider) |
| Selection.FilterNone | tbi_speed.py:138-148 | with no filter given, the whole catalog is returned unchanged |
| Selection.Countries | tbi_speed.py:150-157 | the countries are strictly ascending, so there are no duplicates, and they are exactly the countries occurring in the catalog |
| Selection.Cities | tbi_speed.py:159-167 | the cities of a country (exact match) are strictly ascending and exactly those occurring with it; each is paired with its positive number of relays |
| Selection.CityCountsSum | tbi_speed.py:159-167 | the per-city counts add up to the number of relays in that country |
| Selection.SelectFrom | tbi_speed.py:546-576 | `b` (any case, surrounding white space ignored) means back and nothing else does; `all` selects the whole list; any other input is an index expression, rejected exactly when a part is malformed or no position is in range, and otherwise selecting the servers at its distinct positions in ascending order |
| Selection.ReadIndices | tbi_speed.py:554-576 | an index expression is rejected exactly when its positions are unreadable or none is in range; otherwise it selects the servers at those positions, ascending |
| Selection.ChooseFrom | tbi_speed.py:569-576 | no position set, or an empty one, is invalid; otherwise the servers at the positions in ascending order are chosen |
| Selection.IndexSet | tbi_speed.py:554-568 | the comma-separated input is rejected exactly when one of its parts is malformed; otherwise the chosen positions are the union of the parts' positions, all within 1..n |
| Selection.Ascend | tbi_speed.py:569-570 | the chosen positions are visited in strictly increasing order, each exactly once, and are exactly the set's members in range |
| Selection.SelectList | tbi_speed.py:554-572 | a comma list of increasing valid positions selects exactly those servers, in that order |
| Selection.SelectSpan | tbi_speed.py:560-563 | a range `a-b` with both ends valid selects servers a through b inclusive; a reversed range selects nothing and is rejected |
| Selection.SelectOutOfRange | tbi_speed.py:564-576 | a single position outside 1..n selects nothing and is rejected |
| Selection.SelectMalformed | tbi_speed.py:554-576 | any index expression with a malformed part is invalid, whatever its other parts name |
| Selection.SelectLetter | tbi_speed.py:554-576 | `<n>,x` is invalid even when position n is valid |
| Selection.SelectNoneInRange | tbi_speed.py:564-576 | two positions both out of range, such as `0,99` for fewer than 99 servers, are invalid |
| Mullvad.ConnectTo | tbi_speed.py:306-339 | a hostname with fewer than three dash fields fails before running anything; otherwise the client is disconnected, pointed at (country code, city code, hostname) and told to connect; status is queried only after a successful connect; the attempt succeeds exactly when the connect succeeded and the status mentions `Connected` |
| Mullvad.ConnectByFields | tbi_speed.py:308-322 | for a hostname joined from at least three dash-free fields, the location is set from its first two fields, and success depends only on the client's answers |
| Mullvad.ConnectShortName | tbi_speed.py:308-310 | a hostname of one or two dash-free fields runs nothing and fails, whatever the client would answer |
| Mullvad.ConnectedTrace | tbi_speed.py:315-332 | a successful attempt issued exactly disconnect, set location, connect and status, in that order |
| Mullvad.RelayName | tbi_speed.py:180-184 | a name is found only on a line mentioning `Relay:`, and it is a non-empty token without white space |
| Mullvad.ConnectedServer | tbi_speed.py:169-188 | a reported server name is a non-empty token without white space, and a failed status query reports none |
| Mullvad.RelayNameFirst | tbi_speed.py:180-184 | the name is taken from the first line mentioning `Relay:` and no later one |
| Mullvad.ConnectedToName | tbi_speed.py:174-178 | a status of the form `… Connected to<white space><name> …` reports that name, for any run of white space (none, one or many) before the name and whatever follows it after white space (such as ` in Toronto, Canada`), provided no `C` comes before the marker or inside the name |
| Mullvad.RelayLineName | tbi_speed.py:180-184 | without `Connected to`, a status whose first `Relay:` line reads `… Relay:<white space><name> …` reports that name, including lines padded for alignment such as `    Relay:                  se-got-wg-001`, provided no `R` comes before the marker or inside the name |
| Measure.RunSpeedTest | tbi_speed.py:341-369 | a timed-out or failed run gives no metrics; a completed run gives whatever its report yields |
| Measure.ParseReport | tbi_speed.py:348-362 | the line loop over the stripped report and the all-three check; `Measure.ParseReportSpec` states what it yields |
| Measure.ParseReportSpec | tbi_speed.py:348-362 | a report yields metrics exactly when every labelled line has a readable number and all three labels occur; each value comes from the last line bearing its label |
| Measure.ScanReadable | tbi_speed.py:348-355 | the line loop gets through exactly when every line is unlabelled or has a readable number after its first colon |
| Measure.ScanField | tbi_speed.py:348-355 | after a complete scan, each metric holds the value on the last line bearing its label |
| Measure.SimpleReport | tbi_speed.py:345-359 | the three-line `--simple` report yields its ping, download and upload values |
| Session.Selected | tbi_speed.py:191-194 | hand-picked servers are tested as given; otherwise a prefix of the filtered relays is tested, of length `limit`, or all of them when no limit is given or it is not smaller |
| Session.Plan | tbi_speed.py:202-297 | the steps of `test_servers`: the switch to WireGuard and an attempt per WireGuard server, then the switch to OpenVPN and an attempt per OpenVPN server, an empty group contributing nothing; `Session.PlanOrder` and `Session.PlanSwitches` state its properties |
| Session.Exec | tbi_speed.py:228-297 | one step: a protocol switch issues its command, and an attempt skips a tested hostname, connects, measures only a confirmed connection and records only a successful measurement; `Session.TryOutcome` states it |
| Session.PlanOrder | tbi_speed.py:202-297 | every WireGuard server is tried before any OpenVPN server, each pass keeps the selection order, and together they try exactly the selected servers |
| Session.PlanSwitches | tbi_speed.py:228-271 | the plan switches to WireGuard exactly when a WireGuard server is selected, to OpenVPN exactly when an OpenVPN server is, and never back to `any` |
| Session.TryOutcome | tbi_speed.py:240-297 | an already-tested hostname is skipped with no effect; otherwise exactly one result is appended exactly when the connection succeeded and the measurement produced metrics, and that result records the relay, its metrics and the time |
| Session.RunTested | tbi_speed.py:224-297 | earlier results are kept; the `tested` set is exactly the servers of this session's results, and none of them is recorded twice |
| Session.RunFrom | tbi_speed.py:236-297 | a session adds at most one result per attempt, and every new result is for a server that was attempted |
| Session.RunSwitches | tbi_speed.py:228-271 | the tunnel protocol is set to `t` exactly when the plan switches to `t` |
| Session.RunPrefix | tbi_speed.py:236-297 | a session cut short records a prefix of the full session's results and commands |
| Session.TestServers | tbi_speed.py:190-304 | the selected servers' plan run from the earlier results, cut short after `stop` steps, nothing at all for an empty selection; `Session.SessionResults` and `Session.SessionSwitches` state its properties |
| Session.RunSession | tbi_speed.py:790-801 | `test_servers` followed by the cleanup whatever happened; `Session.SessionEnds` and `Session.SessionCleanup` state its properties |
| Session.SessionCleanup | tbi_speed.py:790-801 | an interrupted or complete session ends with reset-to-`any` and disconnect; before that, its results and commands are prefixes of an uninterrupted session's; an empty selection runs only the cleanup |
| Session.SessionEnds | tbi_speed.py:728-747 | every session ends with the cleanup, keeps earlier results, and counts as interrupted exactly when an interrupt arrived |
| Session.SessionSwitches | tbi_speed.py:202-271 | an uninterrupted session sets WireGuard exactly when a WireGuard server was selected, OpenVPN exactly when an OpenVPN one was, and never `any` before the cleanup |
| Session.SessionResults | tbi_speed.py:236-297 | a session adds at most one result per selected server, never two for the same server, and only for selected servers |
| Session.SessionAllFail | tbi_speed.py:245-246 | when every connect fails, no speed test runs and no result is added |
| Session.SessionNeverLists | tbi_speed.py:190-304 | testing never re-reads the relay catalog |
| Ranking.Display | tbi_speed.py:371-393 | no report exactly when there are no results; otherwise the ranking is a permutation of the results, ordered by non-increasing download, and its first entry is the fastest |
| Ranking.FastestIsMax | tbi_speed.py:375-393 | the fastest result downloaded at least as fast as every result |
| Ranking.RankingStable | tbi_speed.py:375 | results with equal download speed keep the order in which they were recorded |
| Ranking.RankingExample | tbi_speed.py:375-393 | downloads of 50, 90 and 70 are ranked 90, 70, 50, with 90 the fastest |
| Entry.CommandLine | tbi_speed.py:756-801 | `command_line_mode` from its flags: the status query, the catalog load and the filters, then an early exit or one session; `Entry.CommandLineEarly` and `Entry.CommandLineSession` state its properties |
| Entry.InteractiveStart | tbi_speed.py:705-711 | the start of `interactive_mode`: the catalog load and the status query that notes the current server |
| Entry.InteractiveRound | tbi_speed.py:728-747 | one round after the prompts: filter the cached catalog, test, report unless interrupted, clean up; `Entry.RoundKeeps` and `Entry.RoundCleanup` state its properties |
| Entry.CommandLineEarly | tbi_speed.py:765-788 | a session runs exactly when some relay matched, `--list` is off and a country was given; the early exits only query, show no report, and exit 0 exactly for `--list` with some relay matched |
| Entry.CommandLineSession | tbi_speed.py:790-801 | a command-line session exits 0 and ends with the cleanup; the report is shown exactly when the session was not interrupted and produced results, and it ranks exactly those results |
| Entry.RoundKeeps | tbi_speed.py:728-747 | a round keeps earlier rounds' results; its report ranks every result gathered so far, and is shown unless the round was interrupted or nothing has ever been measured |
| Entry.RoundCleanup | tbi_speed.py:706-747 | every round ends with the cleanup; once the catalog is cached, a round keeps it and does not list relays again |

## Left out

- Console output, colours, the splash screen and `time.sleep` pauses are left out: they change nothing the core computes.
- The prompts of `interactive_mode` are not modelled: `select_country`, `select_city`, `configure_test_options`, and the "test another location" question. A round starts from the options they produce (`RoundOptions`), and the loop is modelled one round at a time.
- `argparse`, `main` and `check_requirements` are not modelled. The command line is modelled from the parsed flags.
- The `--list` printout is not modelled. Only its exit status is.
- `save_results` and the `--output` file are not modelled: they are file I/O.
- `datetime.now()` is not modelled. Timestamps are an input string per attempt.
- The praise messages printed by `display_results` are not modelled. They are a random choice of text with no effect on the results. As written, that list contains curly quotation marks that make the file fail to parse; the model follows the evident intent.
- Python's `float()` is not modelled; it is an input function (`Reader`). Its parsing rules are outside the core.
- `Text.ParseInt` is a partial model of Python's `int()`: it accepts ASCII digits only, with an optional sign, surrounding white space and single underscores between digits. Python's non-ASCII decimal digits are not accepted.
- `Text.Lower` lower-cases ASCII letters only. Python's full Unicode case mapping is not modelled.
- Ctrl-C is modelled only between two steps of a session. An interrupt during a connection attempt or a speed test is caught by those methods' bare `except` and counts as a failed attempt. An interrupt during the report or while saving is not modelled.
- Mullvad.ConnectTo: an attempt interrupted part-way is modelled as if it had issued its whole setup (disconnect, set location, connect). In the source, a Ctrl-C during `mullvad disconnect` or the pause after it is swallowed by the bare `except` after only the disconnect has run. The results are the same (no result is recorded); only the command trace differs.
- `--limit` is modelled as a natural number (0 for no limit). Negative limits, which Python would treat as slicing from the end, are not modelled.
- A missing `mullvad` or `speedtest-cli` binary raising `FileNotFoundError` outside a `try` is not modelled.
- The note of the original server (`original_server`) is modelled as the status query it costs. The program never reconnects to that server, and neither does the model.
- Session.SessionSwitches: it covers only the uninterrupted session. For an interrupted one, `Session.SessionCleanup` shows that its commands are a prefix of the uninterrupted session's commands.
