/** The relay catalog: parsing the tab-indented text of `mullvad relay list`
    into a flat sequence of relays, and the process-lifetime cache around it.

    Depth is the number of leading tabs: 0 names a country, 1 a city, 2 a
    server. A line counts only if its stripped text contains `(`; its name is
    the stripped text before the first `(`. The current country and city are
    kept as strings, "" standing for Python's `None` (the source only ever
    tests them for truthiness, and an empty name is falsy too). */
module Catalog {
  import opened Prelude
  import opened Text
  import opened Commands

  datatype Provider = WireGuard | OpenVPN

  /** The `provider` string a catalog entry carries. */
  function ProviderName(p: Provider): string {
    match p
    case WireGuard => "wireguard"
    case OpenVPN => "openvpn"
  }

  datatype Relay = Relay(country: string, city: string, hostname: string, provider: Provider)

  /** The naming rule that classifies a server. */
  function ProviderOf(name: string): Provider {
    if Contains(name, "wg") then WireGuard else OpenVPN
  }

  /** The country and city in force while scanning the listing. */
  datatype Cursor = Cursor(country: string, city: string)

  const Start := Cursor("", "")

  /** What the loop reads off one line of the listing: its depth, whether
      its stripped text contains `(`, and the name before the first `(`. */
  datatype Line = Line(depth: nat, entry: bool, name: string)

  /** `tab_count`, the `'(' in line_stripped` test, and
      `line_stripped.split('(')[0].strip()`. A blank line has no `(`, so the
      source's separate blank-line test skips nothing more. */
  function Classify(text: string): (l: Line)
    ensures (forall i :: 0 <= i < |text| ==> IsSpace(text[i])) ==> !l.entry
    ensures '(' !in l.name
    ensures l.name == [] || (!IsSpace(l.name[0]) && !IsSpace(l.name[|l.name| - 1]))
  {
    var s := Strip(text);
    var piece := Split(s, "(")[0];
    BlankStrip(text);
    SplitPiecesFree(s, "(");
    ContainsChar(piece, '(');
    StripWithout(piece, '(');
    Line(LeadingTabs(text), '(' in s, Strip(piece))
  }

  function Classified(texts: seq<string>): (ls: seq<Line>)
    ensures |ls| == |texts|
    ensures forall k :: 0 <= k < |texts| ==> ls[k] == Classify(texts[k])
  {
    seq(|texts|, k requires 0 <= k < |texts| => Classify(texts[k]))
  }

  /** An entry line at nesting depth `d`. */
  predicate IsHeader(line: Line, d: nat) {
    line.entry && line.depth == d
  }

  /** How one line moves the cursor: a country resets the city, a city
      replaces it, anything else leaves both alone. */
  function Advance(cur: Cursor, line: Line): Cursor {
    if IsHeader(line, 0) then Cursor(line.name, "")
    else if IsHeader(line, 1) then Cursor(cur.country, line.name)
    else cur
  }

  /** A server line under an established country and city yields a relay. */
  predicate Emits(cur: Cursor, line: Line) {
    IsHeader(line, 2) && cur.country != "" && cur.city != ""
  }

  /** The relay a server line names; its provider follows the naming rule. */
  function RelayAt(cur: Cursor, line: Line): (r: Relay)
    ensures r.provider == WireGuard <==> Contains(r.hostname, "wg")
  {
    Relay(cur.country, cur.city, line.name, ProviderOf(line.name))
  }

  /** The cursor after scanning `lines` from `cur`. */
  function After(lines: seq<Line>, cur: Cursor): Cursor {
    if lines == [] then cur else After(lines[1..], Advance(cur, lines[0]))
  }

  /** The loop of `get_all_relays` over the listing's lines. */
  function ParseLines(lines: seq<Line>, cur: Cursor): (rs: seq<Relay>)
    ensures |rs| <= |lines|
    ensures forall k :: 0 <= k < |rs| ==> rs[k].country != "" && rs[k].city != ""
    ensures forall k :: 0 <= k < |rs| ==>
              (rs[k].provider == WireGuard <==> Contains(rs[k].hostname, "wg"))
  {
    if lines == [] then []
    else
      var rest := ParseLines(lines[1..], Advance(cur, lines[0]));
      if Emits(cur, lines[0]) then [RelayAt(cur, lines[0])] + rest else rest
  }

  /** The relays of some lines of the listing, scanned from the start. */
  function ParseText(texts: seq<string>): seq<Relay> {
    ParseLines(Classified(texts), Start)
  }

  /** The whole listing, split into lines. */
  function ParseCatalog(stdout: string): (rs: seq<Relay>)
    ensures forall k :: 0 <= k < |rs| ==> rs[k].country != "" && rs[k].city != ""
    ensures forall k :: 0 <= k < |rs| ==>
              (rs[k].provider == WireGuard <==> Contains(rs[k].hostname, "wg"))
  {
    ParseText(Split(stdout, "\n"))
  }

  lemma {:induction false} AfterAppend(a: seq<Line>, b: seq<Line>, cur: Cursor)
    ensures After(a + b, cur) == After(b, After(a, cur))
  {
    if a == [] {
      assert a + b == b;
    } else {
      assert (a + b)[1..] == a[1..] + b;
      AfterAppend(a[1..], b, Advance(cur, a[0]));
    }
  }

  /** Input order: the relays of a listing are those of its first part
      followed by those of the rest, parsed under the cursor the first part
      left behind. */
  lemma {:induction false} ParseAppend(a: seq<Line>, b: seq<Line>, cur: Cursor)
    ensures ParseLines(a + b, cur) == ParseLines(a, cur) + ParseLines(b, After(a, cur))
  {
    if a == [] {
      assert a + b == b;
    } else {
      assert (a + b)[0] == a[0];
      assert (a + b)[1..] == a[1..] + b;
      ParseAppend(a[1..], b, Advance(cur, a[0]));
    }
  }

  /** A line without `(` neither yields a relay nor moves the cursor. */
  lemma SkipLine(line: Line, b: seq<Line>, cur: Cursor)
    requires !line.entry
    ensures ParseLines([line] + b, cur) == ParseLines(b, cur)
    ensures After([line] + b, cur) == After(b, cur)
  {
    var lb := [line] + b;
    assert lb[0] == line && lb[1..] == b;
  }

  /** Classifying lines one by one commutes with putting them together. */
  lemma ClassifiedSplice(a: seq<string>, text: string, b: seq<string>)
    ensures Classified(a + [text] + b) == Classified(a) + [Classify(text)] + Classified(b)
  {
    ClassifiedJoin(a + [text], b);
    ClassifiedJoin(a, [text]);
    ClassifiedOne(text);
  }

  lemma ClassifiedOne(text: string)
    ensures Classified([text]) == [Classify(text)]
  {
    assert Classified([text])[0] == Classify(text);
  }

  lemma ClassifiedJoin(a: seq<string>, b: seq<string>)
    ensures Classified(a + b) == Classified(a) + Classified(b)
  {
    var l, r := Classified(a + b), Classified(a) + Classified(b);
    assert |l| == |r|;
    forall k | 0 <= k < |l|
      ensures l[k] == r[k]
    {
      if k >= |a| {
        assert (a + b)[k] == b[k - |a|];
      }
    }
  }

  /** A line that is not an entry can be dropped from anywhere. */
  lemma SkipWithin(la: seq<Line>, line: Line, lb: seq<Line>, cur: Cursor)
    requires !line.entry
    ensures ParseLines(la + [line] + lb, cur) == ParseLines(la + lb, cur)
    ensures After(la + [line] + lb, cur) == After(la + lb, cur)
  {
    var mid := After(la, cur);
    SkipLine(line, lb, mid);
    assert la + [line] + lb == la + ([line] + lb);
    ParseAppend(la, [line] + lb, cur);
    ParseAppend(la, lb, cur);
    AfterAppend(la, [line] + lb, cur);
    AfterAppend(la, lb, cur);
  }

  /** A line whose stripped text has no `(` is ignored entirely: removing it
      changes neither the relays produced nor the country and city in force
      afterwards. */
  lemma IgnoredLine(a: seq<string>, text: string, b: seq<string>)
    requires '(' !in Strip(text)
    ensures ParseText(a + [text] + b) == ParseText(a + b)
    ensures After(Classified(a + [text] + b), Start) == After(Classified(a + b), Start)
  {
    ClassifiedSplice(a, text, b);
    ClassifiedJoin(a, b);
    SkipWithin(Classified(a), Classify(text), Classified(b), Start);
  }

  lemma {:induction false} AfterKeepsCountry(lines: seq<Line>, cur: Cursor)
    requires forall k :: 0 <= k < |lines| ==> !IsHeader(lines[k], 0)
    ensures After(lines, cur).country == cur.country
  {
    if lines != [] {
      AfterKeepsCountry(lines[1..], Advance(cur, lines[0]));
    }
  }

  lemma {:induction false} AfterKeepsCity(lines: seq<Line>, cur: Cursor)
    requires forall k :: 0 <= k < |lines| ==> !IsHeader(lines[k], 0) && !IsHeader(lines[k], 1)
    ensures After(lines, cur) == cur
  {
    if lines != [] {
      AfterKeepsCity(lines[1..], Advance(cur, lines[0]));
    }
  }

  /** The cursor after the lines before `j`, line `j`, then the lines up to
      `i`. */
  lemma AfterAround(lines: seq<Line>, i: nat, j: nat, cur: Cursor)
    requires j < i <= |lines|
    ensures After(lines[..i], cur) == After(lines[j + 1..i], Advance(After(lines[..j], cur), lines[j]))
  {
    assert lines[..i] == lines[..j] + ([lines[j]] + lines[j + 1..i]);
    AfterAppend(lines[..j], [lines[j]] + lines[j + 1..i], cur);
    var lj := [lines[j]] + lines[j + 1..i];
    assert lj[0] == lines[j] && lj[1..] == lines[j + 1..i];
  }

  /** The country in force before line `i` is named by the last country
      line before it. */
  lemma CountryInForce(lines: seq<Line>, i: nat, j: nat, cur: Cursor)
    requires j < i <= |lines|
    requires IsHeader(lines[j], 0)
    requires forall k :: j < k < i ==> !IsHeader(lines[k], 0)
    ensures After(lines[..i], cur).country == lines[j].name
  {
    AfterAround(lines, i, j, cur);
    var mid := lines[j + 1..i];
    assert forall k :: 0 <= k < |mid| ==> mid[k] == lines[j + 1 + k];
    AfterKeepsCountry(mid, Advance(After(lines[..j], cur), lines[j]));
  }

  /** With no country line before `i`, the starting country is in force. */
  lemma NoCountryYet(lines: seq<Line>, i: nat, cur: Cursor)
    requires i <= |lines|
    requires forall k :: 0 <= k < i ==> !IsHeader(lines[k], 0)
    ensures After(lines[..i], cur).country == cur.country
  {
    AfterKeepsCountry(lines[..i], cur);
  }

  /** The city in force before line `i`: the name on the last country or city
      line before it, "" if that line is a country line (a new country resets
      the city). */
  lemma CityInForce(lines: seq<Line>, i: nat, j: nat, cur: Cursor)
    requires j < i <= |lines|
    requires IsHeader(lines[j], 0) || IsHeader(lines[j], 1)
    requires forall k :: j < k < i ==> !IsHeader(lines[k], 0) && !IsHeader(lines[k], 1)
    ensures After(lines[..i], cur).city == (if IsHeader(lines[j], 0) then "" else lines[j].name)
  {
    AfterAround(lines, i, j, cur);
    var mid := lines[j + 1..i];
    assert forall k :: 0 <= k < |mid| ==> mid[k] == lines[j + 1 + k];
    AfterKeepsCity(mid, Advance(After(lines[..j], cur), lines[j]));
  }

  lemma AfterPrefixStep(lines: seq<Line>, i: nat, cur: Cursor)
    requires 0 < i <= |lines|
    ensures After(lines[..i], cur) == After(lines[1..][..i - 1], Advance(cur, lines[0]))
  {
    assert lines[..i][1..] == lines[1..][..i - 1];
  }

  /** The relay line `i` yields, if any. */
  predicate YieldsAt(lines: seq<Line>, cur: Cursor, i: nat, r: Relay)
    requires i < |lines|
  {
    Emits(After(lines[..i], cur), lines[i]) && r == RelayAt(After(lines[..i], cur), lines[i])
  }

  /** A relay the parse produces was yielded by some line. */
  lemma {:induction false} ParsedFromLine(lines: seq<Line>, cur: Cursor, r: Relay) returns (i: nat)
    requires r in ParseLines(lines, cur)
    ensures i < |lines| && YieldsAt(lines, cur, i, r)
  {
    var next := Advance(cur, lines[0]);
    var rest := lines[1..];
    assert After(lines[..0], cur) == cur;
    if Emits(cur, lines[0]) && r == RelayAt(cur, lines[0]) {
      i := 0;
    } else {
      assert r in ParseLines(rest, next);
      var i' := ParsedFromLine(rest, next, r);
      i := i' + 1;
      AfterPrefixStep(lines, i, cur);
      assert lines[i] == rest[i'];
    }
  }

  /** Every relay a line yields is in the parse. */
  lemma {:induction false} LineInParse(lines: seq<Line>, cur: Cursor, r: Relay, i: nat)
    requires i < |lines| && YieldsAt(lines, cur, i, r)
    ensures r in ParseLines(lines, cur)
  {
    var next := Advance(cur, lines[0]);
    var rest := lines[1..];
    if i == 0 {
      assert After(lines[..0], cur) == cur;
    } else {
      AfterPrefixStep(lines, i, cur);
      assert lines[i] == rest[i - 1];
      LineInParse(rest, next, r, i - 1);
    }
  }

  /** Exactly the lines that are server lines under an established country
      and city give relays, each built from the cursor in force there. */
  lemma ParseMembership(lines: seq<Line>, cur: Cursor, r: Relay)
    ensures r in ParseLines(lines, cur) <==> exists i :: 0 <= i < |lines| && YieldsAt(lines, cur, i, r)
  {
    if r in ParseLines(lines, cur) {
      var i := ParsedFromLine(lines, cur, r);
    }
    if exists i :: 0 <= i < |lines| && YieldsAt(lines, cur, i, r) {
      var i :| 0 <= i < |lines| && YieldsAt(lines, cur, i, r);
      LineInParse(lines, cur, r, i);
    }
  }

  /** The outcome of `mullvad relay list`. */
  datatype Listing = ListFailed | Listed(stdout: string)

  datatype Loaded = Loaded(relays: seq<Relay>, cache: seq<Relay>, issued: seq<Cmd>)

  /** `get_all_relays`: a non-empty cache is returned without running the
      listing; otherwise the listing runs, a failure yields no relays, and
      the parsed relays become the cache. */
  function LoadRelays(cache: seq<Relay>, listing: Listing): (r: Loaded)
    ensures cache != [] ==> r == Loaded(cache, cache, [])
    ensures cache == [] ==> r.issued == [ListRelays] && r.cache == r.relays
    ensures cache == [] && listing.ListFailed? ==> r.relays == []
    ensures cache == [] && listing.Listed? ==> r.relays == ParseCatalog(listing.stdout)
  {
    if cache != [] then Loaded(cache, cache, [])
    else match listing
      case ListFailed => Loaded([], cache, [ListRelays])
      case Listed(out) => Loaded(ParseCatalog(out), ParseCatalog(out), [ListRelays])
  }

  /** Once a load has produced relays, later loads return the same relays
      and run nothing, whatever the listing would have said. */
  lemma LoadOnce(cache: seq<Relay>, first: Listing, second: Listing)
    requires LoadRelays(cache, first).relays != []
    ensures LoadRelays(LoadRelays(cache, first).cache, second).relays == LoadRelays(cache, first).relays
    ensures LoadRelays(LoadRelays(cache, first).cache, second).issued == []
  {
  }

  /** An empty result is not cached: the next load runs the listing again. */
  lemma EmptyNotCached(cache: seq<Relay>, first: Listing, second: Listing)
    requires LoadRelays(cache, first).relays == []
    ensures LoadRelays(LoadRelays(cache, first).cache, second).issued == [ListRelays]
  {
  }
}
