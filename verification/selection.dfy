/** Pure selectors over the cached catalog: `filter_relays`,
    `get_countries`, `get_cities`, and the index-expression parser of
    `select_specific_servers`. Optional filters are strings, "" standing for
    Python's `None` (the source tests them for truthiness only). */
module Selection {
  import opened Prelude
  import opened Text
  import opened Sorting
  import opened Catalog

  /** The country filter; an absent filter lets every relay through. */
  function CountryPass(country: string): Relay -> bool {
    (r: Relay) => country == "" || Contains(Lower(r.country), Lower(country))
  }

  function CityPass(city: string): Relay -> bool {
    (r: Relay) => city == "" || Contains(Lower(r.city), Lower(city))
  }

  /** The provider filter compares the stored provider string with the
      lower-cased argument for equality. */
  function ProviderPass(provider: string): Relay -> bool {
    (r: Relay) => provider == "" || ProviderName(r.provider) == Lower(provider)
  }

  /** All three filters at once. */
  function Matches(country: string, city: string, provider: string): Relay -> bool {
    (r: Relay) => CountryPass(country)(r) && CityPass(city)(r) && ProviderPass(provider)(r)
  }

  /** `filter_relays`: the country, city and provider filters applied one
      after another, each only when given. */
  function FilterRelays(relays: seq<Relay>, country: string, city: string, provider: string): seq<Relay> {
    var byCountry := if country != "" then Keep(relays, CountryPass(country)) else relays;
    var byCity := if city != "" then Keep(byCountry, CityPass(city)) else byCountry;
    if provider != "" then Keep(byCity, ProviderPass(provider)) else byCity
  }

  /** The sequential filters are one order-preserving filter by all three
      conditions: a subsequence of the catalog holding exactly the relays
      that pass every given filter. */
  lemma FilterIsKeep(relays: seq<Relay>, country: string, city: string, provider: string)
    ensures FilterRelays(relays, country, city, provider) == Keep(relays, Matches(country, city, provider))
    ensures Subseq(FilterRelays(relays, country, city, provider), relays)
    ensures forall r :: r in FilterRelays(relays, country, city, provider) <==>
              r in relays && Matches(country, city, provider)(r)
  {
    var cp, ci, pp := CountryPass(country), CityPass(city), ProviderPass(provider);
    var byCountry := if country != "" then Keep(relays, cp) else relays;
    if country == "" {
      KeepAll(relays, cp);
    }
    assert byCountry == Keep(relays, cp);
    var byCity := if city != "" then Keep(byCountry, ci) else byCountry;
    if city == "" {
      KeepAll(byCountry, ci);
    }
    assert byCity == Keep(byCountry, ci);
    var cc: Relay -> bool := r => cp(r) && ci(r);
    KeepKeep(relays, cp, ci, cc);
    if provider == "" {
      KeepAll(byCity, pp);
    }
    KeepKeep(relays, cc, pp, Matches(country, city, provider));
    KeepSubseq(relays, Matches(country, city, provider));
  }

  /** With no filter given the catalog comes back unchanged, in order. */
  lemma FilterNone(relays: seq<Relay>)
    ensures FilterRelays(relays, "", "", "") == relays
  {
  }

  /** The countries of the relays, in catalog order. */
  function CountriesOf(relays: seq<Relay>): (cs: seq<string>)
    ensures forall c :: c in cs <==> exists k :: 0 <= k < |relays| && relays[k].country == c
  {
    if relays == [] then [] else [relays[0].country] + CountriesOf(relays[1..])
  }

  /** The values of `xs` not in `seen`, each once, in order of first
      appearance (the `seen`-set loop of `get_countries`). */
  function FirstSeen(xs: seq<string>, seen: set<string>): (r: seq<string>)
    ensures Distinct(r)
    ensures forall v :: v in r <==> v in xs && v !in seen
  {
    if xs == [] then []
    else if xs[0] in seen then FirstSeen(xs[1..], seen)
    else [xs[0]] + FirstSeen(xs[1..], seen + {xs[0]})
  }

  /** `get_countries`: every country of the catalog once, strictly
      ascending in Python's string order. */
  function Countries(relays: seq<Relay>): (r: seq<string>)
    ensures Ascending(r)
    ensures forall c :: c in r <==> exists k :: 0 <= k < |relays| && relays[k].country == c
  {
    var cs := CountriesOf(relays);
    var firsts := FirstSeen(cs, {});
    SortStrings(firsts)
  }

  /** Relays in the given country (exact match) and city. */
  function InCity(country: string, city: string): Relay -> bool {
    (r: Relay) => r.country == country && r.city == city
  }

  function InCountry(country: string): Relay -> bool {
    (r: Relay) => r.country == country
  }

  /** The cities of the relays whose country is exactly `country`. */
  function CitiesIn(relays: seq<Relay>, country: string): (cs: seq<string>)
    ensures forall c :: c in cs <==> exists k :: 0 <= k < |relays| && relays[k].country == country && relays[k].city == c
  {
    if relays == [] then []
    else if relays[0].country == country then [relays[0].city] + CitiesIn(relays[1..], country)
    else CitiesIn(relays[1..], country)
  }

  /** Number of relays in `country` and `city`. */
  function CityCount(relays: seq<Relay>, country: string, city: string): nat {
    |Keep(relays, InCity(country, city))|
  }

  function Names(pairs: seq<(string, nat)>): (ns: seq<string>)
    ensures |ns| == |pairs|
    ensures forall k :: 0 <= k < |pairs| ==> ns[k] == pairs[k].0
  {
    seq(|pairs|, k requires 0 <= k < |pairs| => pairs[k].0)
  }

  /** `get_cities`: (city, number of relays) for each city of `country`,
      strictly ascending by city, so each city appears once. */
  function Cities(relays: seq<Relay>, country: string): (r: seq<(string, nat)>)
    ensures Ascending(Names(r))
    ensures forall c :: c in Names(r) <==>
              exists k :: 0 <= k < |relays| && relays[k].country == country && relays[k].city == c
    ensures forall k :: 0 <= k < |r| ==> r[k].1 == CityCount(relays, country, r[k].0) && r[k].1 > 0
  {
    var names := CityNames(relays, country);
    var r := Tally(relays, country, names);
    assert Names(r) == names;
    r
  }

  /** The distinct cities of `country`, ascending. */
  function CityNames(relays: seq<Relay>, country: string): (names: seq<string>)
    ensures Ascending(names)
    ensures Distinct(names)
    ensures forall c :: c in names <==> c in CitiesIn(relays, country)
  {
    SortStrings(FirstSeen(CitiesIn(relays, country), {}))
  }

  /** Pairs each city with its relay count. */
  function Tally(relays: seq<Relay>, country: string, names: seq<string>): (r: seq<(string, nat)>)
    requires forall k :: 0 <= k < |names| ==> names[k] in CitiesIn(relays, country)
    ensures |r| == |names|
    ensures forall k :: 0 <= k < |r| ==> r[k].0 == names[k]
    ensures forall k :: 0 <= k < |r| ==> r[k].1 == CityCount(relays, country, names[k]) && r[k].1 > 0
  {
    seq(|names|, k requires 0 <= k < |names| => (names[k], CountPositive(relays, country, names[k])))
  }

  /** A city that occurs in `country` has at least one relay there. */
  function CountPositive(relays: seq<Relay>, country: string, city: string): (n: nat)
    requires city in CitiesIn(relays, country)
    ensures n == CityCount(relays, country, city) && n > 0
  {
    var j :| 0 <= j < |relays| && relays[j].country == country && relays[j].city == city;
    assert relays[j] in Keep(relays, InCity(country, city));
    CityCount(relays, country, city)
  }

  function SumCounts(pairs: seq<(string, nat)>): nat {
    if pairs == [] then 0 else pairs[0].1 + SumCounts(pairs[1..])
  }

  /** Relays of `country` whose city is one of `names`. */
  function InCities(country: string, names: seq<string>): Relay -> bool {
    (r: Relay) => r.country == country && r.city in names
  }

  /** Summing the counts of distinct cities counts the relays of `country`
      in any of those cities. */
  lemma {:induction false} SumOverNames(relays: seq<Relay>, country: string, names: seq<string>, pairs: seq<(string, nat)>)
    requires Distinct(names)
    requires |pairs| == |names|
    requires forall k :: 0 <= k < |pairs| ==> pairs[k].1 == CityCount(relays, country, names[k])
    ensures SumCounts(pairs) == |Keep(relays, InCities(country, names))|
  {
    if names == [] {
      KeepNone(relays, InCities(country, names));
    } else {
      var rest := names[1..];
      SumOverNames(relays, country, rest, pairs[1..]);
      assert names[0] !in rest;
      forall x
        ensures InCities(country, names)(x) == (InCity(country, names[0])(x) || InCities(country, rest)(x))
      {
        assert names == [names[0]] + rest;
      }
      KeepSplitCount(relays, InCity(country, names[0]), InCities(country, rest), InCities(country, names));
    }
  }

  /** The counts `get_cities` reports add up to the number of relays whose
      country equals `country` exactly. */
  lemma CityCountsSum(relays: seq<Relay>, country: string)
    ensures SumCounts(Cities(relays, country)) == |Keep(relays, InCountry(country))|
  {
    var names := CityNames(relays, country);
    var pairs := Cities(relays, country);
    assert Names(pairs) == names;
    SumOverNames(relays, country, names, pairs);
    forall k | 0 <= k < |relays|
      ensures InCities(country, names)(relays[k]) == InCountry(country)(relays[k])
    {
      if relays[k].country == country {
        assert relays[k].city in CitiesIn(relays, country);
      }
    }
    KeepExt(relays, InCities(country, names), InCountry(country));
  }

  /** What one attempt at the server prompt produces. */
  datatype Choice<T> = Back | Invalid | Chosen(items: seq<T>)

  /** `range(a, b + 1)`, as a sequence. */
  function Span(a: int, b: int): (r: seq<int>)
    ensures |r| == if a <= b then b - a + 1 else 0
    ensures forall k :: 0 <= k < |r| ==> r[k] == a + k
    ensures forall i :: i in r <==> a <= i <= b
    decreases if a <= b then b - a + 1 else 0
  {
    if a > b then [] else [a] + Span(a + 1, b)
  }

  /** The indices `a..b` inclusive; empty when `a > b`. */
  function Range(a: int, b: int): (r: set<int>)
    ensures forall i :: i in r <==> a <= i <= b
  {
    set i | i in Span(a, b)
  }

  /** The indices one comma-separated token adds, or `None` where the
      source's `int` conversion or range unpacking raises. */
  function TokenSet(part: string, n: nat): (r: Option<set<int>>)
    ensures r.Some? ==> forall i :: i in r.value ==> 1 <= i <= n
  {
    var p := Strip(part);
    if '-' in p then SpanSet(Split(p, "-"), n) else NumberSet(ParseInt(p), n)
  }

  /** `start, end = map(int, part.split('-'))`: exactly two integers, whose
      range counts only when both ends are in range. */
  function SpanSet(ends: seq<string>, n: nat): (r: Option<set<int>>)
    ensures r.Some? ==> forall i :: i in r.value ==> 1 <= i <= n
  {
    if |ends| != 2 then None else EndsSet(ParseInt(ends[0]), ParseInt(ends[1]), n)
  }

  function EndsSet(a: Option<int>, b: Option<int>, n: nat): (r: Option<set<int>>)
    ensures r.Some? ==> forall i :: i in r.value ==> 1 <= i <= n
  {
    if a.None? || b.None? then None
    else if 1 <= a.value <= n && 1 <= b.value <= n then Some(Range(a.value, b.value))
    else Some({})
  }

  /** A lone integer counts only when it is in range. */
  function NumberSet(v: Option<int>, n: nat): (r: Option<set<int>>)
    ensures r.Some? ==> forall i :: i in r.value ==> 1 <= i <= n
  {
    match v
    case None => None
    case Some(i) => Some(if 1 <= i <= n then {i} else {})
  }

  /** The union of some index sets; one missing set spoils the lot. */
  function Union(sets: seq<Option<set<int>>>): (r: Option<set<int>>)
    ensures r.None? <==> exists k :: 0 <= k < |sets| && sets[k].None?
    ensures r.Some? ==> forall i :: i in r.value <==>
              exists k :: 0 <= k < |sets| && sets[k].Some? && i in sets[k].value
  {
    if sets == [] then Some({})
    else
      match (sets[0], Union(sets[1..]))
      case (Some(a), Some(b)) =>
        assert forall k :: 0 < k < |sets| ==> sets[k] == sets[1..][k - 1];
        Some(a + b)
      case (None, _) => None
      case (_, None) =>
        assert forall k :: 0 <= k < |sets[1..]| ==> sets[1..][k] == sets[k + 1];
        None
  }

  /** The union of the tokens' index sets; one bad token spoils the lot. */
  function IndexSet(parts: seq<string>, n: nat): (r: Option<set<int>>)
    ensures r.None? <==> exists k :: 0 <= k < |parts| && TokenSet(parts[k], n).None?
    ensures r.Some? ==> forall i :: i in r.value <==>
              exists k :: 0 <= k < |parts| && TokenSet(parts[k], n).Some? && i in TokenSet(parts[k], n).value
    ensures r.Some? ==> forall i :: i in r.value ==> 1 <= i <= n
  {
    var sets := Each(parts, p => TokenSet(p, n));
    assert forall k :: 0 <= k < |parts| ==> sets[k] == TokenSet(parts[k], n);
    UnionWithin(sets, n);
    Union(sets)
  }

  /** `f` applied to each element, in order. */
  function Each<T, U>(xs: seq<T>, f: T -> U): (r: seq<U>)
    ensures |r| == |xs|
    ensures forall k :: 0 <= k < |xs| ==> r[k] == f(xs[k])
  {
    if xs == [] then []
    else
      assert forall k :: 0 < k < |xs| ==> xs[k] == xs[1..][k - 1];
      [f(xs[0])] + Each(xs[1..], f)
  }

  /** A union of sets of positions between 1 and `n` holds only such
      positions. */
  lemma UnionWithin(sets: seq<Option<set<int>>>, n: nat)
    requires forall k :: 0 <= k < |sets| && sets[k].Some? ==> forall i :: i in sets[k].value ==> 1 <= i <= n
    ensures Union(sets).Some? ==> forall i :: i in Union(sets).value ==> 1 <= i <= n
  {
  }

  /** The union of one set is that set. */
  lemma UnionOne(x: Option<set<int>>)
    ensures Union([x]) == x
  {
    assert [x][1..] == [];
    match x
    case None =>
    case Some(a) => assert a + {} == a;
  }

  ghost predicate Increasing(xs: seq<int>) {
    forall i, j :: 0 <= i < j < |xs| ==> xs[i] < xs[j]
  }

  /** `sorted(s)` for the members of `s` between `lo` and `hi`. */
  function Ascend(s: set<int>, lo: int, hi: int): (r: seq<int>)
    ensures Increasing(r)
    ensures forall i :: i in r <==> i in s && lo <= i <= hi
    ensures forall k :: 0 <= k < |r| ==> lo <= r[k] <= hi
    decreases if lo <= hi then hi - lo + 1 else 0
  {
    if lo > hi then []
    else if lo in s then [lo] + Ascend(s, lo + 1, hi)
    else Ascend(s, lo + 1, hi)
  }

  /** `[relays[i-1] for i in idx]`. */
  function Pick<T>(items: seq<T>, idx: seq<int>): (r: seq<T>)
    requires forall k :: 0 <= k < |idx| ==> 1 <= idx[k] <= |items|
    ensures |r| == |idx|
    ensures forall k :: 0 <= k < |idx| ==> r[k] == items[idx[k] - 1]
  {
    seq(|idx|, k requires 0 <= k < |idx| => items[idx[k] - 1])
  }

  /** One pass of the prompt loop in `select_specific_servers`: `b` goes
      back, `all` takes every candidate, anything else is read as an index
      expression and yields the candidates at its sorted distinct indices, or
      `Invalid` when a token is malformed or no index is in range. */
  function SelectFrom<T>(input: string, items: seq<T>): (r: Choice<T>)
    ensures r == Back <==> Lower(Strip(input)) == "b"
    ensures Lower(Strip(input)) == "all" ==> r == Chosen(items)
    ensures r.Chosen? && Lower(Strip(input)) != "all" ==>
              |r.items| > 0 && forall k :: 0 <= k < |r.items| ==> r.items[k] in items
    ensures Lower(Strip(input)) != "b" && Lower(Strip(input)) != "all" ==>
              var p := IndexSet(Split(Strip(input), ","), |items|);
              && (r == Invalid <==> p.None? || p.value == {})
              && (r.Chosen? ==> p.Some? && r.items == Pick(items, Ascend(p.value, 1, |items|)))
  {
    var sel := Strip(input);
    if Lower(sel) == "b" then Back
    else if Lower(sel) == "all" then Chosen(items)
    else ReadIndices(sel, items)
  }

  /** An index expression: the candidates at its sorted distinct positions,
      or `Invalid` when a token is malformed or no position is in range. */
  function ReadIndices<T>(sel: string, items: seq<T>): (r: Choice<T>)
    ensures r != Back
    ensures r.Chosen? ==> |r.items| > 0 && forall k :: 0 <= k < |r.items| ==> r.items[k] in items
    ensures var p := IndexSet(Split(sel, ","), |items|);
            && (r == Invalid <==> p.None? || p.value == {})
            && (r.Chosen? ==> p.Some? && r.items == Pick(items, Ascend(p.value, 1, |items|)))
  {
    ChooseFrom(IndexSet(Split(sel, ","), |items|), items)
  }

  /** The candidates at the positions of a set, in ascending order;
      `Invalid` for no set or an empty one. */
  function ChooseFrom<T>(positions: Option<set<int>>, items: seq<T>): (r: Choice<T>)
    requires positions.Some? ==> forall i :: i in positions.value ==> 1 <= i <= |items|
    ensures r != Back
    ensures r.Chosen? ==> |r.items| > 0 && forall k :: 0 <= k < |r.items| ==> r.items[k] in items
    ensures r == Invalid <==> positions.None? || positions.value == {}
    ensures r.Chosen? ==> positions.Some? && r.items == Pick(items, Ascend(positions.value, 1, |items|))
  {
    match positions
    case None => Invalid
    case Some(s) =>
      AscendEmpty(s, 1, |items|);
      var idx := Ascend(s, 1, |items|);
      if idx == [] then Invalid else Chosen(Pick(items, idx))
  }

  /** A non-empty set within the bounds has a first member. */
  lemma AscendNonEmpty(s: set<int>, lo: int, hi: int)
    requires s != {} && forall i :: i in s ==> lo <= i <= hi
    ensures Ascend(s, lo, hi) != []
  {
    if forall x :: x !in s {
      assert false;
    }
  }

  /** Members within the bounds give an empty list exactly when there are
      none. */
  lemma AscendEmpty(s: set<int>, lo: int, hi: int)
    requires forall i :: i in s ==> lo <= i <= hi
    ensures Ascend(s, lo, hi) == [] <==> s == {}
  {
    if s == {} {
      AscendNone(lo, hi);
    } else {
      AscendNonEmpty(s, lo, hi);
    }
  }

  /** No members, no positions. */
  lemma {:induction false} AscendNone(lo: int, hi: int)
    ensures Ascend({}, lo, hi) == []
    decreases if lo <= hi then hi - lo + 1 else 0
  {
    if lo <= hi {
      AscendNone(lo + 1, hi);
    }
  }

  /** In an increasing sequence the head is below everything after it. */
  lemma IncreasingTail(a: seq<int>)
    requires Increasing(a) && a != []
    ensures forall x :: x in a[1..] <==> x in a && x != a[0]
  {
    forall x | x in a && x != a[0]
      ensures x in a[1..]
    {
      var k :| 0 <= k < |a| && a[k] == x;
      assert a[1..][k - 1] == x;
    }
  }

  /** Two increasing sequences with the same members are equal. */
  lemma {:induction false} IncreasingUnique(a: seq<int>, b: seq<int>)
    requires Increasing(a) && Increasing(b)
    requires forall i :: i in a <==> i in b
    ensures a == b
    decreases |a|
  {
    assert 0 < |a| ==> a[0] in a && a[0] in b;
    assert 0 < |b| ==> b[0] in b && b[0] in a;
    if a != [] && b != [] {
      var j :| 0 <= j < |b| && b[j] == a[0];
      var i :| 0 <= i < |a| && a[i] == b[0];
      assert a[0] == b[0];
      IncreasingTail(a);
      IncreasingTail(b);
      IncreasingUnique(a[1..], b[1..]);
    }
  }

  /** The decimal renderings of some positions. */
  function Numerals(idx: seq<nat>): seq<string> {
    seq(|idx|, k requires 0 <= k < |idx| => Show(idx[k]))
  }

  /** Numerals joined by commas start and end with a digit. */
  lemma {:induction false} JoinedNumerals(ns: seq<string>)
    requires |ns| >= 1
    requires forall k :: 0 <= k < |ns| ==> |ns[k]| > 0 && forall i :: 0 <= i < |ns[k]| ==> IsDigit(ns[k][i])
    ensures var s := Join(ns, ","); |s| > 0 && IsDigit(s[0]) && IsDigit(s[|s| - 1])
  {
    if |ns| > 1 {
      JoinedNumerals(ns[1..]);
      var t := Join(ns[1..], ",");
      assert Join(ns, ",") == ns[0] + "," + t;
    }
  }

  /** Text that starts with a digit is neither `b` nor `all`, in any case. */
  lemma NotCommand(s: string)
    requires |s| > 0 && IsDigit(s[0])
    ensures Lower(s) != "b" && Lower(s) != "all"
  {
    assert Lower(s)[0] == s[0];
  }

  /** Input that starts with a digit and ends on a non-blank is read as an
      index expression as it stands. */
  lemma IndexInput<T>(s: string, items: seq<T>)
    requires |s| > 0 && IsDigit(s[0]) && !IsSpace(s[|s| - 1])
    ensures SelectFrom(s, items) == ReadIndices(s, items)
  {
    assert !IsSpace(s[0]);
    StripTrimmed(s);
    NotCommand(s);
  }

  /** A lone numeral selects its position when it is in range and nothing
      otherwise. */
  lemma TokenShow(i: nat, n: nat)
    ensures TokenSet(Show(i), n) == Some(if 1 <= i <= n then {i} else {})
  {
    var s := Show(i);
    assert !IsSpace(s[0]) && !IsSpace(s[|s| - 1]);
    StripTrimmed(s);
    NotInNumeral(i, '-');
    ParseShow(i);
  }

  /** Numerals joined by commas: a digit at each end, split back at the
      commas into the numerals. */
  lemma NumeralsText(idx: seq<nat>)
    requires |idx| > 0
    ensures var s := Join(Numerals(idx), ",");
            && |s| > 0 && IsDigit(s[0]) && !IsSpace(s[|s| - 1])
            && Split(s, ",") == Numerals(idx)
  {
    var ns := Numerals(idx);
    JoinedNumerals(ns);
    forall k | 0 <= k < |ns|
      ensures ',' !in ns[k]
    {
      NotInNumeral(idx[k], ',');
    }
    SplitJoin(ns, ',');
  }

  /** The numerals of some positions add exactly those positions in range. */
  lemma NumeralsIndices(idx: seq<nat>, n: nat)
    requires forall k :: 0 <= k < |idx| ==> 1 <= idx[k] <= n
    ensures IndexSet(Numerals(idx), n).Some?
    ensures forall i :: i in IndexSet(Numerals(idx), n).value <==> i in idx
  {
    var ns := Numerals(idx);
    forall k | 0 <= k < |ns|
      ensures TokenSet(ns[k], n) == Some({idx[k]})
    {
      TokenShow(idx[k], n);
    }
    var members := IndexSet(ns, n).value;
    forall i
      ensures i in members <==> i in idx
    {
      if i in idx {
        var k :| 0 <= k < |idx| && idx[k] == i;
        assert i in TokenSet(ns[k], n).value;
      }
    }
  }

  /** An index expression that reads as a non-empty set of positions
      selects the candidates at those positions, in ascending order. */
  lemma SelectRead<T>(s: string, items: seq<T>, members: set<int>)
    requires |s| > 0 && IsDigit(s[0]) && !IsSpace(s[|s| - 1])
    requires IndexSet(Split(s, ","), |items|) == Some(members) && members != {}
    ensures SelectFrom(s, items) == Chosen(Pick(items, Ascend(members, 1, |items|)))
  {
    IndexInput(s, items);
    AscendNonEmpty(members, 1, |items|);
  }

  /** Positions typed in ascending order come back as they were typed. */
  lemma NumeralsPicked(idx: seq<nat>, n: nat)
    requires |idx| > 0 && Increasing(idx)
    requires forall k :: 0 <= k < |idx| ==> 1 <= idx[k] <= n
    ensures IndexSet(Numerals(idx), n).Some?
    ensures IndexSet(Numerals(idx), n).value != {}
    ensures Ascend(IndexSet(Numerals(idx), n).value, 1, n) == idx
  {
    NumeralsIndices(idx, n);
    var members := IndexSet(Numerals(idx), n).value;
    var picked := Ascend(members, 1, n);
    forall i
      ensures i in picked <==> i in idx
    {
      if i in idx {
        var k :| 0 <= k < |idx| && idx[k] == i;
      }
    }
    IncreasingUnique(picked, idx);
    assert idx[0] in members;
  }

  /** Typing positions in ascending order, comma-separated, selects exactly
      the candidates at those positions, in that order. */
  lemma SelectList<T>(idx: seq<nat>, items: seq<T>)
    requires |idx| > 0 && Increasing(idx)
    requires forall k :: 0 <= k < |idx| ==> 1 <= idx[k] <= |items|
    ensures SelectFrom(Join(Numerals(idx), ","), items) == Chosen(Pick(items, idx))
  {
    NumeralsText(idx);
    NumeralsPicked(idx, |items|);
    SelectRead(Join(Numerals(idx), ","), items, IndexSet(Numerals(idx), |items|).value);
  }

  /** A trimmed token with one '-' between two integers adds the indices
      between them when both are in range. */
  lemma RangeToken(p: string, x: string, y: string, a: int, b: int, n: nat)
    requires Strip(p) == p && '-' in p && Split(p, "-") == [x, y]
    requires ParseInt(x) == Some(a) && ParseInt(y) == Some(b)
    ensures TokenSet(p, n) == Some(if 1 <= a <= n && 1 <= b <= n then Range(a, b) else {})
  {
    DashToken(p, n);
    assert SpanSet([x, y], n) == EndsSet(Some(a), Some(b), n);
  }

  /** A token with a '-' is read as a range. */
  lemma DashToken(p: string, n: nat)
    requires '-' in Strip(p)
    ensures TokenSet(p, n) == SpanSet(Split(Strip(p), "-"), n)
  {
  }

  /** A numeral holds only digits. */
  lemma NotInNumeral(i: nat, c: char)
    requires !IsDigit(c)
    ensures c !in Show(i)
  {
    var s := Show(i);
    forall k | 0 <= k < |s| ensures s[k] != c {
      assert IsDigit(s[k]);
    }
  }

  /** Two runs of digits joined by '-' form trimmed text without commas. */
  lemma DashTrimmed(x: string, y: string)
    requires |x| > 0 && |y| > 0 && IsDigit(x[0]) && IsDigit(y[|y| - 1])
    requires ',' !in x && ',' !in y
    ensures var s := x + "-" + y;
            && IsDigit(s[0]) && !IsSpace(s[|s| - 1]) && Strip(s) == s && ',' !in s
  {
    var s := x + "-" + y;
    assert s[0] == x[0] && s[|s| - 1] == y[|y| - 1];
    assert !IsSpace(s[0]);
    StripTrimmed(s);
  }

  /** Text with one '-' splits there into two pieces. */
  lemma DashSplit(x: string, y: string)
    requires '-' !in x && '-' !in y
    ensures var s := x + "-" + y; '-' in s && Split(s, "-") == [x, y]
  {
    assert (x + "-" + y)[|x|] == '-';
    SplitAtMarker(x, "-", y);
    SplitAbsent(y, "-");
  }

  /** The text `a-b`: trimmed, free of commas, split by '-' into its two
      numerals. */
  lemma SpanText(a: nat, b: nat)
    ensures var s := Show(a) + "-" + Show(b);
            && |s| > 0 && IsDigit(s[0]) && !IsSpace(s[|s| - 1])
            && Strip(s) == s && ',' !in s && '-' in s
            && Split(s, "-") == [Show(a), Show(b)]
  {
    NotInNumeral(a, ',');
    NotInNumeral(b, ',');
    NotInNumeral(a, '-');
    NotInNumeral(b, '-');
    DashTrimmed(Show(a), Show(b));
    DashSplit(Show(a), Show(b));
  }

  /** `a-b` is one token, adding the positions `a` through `b` when both are
      in range. */
  lemma SpanToken(a: nat, b: nat, n: nat)
    ensures var s := Show(a) + "-" + Show(b);
            && |s| > 0 && IsDigit(s[0]) && !IsSpace(s[|s| - 1])
            && Split(s, ",") == [s]
            && TokenSet(s, n) == Some(if 1 <= a <= n && 1 <= b <= n then Range(a, b) else {})
  {
    var s := Show(a) + "-" + Show(b);
    SpanText(a, b);
    SplitAbsent(s, ",");
    ParseShow(a);
    ParseShow(b);
    RangeToken(s, Show(a), Show(b), a, b, n);
  }

  /** A single token's indices are the whole input's. */
  lemma IndexSetOne(p: string, n: nat)
    ensures IndexSet([p], n) == TokenSet(p, n)
  {
    var sets := Each([p], q => TokenSet(q, n));
    assert sets == [TokenSet(p, n)];
    UnionOne(TokenSet(p, n));
  }

  /** The candidates at positions `a` through `b`. */
  lemma PickSpan<T>(items: seq<T>, a: int, b: int)
    requires 1 <= a <= b <= |items|
    ensures Pick(items, Span(a, b)) == items[a - 1..b]
  {
    var r := Pick(items, Span(a, b));
    assert |r| == b - a + 1;
    forall k | 0 <= k < |r|
      ensures r[k] == items[a - 1..b][k]
    {
      assert Span(a, b)[k] == a + k;
    }
    assert r == items[a - 1..b];
  }

  /** The positions `a` through `b`, in order. */
  lemma AscendRange(a: int, b: int, n: nat)
    requires 1 <= a <= b <= n
    ensures Ascend(Range(a, b), 1, n) == Span(a, b)
  {
    IncreasingUnique(Ascend(Range(a, b), 1, n), Span(a, b));
  }

  /** A range `a-b` with both ends in range selects the candidates `a`
      through `b`; with the ends reversed it selects nothing and the input
      is rejected. */
  lemma SelectSpan<T>(a: nat, b: nat, items: seq<T>)
    requires 1 <= a <= |items| && 1 <= b <= |items|
    ensures SelectFrom(Show(a) + "-" + Show(b), items) ==
            if a <= b then Chosen(items[a - 1..b]) else Invalid
  {
    var n := |items|;
    var s := Show(a) + "-" + Show(b);
    SpanToken(a, b, n);
    IndexInput(s, items);
    IndexSetOne(s, n);
    assert IndexSet(Split(s, ","), n) == Some(Range(a, b));
    if a <= b {
      AscendRange(a, b, n);
      PickSpan(items, a, b);
    } else {
      assert Range(a, b) == {};
      AscendNone(1, n);
    }
  }

  /** Position zero, or one past the end, selects nothing and is rejected. */
  lemma SelectOutOfRange<T>(i: nat, items: seq<T>)
    requires i == 0 || i > |items|
    ensures SelectFrom(Show(i), items) == Invalid
  {
    var s := Show(i);
    assert !IsSpace(s[|s| - 1]);
    IndexInput(s, items);
    NotInNumeral(i, ',');
    SplitAbsent(s, ",");
    TokenShow(i, |items|);
    IndexSetOne(s, |items|);
    AscendNone(1, |items|);
  }

  /** `x` is not a number, so it is a malformed token. */
  lemma LetterToken(n: nat)
    ensures TokenSet("x", n).None?
  {
    StripTrimmed("x");
    assert !IsNumeral("x");
  }

  /** Text without commas, then `,x`, splits into the text and `x`. */
  lemma CommaSplit(t: string)
    requires ',' !in t
    ensures Split(t + ",x", ",") == [t, "x"]
  {
    assert t + ",x" == t + "," + "x";
    SplitAtMarker(t, ",", "x");
    SplitAbsent("x", ",");
  }

  /** Any malformed part rejects the whole index expression, whatever the
      other parts say. */
  lemma SelectMalformed<T>(input: string, items: seq<T>, k: nat)
    requires Lower(Strip(input)) != "b" && Lower(Strip(input)) != "all"
    requires k < |Split(Strip(input), ",")| && TokenSet(Split(Strip(input), ",")[k], |items|).None?
    ensures SelectFrom(input, items) == Invalid
  {
  }

  /** An index expression with no position in range, such as `0,99` for
      fewer than 99 servers, is rejected. */
  lemma SelectNoneInRange<T>(i: nat, j: nat, items: seq<T>)
    requires i == 0 || i > |items|
    requires j == 0 || j > |items|
    ensures SelectFrom(Show(i) + "," + Show(j), items) == Invalid
  {
    var s := Show(i) + "," + Show(j);
    TwoNumerals(i, j);
    IndexInput(s, items);
    ReadNoneInRange(i, j, items);
  }

  lemma ReadNoneInRange<T>(i: nat, j: nat, items: seq<T>)
    requires i == 0 || i > |items|
    requires j == 0 || j > |items|
    ensures ReadIndices(Show(i) + "," + Show(j), items) == Invalid
  {
    TwoNumerals(i, j);
    TokenShow(i, |items|);
    TokenShow(j, |items|);
    PairEmpty(Show(i), Show(j), |items|);
    ReadEmpty(Show(i) + "," + Show(j), items, [Show(i), Show(j)]);
  }

  /** An index expression whose parts choose no position is rejected. */
  lemma ReadEmpty<T>(sel: string, items: seq<T>, parts: seq<string>)
    requires Split(sel, ",") == parts && IndexSet(parts, |items|) == Some({})
    ensures ReadIndices(sel, items) == Invalid
  {
  }

  /** Two well-formed parts that name no position in range choose nothing. */
  lemma PairEmpty(a: string, b: string, n: nat)
    requires TokenSet(a, n) == Some({}) && TokenSet(b, n) == Some({})
    ensures IndexSet([a, b], n) == Some({})
  {
    var parts := [a, b];
    assert forall k :: 0 <= k < |parts| ==> TokenSet(parts[k], n) == Some({});
    IndexSetEmpty(parts, n);
  }

  /** Two numerals joined by a comma: a digit at each end, split back at the
      comma into the two numerals. */
  lemma TwoNumerals(i: nat, j: nat)
    ensures var s := Show(i) + "," + Show(j);
            && |s| > 0 && IsDigit(s[0]) && !IsSpace(s[|s| - 1])
            && Split(s, ",") == [Show(i), Show(j)]
  {
    var si, sj := Show(i), Show(j);
    var s := si + "," + sj;
    assert s[0] == si[0] && s[|s| - 1] == sj[|sj| - 1];
    NotInNumeral(i, ',');
    NotInNumeral(j, ',');
    SplitAtMarker(si, ",", sj);
    SplitAbsent(sj, ",");
  }

  /** Parts that are all well formed but name no position in range choose
      nothing. */
  lemma IndexSetEmpty(parts: seq<string>, n: nat)
    requires forall k :: 0 <= k < |parts| ==> TokenSet(parts[k], n) == Some({})
    ensures IndexSet(parts, n) == Some({})
  {
    var r := IndexSet(parts, n);
    assert r.Some?;
    forall x
      ensures x !in r.value
    {
      IndexSetMisses(parts, n, x);
    }
    NoMembers(r.value);
  }

  lemma IndexSetMisses(parts: seq<string>, n: nat, x: int)
    requires forall k :: 0 <= k < |parts| ==> TokenSet(parts[k], n) == Some({})
    ensures IndexSet(parts, n).Some? && x !in IndexSet(parts, n).value
  {
  }

  lemma NoMembers(s: set<int>)
    requires forall x :: x !in s
    ensures s == {}
  {
    assert forall x :: x in s <==> x in {};
  }

  /** `x` after a numeral: a malformed token rejects the whole input, even
      next to a valid position. */
  lemma SelectLetter<T>(i: nat, items: seq<T>)
    ensures SelectFrom(Show(i) + ",x", items) == Invalid
  {
    var si := Show(i);
    var s := si + ",x";
    assert s[0] == si[0] && s[|s| - 1] == 'x';
    IndexInput(s, items);
    NotInNumeral(i, ',');
    CommaSplit(si);
    LetterToken(|items|);
    assert [si, "x"][1] == "x";
    assert IndexSet([si, "x"], |items|).None?;
  }
}
