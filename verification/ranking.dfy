/** The report of `display_results`: the results ranked by download speed,
    fastest first, equal speeds in the order they were recorded, and the
    fastest one singled out. The ranking is a new sequence; the results
    themselves are left as they are. */
module Ranking {
  import opened Prelude
  import opened Sorting
  import opened Session

  /** `key=lambda x: x['download'], reverse=True`: `a` may be ranked ahead of
      `b` when it downloaded at least as fast. */
  predicate Faster(a: TestResult, b: TestResult) {
    a.download >= b.download
  }

  lemma FasterPreorder()
    ensures TotalPreorder(Faster)
  {
  }

  datatype Report = Report(ranked: seq<TestResult>, fastest: TestResult)

  /** `display_results`: nothing for no results; otherwise the stable sort
      by descending download speed and its head as the fastest. */
  function Display(results: seq<TestResult>): (r: Option<Report>)
    ensures r.None? <==> results == []
    ensures r.Some? ==> multiset(r.value.ranked) == multiset(results)
    ensures r.Some? ==> |r.value.ranked| > 0 && r.value.fastest == r.value.ranked[0]
    ensures r.Some? ==> forall i, j :: 0 <= i < j < |r.value.ranked| ==>
              r.value.ranked[i].download >= r.value.ranked[j].download
  {
    if results == [] then None
    else
      var ranked := SortBy(results, Faster);
      FasterPreorder();
      SortSorted(results, Faster);
      assert results[0] in multiset(ranked);
      Some(Report(ranked, ranked[0]))
  }

  /** The fastest entry downloaded at least as fast as every result. */
  lemma FastestIsMax(results: seq<TestResult>)
    requires results != []
    ensures forall k :: 0 <= k < |results| ==> Display(results).value.fastest.download >= results[k].download
  {
    var rep := Display(results).value;
    forall k | 0 <= k < |results|
      ensures rep.fastest.download >= results[k].download
    {
      assert results[k] in multiset(rep.ranked);
      var j :| 0 <= j < |rep.ranked| && rep.ranked[j] == results[k];
    }
  }

  /** Stability: results with equal download speed keep the order in which
      they were recorded. */
  lemma RankingStable(results: seq<TestResult>, z: TestResult)
    requires results != []
    ensures Keep(Display(results).value.ranked, SameRank(Faster, z)) == Keep(results, SameRank(Faster, z))
  {
    FasterPreorder();
    SortStable(results, Faster, z);
  }

  function Sample(server: string, download: real): TestResult {
    TestResult(server, "Sweden", "Gothenburg", "WireGuard", 10.0, download, 20.0, "")
  }

  /** Downloads of 50, 90 and 70 are reported as 90, 70, 50, with the 90 as
      the fastest. */
  lemma RankingExample()
    ensures var a, b, c := Sample("a", 50.0), Sample("b", 90.0), Sample("c", 70.0);
            Display([a, b, c]) == Some(Report([b, c, a], b))
  {
    var a, b, c := Sample("a", 50.0), Sample("b", 90.0), Sample("c", 70.0);
    assert [a, b, c][1..] == [b, c];
    assert [b, c][1..] == [c];
    assert SortBy([c], Faster) == [c];
    assert SortBy([b, c], Faster) == [b, c];
    assert [c][1..] == [];
    assert Insert(a, [c], Faster) == [c, a];
    assert Insert(a, [b, c], Faster) == [b, c, a];
    assert SortBy([a, b, c], Faster) == [b, c, a];
  }
}
