/** Scoring and selection (TmdbMatcher.calculateMatchScore, ScoredResult and the
    private findBestMatch): each search result is scored by edit distance against the
    query title, and the best result scoring at least MIN_MATCH_SCORE wins, ties on
    score going to the more popular result and then to the one scanned first. Scores
    and popularity are exact reals. */
module Scoring {
  import opened Text
  import opened Wrappers
  import opened Distance

  /** MIN_MATCH_SCORE. */
  const MinMatchScore: real := 0.6

  // ---------------------------------------------------------------------
  // calculateMatchScore
  // ---------------------------------------------------------------------

  /** What calculateMatchScore returns: 0 when either title is empty, otherwise one
      minus the edit distance divided by the longer length. The `maxLen == 0` branch
      cannot be taken once both titles are non-empty. */
  function MatchScore(query: string, result: string): real {
    if query == [] || result == [] then 0.0
    else
      var maxLen := Max(|query|, |result|);
      if maxLen == 0 then 1.0 else 1.0 - (Levenshtein(query, result) as real) / (maxLen as real)
  }

  /** calculateMatchScore. */
  method CalculateMatchScore(query: string, result: string) returns (score: real)
    ensures score == MatchScore(query, result)
  {
    if query == [] || result == [] {
      return 0.0;
    }
    var distance := LevenshteinDistance(query, result);
    var maxLen := Max(|query|, |result|);
    score := if maxLen == 0 then 1.0 else 1.0 - (distance as real) / (maxLen as real);
  }

  lemma MulLe(x: real, y: real, c: real)
    requires 0.0 < c && x <= y
    ensures x * c <= y * c
  {
  }

  lemma MulLt(x: real, y: real, c: real)
    requires 0.0 < c && x < y
    ensures x * c < y * c
  {
  }

  /** For a positive m, comparing d / m with t is comparing d with t * m. */
  lemma CompareRatio(d: real, m: real, t: real)
    requires 0.0 < m
    ensures d / m <= t <==> d <= t * m
  {
    var q := d / m;
    assert q * m == d;
    if q <= t { MulLe(q, t, m); } else { MulLt(t, q, m); }
  }

  /** 1 - d/m lies in [0, 1] for 0 <= d <= m, is 1 exactly when d is 0, and reaches
      MIN_MATCH_SCORE exactly when 5d <= 2m. */
  lemma RatioFacts(d: nat, m: nat)
    requires 0 < m && d <= m
    ensures 0.0 <= 1.0 - (d as real) / (m as real) <= 1.0
    ensures 1.0 - (d as real) / (m as real) == 1.0 <==> d == 0
    ensures 1.0 - (d as real) / (m as real) >= MinMatchScore <==> 5 * d <= 2 * m
  {
    CompareRatio(d as real, m as real, 1.0);
    CompareRatio(d as real, m as real, 0.0);
    CompareRatio(d as real, m as real, 0.4);
  }

  /** What calculateMatchScore promises: 0 when either title is empty (both empty
      included); otherwise a value in [0, 1] that is 1 exactly for titles equal up to
      ASCII case, does not depend on argument order, and reaches MIN_MATCH_SCORE
      exactly when 10 * (maxLen - d) >= 6 * maxLen. */
  lemma MatchScoreProperties(query: string, result: string)
    ensures query == [] || result == [] ==> MatchScore(query, result) == 0.0
    ensures 0.0 <= MatchScore(query, result) <= 1.0
    ensures MatchScore(query, result) == MatchScore(result, query)
    ensures MatchScore(query, result) == 1.0
      <==> query != [] && result != [] && Lower(query) == Lower(result)
    ensures MatchScore(query, result) >= MinMatchScore
      <==> query != [] && result != []
           && 10 * (Max(|query|, |result|) - Levenshtein(query, result)) >= 6 * Max(|query|, |result|)
  {
    if query != [] && result != [] {
      LevenshteinProperties(query, result);
      RatioFacts(Levenshtein(query, result), Max(|query|, |result|));
    }
  }

  // ---------------------------------------------------------------------
  // ScoredResult
  // ---------------------------------------------------------------------

  /** One entry of a search response's "results" array, as far as the matcher reads
      it: the id, the "title" (movies) and "name" (series) strings, "" when absent,
      and the popularity when present and numeric. */
  datatype SearchItem = SearchItem(id: int, title: string, name: string, popularity: Option<real>)

  /** ScoredResult: the result, its content type ("movie" or "tv"), its score against
      the query and its popularity. */
  datatype ScoredResult = ScoredResult(item: SearchItem, contentType: string, matchScore: real, popularity: real)

  /** The title a result is compared by: "title" for a movie, "name" otherwise. */
  function ResultTitle(item: SearchItem, contentType: string): string {
    if contentType == "movie" then item.title else item.name
  }

  /** What the ScoredResult constructor stores; popularity falls back to 0.0. */
  function Scored(item: SearchItem, contentType: string, query: string): (r: ScoredResult)
    ensures r.item == item && r.contentType == contentType
    ensures r.matchScore == MatchScore(query, ResultTitle(item, contentType))
    ensures item.popularity.None? ==> r.popularity == 0.0
    ensures item.popularity.Some? ==> r.popularity == item.popularity.value
  {
    ScoredResult(item, contentType, MatchScore(query, ResultTitle(item, contentType)),
                 match item.popularity case Some(p) => p case None => 0.0)
  }

  /** The ScoredResult constructor. */
  method NewScoredResult(item: SearchItem, contentType: string, query: string) returns (r: ScoredResult)
    ensures r == Scored(item, contentType, query)
  {
    var resultTitle := if contentType == "movie" then item.title else item.name;
    var matchScore := CalculateMatchScore(query, resultTitle);
    var popularity := if item.popularity.Some? then item.popularity.value else 0.0;
    r := ScoredResult(item, contentType, matchScore, popularity);
  }

  /** ScoredResult.isGoodMatch. A good match scores above zero, so a result compared
      with an empty title is never one. */
  predicate IsGoodMatch(r: ScoredResult)
    ensures IsGoodMatch(r) ==> r.matchScore > 0.0
  {
    r.matchScore >= MinMatchScore
  }

  /** A scored result is a good match exactly when the query and the result's title
      are both non-empty and the edit distance is at most 40% of the longer length. */
  lemma ScoredGoodMatch(item: SearchItem, contentType: string, query: string)
    ensures var t := ResultTitle(item, contentType);
      IsGoodMatch(Scored(item, contentType, query))
      <==> query != [] && t != [] && 5 * Levenshtein(query, t) <= 2 * Max(|query|, |t|)
  {
    var t := ResultTitle(item, contentType);
    MatchScoreProperties(query, t);
  }

  // ---------------------------------------------------------------------
  // findBestMatch (private overload)
  // ---------------------------------------------------------------------

  /** Every item of a response scored with one content type, in order. */
  function ScoreAll(items: seq<SearchItem>, contentType: string, query: string): (rs: seq<ScoredResult>)
    ensures |rs| == |items|
    ensures forall k :: 0 <= k < |items| ==> rs[k] == Scored(items[k], contentType, query)
  {
    seq(|items|, k requires 0 <= k < |items| => Scored(items[k], contentType, query))
  }

  /** The items of a response, none when the response is null. */
  function ItemsOf(results: Option<seq<SearchItem>>): seq<SearchItem> {
    match results case Some(items) => items case None => []
  }

  /** allResults: the scored movie results, then the scored series results. */
  function AllScored(movieResults: Option<seq<SearchItem>>, seriesResults: Option<seq<SearchItem>>,
                     query: string): seq<ScoredResult>
  {
    ScoreAll(ItemsOf(movieResults), "movie", query) + ScoreAll(ItemsOf(seriesResults), "tv", query)
  }

  /** r displaces the current best: there is none yet, r scores higher, or r scores
      the same and is strictly more popular. */
  predicate Displaces(r: ScoredResult, best: Option<ScoredResult>) {
    best.None? || r.matchScore > best.value.matchScore
    || (r.matchScore == best.value.matchScore && r.popularity > best.value.popularity)
  }

  /** One iteration of the selection loop. */
  function Consider(best: Option<ScoredResult>, r: ScoredResult): Option<ScoredResult> {
    if IsGoodMatch(r) && Displaces(r, best) then Some(r) else best
  }

  /** The selection loop's result over a list, scanned left to right. */
  function Select(rs: seq<ScoredResult>): Option<ScoredResult> {
    if rs == [] then None else Consider(Select(rs[..|rs| - 1]), rs[|rs| - 1])
  }

  /** Scoring one more item extends the scored prefix by that item. */
  lemma ScoreAllSnoc(items: seq<SearchItem>, k: nat, contentType: string, query: string)
    requires k < |items|
    ensures ScoreAll(items[..k + 1], contentType, query)
         == ScoreAll(items[..k], contentType, query) + [Scored(items[k], contentType, query)]
  {
    var lhs := ScoreAll(items[..k + 1], contentType, query);
    var rhs := ScoreAll(items[..k], contentType, query) + [Scored(items[k], contentType, query)];
    assert |lhs| == |rhs|;
    forall j | 0 <= j < |lhs|
      ensures lhs[j] == rhs[j]
    {
      assert items[..k + 1][j] == items[j];
    }
  }

  /** Selecting over one more entry considers that entry against the best so far. */
  lemma SelectSnoc(rs: seq<ScoredResult>, k: nat)
    requires k < |rs|
    ensures Select(rs[..k + 1]) == Consider(Select(rs[..k]), rs[k])
  {
    assert rs[..k + 1][..k] == rs[..k];
  }

  /** Scores every item of one response with one content type and appends the scores. */
  method ScoreInto(allResults: seq<ScoredResult>, items: seq<SearchItem>, contentType: string, query: string)
    returns (r: seq<ScoredResult>)
    ensures r == allResults + ScoreAll(items, contentType, query)
  {
    r := allResults;
    for k := 0 to |items|
      invariant r == allResults + ScoreAll(items[..k], contentType, query)
    {
      var scored := NewScoredResult(items[k], contentType, query);
      ScoreAllSnoc(items, k, contentType, query);
      r := r + [scored];
    }
    assert items[..|items|] == items;
  }

  /** The private findBestMatch: scores the movie results, then the series results,
      then keeps the best good match. */
  method FindBest(movieResults: Option<seq<SearchItem>>, seriesResults: Option<seq<SearchItem>>,
                  query: string) returns (best: Option<ScoredResult>)
    ensures best == Select(AllScored(movieResults, seriesResults, query))
  {
    var allResults: seq<ScoredResult> := [];
    if movieResults.Some? {
      allResults := ScoreInto(allResults, movieResults.value, "movie", query);
    }
    if seriesResults.Some? {
      allResults := ScoreInto(allResults, seriesResults.value, "tv", query);
    }
    assert allResults == AllScored(movieResults, seriesResults, query);
    best := SelectBest(allResults);
  }

  /** The selection loop of the private findBestMatch. */
  method SelectBest(allResults: seq<ScoredResult>) returns (best: Option<ScoredResult>)
    ensures best == Select(allResults)
  {
    best := None;
    for k := 0 to |allResults|
      invariant best == Select(allResults[..k])
    {
      var result := allResults[k];
      SelectSnoc(allResults, k);
      if !IsGoodMatch(result) {
        continue;
      }
      if best.None? || result.matchScore > best.value.matchScore {
        best := Some(result);
      } else if result.matchScore == best.value.matchScore && result.popularity > best.value.popularity {
        best := Some(result);
      }
    }
    assert allResults[..|allResults|] == allResults;
  }

  // ---------------------------------------------------------------------
  // What the selection promises
  // ---------------------------------------------------------------------

  /** r is at least as good as w in the order the loop uses: score first, then popularity. */
  predicate NoBetterThan(r: ScoredResult, w: ScoredResult) {
    r.matchScore < w.matchScore || (r.matchScore == w.matchScore && r.popularity <= w.popularity)
  }

  /** rs[idx] is the winner by an independent definition: a good match that no good
      match beats on (score, popularity), and the first good match of its (score,
      popularity) pair. */
  predicate IsFirstBest(rs: seq<ScoredResult>, idx: nat) {
    idx < |rs| && IsGoodMatch(rs[idx])
    && (forall k :: 0 <= k < |rs| && IsGoodMatch(rs[k]) ==> NoBetterThan(rs[k], rs[idx]))
    && (forall k :: 0 <= k < idx && IsGoodMatch(rs[k]) ==>
          !(rs[k].matchScore == rs[idx].matchScore && rs[k].popularity == rs[idx].popularity))
  }

  /** The selection loop finds no result exactly when no result is a good match. */
  lemma {:induction false} SelectNone(rs: seq<ScoredResult>)
    ensures Select(rs).None? <==> forall k :: 0 <= k < |rs| ==> !IsGoodMatch(rs[k])
  {
    if rs != [] {
      var n := |rs| - 1;
      SelectNone(rs[..n]);
      assert forall k :: 0 <= k < n ==> rs[k] == rs[..n][k];
    }
  }

  /** A good last entry that displaces the best of the entries before it is the first
      best of the whole list. */
  lemma FirstBestLast(rs: seq<ScoredResult>, best: Option<ScoredResult>)
    requires rs != [] && IsGoodMatch(rs[|rs| - 1]) && Displaces(rs[|rs| - 1], best)
    requires best.None? ==> forall k :: 0 <= k < |rs| - 1 ==> !IsGoodMatch(rs[k])
    requires best.Some? ==> forall k :: 0 <= k < |rs| - 1 && IsGoodMatch(rs[k]) ==> NoBetterThan(rs[k], best.value)
    ensures IsFirstBest(rs, |rs| - 1)
  {
  }

  /** The first best of a list stays first best when an entry that does not displace
      it is appended. */
  lemma FirstBestKept(init: seq<ScoredResult>, idx: nat, r: ScoredResult)
    requires IsFirstBest(init, idx)
    requires !(IsGoodMatch(r) && Displaces(r, Some(init[idx])))
    ensures IsFirstBest(init + [r], idx)
  {
    var rs := init + [r];
    assert forall k :: 0 <= k < |init| ==> rs[k] == init[k];
  }

  /** When the selection loop finds a result, it is the first best good match. */
  lemma {:induction false} SelectFirstBest(rs: seq<ScoredResult>)
    ensures Select(rs).Some? ==> exists idx: nat :: IsFirstBest(rs, idx) && Select(rs).value == rs[idx]
  {
    if rs != [] {
      var n := |rs| - 1;
      var init := rs[..n];
      assert rs == init + [rs[n]];
      SelectFirstBest(init);
      SelectNone(init);
      var best := Select(init);
      if IsGoodMatch(rs[n]) && Displaces(rs[n], best) {
        if best.Some? {
          var idx: nat :| IsFirstBest(init, idx) && best.value == init[idx];
          assert forall k :: 0 <= k < n ==> rs[k] == init[k];
        } else {
          assert forall k :: 0 <= k < n ==> rs[k] == init[k];
        }
        FirstBestLast(rs, best);
      } else if best.Some? {
        var idx: nat :| IsFirstBest(init, idx) && best.value == init[idx];
        FirstBestKept(init, idx, rs[n]);
      }
    }
  }

  /** The selection loop finds no result exactly when no result is a good match, and
      otherwise finds the first best good match. */
  lemma SelectSpec(rs: seq<ScoredResult>)
    ensures Select(rs).None? <==> forall k :: 0 <= k < |rs| ==> !IsGoodMatch(rs[k])
    ensures Select(rs).Some? ==> exists idx: nat :: IsFirstBest(rs, idx) && Select(rs).value == rs[idx]
  {
    SelectNone(rs);
    SelectFirstBest(rs);
  }

  /** There is at most one first best match. */
  lemma FirstBestUnique(rs: seq<ScoredResult>, i: nat, j: nat)
    requires IsFirstBest(rs, i) && IsFirstBest(rs, j)
    ensures i == j
  {
    assert NoBetterThan(rs[i], rs[j]) && NoBetterThan(rs[j], rs[i]);
    assert rs[i].matchScore == rs[j].matchScore && rs[i].popularity == rs[j].popularity;
  }

  /** The scan order: every movie result comes before every series result, each list
      in its own order. */
  lemma AllScoredOrder(movieResults: Option<seq<SearchItem>>, seriesResults: Option<seq<SearchItem>>,
                       query: string)
    ensures |AllScored(movieResults, seriesResults, query)| == |ItemsOf(movieResults)| + |ItemsOf(seriesResults)|
    ensures forall k :: 0 <= k < |ItemsOf(movieResults)| ==>
      AllScored(movieResults, seriesResults, query)[k] == Scored(ItemsOf(movieResults)[k], "movie", query)
    ensures forall k :: |ItemsOf(movieResults)| <= k < |AllScored(movieResults, seriesResults, query)| ==>
      AllScored(movieResults, seriesResults, query)[k]
        == Scored(ItemsOf(seriesResults)[k - |ItemsOf(movieResults)|], "tv", query)
  {
    var ms, ss := ScoreAll(ItemsOf(movieResults), "movie", query), ScoreAll(ItemsOf(seriesResults), "tv", query);
    var all := AllScored(movieResults, seriesResults, query);
    assert all == ms + ss;
    forall k | |ms| <= k < |all|
      ensures all[k] == ss[k - |ms|]
    {
    }
  }
}
