/** The matcher's entry point (TmdbMatcher.findBestMatch with a listener): a cache
    lookup by the filename's key, and on a miss one movie search and one series search
    for the first title candidate, joined by HybridSearchHandler, whose last callback
    scores both result lists, notifies the listener once and schedules the save of a
    match. The HTTP requests, the threads and the database singleton are not part of
    this model: a search's outcome arrives as a callback argument, and a scheduled save
    is recorded rather than run. */
module Matcher {
  import opened Wrappers
  import opened Text
  import opened Titles
  import opened Scoring
  import opened CacheKey
  import opened Cache
  import opened TmdbUrls

  /** MatchResult. */
  datatype MatchResult = MatchResult(tmdbId: int, contentType: string, matchedTitle: string,
                                     matchScore: real, fromCache: bool)

  /** The MatchResult constructor: a fresh result is never marked as cached. */
  function NewMatchResult(tmdbId: int, contentType: string, matchedTitle: string, matchScore: real): (r: MatchResult)
    ensures !r.fromCache
    ensures r.tmdbId == tmdbId && r.contentType == contentType
    ensures r.matchedTitle == matchedTitle && r.matchScore == matchScore
  {
    MatchResult(tmdbId, contentType, matchedTitle, matchScore, false)
  }

  /** What a listener is told. */
  datatype Notification = Matched(result: MatchResult) | NoMatch

  /** An OnMatchListener, recording what it is told in order. */
  class Listener {
    var notifications: seq<Notification>

    constructor()
      ensures notifications == []
    {
      notifications := [];
    }

    method OnMatch(result: MatchResult)
      modifies this
      ensures notifications == old(notifications) + [Matched(result)]
    {
      notifications := notifications + [Matched(result)];
    }

    method OnNoMatch()
      modifies this
      ensures notifications == old(notifications) + [NoMatch]
    {
      notifications := notifications + [NoMatch];
    }
  }

  // ---------------------------------------------------------------------
  // checkCache and saveToCache
  // ---------------------------------------------------------------------

  /** The match a cached row describes, marked as cached. */
  function FromRow(row: CacheRow): MatchResult {
    MatchResult(row.tmdbId, row.contentType, row.matchedTitle, row.matchScore, true)
  }

  /** What checkCache finds for a key in a table. */
  function CachedMatch(rows: seq<CacheRow>, key: string): (r: Option<MatchResult>)
    ensures r.None? <==> forall x :: x in rows ==> x.filenameHash != key
    ensures r.Some? ==> r.value.fromCache
    ensures r.Some? ==> exists x :: x in rows && x.filenameHash == key && r.value == FromRow(x)
  {
    match Lookup(rows, key)
    case None => None
    case Some(row) => Some(FromRow(row))
  }

  /** checkCache. */
  method CheckCache(dao: TmdbCacheDao, filename: string, md5: string -> Option<seq<JByte>>)
    returns (r: Option<MatchResult>)
    ensures r == CachedMatch(dao.rows, CacheKeyOf(filename, md5))
  {
    var cacheKey := GetCacheKey(filename, md5);
    var cached := dao.GetByFilenameHash(cacheKey);
    if cached.Some? {
      var result := NewMatchResult(cached.value.tmdbId, cached.value.contentType,
                                   cached.value.matchedTitle, cached.value.matchScore);
      result := result.(fromCache := true);
      return Some(result);
    }
    return None;
  }

  /** The row saveToCache writes: no id (so one is generated), the filename's key,
      the match's fields and the time of saving. */
  function SavedRow(filename: string, m: MatchResult, md5: string -> Option<seq<JByte>>, now: int): CacheRow {
    CacheRow(0, CacheKeyOf(filename, md5), m.tmdbId, m.contentType, m.matchedTitle, m.matchScore, now)
  }

  /** saveToCache, at time `now` (System.currentTimeMillis). */
  method SaveToCache(dao: TmdbCacheDao, filename: string, m: MatchResult, md5: string -> Option<seq<JByte>>, now: int)
    requires dao.Valid()
    modifies dao
    ensures dao.Valid()
    ensures dao.rows == Put(old(dao.rows), SavedRow(filename, m, md5, now).(id := old(dao.nextId)))
    ensures dao.nextId == old(dao.nextId) + 1
  {
    var cache := new TmdbCache();
    var key := GetCacheKey(filename, md5);
    cache.SetFilenameHash(key);
    cache.SetTmdbId(m.tmdbId);
    cache.SetContentType(m.contentType);
    cache.SetMatchedTitle(m.matchedTitle);
    cache.SetMatchScore(m.matchScore);
    cache.SetTimestamp(now);
    dao.Insert(cache.Row());
  }

  /** After a save, checking the cache for the same filename finds a match: the one
      saved, or an older row with the same key, whose id is smaller. */
  lemma SaveThenCheck(rows: seq<CacheRow>, nextId: int, filename: string, m: MatchResult,
                      md5: string -> Option<seq<JByte>>, now: int)
    requires Ordered(rows) && forall x :: x in rows ==> x.id < nextId
    ensures var after := Put(rows, SavedRow(filename, m, md5, now).(id := nextId));
      && CachedMatch(after, CacheKeyOf(filename, md5)).Some?
      && |after| == |rows| + 1
      && (CachedMatch(rows, CacheKeyOf(filename, md5)).None? ==>
            CachedMatch(after, CacheKeyOf(filename, md5))
              == Some(m.(fromCache := true)))
  {
    var saved := SavedRow(filename, m, md5, now).(id := nextId);
    var after := Put(rows, saved);
    InsertProperties(rows, saved);
    InsertWithoutKeyAdds(rows, nextId, SavedRow(filename, m, md5, now));
    var key := CacheKeyOf(filename, md5);
    if CachedMatch(rows, key).None? {
      var found := Lookup(after, key).value;
      assert found == saved;
    }
  }

  // ---------------------------------------------------------------------
  // HybridSearchHandler
  // ---------------------------------------------------------------------

  /** What a search callback delivers: a response whose "results" array may be
      missing, or a failure. */
  datatype Response = Success(results: Option<seq<SearchItem>>) | Failure

  /** The results a callback stores: none on failure or without "results". */
  function ResultsOf(r: Response): Option<seq<SearchItem>> {
    match r
    case Success(results) => results
    case Failure => None
  }

  /** What processResults decides: the match built from the best good result, if any. */
  function Outcome(movieResults: Option<seq<SearchItem>>, seriesResults: Option<seq<SearchItem>>,
                   query: string): (r: Option<MatchResult>)
    ensures var all := AllScored(movieResults, seriesResults, query);
      r.None? <==> forall k :: 0 <= k < |all| ==> !IsGoodMatch(all[k])
    ensures r.Some? ==> !r.value.fromCache && r.value.matchScore >= MinMatchScore
    ensures r.Some? ==> r.value.contentType == "movie" || r.value.contentType == "tv"
  {
    var all := AllScored(movieResults, seriesResults, query);
    SelectSpec(all);
    AllScoredOrder(movieResults, seriesResults, query);
    var best := Select(all);
    if best.Some? && IsGoodMatch(best.value) then
      var b := best.value;
      Some(NewMatchResult(b.item.id, b.contentType, ResultTitle(b.item, b.contentType), b.matchScore))
    else None
  }

  /** The notification for an outcome. */
  function NotificationOf(o: Option<MatchResult>): Notification {
    match o
    case Some(m) => Matched(m)
    case None => NoMatch
  }

  /** What the outcome promises: no match exactly when no movie and no series result
      reaches MIN_MATCH_SCORE; otherwise a fresh, not cached match built from the first
      best good result, whose score is at least MIN_MATCH_SCORE. */
  lemma OutcomeSpec(movieResults: Option<seq<SearchItem>>, seriesResults: Option<seq<SearchItem>>, query: string)
    ensures var all := AllScored(movieResults, seriesResults, query);
      Outcome(movieResults, seriesResults, query).None? <==> forall k :: 0 <= k < |all| ==> !IsGoodMatch(all[k])
    ensures var all := AllScored(movieResults, seriesResults, query);
      Outcome(movieResults, seriesResults, query).Some? ==>
        var m := Outcome(movieResults, seriesResults, query).value;
        && !m.fromCache && m.matchScore >= MinMatchScore
        && exists idx: nat :: IsFirstBest(all, idx)
             && m == NewMatchResult(all[idx].item.id, all[idx].contentType,
                                    ResultTitle(all[idx].item, all[idx].contentType), all[idx].matchScore)
  {
    SelectSpec(AllScored(movieResults, seriesResults, query));
  }

  class HybridSearchHandler {
    const filename: string
    const searchTitle: string
    const year: int
    const listener: Listener

    var movieResults: Option<seq<SearchItem>>
    var seriesResults: Option<seq<SearchItem>>
    var movieSearchComplete: bool
    var seriesSearchComplete: bool
    /** The matches whose saveToCache has been handed to Async.run, in order. */
    var scheduledSaves: seq<MatchResult>

    constructor(filename: string, searchTitle: string, year: int, listener: Listener)
      ensures this.filename == filename && this.searchTitle == searchTitle
      ensures this.year == year && this.listener == listener
      ensures !movieSearchComplete && !seriesSearchComplete
      ensures movieResults.None? && seriesResults.None? && scheduledSaves == []
    {
      this.filename := filename;
      this.searchTitle := searchTitle;
      this.year := year;
      this.listener := listener;
      movieResults, seriesResults := None, None;
      movieSearchComplete, seriesSearchComplete := false, false;
      scheduledSaves := [];
    }

    /** execute: the two searches it starts, as their request URLs. */
    method Execute(token: string, encode: string -> string) returns (movieUrl: string, seriesUrl: string)
      ensures movieUrl == RequestUrl([SearchPath, MoviePath],
                                     [(ParamSearch, searchTitle), (ParamYear, IntString(year))], token, encode)
      ensures seriesUrl == RequestUrl([SearchPath, TvPath], SeriesSearchParams(searchTitle, year), token, encode)
    {
      movieUrl := MovieSearchUrl(searchTitle, year, token, encode);
      seriesUrl := SeriesSearchWithYearUrl(searchTitle, year, token, encode);
    }

    /** processResults. */
    method ProcessResults()
      modifies this, listener
      ensures listener.notifications
              == old(listener.notifications) + [NotificationOf(Outcome(movieResults, seriesResults, searchTitle))]
      ensures scheduledSaves == old(scheduledSaves) + match Outcome(movieResults, seriesResults, searchTitle)
                                                       case Some(m) => [m] case None => []
      ensures movieResults == old(movieResults) && seriesResults == old(seriesResults)
      ensures movieSearchComplete == old(movieSearchComplete) && seriesSearchComplete == old(seriesSearchComplete)
    {
      var best := FindBest(movieResults, seriesResults, searchTitle);
      if best.Some? && IsGoodMatch(best.value) {
        var b := best.value;
        var matchedTitle := if b.contentType == "movie" then b.item.title else b.item.name;
        var m := NewMatchResult(b.item.id, b.contentType, matchedTitle, b.matchScore);
        scheduledSaves := scheduledSaves + [m];
        listener.OnMatch(m);
      } else {
        listener.OnNoMatch();
      }
    }

    /** checkComplete: results are processed once both searches have reported. */
    method CheckComplete()
      modifies this, listener
      ensures movieResults == old(movieResults) && seriesResults == old(seriesResults)
      ensures movieSearchComplete == old(movieSearchComplete) && seriesSearchComplete == old(seriesSearchComplete)
      ensures movieSearchComplete && seriesSearchComplete ==>
        && listener.notifications
           == old(listener.notifications) + [NotificationOf(Outcome(movieResults, seriesResults, searchTitle))]
        && scheduledSaves == old(scheduledSaves) + match Outcome(movieResults, seriesResults, searchTitle)
                                                     case Some(m) => [m] case None => []
      ensures !(movieSearchComplete && seriesSearchComplete) ==>
        listener.notifications == old(listener.notifications) && scheduledSaves == old(scheduledSaves)
    {
      if movieSearchComplete && seriesSearchComplete {
        ProcessResults();
      }
    }

    /** The movie search's callback, onSuccess or onFail. */
    method OnMovieResponse(response: Response)
      modifies this, listener
      ensures movieResults == ResultsOf(response) && movieSearchComplete
      ensures seriesResults == old(seriesResults) && seriesSearchComplete == old(seriesSearchComplete)
      ensures old(seriesSearchComplete) ==>
        && listener.notifications
           == old(listener.notifications) + [NotificationOf(Outcome(movieResults, seriesResults, searchTitle))]
        && scheduledSaves == old(scheduledSaves) + match Outcome(movieResults, seriesResults, searchTitle)
                                                     case Some(m) => [m] case None => []
      ensures !old(seriesSearchComplete) ==>
        listener.notifications == old(listener.notifications) && scheduledSaves == old(scheduledSaves)
    {
      if response.Success? {
        movieResults := response.results;
      } else {
        movieResults := None;
      }
      movieSearchComplete := true;
      CheckComplete();
    }

    /** The series search's callback, onSuccess or onFail. */
    method OnSeriesResponse(response: Response)
      modifies this, listener
      ensures seriesResults == ResultsOf(response) && seriesSearchComplete
      ensures movieResults == old(movieResults) && movieSearchComplete == old(movieSearchComplete)
      ensures old(movieSearchComplete) ==>
        && listener.notifications
           == old(listener.notifications) + [NotificationOf(Outcome(movieResults, seriesResults, searchTitle))]
        && scheduledSaves == old(scheduledSaves) + match Outcome(movieResults, seriesResults, searchTitle)
                                                     case Some(m) => [m] case None => []
      ensures !old(movieSearchComplete) ==>
        listener.notifications == old(listener.notifications) && scheduledSaves == old(scheduledSaves)
    {
      if response.Success? {
        seriesResults := response.results;
      } else {
        seriesResults := None;
      }
      seriesSearchComplete := true;
      CheckComplete();
    }
  }

  /** The join of the two searches: whichever callback arrives first, once both have
      arrived the listener has been told the outcome exactly once, and a save is
      scheduled exactly when there is a match. */
  method SearchBoth(filename: string, searchTitle: string, year: int, listener: Listener,
                    movieResponse: Response, seriesResponse: Response, movieFirst: bool)
    returns (handler: HybridSearchHandler)
    modifies listener
    ensures fresh(handler) && handler.listener == listener
    ensures handler.movieSearchComplete && handler.seriesSearchComplete
    ensures listener.notifications == old(listener.notifications)
      + [NotificationOf(Outcome(ResultsOf(movieResponse), ResultsOf(seriesResponse), searchTitle))]
    ensures handler.scheduledSaves == match Outcome(ResultsOf(movieResponse), ResultsOf(seriesResponse), searchTitle)
                                      case Some(m) => [m] case None => []
  {
    handler := new HybridSearchHandler(filename, searchTitle, year, listener);
    if movieFirst {
      handler.OnMovieResponse(movieResponse);
      handler.OnSeriesResponse(seriesResponse);
    } else {
      handler.OnSeriesResponse(seriesResponse);
      handler.OnMovieResponse(movieResponse);
    }
  }

  // ---------------------------------------------------------------------
  // findBestMatch(context, filename, title, year, listener)
  // ---------------------------------------------------------------------

  /** The public findBestMatch. On a cache hit the listener is told the cached match
      and no search starts; on a miss a handler is created for the first title
      candidate and its two searches are started, and the listener hears nothing yet. */
  method FindBestMatch(dao: TmdbCacheDao, filename: string, title: string, year: int, listener: Listener,
                       md5: string -> Option<seq<JByte>>, token: string, encode: string -> string)
    returns (handler: Option<HybridSearchHandler>, movieUrl: string, seriesUrl: string)
    modifies listener
    ensures var cached := CachedMatch(dao.rows, CacheKeyOf(filename, md5));
      && (cached.Some? ==> handler.None? && listener.notifications == old(listener.notifications) + [Matched(cached.value)])
      && (cached.None? ==> handler.Some? && listener.notifications == old(listener.notifications))
    ensures handler.Some? ==>
      var h := handler.value;
      && fresh(h) && h.listener == listener && h.filename == filename && h.year == year
      && h.searchTitle == CleanTitle(title)
      && !h.movieSearchComplete && !h.seriesSearchComplete && h.scheduledSaves == []
      && movieUrl == RequestUrl([SearchPath, MoviePath],
                                [(ParamSearch, h.searchTitle), (ParamYear, IntString(year))], token, encode)
      && seriesUrl == RequestUrl([SearchPath, TvPath], SeriesSearchParams(h.searchTitle, year), token, encode)
  {
    var cached := CheckCache(dao, filename, md5);
    if cached.Some? {
      listener.OnMatch(cached.value);
      return None, "", "";
    }
    var candidates := GenerateCandidates(title);
    var searchTitle := candidates[0];
    var h := new HybridSearchHandler(filename, searchTitle, year, listener);
    movieUrl, seriesUrl := h.Execute(token, encode);
    handler := Some(h);
  }
}
