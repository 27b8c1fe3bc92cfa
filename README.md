# TMDB title matching, modelled in Dafny

This project models the part of the put.io Android TV client that finds the TMDB
movie or series matching a video file. Given a filename and a title, it works in
four stages:

- **Cache.** It looks up a cached match under a key derived from the filename.
- **Candidates.** On a miss, it cleans the title into up to three search candidates.
- **Search.** It starts a movie search and a series search for the first candidate.
- **Selection.** When both searches have reported, it scores every result by
  case-insensitive edit distance. It keeps the best result that scores at least 0.6;
  ties on score go to the more popular result, then to the one scanned first. It tells
  the listener the outcome and schedules a cache write for a match.

The model covers:

- the title cleaning and candidate generation;
- the Levenshtein distance and the match score;
- the selection;
- the MD5-hex cache key;
- the `tmdb_cache` row entity and its DAO;
- the URLs of the TMDB requests;
- the join of the two searches and the public entry point.

Modules, one per file:

| file | module | source |
|---|---|---|
| wrappers.dfy | Wrappers | `Option` |
| text.dfy | Text | Java `split("\\s+")`, `String.join`, ASCII lower-casing, `Integer.toString` |
| titles.dfy | Titles | cleanTitle, tryApostropheFix, tryStripBrandPrefix, generateCandidates |
| distance.dfy | Distance | levenshteinDistance |
| scoring.dfy | Scoring | calculateMatchScore, ScoredResult, the private findBestMatch |
| cachekey.dfy | CacheKey | getCacheKey |
| cache.dfy | Cache | TmdbCache, TmdbCacheDao |
| urls.dfy | TmdbUrls | Tmdb URL builders |
| matcher.dfy | Matcher | MatchResult, checkCache, saveToCache, HybridSearchHandler, the public findBestMatch |

Each imperative part of the source is modelled as a method proved against a
specification function:

- the in-place apostrophe fix on a `words` array;
- the single-row edit-distance table on a `costs` array;
- the loops that build and select the scored results;
- the hex loop of the cache key;
- the callback-driven join, modelled as a class whose fields the callbacks set;
- the DAO, modelled as a class holding its rows;
- the cache row, modelled as a class whose setters update one field each.

Properties are then proved about those functions.

Two behaviours of the code worth noting:

- **Empty titles.** `calculateMatchScore` returns 0.0 when either title is empty,
  including when both are (TmdbMatcher.java:168-170). The `maxLen == 0` branch that
  would return 1.0 cannot be reached.
- **Cache keys are not unique.** The cache does not key rows by filename hash.
  `filename_hash` is indexed but not unique, and `saveToCache` never sets `id`, so
  every save adds a new row with a generated key. The lookup query
  (TmdbCacheDao.java:16-17) has `LIMIT 1` and no `ORDER BY`, so which matching row it
  returns is up to SQLite. The model takes the order in which SQLite visits the
  `filename_hash` index, ascending primary key, so a lookup returns the matching row
  with the smallest key, which is the oldest one.

## Model

| member | source | states |
|---|---|---|
| Titles.CleanTitle | app/src/main/java/io/smileyjoe/putio/tv/util/TmdbMatcher.java:85-99 | an empty title gives ""; otherwise the result has single spaces between words and no whitespace at either end, which is what collapsing runs of whitespace to one space and trimming promise |
| Titles.TrimKeepsSpacing | app/src/main/java/io/smileyjoe/putio/tv/util/TmdbMatcher.java:95-96 | trimming a collapsed string leaves it single-spaced with visible characters at both ends |
| Titles.ApostropheFix | app/src/main/java/io/smileyjoe/putio/tv/util/TmdbMatcher.java:104-121 | the loop over the `words` array returns exactly the apostrophe variant: none for fewer than two words or no fixable word, otherwise the words rejoined with the first fixable word rewritten |
| Titles.FirstFixable | app/src/main/java/io/smileyjoe/putio/tv/util/TmdbMatcher.java:109-113 | the index found is fixable, is followed by a word, and no earlier index is fixable; none means no index is fixable |
| Titles.ApostropheVariantSpec | app/src/main/java/io/smileyjoe/putio/tv/util/TmdbMatcher.java:104-121 | the variant is absent exactly when there are fewer than two words or none qualifies; otherwise it rewrites the first qualifying word, one of at least three characters ending in `s` but not `'s` and followed by a word starting with an upper-case letter |
| Titles.ApostropheVariantWords | app/src/main/java/io/smileyjoe/putio/tv/util/TmdbMatcher.java:107-115 | on a cleaned title the variant is single-spaced, has as many words, differs from the title and differs from it in exactly the rewritten word |
| Titles.FixedWords | app/src/main/java/io/smileyjoe/putio/tv/util/TmdbMatcher.java:114-115 | rewriting one qualifying word keeps the words proper, rejoining and resplitting gives them back, and the joined text changes |
| Titles.StripBrandPrefix | app/src/main/java/io/smileyjoe/putio/tv/util/TmdbMatcher.java:126-136 | the prefix is stripped exactly when the title splits into at least two words and the first, lower-cased, is a known brand; the result is non-empty, single-spaced, and splits into exactly the title's words after the first |
| Titles.StripBrandPrefixDropsFirstWord | app/src/main/java/io/smileyjoe/putio/tv/util/TmdbMatcher.java:126-136 | on a cleaned title, stripping happens exactly when there are at least two words and the first, lower-cased, is one of amazon, netflix, hulu, disney, hbo, apple; then the title is the first word, a space and the non-empty single-spaced result |
| Titles.GenerateCandidates | app/src/main/java/io/smileyjoe/putio/tv/util/TmdbMatcher.java:60-80 | one to three candidates, the first the cleaned title, the apostrophe variant and the brand-stripped title added in that order only when present and different from the cleaned title |
| Titles.ExtrasDifferFromBase | app/src/main/java/io/smileyjoe/putio/tv/util/TmdbMatcher.java:69-76 | the candidates list starts with the base, has one to three entries, and every later entry differs from the base |
| Text.Split | app/src/main/java/io/smileyjoe/putio/tv/util/TmdbMatcher.java:107-107 | `split("\\s+")` yields words free of whitespace, and only the first can be empty (a leading empty word is kept, trailing ones dropped) |
| Text.Join | app/src/main/java/io/smileyjoe/putio/tv/util/TmdbMatcher.java:115-115 | `String.join(" ", words)` of no words is ""; otherwise it starts with the first word and has the words' total length plus one character per separating space |
| Text.SplitJoin | app/src/main/java/io/smileyjoe/putio/tv/util/TmdbMatcher.java:107-115 | splitting the join of proper words gives the words back |
| Text.JoinSplit | app/src/main/java/io/smileyjoe/putio/tv/util/TmdbMatcher.java:107-115 | joining the split of a single-spaced string gives the string back, and the split words are proper |
| Text.Lower | app/src/main/java/io/smileyjoe/putio/tv/util/TmdbMatcher.java:142-143 | `toLowerCase(Locale.ROOT)` keeps the length and maps each character on its own, upper-case ASCII letters to lower-case and everything else unchanged |
| Text.LowerIdempotent | app/src/main/java/io/smileyjoe/putio/tv/util/TmdbMatcher.java:142-143 | lower-casing twice is lower-casing once |
| Text.IntString | app/src/main/java/io/smileyjoe/putio/tv/util/TmdbMatcher.java:267-267 | `String.valueOf(int)` (also `Integer.toString` and `Long.toString` in the URL builders) is non-empty, made of digits and minus signs, and starts with a minus sign exactly for a negative number |
| Text.IntStringValue | app/src/main/java/io/smileyjoe/putio/tv/util/TmdbMatcher.java:267-267 | reading the decimal form back gives the number: the digits after the optional minus sign are its absolute value |
| Text.IntStringInjective | app/src/main/java/io/smileyjoe/putio/tv/util/TmdbMatcher.java:267-267 | different integers have different decimal forms, so different fallback hash codes give different keys |
| Distance.LevenshteinDistance | app/src/main/java/io/smileyjoe/putio/tv/util/TmdbMatcher.java:141-162 | the single-row table computation returns the edit distance of the lower-cased strings, as defined by the recurrence over prefixes |
| Distance.NextRow | app/src/main/java/io/smileyjoe/putio/tv/util/TmdbMatcher.java:151-158 | one pass of the outer loop turns the table row for prefix length i-1 into the row for i |
| Distance.CellFromNeighbours | app/src/main/java/io/smileyjoe/putio/tv/util/TmdbMatcher.java:154-155 | the minimum over the cell above, the cell to the left and the diagonal (plus one unless the characters match) is the edit distance of the two prefixes |
| Distance.LevAtZero | app/src/main/java/io/smileyjoe/putio/tv/util/TmdbMatcher.java:141-162 | the distance between two prefixes is 0 only when they have the same length and are equal |
| Distance.EditDistanceZero | app/src/main/java/io/smileyjoe/putio/tv/util/TmdbMatcher.java:141-162 | the edit distance is 0 exactly when the strings are equal |
| Distance.LevAtUpper | app/src/main/java/io/smileyjoe/putio/tv/util/TmdbMatcher.java:141-162 | the distance of two prefixes is at most the longer length |
| Distance.LevAtLower | app/src/main/java/io/smileyjoe/putio/tv/util/TmdbMatcher.java:141-162 | the distance of two prefixes is at least the difference of their lengths |
| Distance.LevAtSymmetric | app/src/main/java/io/smileyjoe/putio/tv/util/TmdbMatcher.java:141-162 | the distance does not depend on the order of the strings |
| Distance.LevenshteinProperties | app/src/main/java/io/smileyjoe/putio/tv/util/TmdbMatcher.java:141-162 | levenshteinDistance is symmetric, lies between the length difference and the longer length, is 0 exactly for strings equal up to case, and ignores case |
| Scoring.CalculateMatchScore | app/src/main/java/io/smileyjoe/putio/tv/util/TmdbMatcher.java:167-180 | returns the match score: 0 when either title is empty, else 1 - distance / longer length |
| Scoring.MatchScoreProperties | app/src/main/java/io/smileyjoe/putio/tv/util/TmdbMatcher.java:167-180 | the score is 0 for an empty title, lies in [0, 1], is symmetric, is 1 exactly for non-empty titles equal up to case, and reaches 0.6 exactly when 10 * (maxLen - d) >= 6 * maxLen |
| Scoring.RatioFacts | app/src/main/java/io/smileyjoe/putio/tv/util/TmdbMatcher.java:179 | 1 - d/m lies in [0, 1], is 1 exactly for d = 0, and is at least 0.6 exactly when 5d <= 2m |
| Scoring.Scored | app/src/main/java/io/smileyjoe/putio/tv/util/TmdbMatcher.java:191-207 | a scored result keeps its result and content type, scores the "title" of a movie or the "name" of a series against the query, and takes the popularity or 0.0 |
| Scoring.NewScoredResult | app/src/main/java/io/smileyjoe/putio/tv/util/TmdbMatcher.java:191-207 | the ScoredResult constructor builds that scored result |
| Scoring.IsGoodMatch | app/src/main/java/io/smileyjoe/putio/tv/util/TmdbMatcher.java:209-211 | a good match scores above zero, so a result compared with an empty title is never one |
| Scoring.ScoredGoodMatch | app/src/main/java/io/smileyjoe/putio/tv/util/TmdbMatcher.java:209-211 | a scored result is a good match exactly when the query and the result's title are both non-empty and their edit distance is at most 40% of the longer length |
| Scoring.FindBest | app/src/main/java/io/smileyjoe/putio/tv/util/TmdbMatcher.java:217-250 | returns the selection over the movie results scored as "movie" followed by the series results scored as "tv"; a null list adds nothing |
| Scoring.ScoreInto | app/src/main/java/io/smileyjoe/putio/tv/util/TmdbMatcher.java:221-232 | each building loop appends one scored result per item, in order |
| Scoring.SelectBest | app/src/main/java/io/smileyjoe/putio/tv/util/TmdbMatcher.java:235-247 | the selection loop returns the left-to-right fold that skips results below 0.6 and replaces the best on a higher score or an equal score with strictly higher popularity |
| Scoring.SelectSpec | app/src/main/java/io/smileyjoe/putio/tv/util/TmdbMatcher.java:235-247 | nothing is selected exactly when no result is a good match; otherwise the selected result is good, no good result has a higher score or an equal score with higher popularity, and it is the first good result with its score and popularity |
| Scoring.SelectNone | app/src/main/java/io/smileyjoe/putio/tv/util/TmdbMatcher.java:235-239 | the fold finds nothing exactly when no result is a good match |
| Scoring.SelectFirstBest | app/src/main/java/io/smileyjoe/putio/tv/util/TmdbMatcher.java:240-246 | a selected result is the first best good result |
| Scoring.FirstBestUnique | app/src/main/java/io/smileyjoe/putio/tv/util/TmdbMatcher.java:240-246 | the first best good result is unique, so the winner is determined by the list |
| Scoring.AllScoredOrder | app/src/main/java/io/smileyjoe/putio/tv/util/TmdbMatcher.java:220-232 | the combined list holds every movie result, in order, before every series result, in order |
| CacheKey.HexString | app/src/main/java/io/smileyjoe/putio/tv/util/TmdbMatcher.java:259-264 | the hex loop returns the concatenation of each byte's two-digit lowercase pair |
| CacheKey.PaddedIsPair | app/src/main/java/io/smileyjoe/putio/tv/util/TmdbMatcher.java:260-262 | `toHexString(0xff & b)`, padded with '0' when it has one digit, is the byte's two-digit pair |
| CacheKey.ToHexString | app/src/main/java/io/smileyjoe/putio/tv/util/TmdbMatcher.java:260 | toHexString of a value below 256 has one digit exactly below 16, two otherwise, and no leading zero |
| CacheKey.Unsigned | app/src/main/java/io/smileyjoe/putio/tv/util/TmdbMatcher.java:260 | `0xff & b` is b for a non-negative byte and b + 256 for a negative one |
| CacheKey.HexShape | app/src/main/java/io/smileyjoe/putio/tv/util/TmdbMatcher.java:259-264 | the key has exactly two lowercase hexadecimal digits per digest byte |
| CacheKey.UnhexHex | app/src/main/java/io/smileyjoe/putio/tv/util/TmdbMatcher.java:259-264 | reading the key back two digits at a time gives the digest bytes |
| CacheKey.HexInjective | app/src/main/java/io/smileyjoe/putio/tv/util/TmdbMatcher.java:259-264 | different digests give different keys |
| CacheKey.HashCode | app/src/main/java/io/smileyjoe/putio/tv/util/TmdbMatcher.java:267 | the fallback hash code is a 32-bit int |
| CacheKey.IntStringShort | app/src/main/java/io/smileyjoe/putio/tv/util/TmdbMatcher.java:267 | the decimal form of a 32-bit int has one to eleven characters |
| CacheKey.GetCacheKey | app/src/main/java/io/smileyjoe/putio/tv/util/TmdbMatcher.java:255-269 | the key is the hex form of the filename's digest, or the decimal form of its hash code when the digest throws; it depends on the filename only |
| CacheKey.CacheKeyProperties | app/src/main/java/io/smileyjoe/putio/tv/util/TmdbMatcher.java:255-269 | with a 16-byte digest the key has 32 characters and two filenames share a key exactly when their digests agree; a fallback key has at most 11 characters, so it never equals a digest key |
| Cache.TmdbCache.SetId | app/src/main/java/io/smileyjoe/putio/tv/object/TmdbCache.java:34-40 | getId returns the value set; no other field changes |
| Cache.TmdbCache.SetFilenameHash | app/src/main/java/io/smileyjoe/putio/tv/object/TmdbCache.java:42-48 | getFilenameHash returns the value set; no other field changes |
| Cache.TmdbCache.SetTmdbId | app/src/main/java/io/smileyjoe/putio/tv/object/TmdbCache.java:50-56 | getTmdbId returns the value set; no other field changes |
| Cache.TmdbCache.SetContentType | app/src/main/java/io/smileyjoe/putio/tv/object/TmdbCache.java:58-64 | getContentType returns the value set; no other field changes |
| Cache.TmdbCache.SetMatchedTitle | app/src/main/java/io/smileyjoe/putio/tv/object/TmdbCache.java:66-72 | getMatchedTitle returns the value set; no other field changes |
| Cache.TmdbCache.SetMatchScore | app/src/main/java/io/smileyjoe/putio/tv/object/TmdbCache.java:74-80 | getMatchScore returns the value set; no other field changes |
| Cache.TmdbCache.SetTimestamp | app/src/main/java/io/smileyjoe/putio/tv/object/TmdbCache.java:82-88 | getTimestamp returns the value set; no other field changes |
| Cache.TmdbCache.constructor | app/src/main/java/io/smileyjoe/putio/tv/object/TmdbCache.java:8-32 | a new row has id 0, so its key is generated on insert |
| Cache.Put | app/src/main/java/io/smileyjoe/putio/tv/db/TmdbCacheDao.java:13-14 | storing a row keeps the table in key order, contains the row, keeps every row with another key, and adds nothing else |
| Cache.Lookup | app/src/main/java/io/smileyjoe/putio/tv/db/TmdbCacheDao.java:16-17 | finds nothing exactly when no row has the hash; otherwise finds a row of the table with that hash |
| Cache.LookupSmallestKey | app/src/main/java/io/smileyjoe/putio/tv/db/TmdbCacheDao.java:16-17 | in a key-ordered table, the row found has the smallest key among the rows with that hash |
| Cache.Kept | app/src/main/java/io/smileyjoe/putio/tv/db/TmdbCacheDao.java:19-20 | the rows that stay are exactly those with timestamp at or after the cut-off |
| Cache.KeptOrdered | app/src/main/java/io/smileyjoe/putio/tv/db/TmdbCacheDao.java:19-20 | deleting keeps the remaining rows in key order |
| Cache.KeptIdempotent | app/src/main/java/io/smileyjoe/putio/tv/db/TmdbCacheDao.java:19-20 | deleting twice with the same cut-off is deleting once |
| Cache.TmdbCacheDao.Insert | app/src/main/java/io/smileyjoe/putio/tv/db/TmdbCacheDao.java:13-14 | a row with id 0 gets the next key; the row replaces only the row with the same key; the table stays key-ordered and the next key passes every stored key |
| Cache.TmdbCacheDao.GetByFilenameHash | app/src/main/java/io/smileyjoe/putio/tv/db/TmdbCacheDao.java:16-17 | returns the lookup's row and changes nothing |
| Cache.TmdbCacheDao.DeleteOlderThan | app/src/main/java/io/smileyjoe/putio/tv/db/TmdbCacheDao.java:19-20 | removes exactly the rows older than the cut-off, keeps the table valid, and leaves the key counter alone |
| Cache.InsertProperties | app/src/main/java/io/smileyjoe/putio/tv/db/TmdbCacheDao.java:13-17 | after an insert the row's hash is found, rows with other keys are untouched, and the only row removed has the same key |
| Cache.InsertWithoutKeyAdds | app/src/main/java/io/smileyjoe/putio/tv/db/TmdbCacheDao.java:13-14 | inserting a row under a fresh generated key adds one row and keeps all others, even when its hash is already stored |
| Cache.DeleteProperties | app/src/main/java/io/smileyjoe/putio/tv/db/TmdbCacheDao.java:19-20 | after deleting no row is older than the cut-off, every newer row stays, only older rows go, and a second call changes nothing |
| TmdbUrls.GetUrl | app/src/main/java/io/smileyjoe/putio/tv/network/Tmdb.java:36-46 | the URL is the API base, each path in order, then `?api_key=` and the key |
| TmdbUrls.ConcatAppend | app/src/main/java/io/smileyjoe/putio/tv/network/Tmdb.java:39-41 | the text of two path lists one after the other is the text of the first followed by the second |
| TmdbUrls.AddParam | app/src/main/java/io/smileyjoe/putio/tv/network/Tmdb.java:48-50 | the URL is kept as a prefix, followed by exactly `&`, the key, `=` and the encoded value |
| TmdbUrls.AddParamExtends | app/src/main/java/io/smileyjoe/putio/tv/network/Tmdb.java:48-50 | adding a parameter to a request URL gives the request URL with that parameter last |
| TmdbUrls.ImageUrl | app/src/main/java/io/smileyjoe/putio/tv/network/Tmdb.java:62-81 | none for an empty or null path; otherwise the w780 base for a backdrop, w185 for a profile, w342 for a poster, followed by the path |
| TmdbUrls.DefaultImageUrl | app/src/main/java/io/smileyjoe/putio/tv/network/Tmdb.java:58-60 | the one-argument form uses the poster base |
| TmdbUrls.ImageUrlDistinct | app/src/main/java/io/smileyjoe/putio/tv/network/Tmdb.java:62-81 | different image types give different URLs for the same path |
| TmdbUrls.SeriesSearchUrl | app/src/main/java/io/smileyjoe/putio/tv/network/Tmdb.java:114-117 | the series search URL carries only the query |
| TmdbUrls.SeriesSearchWithYearUrl | app/src/main/java/io/smileyjoe/putio/tv/network/Tmdb.java:126-132 | the series search URL carries the query and, only for a positive year, `first_air_date_year` |
| TmdbUrls.MovieSearchUrl | app/src/main/java/io/smileyjoe/putio/tv/network/Tmdb.java:166-170 | the movie search URL carries the query and always `primary_release_year`, even for a year of 0 or less |
| TmdbUrls.SearchParameters | app/src/main/java/io/smileyjoe/putio/tv/network/Tmdb.java:126-132 | a series search sends the query first and sends a second parameter, the year, exactly when the year is positive |
| TmdbUrls.RequestUrlPrefix | app/src/main/java/io/smileyjoe/putio/tv/network/Tmdb.java:43-50 | every request URL starts with the base, paths and API key, with the parameters after them |
| TmdbUrls.SeriesGetUrl | app/src/main/java/io/smileyjoe/putio/tv/network/Tmdb.java:141-142 | `/tv`, `/` and the id after the base, with no parameters |
| TmdbUrls.MovieGetUrl | app/src/main/java/io/smileyjoe/putio/tv/network/Tmdb.java:179-180 | `/movie`, `/` and the id after the base, then `&append_to_response=credits,videos` |
| TmdbUrls.EpisodeGetUrl | app/src/main/java/io/smileyjoe/putio/tv/network/Tmdb.java:151-155 | the episode URL is the episode path's URL with `{id}`, `{season}` and `{episode}` replaced in that order |
| TmdbUrls.EpisodeUrlCorrect | app/src/main/java/io/smileyjoe/putio/tv/network/Tmdb.java:151-155 | when the API key holds no `{`, the substitutions give `/tv/<id>/season/<season>/episode/<episode>` after the base, followed by the API key |
| TmdbUrls.SubstituteAll | app/src/main/java/io/smileyjoe/putio/tv/network/Tmdb.java:152-155 | three placeholders replaced in turn, in text that holds no other `{`, give the text with the three values in their places |
| TmdbUrls.Replace | app/src/main/java/io/smileyjoe/putio/tv/network/Tmdb.java:153-155 | `String.replace` leaves text in which the target does not occur unchanged, and keeps the length when the replacement is as long as the target |
| TmdbUrls.ReplaceOnce | app/src/main/java/io/smileyjoe/putio/tv/network/Tmdb.java:153 | one `replace` turns the only occurrence of a placeholder into its value |
| Matcher.NewMatchResult | app/src/main/java/io/smileyjoe/putio/tv/util/TmdbMatcher.java:48-54 | a new match result stores its four fields and is not marked as cached |
| Matcher.CachedMatch | app/src/main/java/io/smileyjoe/putio/tv/util/TmdbMatcher.java:274-290 | no match exactly when no row has the key; otherwise a match marked as cached that carries the fields of a stored row with the key |
| Matcher.CheckCache | app/src/main/java/io/smileyjoe/putio/tv/util/TmdbMatcher.java:274-290 | checkCache returns the cached match for the filename's key |
| Matcher.SaveToCache | app/src/main/java/io/smileyjoe/putio/tv/util/TmdbMatcher.java:295-305 | saving inserts one row under a fresh generated key, with the filename's key, the match's fields and the current time |
| Matcher.SaveThenCheck | app/src/main/java/io/smileyjoe/putio/tv/util/TmdbMatcher.java:274-305 | after a save the table has one more row and a check for the same filename finds a match, the saved one when the key was not cached before |
| Matcher.OutcomeSpec | app/src/main/java/io/smileyjoe/putio/tv/util/TmdbMatcher.java:426-447 | no match exactly when no movie and no series result reaches 0.6; otherwise a fresh match, not marked as cached, built from the first best good result, with a score of at least 0.6 |
| Matcher.Outcome | app/src/main/java/io/smileyjoe/putio/tv/util/TmdbMatcher.java:426-435 | no match exactly when no movie or series result is a good match; otherwise a match not marked as cached, scoring at least 0.6, whose content type is "movie" or "tv" |
| Matcher.HybridSearchHandler.constructor | app/src/main/java/io/smileyjoe/putio/tv/util/TmdbMatcher.java:364-370 | a new handler has neither search complete, no results and no scheduled save |
| Matcher.HybridSearchHandler.Execute | app/src/main/java/io/smileyjoe/putio/tv/util/TmdbMatcher.java:372-413 | execute starts the movie search and the series search for the search title and year |
| Matcher.HybridSearchHandler.ProcessResults | app/src/main/java/io/smileyjoe/putio/tv/util/TmdbMatcher.java:421-449 | the listener gets exactly one notification, onMatch with the outcome's match or onNoMatch, and a save is scheduled only with onMatch |
| Matcher.HybridSearchHandler.CheckComplete | app/src/main/java/io/smileyjoe/putio/tv/util/TmdbMatcher.java:415-419 | results are processed when both searches are complete, and nothing happens otherwise |
| Matcher.HybridSearchHandler.OnMovieResponse | app/src/main/java/io/smileyjoe/putio/tv/util/TmdbMatcher.java:376-391 | the movie results become the "results" array or none on a failure; the listener is notified once if the series search had already reported, and not at all otherwise |
| Matcher.HybridSearchHandler.OnSeriesResponse | app/src/main/java/io/smileyjoe/putio/tv/util/TmdbMatcher.java:396-411 | the same for the series results, in whichever order the two callbacks arrive |
| Matcher.SearchBoth | app/src/main/java/io/smileyjoe/putio/tv/util/TmdbMatcher.java:372-419 | whichever search callback arrives first, once both have arrived both searches are complete, the listener has received exactly one notification, the outcome's, and a save is scheduled exactly when there is a match |
| Matcher.Listener.OnMatch | app/src/main/java/io/smileyjoe/putio/tv/util/TmdbMatcher.java:310-313 | the listener records one onMatch with its result |
| Matcher.Listener.OnNoMatch | app/src/main/java/io/smileyjoe/putio/tv/util/TmdbMatcher.java:310-313 | the listener records one onNoMatch |
| Matcher.FindBestMatch | app/src/main/java/io/smileyjoe/putio/tv/util/TmdbMatcher.java:324-347 | on a cache hit the listener is told the cached match and no handler is created; on a miss the listener hears nothing yet, and a new handler for the filename, the year and the first candidate (the cleaned title) starts both searches |

## Left out

- **Network.** The HTTP requests (`Ion`) and their threading are not modelled. A search's outcome is the argument of a callback method. `synchronized` blocks are not modelled either; the callbacks are taken to run one at a time, as the lock makes them.
- **Async.run.** `saveToCache` is run by `Async.run` on another thread. The handler records the scheduled save in `scheduledSaves`, and `SaveToCache` is modelled on its own with the current time as a parameter.
- **Android plumbing.** `Context`, `AppDatabase.getInstance`, logging and `TextUtils` are not modelled, beyond `isEmpty` as the empty-string test.
- **JSON.** Gson parsing and `JsonUtil` are not part of this model. A search result is a record holding:
  - the id;
  - the "title" and "name" strings, with "" when absent;
  - the popularity, `None` when absent or not a number (the caught exception).
- **Digest.** MD5 and the UTF-8 encoding of the filename are a function parameter that yields the digest bytes, or `None` when computing it throws.
- **Characters.** A string is a sequence of Unicode scalar values, where a Java `String` is a sequence of UTF-16 code units. The two agree on the Basic Multilingual Plane. A character outside it, such as an emoji, is one character in the model and two code units in Java. For titles holding such characters, these differ from Java:
  - the lengths `length()` gives, and the `charAt`/`substring` positions;
  - the edit distance and match score: Distance.LevenshteinDistance, Scoring.CalculateMatchScore and Scoring.ScoredGoodMatch;
  - the apostrophe fix's length test: Titles.ApostropheFix;
  - the fallback hash code, and the key built from it: CacheKey.HashCode and CacheKey.GetCacheKey.

  For example, "Cars 😀" against a movie titled "Cars" scores 4/7 in Java and is no match, but scores 2/3 in the model and is a match.
- **The API key.** `BuildConfig.TMDB_AUTH_TOKEN` is a parameter, and so is `URLEncoder.encode`.
- **Genre.update.** Only the URL builders of `Tmdb` are modelled. The genre request (Tmdb.java:84-111) is an HTTP call followed by a database write.
- **Floating point.** Scores and popularity are exact reals, not IEEE doubles, so rounding at the 0.6 boundary is not modelled. NaN popularity is not modelled.
- **Integer width.** `int` and `long` values (row ids, TMDB ids, timestamps, years) are unbounded. The overflow of a generated `int` row id past 2^31 - 1 is not modelled. `String.hashCode` does wrap explicitly.
- **Regular expressions and case.** `(?i)`, `\b`, `\w`, `\s` and `Character.isUpperCase` / `toLowerCase(Locale.ROOT)` follow their ASCII meaning. Non-ASCII letters are neither upper-case nor folded.
- **Null strings.** Null strings are modelled as "".
- Titles.CleanTitle: states the shape of the result (single spaces, trimmed ends). It does not restate the token, bracket and parenthesis removal, which its body models step by step.
- TmdbUrls.EpisodeUrlCorrect: proved only for an API key holding no `{`. A key containing a placeholder would itself be substituted.
- Distance.NextRow: this is the body of the outer loop of levenshteinDistance, extracted as a method. The table row is still updated in place in the same array.
- Scoring.ScoreInto and Scoring.SelectBest: these are the two building loops and the selection loop of the private findBestMatch, each extracted as a method. FindBest calls them in the source's order.
- Matcher.HybridSearchHandler.OnMovieResponse: a callback that fires twice processes the results twice. The model states this through its ensures, which notify again whenever the other search is complete; the source has no guard against it.
