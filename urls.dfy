/** The TMDB request URLs (Tmdb): the API base, the paths, the API key parameter and
    the query parameters of the search, details and episode requests, and the image
    URLs. The API key and `URLEncoder.encode` are parameters; the requests themselves
    are not part of this model. */
module TmdbUrls {
  import opened Text
  import opened Wrappers

  const Base: string := "https://api.themoviedb.org/3"
  const BaseImagePoster: string := "https://image.tmdb.org/t/p/w342"
  const BaseImageBackdrop: string := "https://image.tmdb.org/t/p/w780"
  const BaseImageProfile: string := "https://image.tmdb.org/t/p/w185"
  const SearchPath: string := "/search"
  const MoviePath: string := "/movie"
  const TvPath: string := "/tv"
  const IdHole: string := "{id}"
  const SeasonHole: string := "{season}"
  const EpisodeHole: string := "{episode}"
  const SeasonMid: string := "/season/"
  const EpisodeMid: string := "/episode/"
  /** `/tv/{id}/season/{season}/episode/{episode}`. */
  const EpisodePath: string := TvPath + "/" + IdHole + SeasonMid + SeasonHole + EpisodeMid + EpisodeHole
  const ParamApiKey: string := "api_key"
  const ParamSearch: string := "query"
  const ParamYear: string := "primary_release_year"
  const ParamFirstAirDateYear: string := "first_air_date_year"

  // ---------------------------------------------------------------------
  // Base.getUrl and Base.addParam
  // ---------------------------------------------------------------------

  /** The paths, one after the other. */
  function Concat(paths: seq<string>): string {
    if paths == [] then "" else Concat(paths[..|paths| - 1]) + paths[|paths| - 1]
  }

  /** Concatenating two lists of paths concatenates their texts. */
  lemma {:induction false} ConcatAppend(a: seq<string>, b: seq<string>)
    ensures Concat(a + b) == Concat(a) + Concat(b)
  {
    if b != [] {
      var init := b[..|b| - 1];
      assert (a + b)[..|a + b| - 1] == a + init;
      ConcatAppend(a, init);
    } else {
      assert a + b == a;
    }
  }

  /** The API key parameter every request URL ends its path with. */
  function ApiKey(token: string): string {
    "?" + ParamApiKey + "=" + token
  }

  /** Base.getUrl: the API base, each path in order, then the API key. */
  method GetUrl(paths: seq<string>, token: string) returns (url: string)
    ensures url == Base + Concat(paths) + ApiKey(token)
  {
    url := Base;
    for k := 0 to |paths|
      invariant url == Base + Concat(paths[..k])
    {
      assert paths[..k + 1][..k] == paths[..k];
      url := url + paths[k];
    }
    assert paths[..|paths|] == paths;
    url := url + "?" + ParamApiKey + "=" + token;
  }

  /** One query parameter as addParam writes it: `&key=` and the encoded value. */
  function Param(key: string, value: string, encode: string -> string): string {
    "&" + key + "=" + encode(value)
  }

  /** The query parameters, in the order they are added. */
  function Params(ps: seq<(string, string)>, encode: string -> string): string {
    if ps == [] then "" else Params(ps[..|ps| - 1], encode) + Param(ps[|ps| - 1].0, ps[|ps| - 1].1, encode)
  }

  /** A request URL: the API base, the paths, the API key, then the query parameters. */
  function RequestUrl(paths: seq<string>, ps: seq<(string, string)>, token: string, encode: string -> string): string {
    Base + Concat(paths) + ApiKey(token) + Params(ps, encode)
  }

  /** Base.addParam: the URL is kept as it is and exactly one parameter is appended. */
  function AddParam(url: string, key: string, value: string, encode: string -> string): (r: string)
    ensures |r| == |url| + 2 + |key| + |encode(value)|
    ensures r[..|url|] == url
    ensures r[|url|] == '&' && r[|url| + 1..|url| + 1 + |key|] == key
    ensures r[|url| + 1 + |key|] == '=' && r[|url| + 2 + |key|..] == encode(value)
  {
    url + "&" + key + "=" + encode(value)
  }

  /** Adding a parameter to a request URL gives the request URL with that parameter
      last. */
  lemma AddParamExtends(paths: seq<string>, ps: seq<(string, string)>, key: string, value: string,
                        token: string, encode: string -> string)
    ensures AddParam(RequestUrl(paths, ps, token, encode), key, value, encode)
         == RequestUrl(paths, ps + [(key, value)], token, encode)
  {
    assert (ps + [(key, value)])[..|ps|] == ps;
  }

  /** The text of two paths. */
  lemma ConcatPair(a: string, b: string)
    ensures Concat([a, b]) == a + b
  {
    assert [a, b][..1] == [a];
    assert [a][..0] == [];
    assert Concat([a]) == "" + a == a;
  }

  // ---------------------------------------------------------------------
  // Image.getUrl
  // ---------------------------------------------------------------------

  datatype ImageType = Poster | Backdrop | Profile

  /** The image base URL for each image type. */
  function ImageBase(t: ImageType): string {
    match t
    case Backdrop => BaseImageBackdrop
    case Profile => BaseImageProfile
    case Poster => BaseImagePoster
  }

  /** Image.getUrl(url, type): none for an empty path (null included), otherwise the
      type's base followed by the path. */
  function ImageUrl(url: string, t: ImageType): (r: Option<string>)
    ensures r.None? <==> url == []
    ensures r.Some? ==> r.value == ImageBase(t) + url
  {
    if url != [] then Some(ImageBase(t) + url) else None
  }

  /** Image.getUrl(url): the poster size. */
  function DefaultImageUrl(url: string): (r: Option<string>)
    ensures r.None? <==> url == []
    ensures r.Some? ==> r.value == BaseImagePoster + url
  {
    ImageUrl(url, Poster)
  }

  /** The three image types use three different bases, so an image URL names its size. */
  lemma ImageUrlDistinct(url: string, s: ImageType, t: ImageType)
    requires url != [] && s != t
    ensures ImageUrl(url, s) != ImageUrl(url, t)
  {
    var rs, rt := ImageUrl(url, s).value, ImageUrl(url, t).value;
    assert rs[..|ImageBase(s)|] == ImageBase(s);
    assert rt[..|ImageBase(t)|] == ImageBase(t);
    assert ImageBase(s)[28..] != ImageBase(t)[28..];
  }

  // ---------------------------------------------------------------------
  // Series and Movie requests
  // ---------------------------------------------------------------------

  /** The parameters of Series.search(title, year, response): the query, then
      `first_air_date_year` only for a positive year. */
  function SeriesSearchParams(title: string, year: int): seq<(string, string)> {
    [(ParamSearch, title)] + if year > 0 then [(ParamFirstAirDateYear, IntString(year))] else []
  }

  /** Series.search(title, response): the series search with only the query. */
  method SeriesSearchUrl(title: string, token: string, encode: string -> string) returns (url: string)
    ensures url == RequestUrl([SearchPath, TvPath], [(ParamSearch, title)], token, encode)
  {
    url := GetUrl([SearchPath, TvPath], token);
    AddParamExtends([SearchPath, TvPath], [], ParamSearch, title, token, encode);
    url := AddParam(url, ParamSearch, title, encode);
  }

  /** Series.search(title, year, response). */
  method SeriesSearchWithYearUrl(title: string, year: int, token: string, encode: string -> string)
    returns (url: string)
    ensures url == RequestUrl([SearchPath, TvPath], SeriesSearchParams(title, year), token, encode)
  {
    url := GetUrl([SearchPath, TvPath], token);
    AddParamExtends([SearchPath, TvPath], [], ParamSearch, title, token, encode);
    url := AddParam(url, ParamSearch, title, encode);
    if year > 0 {
      AddParamExtends([SearchPath, TvPath], [(ParamSearch, title)], ParamFirstAirDateYear, IntString(year), token, encode);
      url := AddParam(url, ParamFirstAirDateYear, IntString(year), encode);
    }
  }

  /** Movie.search: the query, then `primary_release_year` whatever the year. */
  method MovieSearchUrl(title: string, year: int, token: string, encode: string -> string)
    returns (url: string)
    ensures url == RequestUrl([SearchPath, MoviePath], [(ParamSearch, title), (ParamYear, IntString(year))], token, encode)
  {
    url := GetUrl([SearchPath, MoviePath], token);
    AddParamExtends([SearchPath, MoviePath], [], ParamSearch, title, token, encode);
    url := AddParam(url, ParamSearch, title, encode);
    AddParamExtends([SearchPath, MoviePath], [(ParamSearch, title)], ParamYear, IntString(year), token, encode);
    assert [(ParamSearch, title)] + [(ParamYear, IntString(year))] == [(ParamSearch, title), (ParamYear, IntString(year))];
    url := AddParam(url, ParamYear, IntString(year), encode);
  }

  /** Series.get: the series path and "/" + id, no parameters. */
  method SeriesGetUrl(id: int, token: string, encode: string -> string) returns (url: string)
    ensures url == RequestUrl([TvPath, "/" + IntString(id)], [], token, encode)
  {
    url := GetUrl([TvPath, "/" + IntString(id)], token);
  }

  /** Movie.get: the movie path and "/" + id, asking for credits and videos as well. */
  method MovieGetUrl(id: int, token: string, encode: string -> string) returns (url: string)
    ensures url == RequestUrl([MoviePath, "/" + IntString(id)], [], token, encode) + "&append_to_response=credits,videos"
  {
    url := GetUrl([MoviePath, "/" + IntString(id)], token);
    url := url + "&append_to_response=credits,videos";
  }

  /** Which parameters each search sends: both searches send the query first; a series
      search sends a year exactly when the year is positive, a movie search always. */
  lemma SearchParameters(title: string, year: int)
    ensures SeriesSearchParams(title, year)[0] == (ParamSearch, title)
    ensures |SeriesSearchParams(title, year)| == 2 <==> year > 0
    ensures year > 0 ==> SeriesSearchParams(title, year)[1] == (ParamFirstAirDateYear, IntString(year))
    ensures |SeriesSearchParams(title, year)| <= 2
  {
  }

  /** The request URLs for the same paths differ exactly where their parameters
      differ: the parameter text follows the fixed prefix. */
  lemma RequestUrlPrefix(paths: seq<string>, ps: seq<(string, string)>, token: string, encode: string -> string)
    ensures |RequestUrl(paths, [], token, encode)| <= |RequestUrl(paths, ps, token, encode)|
    ensures RequestUrl(paths, ps, token, encode)[..|RequestUrl(paths, [], token, encode)|]
         == Base + Concat(paths) + ApiKey(token)
  {
    var pre := Base + Concat(paths) + ApiKey(token);
    assert RequestUrl(paths, [], token, encode) == pre + "";
    assert (pre + Params(ps, encode))[..|pre|] == pre;
  }

  // ---------------------------------------------------------------------
  // Series.getEpisode: String.replace on the placeholders
  // ---------------------------------------------------------------------

  /** String.replace(target, replacement) for a non-empty target: every occurrence,
      scanned left to right without overlap, is replaced. */
  function Replace(s: string, target: string, replacement: string): (r: string)
    requires target != []
    ensures (forall k: nat :: !OccursAt(s, target, k)) ==> r == s
    ensures |replacement| == |target| ==> |r| == |s|
    decreases |s|
  {
    if |s| < |target| then s
    else if s[..|target|] == target then
      assert OccursAt(s, target, 0);
      replacement + Replace(s[|target|..], target, replacement)
    else
      OccursShift(s, target);
      [s[0]] + Replace(s[1..], target, replacement)
  }

  /** The target occurs in s starting at index k. */
  predicate OccursAt(s: string, target: string, k: nat) {
    k + |target| <= |s| && s[k..k + |target|] == target
  }

  /** An occurrence in the tail of s is an occurrence in s one place further on. */
  lemma OccursShift(s: string, target: string)
    requires s != []
    ensures forall k: nat :: OccursAt(s[1..], target, k) ==> OccursAt(s, target, k + 1)
  {
    forall k: nat | OccursAt(s[1..], target, k)
      ensures OccursAt(s, target, k + 1)
    {
      assert s[1..][k..k + |target|] == s[k + 1..k + 1 + |target|];
    }
  }

  predicate NoBrace(s: string) {
    forall k :: 0 <= k < |s| ==> s[k] != '{'
  }

  /** No '{' in s is followed by c: no placeholder whose second character is c
      starts in s. */
  predicate NoBraceBefore(s: string, c: char) {
    forall k :: 0 <= k < |s| - 1 && s[k] == '{' ==> s[k + 1] != c
  }

  /** Text without '{' is copied as it is in front of what follows it. */
  lemma {:induction false} ReplaceSkips(p: string, q: string, target: string, replacement: string)
    requires target != [] && target[0] == '{' && NoBrace(p)
    ensures Replace(p + q, target, replacement) == p + Replace(q, target, replacement)
  {
    if p == [] {
      assert p + q == q;
    } else {
      var s := p + q;
      assert s[0] == p[0] && s[1..] == p[1..] + q;
      if |s| >= |target| {
        assert s[..|target|][0] == p[0];
        ReplaceSkips(p[1..], q, target, replacement);
        assert p == [p[0]] + p[1..];
      } else {
        assert Replace(q, target, replacement) == q;
      }
    }
  }

  /** Text holding no occurrence of the target is left alone. */
  lemma {:induction false} ReplaceAbsent(q: string, target: string, replacement: string)
    requires |target| >= 2 && target[0] == '{' && NoBraceBefore(q, target[1])
    ensures Replace(q, target, replacement) == q
    decreases |q|
  {
    if |q| >= |target| {
      assert q[..|target|] != target by {
        if q[0] == '{' { assert q[..|target|][1] == q[1]; }
      }
      ReplaceAbsent(q[1..], target, replacement);
      assert q == [q[0]] + q[1..];
    }
  }

  /** One placeholder replaced: text without '{' before it, and nothing after it that
      the target matches. */
  lemma ReplaceOnce(p: string, target: string, q: string, replacement: string)
    requires |target| >= 2 && target[0] == '{' && NoBrace(p) && NoBraceBefore(q, target[1])
    ensures Replace(p + target + q, target, replacement) == p + replacement + q
  {
    ReplaceSkips(p, target + q, target, replacement);
    assert (target + q)[..|target|] == target;
    assert (target + q)[|target|..] == q;
    ReplaceAbsent(q, target, replacement);
    assert p + target + q == p + (target + q);
    assert Replace(target + q, target, replacement) == replacement + q;
  }

  lemma NoBraceJoin(a: string, b: string)
    requires NoBrace(a) && NoBrace(b)
    ensures NoBrace(a + b)
  {
    assert forall k :: 0 <= k < |a + b| ==> (a + b)[k] == if k < |a| then a[k] else b[k - |a|];
  }

  lemma NoBraceBeforeJoin(a: string, b: string, c: char)
    requires NoBraceBefore(a, c) && NoBraceBefore(b, c) && (a != [] ==> a[|a| - 1] != '{')
    ensures NoBraceBefore(a + b, c)
  {
    assert forall k :: 0 <= k < |a + b| ==> (a + b)[k] == if k < |a| then a[k] else b[k - |a|];
  }

  lemma NoBraceNoneBefore(a: string, c: char)
    requires NoBrace(a)
    ensures NoBraceBefore(a, c)
  {
  }

  /** The episode URL as the placeholders intend it. */
  function EpisodeUrl(id: int, season: int, episode: int, token: string): string {
    Base + TvPath + "/" + IntString(id) + SeasonMid + IntString(season) + EpisodeMid + IntString(episode)
    + ApiKey(token)
  }

  /** Series.getEpisode: the episode path with `{id}`, `{season}` and `{episode}`
      replaced in turn. */
  method EpisodeGetUrl(id: int, season: int, episode: int, token: string) returns (url: string)
    ensures url == Replace(Replace(Replace(Base + EpisodePath + ApiKey(token), IdHole, IntString(id)),
                                   SeasonHole, IntString(season)), EpisodeHole, IntString(episode))
  {
    url := GetUrl([EpisodePath], token);
    assert [EpisodePath][..0] == [];
    assert Concat([EpisodePath]) == "" + EpisodePath == EpisodePath;
    url := Replace(url, IdHole, IntString(id));
    url := Replace(url, SeasonHole, IntString(season));
    url := Replace(url, EpisodeHole, IntString(episode));
  }

  /** Three placeholders substituted in turn, for any text around them that holds no
      '{', when no placeholder matches a later one. */
  lemma SubstituteAll(pre: string, h1: string, mid1: string, h2: string, mid2: string, h3: string, tail: string,
                      v1: string, v2: string, v3: string)
    requires |h1| >= 2 && |h2| >= 2 && |h3| >= 2 && h1[0] == '{' && h2[0] == '{' && h3[0] == '{'
    requires h2[|h2| - 1] != '{' && h3[|h3| - 1] != '{'
    requires NoBraceBefore(h2, h1[1]) && NoBraceBefore(h3, h1[1]) && NoBraceBefore(h3, h2[1])
    requires NoBrace(pre) && NoBrace(mid1) && NoBrace(mid2) && NoBrace(tail)
    requires NoBrace(v1) && NoBrace(v2)
    ensures Replace(Replace(Replace(pre + h1 + mid1 + h2 + mid2 + h3 + tail, h1, v1), h2, v2), h3, v3)
         == pre + v1 + mid1 + v2 + mid2 + v3 + tail
  {
    // h1
    var q3 := h3 + tail;
    NoBraceBeforeJoin(h3, tail, h1[1]);
    NoBraceBeforeJoin(mid2, q3, h1[1]);
    NoBraceBeforeJoin(h2, mid2 + q3, h1[1]);
    NoBraceBeforeJoin(mid1, h2 + (mid2 + q3), h1[1]);
    ReplaceOnce(pre, h1, mid1 + (h2 + (mid2 + q3)), v1);
    Regroup(pre, h1, mid1, h2, mid2, h3, tail);
    Regroup(pre, v1, mid1, h2, mid2, h3, tail);
    var s1 := pre + v1 + mid1 + h2 + mid2 + h3 + tail;
    // h2
    NoBraceBeforeJoin(h3, tail, h2[1]);
    NoBraceBeforeJoin(mid2, q3, h2[1]);
    NoBraceJoin(pre, v1);
    NoBraceJoin(pre + v1, mid1);
    ReplaceOnce(pre + v1 + mid1, h2, mid2 + q3, v2);
    Regroup(pre, v1, mid1, v2, mid2, h3, tail);
    // h3
    NoBraceJoin(pre + v1 + mid1, v2);
    NoBraceJoin(pre + v1 + mid1 + v2, mid2);
    NoBraceNoneBefore(tail, h3[1]);
    ReplaceOnce(pre + v1 + mid1 + v2 + mid2, h3, tail, v3);
  }

  /** Seven pieces, regrouped. */
  lemma Regroup(a: string, b: string, c: string, d: string, e: string, f: string, g: string)
    ensures a + b + c + d + e + f + g == a + b + (c + (d + (e + (f + g))))
    ensures a + b + c + d + e + f + g == a + b + c + d + (e + (f + g))
    ensures a + b + c + d + e + f + g == a + b + c + d + e + (f + g)
  {
  }

  /** The fixed text around the placeholders holds no '{'. */
  lemma FixedTextFacts()
    ensures NoBrace(Base + TvPath + "/") && NoBrace("?" + ParamApiKey + "=")
  {
  }

  lemma RegroupPath(a: string, b1: string, b2: string, c: string, d: string, e: string, f: string, g: string, h: string)
    ensures a + (b1 + b2 + c + d + e + f + g) + h == a + b1 + b2 + c + d + e + f + g + h
  {
  }

  /** The episode placeholders satisfy what the substitution needs. */
  lemma HoleFacts()
    ensures |IdHole| >= 2 && |SeasonHole| >= 2 && |EpisodeHole| >= 2
    ensures IdHole[0] == '{' && SeasonHole[0] == '{' && EpisodeHole[0] == '{'
    ensures SeasonHole[|SeasonHole| - 1] != '{' && EpisodeHole[|EpisodeHole| - 1] != '{'
    ensures NoBraceBefore(SeasonHole, IdHole[1]) && NoBraceBefore(EpisodeHole, IdHole[1])
    ensures NoBraceBefore(EpisodeHole, SeasonHole[1])
    ensures NoBrace(SeasonMid) && NoBrace(EpisodeMid)
  {
  }

  /** When the API key holds no '{', substituting the placeholders leaves none and
      yields the intended episode URL. */
  lemma EpisodeUrlCorrect(id: int, season: int, episode: int, token: string)
    requires NoBrace(token)
    ensures Replace(Replace(Replace(Base + EpisodePath + ApiKey(token), IdHole, IntString(id)),
                            SeasonHole, IntString(season)), EpisodeHole, IntString(episode))
         == EpisodeUrl(id, season, episode, token)
  {
    var pre := Base + TvPath + "/";
    FixedTextFacts();
    NoBraceJoin("?" + ParamApiKey + "=", token);
    HoleFacts();
    SubstituteAll(pre, IdHole, SeasonMid, SeasonHole, EpisodeMid, EpisodeHole, ApiKey(token),
                  IntString(id), IntString(season), IntString(episode));
    assert EpisodePath == TvPath + "/" + IdHole + SeasonMid + SeasonHole + EpisodeMid + EpisodeHole;
    RegroupPath(Base, TvPath, "/", IdHole, SeasonMid, SeasonHole, EpisodeMid, EpisodeHole, ApiKey(token));
  }
}
