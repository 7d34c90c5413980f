/** The qBittorrent client's download paths and RSS auto-download rules.
    `rss_items` and the outcome of `rss_set_rule` are parameters; path
    joining is kept abstract as a (base, name) pair. */
module Qbittorrent {
  import opened Wrappers
  import opened Text
  import opened Patterns
  import Helpers
  import Settings
  import Tmdb

  // ---- download paths ----

  /** `_clean_title_for_path`: the same substitutions as `clean_filename`
      (forbidden characters to spaces, whitespace runs to one space, then
      strip), so it has the same guarantees and is a fixpoint. */
  function CleanTitleForPath(title: string): (r: string)
    ensures Helpers.IsCleanName(r)
  {
    Helpers.CleanFilename(title)
  }

  lemma CleanTitleForPathIdempotent(title: string)
    ensures CleanTitleForPath(CleanTitleForPath(title)) == CleanTitleForPath(title)
  {
    Helpers.CleanFilenameIdempotent(title);
  }

  /** `os.path.join(base, name)` */
  datatype JoinedPath = JoinedPath(base: string, name: string)

  /** The text POSIX `os.path.join` gives: a name starting with '/'
      replaces the base; otherwise one '/' goes between the parts unless
      the base is empty or already ends in one. */
  function PathText(p: JoinedPath): (s: string)
    ensures p.name != [] && p.name[0] == '/' ==> s == p.name
    ensures (p.name == [] || p.name[0] != '/') ==> |s| >= |p.base| && s[..|p.base|] == p.base
    ensures |s| >= |p.name| && s[|s| - |p.name|..] == p.name
  {
    if p.name != [] && p.name[0] == '/' then p.name
    else if p.base == [] || p.base[|p.base| - 1] == '/' then p.base + p.name
    else p.base + "/" + p.name
  }

  /** The movies base for content type 'movie', the TV base for anything
      else, joined with the cleaned title. */
  function GetDownloadPath(cfg: Settings.Config, contentType: string, title: string): (p: JoinedPath)
    ensures contentType == "movie" ==> p.base == cfg.moviesDownloadPath
    ensures contentType != "movie" ==> p.base == cfg.tvShowsDownloadPath
    ensures p.name == CleanTitleForPath(title)
  {
    var base := if contentType == "movie" then cfg.moviesDownloadPath else cfg.tvShowsDownloadPath;
    JoinedPath(base, CleanTitleForPath(title))
  }

  /** The name joined to the base holds no path separator, so the download
      directory is a direct child of the base (or the base itself when the
      name is empty). */
  lemma DownloadPathHasNoSeparator(cfg: Settings.Config, contentType: string, title: string)
    ensures '/' !in GetDownloadPath(cfg, contentType, title).name
    ensures '\\' !in GetDownloadPath(cfg, contentType, title).name
  {
    var name := GetDownloadPath(cfg, contentType, title).name;
    forall i | 0 <= i < |name| ensures name[i] != '/' && name[i] != '\\' {
      assert !Helpers.IsForbidden(name[i]);
    }
  }

  // ---- rule definitions ----

  /** The rule dictionary passed to `rss_set_rule`. */
  datatype Rule = Rule(
    enabled: bool,
    mustContain: string,
    mustNotContain: string,
    useRegex: bool,
    episodeFilter: string,
    smartFilter: bool,
    previouslyMatchedEpisodes: seq<string>,
    affectedFeeds: seq<string>,
    ignoreDays: int,
    lastMatch: string,
    addPaused: bool,
    assignedCategory: string,
    savePath: string)

  /** A rule dictionary the client changes in place. */
  class RuleDefinition {
    var rule: Rule

    constructor (r: Rule)
      ensures rule == r
    {
      rule := r;
    }
  }

  /** What `rss_set_rule` is called with. */
  datatype Submission = Submission(ruleName: string, rule: Rule)

  const DefaultQuality: string := "1080p"

  /** `f"Auto_{title}_{quality}"` */
  function RuleName(title: string, quality: string): string {
    "Auto_" + title + "_" + quality
  }

  /** `if not save_path: save_path = default` */
  function SavePathOr(savePath: Option<string>, default: string): (r: string)
    ensures savePath.None? || savePath.value == [] ==> r == default
    ensures savePath.Some? && savePath.value != [] ==> r == savePath.value
  {
    if savePath.None? || savePath.value == [] then default else savePath.value
  }

  // ---- the feed lookup of create_auto_download_rule ----

  /** A feed object; `url` is None when it has no such attribute. */
  datatype Feed = Feed(url: Option<string>)

  /** What `rss_items()` gave: it raised, it returned something other than
      a dict, or a dict of feeds by name. */
  datatype FeedItems = LookupRaised | NotADict | FeedMap(feeds: map<string, Feed>)

  /** `affectedFeeds`: the TorrentLeech feed's url when there is one, else
      nothing. */
  function AffectedFeeds(items: FeedItems): (r: seq<string>)
    ensures |r| <= 1
    ensures r != [] <==> items.FeedMap? && "TorrentLeech" in items.feeds && items.feeds["TorrentLeech"].url.Some?
    ensures r != [] ==> r == [items.feeds["TorrentLeech"].url.value]
  {
    match items
    case FeedMap(feeds) =>
      if "TorrentLeech" in feeds && feeds["TorrentLeech"].url.Some? then [feeds["TorrentLeech"].url.value] else []
    case _ => []
  }

  /** `create_auto_download_rule`: sets the definition's feeds, submits it
      whatever the lookup gave, and reports whether the submission went
      through. */
  method CreateAutoDownloadRule(ruleName: string, definition: RuleDefinition, items: FeedItems, setRuleSucceeds: bool)
    returns (ok: bool, submitted: Submission)
    modifies definition
    ensures definition.rule == old(definition.rule).(affectedFeeds := AffectedFeeds(items))
    ensures submitted == Submission(ruleName, definition.rule)
    ensures ok == setRuleSucceeds
  {
    match items {
      case FeedMap(feeds) =>
        if "TorrentLeech" in feeds {
          var feed := feeds["TorrentLeech"];
          if feed.url.Some? {
            definition.rule := definition.rule.(affectedFeeds := [feed.url.value]);
          } else {
            definition.rule := definition.rule.(affectedFeeds := []);
          }
        } else {
          definition.rule := definition.rule.(affectedFeeds := []);
        }
      case NotADict =>
        definition.rule := definition.rule.(affectedFeeds := []);
      case LookupRaised =>
        definition.rule := definition.rule.(affectedFeeds := []);
    }
    submitted := Submission(ruleName, definition.rule);
    ok := setRuleSucceeds;
  }

  // ---- create_movie_rule ----

  /** The fields of the movie details the rule builder reads. */
  datatype MovieData = MovieData(releaseDate: Option<string>, year: Option<string>)

  /** The year candidate: the first four characters of `release_date`,
      else the `year` field; None without movie data. */
  function MovieYear(movieData: Option<MovieData>): Option<string> {
    match movieData
    case None => None
    case Some(md) =>
      var y := PySlice(md.releaseDate.GetOr(""), 0, 4);
      if y == [] then Some(md.year.GetOr("")) else Some(y)
  }

  /** `year and year.isdigit()` */
  predicate UsableYear(year: Option<string>) {
    year.Some? && year.value != [] && AllDigits(year.value)
  }

  /** The movie regex: escaped title, the year when it is all digits, then
      the quality, separated by `.*`. */
  function MovieMustContain(title: string, quality: string, movieData: Option<MovieData>): (r: string)
    ensures UsableYear(MovieYear(movieData)) ==>
              r == EscapeTitle(title) + ".*" + MovieYear(movieData).value + ".*" + quality
    ensures !UsableYear(MovieYear(movieData)) ==> r == EscapeTitle(title) + ".*" + quality
  {
    var year := MovieYear(movieData);
    if UsableYear(year) then EscapeTitle(title) + ".*" + year.value + ".*" + quality
    else EscapeTitle(title) + ".*" + quality
  }

  /** A release date that starts with a four-digit year puts that year in
      the pattern. */
  lemma MovieYearFromReleaseDate(title: string, quality: string, year: string, rest: string, other: Option<string>)
    requires |year| == 4 && AllDigits(year)
    ensures MovieMustContain(title, quality, Some(MovieData(Some(year + rest), other)))
            == EscapeTitle(title) + ".*" + year + ".*" + quality
  {
    assert PySlice(year + rest, 0, 4) == year;
  }

  /** Without a release date the `year` field is used, and it must be all
      digits to count. */
  lemma MovieYearFallback(title: string, quality: string, releaseDate: Option<string>, year: string)
    requires releaseDate.None? || releaseDate == Some("")
    ensures MovieYear(Some(MovieData(releaseDate, Some(year)))) == Some(year)
    ensures MovieMustContain(title, quality, Some(MovieData(releaseDate, Some(year))))
            == if year != [] && AllDigits(year) then EscapeTitle(title) + ".*" + year + ".*" + quality
               else EscapeTitle(title) + ".*" + quality
  {
  }

  /** The movie rule: regex title match, no episode filter, smart filter
      off, category "movies", saved under the movies path by default. */
  function MovieRule(cfg: Settings.Config, title: string, quality: string, savePath: Option<string>,
                     movieData: Option<MovieData>): (r: Rule)
    ensures r.enabled && r.useRegex && !r.smartFilter && !r.addPaused
    ensures r.mustContain == MovieMustContain(title, quality, movieData)
    ensures r.mustNotContain == [] && r.episodeFilter == [] && r.lastMatch == []
    ensures r.previouslyMatchedEpisodes == [] && r.affectedFeeds == []
    ensures r.ignoreDays == 0 && r.assignedCategory == "movies"
    ensures r.savePath == SavePathOr(savePath, cfg.moviesDownloadPath)
  {
    Rule(true, MovieMustContain(title, quality, movieData), "", true, "", false, [], [], 0, "", false,
         "movies", SavePathOr(savePath, cfg.moviesDownloadPath))
  }

  /** `create_movie_rule`: builds the rule and submits it. */
  method CreateMovieRule(cfg: Settings.Config, title: string, quality: string, savePath: Option<string>,
                         movieData: Option<MovieData>, items: FeedItems, setRuleSucceeds: bool)
    returns (ok: bool, submitted: Submission)
    ensures submitted == Submission(RuleName(title, quality),
                                    MovieRule(cfg, title, quality, savePath, movieData).(affectedFeeds := AffectedFeeds(items)))
    ensures ok == setRuleSucceeds
  {
    var definition := new RuleDefinition(MovieRule(cfg, title, quality, savePath, movieData));
    ok, submitted := CreateAutoDownloadRule(RuleName(title, quality), definition, items, setRuleSucceeds);
  }

  // ---- create_tv_show_rule ----

  const DefaultEpisodeFilter: string := "1x01-;"

  /** `"{s}x01-{c};"` from the last season, an episode count of 0 read as
      99; the default "1x01-;" without show data or seasons. */
  function EpisodeFilter(tvData: Option<Tmdb.TvShow>): (r: string)
    ensures tvData.None? || Tmdb.GetLastSeasonInfo(tvData.value).None? ==> r == DefaultEpisodeFilter
    ensures tvData.Some? && Tmdb.GetLastSeasonInfo(tvData.value).Some? ==>
              var info := Tmdb.GetLastSeasonInfo(tvData.value).value;
              r == IntToString(info.seasonNumber) + "x01-"
                   + IntToString(if info.episodeCount == 0 then 99 else info.episodeCount) + ";"
  {
    match tvData
    case None => DefaultEpisodeFilter
    case Some(tv) =>
      match Tmdb.GetLastSeasonInfo(tv)
      case None => DefaultEpisodeFilter
      case Some(info) =>
        var count := if info.episodeCount == 0 then 99 else info.episodeCount;
        IntToString(info.seasonNumber) + "x01-" + IntToString(count) + ";"
  }

  /** The filter depends on the seasons only: it is the same whether or not
      the show is in production (that is, whether a TMDB pattern exists). */
  lemma EpisodeFilterIgnoresProduction(tv: Tmdb.TvShow, flag: Option<bool>)
    ensures EpisodeFilter(Some(tv)) == EpisodeFilter(Some(tv.(inProduction := flag)))
  {
  }

  /** Season 3 with no episodes yet listed gives "3x01-99;". */
  lemma EpisodeFilterZeroCount(tv: Tmdb.TvShow)
    requires tv.seasons == Some([Tmdb.Season(Some(3), Some(0), None)])
    ensures EpisodeFilter(Some(tv)) == "3x01-99;"
  {
    var ss := tv.seasons.value;
    assert Tmdb.IsLastMax(ss, 0);
    var i: nat :| Tmdb.IsLastMax(ss, i) && Tmdb.GetLastSeasonInfo(tv).value.season == ss[i];
    assert IntToString(3) == "3";
    assert IntToString(99) == "99";
  }

  /** The TV regex: the TMDB pattern when there is one, else the escaped
      title, followed by `.*` and the quality. */
  function TvMustContain(title: string, quality: string, tvData: Option<Tmdb.TvShow>): (r: string)
    ensures tvData.Some? && Tmdb.TvRegexPattern(tvData.value).Some? ==>
              r == Tmdb.TvRegexPattern(tvData.value).value + ".*" + quality
    ensures tvData.None? || Tmdb.TvRegexPattern(tvData.value).None? ==> r == EscapeTitle(title) + ".*" + quality
  {
    match tvData
    case None => EscapeTitle(title) + ".*" + quality
    case Some(tv) =>
      match Tmdb.TvRegexPattern(tv)
      case Some(pattern) => pattern + ".*" + quality
      case None => EscapeTitle(title) + ".*" + quality
  }

  /** Every rule pattern ends with `.*` and the quality. */
  lemma MustContainEndsWithQuality(title: string, quality: string, movieData: Option<MovieData>, tvData: Option<Tmdb.TvShow>)
    ensures exists p :: MovieMustContain(title, quality, movieData) == p + ".*" + quality
    ensures exists p :: TvMustContain(title, quality, tvData) == p + ".*" + quality
  {
    var year := MovieYear(movieData);
    if UsableYear(year) {
      var p := EscapeTitle(title) + ".*" + year.value;
      assert MovieMustContain(title, quality, movieData) == p + ".*" + quality;
    } else {
      assert MovieMustContain(title, quality, movieData) == EscapeTitle(title) + ".*" + quality;
    }
    if tvData.Some? && Tmdb.TvRegexPattern(tvData.value).Some? {
      assert TvMustContain(title, quality, tvData) == Tmdb.TvRegexPattern(tvData.value).value + ".*" + quality;
    } else {
      assert TvMustContain(title, quality, tvData) == EscapeTitle(title) + ".*" + quality;
    }
  }

  /** The TV rule: category "tv", smart filter on, the episode filter of the
      last season, saved under the TV path by default. */
  function TvRule(cfg: Settings.Config, title: string, quality: string, savePath: Option<string>,
                  tvData: Option<Tmdb.TvShow>): (r: Rule)
    ensures r.enabled && r.useRegex && r.smartFilter && !r.addPaused
    ensures r.mustContain == TvMustContain(title, quality, tvData)
    ensures r.episodeFilter == EpisodeFilter(tvData)
    ensures r.mustNotContain == [] && r.lastMatch == []
    ensures r.previouslyMatchedEpisodes == [] && r.affectedFeeds == []
    ensures r.ignoreDays == 0 && r.assignedCategory == "tv"
    ensures r.savePath == SavePathOr(savePath, cfg.tvShowsDownloadPath)
  {
    Rule(true, TvMustContain(title, quality, tvData), "", true, EpisodeFilter(tvData), true, [], [], 0, "", false,
         "tv", SavePathOr(savePath, cfg.tvShowsDownloadPath))
  }

  /** `create_tv_show_rule`: builds the rule and submits it; the rule name
      carries no season. */
  method CreateTvShowRule(cfg: Settings.Config, title: string, quality: string, savePath: Option<string>,
                          tvData: Option<Tmdb.TvShow>, items: FeedItems, setRuleSucceeds: bool)
    returns (ok: bool, submitted: Submission)
    ensures submitted == Submission(RuleName(title, quality),
                                    TvRule(cfg, title, quality, savePath, tvData).(affectedFeeds := AffectedFeeds(items)))
    ensures ok == setRuleSucceeds
  {
    var definition := new RuleDefinition(TvRule(cfg, title, quality, savePath, tvData));
    ok, submitted := CreateAutoDownloadRule(RuleName(title, quality), definition, items, setRuleSucceeds);
  }
}
