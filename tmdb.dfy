/** The TMDB client's decisions on TV-show and movie details: production
    status, the last season, the season regex used in RSS rules, the
    upcoming checks and the upcoming-movie filter. "Now" is a parameter. */
module Tmdb {
  import opened Wrappers
  import opened Text
  import opened Patterns
  import opened Dates

  /** One entry of a show's `seasons` list; a missing key is None. */
  datatype Season = Season(number: Option<int>, episodeCount: Option<int>, airDate: Option<string>)

  /** The `next_episode_to_air` object. */
  datatype Episode = Episode(airDate: Option<string>)

  /** The fields of a TV-show details response the client reads. */
  datatype TvShow = TvShow(
    name: Option<string>,
    inProduction: Option<bool>,
    status: Option<string>,
    seasons: Option<seq<Season>>,
    nextEpisode: Option<Episode>)

  /** The fields of a movie result the client reads. */
  datatype Movie = Movie(title: Option<string>, releaseDate: Option<string>)

  /** The dictionary `get_last_season_info` returns. */
  datatype LastSeason = LastSeason(seasonNumber: int, episodeCount: int, airDate: Option<string>, season: Season)

  // ---- is_show_in_production ----

  function IsShowInProduction(tv: TvShow): (r: bool)
    ensures r <==> tv.inProduction == Some(true)
  {
    tv.inProduction.GetOr(false)
  }

  // ---- get_last_season_info ----

  /** The sort key: `season_number`, 0 when missing. */
  function SeasonKey(s: Season): int { s.number.GetOr(0) }

  /** Where `sorted(seasons, key=SeasonKey)[-1]` comes from: since the sort
      is stable, the last of the seasons with the greatest key. */
  predicate IsLastMax(seasons: seq<Season>, i: nat) {
    i < |seasons|
    && (forall j :: 0 <= j < |seasons| ==> SeasonKey(seasons[j]) <= SeasonKey(seasons[i]))
    && (forall j :: i < j < |seasons| ==> SeasonKey(seasons[j]) < SeasonKey(seasons[i]))
  }

  function LastMaxIndex(seasons: seq<Season>): (i: nat)
    requires |seasons| >= 1
    ensures IsLastMax(seasons, i)
    decreases |seasons|
  {
    if |seasons| == 1 then 0
    else
      var init := seasons[..|seasons| - 1];
      var i := LastMaxIndex(init);
      assert forall j :: 0 <= j < |init| ==> init[j] == seasons[j];
      if SeasonKey(seasons[|seasons| - 1]) >= SeasonKey(seasons[i]) then |seasons| - 1 else i
  }

  /** Only one position is the last maximum. */
  lemma LastMaxUnique(seasons: seq<Season>, i: nat, k: nat)
    requires IsLastMax(seasons, i) && IsLastMax(seasons, k)
    ensures i == k
  {
    assert SeasonKey(seasons[k]) <= SeasonKey(seasons[i]) <= SeasonKey(seasons[k]);
  }

  /** None when `seasons` is missing or empty; otherwise the last season of
      the stable sort, with `episode_count` defaulting to 0. */
  function GetLastSeasonInfo(tv: TvShow): (r: Option<LastSeason>)
    ensures r.None? <==> tv.seasons.None? || tv.seasons.value == []
    ensures r.Some? ==> exists i: nat :: IsLastMax(tv.seasons.value, i)
                                         && r.value.season == tv.seasons.value[i]
    ensures r.Some? ==> r.value.seasonNumber == SeasonKey(r.value.season)
                        && r.value.episodeCount == r.value.season.episodeCount.GetOr(0)
                        && r.value.airDate == r.value.season.airDate
  {
    match tv.seasons
    case None => None
    case Some(ss) =>
      if ss == [] then None
      else
        var last := ss[LastMaxIndex(ss)];
        Some(LastSeason(SeasonKey(last), last.episodeCount.GetOr(0), last.airDate, last))
  }

  /** With equal season numbers the later entry wins. */
  lemma LastSeasonTieGoesToLater(a: Season, b: Season, tv: TvShow)
    requires SeasonKey(a) == SeasonKey(b) && tv.seasons == Some([a, b])
    ensures GetLastSeasonInfo(tv).value.season == b
  {
    var ss := [a, b];
    assert IsLastMax(ss, 1);
    var i: nat :| IsLastMax(ss, i) && GetLastSeasonInfo(tv).value.season == ss[i];
    LastMaxUnique(ss, i, 1);
  }

  // ---- create_tv_show_regex_pattern ----

  /** `f"{n:02d}"`: the season number with at least two digits. */
  function SeasonDigits(n: int): string { Pad2(n) }

  /** The regex that recognises episode names of the show's last season:
      None when the show is not in production or has no seasons. */
  function TvRegexPattern(tv: TvShow): (r: Option<string>)
    ensures r.None? <==> !IsShowInProduction(tv) || GetLastSeasonInfo(tv).None?
    ensures r.Some? ==>
      r.value == "^" + EscapeTitle(tv.name.GetOr("Unknown")) + "\\s+S"
                 + SeasonDigits(GetLastSeasonInfo(tv).value.seasonNumber) + "E\\d{2}"
  {
    if !IsShowInProduction(tv) then None
    else match GetLastSeasonInfo(tv)
      case None => None
      case Some(info) =>
        Some("^" + EscapeTitle(tv.name.GetOr("Unknown")) + "\\s+S" + SeasonDigits(info.seasonNumber) + "E\\d{2}")
  }

  /** Season 3 gives `S03E\d{2}`, season 12 gives `S12E\d{2}`. */
  lemma SeasonDigitsExamples()
    ensures SeasonDigits(3) == "03" && SeasonDigits(12) == "12"
  {
  }

  /** A show in production whose seasons end with season 3 yields a
      pattern ending in `\s+S03E\d{2}`. */
  lemma TvRegexPatternSeason3(tv: TvShow, name: string, rest: seq<Season>, count: Option<int>)
    requires tv.inProduction == Some(true) && tv.name == Some(name)
    requires tv.seasons == Some(rest + [Season(Some(3), count, None)])
    requires forall j :: 0 <= j < |rest| ==> SeasonKey(rest[j]) <= 3
    ensures TvRegexPattern(tv) == Some("^" + EscapeTitle(name) + "\\s+S03E\\d{2}")
  {
    var ss := rest + [Season(Some(3), count, None)];
    assert IsLastMax(ss, |ss| - 1) by {
      forall j | 0 <= j < |ss| ensures SeasonKey(ss[j]) <= 3 {
        if j < |rest| { assert ss[j] == rest[j]; }
      }
    }
    var i: nat :| IsLastMax(ss, i) && GetLastSeasonInfo(tv).value.season == ss[i];
    LastMaxUnique(ss, i, |ss| - 1);
    assert GetLastSeasonInfo(tv).value.seasonNumber == 3;
    SeasonDigitsExamples();
    assert "^" + EscapeTitle(name) + "\\s+S" + "03" + "E\\d{2}" == "^" + EscapeTitle(name) + "\\s+S03E\\d{2}";
  }

  // ---- is_upcoming_movie / is_upcoming_tv_show ----

  /** A parseable date string, read as midnight of that date. */
  function DateInstant(date: Option<string>): (r: Option<Instant>)
    ensures r.Some? <==> date.Some? && ParseDate(date.value).Some?
    ensures r.Some? ==> r.value == Midnight(ParseDate(date.value).value)
  {
    if date.None? then None
    else match ParseDate(date.value)
      case None => None
      case Some(d) => Some(Midnight(d))
  }

  /** True iff the release date parses and its midnight is after `now`. */
  function IsUpcomingMovie(m: Movie, now: Instant): (r: bool)
    ensures r <==> exists d :: ParseDate(m.releaseDate.GetOr("")) == Some(d)
                               && m.releaseDate.Some? && Midnight(d) > now
  {
    match DateInstant(m.releaseDate)
    case None => false
    case Some(t) => t > now
  }

  /** Read on the calendar: a movie is upcoming on the day `today` exactly
      when it is released on a later day. */
  lemma UpcomingMovieIsLaterDate(m: Movie, now: Instant, today: Date, release: Date)
    requires ValidDate(today) && Midnight(today) <= now < Midnight(today) + MicrosPerDay
    requires m.releaseDate.Some? && ParseDate(m.releaseDate.value) == Some(release)
    ensures IsUpcomingMovie(m, now) <==> Before(today, release)
  {
    MidnightOrder(today, release);
    MidnightOrder(release, today);
  }

  /** A movie upcoming now was upcoming at every earlier moment. */
  lemma UpcomingMovieEarlier(m: Movie, now: Instant, earlier: Instant)
    requires IsUpcomingMovie(m, now) && earlier <= now
    ensures IsUpcomingMovie(m, earlier)
  {
  }

  const AiringStatuses: seq<string> := ["returning series", "continuing"]
  const PlannedStatuses: seq<string> := ["planned", "in production", "post production"]

  /** `tv_data.get('status', '').lower()` */
  function StatusOf(tv: TvShow): string { Lower(tv.status.GetOr("")) }

  /** The air date of the next episode, when there is one and it parses. */
  function NextAirInstant(tv: TvShow): Option<Instant> {
    if tv.nextEpisode.Some? then DateInstant(tv.nextEpisode.value.airDate) else None
  }

  /** Three tests in order: a returning or continuing show is upcoming; a
      parseable next-episode date decides on its own; otherwise planned
      and in-production shows are upcoming. */
  function IsUpcomingTvShow(tv: TvShow, now: Instant): (r: bool)
    ensures StatusOf(tv) in AiringStatuses ==> r
    ensures StatusOf(tv) !in AiringStatuses && NextAirInstant(tv).Some? ==>
              (r <==> NextAirInstant(tv).value > now)
    ensures StatusOf(tv) !in AiringStatuses && NextAirInstant(tv).None? ==>
              (r <==> StatusOf(tv) in PlannedStatuses)
  {
    var status := StatusOf(tv);
    if status in AiringStatuses then true
    else match NextAirInstant(tv)
      case Some(t) => t > now
      case None => status in PlannedStatuses
  }

  /** The next-episode date outranks a 'planned' status: a planned show
      whose next episode already aired is not upcoming. */
  lemma PlannedShowWithPastEpisode(tv: TvShow, now: Instant, aired: Date)
    requires tv.status == Some("planned") && tv.nextEpisode.Some?
    requires tv.nextEpisode.value.airDate.Some?
    requires ParseDate(tv.nextEpisode.value.airDate.value) == Some(aired) && Midnight(aired) <= now
    ensures !IsUpcomingTvShow(tv, now)
  {
    assert StatusOf(tv) == "planned";
  }

  /** An unparsable next-episode date is ignored and the status decides. */
  lemma UnparsableAirDateFallsThrough(tv: TvShow, now: Instant, date: string)
    requires tv.nextEpisode == Some(Episode(Some(date))) && ParseDate(date).None?
    ensures IsUpcomingTvShow(tv, now) <==> StatusOf(tv) in AiringStatuses + PlannedStatuses
  {
  }

  // ---- get_tv_show_status ----

  const StatusLabels: map<string, string> := map[
    "returning series" := "🟢 Returning Series",
    "continuing" := "🟢 Continuing",
    "ended" := "🔴 Ended",
    "canceled" := "🔴 Canceled",
    "planned" := "🟡 Planned",
    "in production" := "🟡 In Production",
    "post production" := "🟡 Post Production"
  ]

  const UnknownMark: char := '❓'

  /** The label of a known status, or the question mark and the status in
      title case. */
  function GetTvShowStatus(tv: TvShow): (r: string)
    ensures StatusOf(tv) in StatusLabels ==> r == StatusLabels[StatusOf(tv)]
    ensures StatusOf(tv) !in StatusLabels ==> r == [UnknownMark, ' '] + TitleCase(StatusOf(tv))
  {
    var status := StatusOf(tv);
    if status in StatusLabels then StatusLabels[status] else [UnknownMark, ' '] + TitleCase(status)
  }

  /** The question mark shows exactly when the status is not one of the
      seven known ones, and known statuses get different labels. */
  lemma StatusLabelTellsKnown(tv: TvShow)
    ensures GetTvShowStatus(tv)[0] == UnknownMark <==> StatusOf(tv) !in StatusLabels
  {
  }

  lemma StatusLabelsDistinct(a: string, b: string)
    requires a in StatusLabels && b in StatusLabels && a != b
    ensures StatusLabels[a] != StatusLabels[b]
  {
  }

  // ---- the filtering loop of get_upcoming_movies ----

  /** A parseable release date between `now` and `cutoff`, both included. */
  predicate InWindow(m: Movie, now: Instant, cutoff: Instant) {
    match DateInstant(m.releaseDate)
    case None => false
    case Some(t) => now <= t <= cutoff
  }

  /** The movies `keep` accepts, in input order. */
  function Selected(movies: seq<Movie>, keep: Movie -> bool): (r: seq<Movie>)
    ensures |r| <= |movies|
    decreases |movies|
  {
    if movies == [] then []
    else
      var init := Selected(movies[..|movies| - 1], keep);
      if keep(movies[|movies| - 1]) then init + [movies[|movies| - 1]] else init
  }

  lemma {:induction false} SelectedMembers(movies: seq<Movie>, keep: Movie -> bool, m: Movie)
    ensures m in Selected(movies, keep) <==> m in movies && keep(m)
    decreases |movies|
  {
    if movies != [] {
      var init := movies[..|movies| - 1];
      SelectedMembers(init, keep, m);
      assert movies == init + [movies[|movies| - 1]];
    }
  }

  lemma {:induction false} SelectedConcat(a: seq<Movie>, b: seq<Movie>, keep: Movie -> bool)
    ensures Selected(a + b, keep) == Selected(a, keep) + Selected(b, keep)
    decreases |b|
  {
    if b == [] {
      assert a + b == a;
    } else {
      var b0 := b[..|b| - 1];
      var x := b[|b| - 1];
      var t := if keep(x) then [x] else [];
      SelectedConcat(a, b0, keep);
      assert (a + b)[..|a + b| - 1] == a + b0;
      assert (a + b)[|a + b| - 1] == x;
      assert Selected(a + b, keep) == Selected(a + b0, keep) + t;
      assert Selected(b, keep) == Selected(b0, keep) + t;
      AppendAssoc(Selected(a, keep), Selected(b0, keep), t);
    }
  }

  function InWindowAt(now: Instant, cutoff: Instant): Movie -> bool {
    m => InWindow(m, now, cutoff)
  }

  /** The movies in the window, in input order. */
  function WithinWindow(movies: seq<Movie>, now: Instant, cutoff: Instant): (r: seq<Movie>)
    ensures |r| <= |movies|
  {
    Selected(movies, InWindowAt(now, cutoff))
  }

  /** A movie is kept iff it is in the input and in the window. */
  lemma WithinWindowMembers(movies: seq<Movie>, now: Instant, cutoff: Instant, m: Movie)
    ensures m in WithinWindow(movies, now, cutoff) <==> m in movies && InWindow(m, now, cutoff)
  {
    SelectedMembers(movies, InWindowAt(now, cutoff), m);
    assert InWindowAt(now, cutoff)(m) == InWindow(m, now, cutoff);
  }

  /** Keeping is independent per movie, so the kept list of a
      concatenation is the concatenation of the kept lists. */
  lemma WithinWindowConcat(a: seq<Movie>, b: seq<Movie>, now: Instant, cutoff: Instant)
    ensures WithinWindow(a + b, now, cutoff) == WithinWindow(a, now, cutoff) + WithinWindow(b, now, cutoff)
  {
    SelectedConcat(a, b, InWindowAt(now, cutoff));
  }

  /** What `get_upcoming_movies` returns: nothing when the request failed
      or `now + days_ahead` overflows, else the movies of the window. */
  function UpcomingMovies(response: Option<seq<Movie>>, now: Instant, daysAhead: int): seq<Movie> {
    match response
    case None => []
    case Some(results) =>
      match AddDays(now, daysAhead)
      case None => []
      case Some(cutoff) => WithinWindow(results, now, cutoff)
  }

  method GetUpcomingMovies(response: Option<seq<Movie>>, now: Instant, daysAhead: int) returns (upcoming: seq<Movie>)
    ensures upcoming == UpcomingMovies(response, now, daysAhead)
  {
    if response.None? {
      return [];
    }
    var results := response.value;
    var cutoffDate := AddDays(now, daysAhead);
    if cutoffDate.None? {
      return [];
    }
    var cutoff := cutoffDate.value;
    upcoming := [];
    var i := 0;
    while i < |results|
      invariant 0 <= i <= |results|
      invariant upcoming == WithinWindow(results[..i], now, cutoff)
    {
      var movie := results[i];
      assert results[..i + 1][..i] == results[..i];
      assert InWindowAt(now, cutoff)(movie) == InWindow(movie, now, cutoff);
      var release := DateInstant(movie.releaseDate);
      if release.Some? && now <= release.value <= cutoff {
        upcoming := upcoming + [movie];
      }
      i := i + 1;
    }
    assert results[..i] == results;
  }

  /** With no days ahead the window is the single instant `now`: only a
      movie released at exactly this midnight is listed. */
  lemma ZeroDaysWindow(movies: seq<Movie>, now: Instant, m: Movie)
    requires InRange(now)
    ensures m in UpcomingMovies(Some(movies), now, 0) <==> m in movies && DateInstant(m.releaseDate) == Some(now)
  {
    WithinWindowMembers(movies, now, now, m);
  }
}
