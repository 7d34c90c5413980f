# QbitRemoteDownloader, modelled in Dafny

QbitRemoteDownloader is a Telegram bot. It searches Prowlarr for torrents, hands the chosen magnet link to qBittorrent, records each download in a sqlite file, and sets up qBittorrent RSS auto-download rules for future movies and TV shows using TMDB metadata. This project models the bot's deterministic core and proves properties of it:

- **Search-result pipeline** (`Titles`, `Prowlarr`, `Patterns`). The title cleaner and its leftmost metadata cut, the dot-separated comparison key, and the size/seeder filter. Also the symmetric-containment dedup against the torrents qBittorrent already has, local pagination, category labels, freeleech detection, and the year/quality/resolution/codec/group extractors.
- **RSS rule synthesis** (`Qbittorrent`, `Tmdb`, `Dates`). Title escaping, `mustContain` for movies and shows, the episode filter, and the fixed rule fields. Also the choice of feed, path cleaning, the last-season choice (a stable sort), the `S{nn}E\d{2}` pattern, status labels, upcoming checks, and the upcoming-movie window.
- **String utilities** (`Helpers`). Filename cleaning, truncation, token validators, the torrent-name parser, and byte-unit selection.
- **Bot handlers** (`Callbacks`, `TelegramBot`). The callback router, the authorisation gate, and the round-trips between button data and the handlers that parse it. Also the page buttons, the production-show collector, the create-rule and confirm-download handlers, and the completion checker's torrent match.
- **Store** (`Database`). The `downloads` and `user_sessions` tables as an in-memory class: an AUTOINCREMENT counter, a default status, `completed_at`, `INSERT OR REPLACE`, and the newest-first per-user listing.
- **Configuration** (`Settings`). `AUTHORIZED_USERS` parsing, the port default, the download-path defaults and `RESULTS_PER_PAGE`.

Supporting modules:

- `Text` covers Python's `strip`, `lower`, `in`, `split`, `join`, slicing, `int()`, the decimal texts `float()` reads, and `str(int)`.
- `Doubles` models IEEE 754 binary64 rounding of integers and exact fractions, which `float()` performs before `int()` truncates.
- `Patterns` holds the explicit ASCII scanners that stand in for each regex used. It includes a `\b` predicate and leftmost-match search.
- `Wrappers` holds `Option` and `Result`.

Rules for the model:

- Foreign calls are parameters of the methods that model their callers. These include HTTP replies, qbittorrentapi results, whether a sqlite statement raises, `datetime.now()` and `CURRENT_TIMESTAMP`.
- Python dictionaries that a handler mutates are fields of a class: `TelegramBot.UserData` for `context.user_data`, `Database.Store` for the tables, and `Qbittorrent.RuleDefinition` for the rule dictionary.
- Loops are `while` loops proved against a specification function.
- `ProwlarrClient._format_size` (services/prowlarr_client.py:297-305) is the same algorithm as `utils/helpers.py` `format_size`. Both are modelled by `Helpers.HumanSizeOf`, and the formatted search record uses it.

## Model

| member | source | states |
|---|---|---|
| Titles.RemoveExtension | services/prowlarr_client.py:29 | The result is the input cut at its one trailing `.ext` position (2-4 alphanumerics, matched case-insensitively), or the input unchanged when it has none. |
| Titles.RemoveExtensionOf | services/prowlarr_client.py:29 | Appending `.` and a 2-4 character alphanumeric extension to a name and then removing the extension gives the name back. |
| Titles.Cleaned | services/prowlarr_client.py:46-47 | After the extension is removed and dot/underscore runs become spaces, no '.' or '_' is left. |
| Titles.FirstMarker | services/prowlarr_client.py:32-50 | The cut position is the leftmost place where any of the nine marker alternatives matches, or the end of the text when none does. |
| Titles.ExtractTitle | services/prowlarr_client.py:26-53 | The title contains no '.' or '_' and has no leading or trailing whitespace. |
| Titles.ExtractTitleSpec | services/prowlarr_client.py:49-51 | The title is the stripped cleaned text before the leftmost marker match, or all of it when nothing matches. |
| Titles.ExtractTitleCut | services/prowlarr_client.py:50-51 | Any leftmost cut point of the cleaned text gives exactly the returned title. |
| Titles.LeftmostCutUnique | services/prowlarr_client.py:50 | The cleaned text has only one leftmost cut point. |
| Titles.SearchPattern | services/prowlarr_client.py:55-61 | The comparison pattern has only lowercase letters, digits, '_' and '.' and contains no whitespace. |
| Titles.SearchPatternIgnoresSurroundingSpace | services/prowlarr_client.py:58 | Whitespace around the title does not change the pattern. |
| Titles.DedupKey | services/prowlarr_client.py:187-195 | The dedup key of a name (its extracted title with spaces turned into dots, lowercased) contains no space and no '_'. |
| Titles.OverlapsSymmetric | services/prowlarr_client.py:198 | "Contains or is contained in" is symmetric. |
| Titles.EmptyKeyOverlaps | services/prowlarr_client.py:198 | An empty key overlaps every key, in both directions. |
| Prowlarr.CoerceIntText | services/prowlarr_client.py:164-176 | An integer reads the same whether it arrives as a JSON number or as its decimal text. It comes back exactly while its magnitude is at most 2^53. |
| Prowlarr.CoerceExact | services/prowlarr_client.py:164-176 | `int(float(i)) == i` for every integer with magnitude at most 2^53. |
| Prowlarr.CoerceAbove53 | services/prowlarr_client.py:164-176 | Between 2^53 and 2^54 an even count is read exactly. An odd count is read as whichever neighbour is a multiple of 4. |
| Prowlarr.CoerceFirstInexact | services/prowlarr_client.py:164-176 | 2^53 + 1 is read as 2^53. |
| Prowlarr.CoerceOverflow | services/prowlarr_client.py:164-176 | From 2^1024 in magnitude, `float` raises, as a number or as text, and the value is 0. |
| Prowlarr.CoerceDecimalText | services/prowlarr_client.py:164-176 | A text "ip.fp" with integer part below 2^52 reads as its integer part, or one more when the fraction is close enough to 1 that the double rounds up. |
| Prowlarr.HugeSeedersDropped | services/prowlarr_client.py:171-180 | A seeder count from 2^1024 up reads as 0, so the item is dropped. |
| Prowlarr.HugeSizeReadsZero | services/prowlarr_client.py:162-168 | A size from 2^1024 up reads as 0, so it passes the 150 GiB ceiling. |
| Doubles.FloatOfIntIsDoubleTrunc | services/prowlarr_client.py:164 | An integer n rounds to the same double whether read as an integer or as the fraction n / 1. |
| Doubles.FloatOfIntExact | services/prowlarr_client.py:164 | Every integer up to 2^53 is a double. |
| Doubles.FloatOfIntAbove53 | services/prowlarr_client.py:164 | Between 2^53 and 2^54 an even integer is kept. An odd one rounds to the neighbour whose half is even (a tie goes to the even mantissa). |
| Doubles.FloatOfIntOverflow | services/prowlarr_client.py:164 | From 2^1024, `float(n)` has no value (OverflowError). |
| Doubles.Round53IsDouble | services/prowlarr_client.py:164 | Rounding always gives a double: a value up to 2^53, or an even value whose half is a double. |
| Doubles.Round53KeepsDoubles | services/prowlarr_client.py:164 | A double with nothing below its last bit rounds to itself. |
| Doubles.Round53AtLeast | services/prowlarr_client.py:164 | Rounding never falls below a power of two that the value reaches. |
| Doubles.Round53AtMost | services/prowlarr_client.py:164 | Rounding never rises above a power of two that the value stays below. |
| Doubles.DoubleTruncOverflow | services/prowlarr_client.py:164 | A fraction n / d at or beyond 2^1024 has no double. |
| Doubles.DoubleTruncInRange | services/prowlarr_client.py:164 | A fraction n / d below 2^1023 has a double. |
| Doubles.DoubleTruncSmall | services/prowlarr_client.py:164 | Below 2^52, `int(float(n / d))` is floor(n / d) or one more. |
| Text.DecimalValueOfParts | services/prowlarr_client.py:164 | "ip.fp" reads as an exact fraction whose quotient is ip's value and whose remainder is fp's digits. |
| Text.DigitsValueBelow | services/prowlarr_client.py:164 | k digits give a value below 10^k. |
| Prowlarr.CoerceNoDigits | services/prowlarr_client.py:163-166 | A value whose text has no digit cannot be read and becomes 0. |
| Prowlarr.Keys | services/prowlarr_client.py:191-195 | There is one key per existing torrent, in order, and each is the DedupKey of that torrent's name. |
| Prowlarr.EmptyKeyIsDuplicate | services/prowlarr_client.py:184-204 | When qBittorrent lists any torrent, a result whose key is empty is always dropped as a duplicate. |
| Prowlarr.AdmitBoundaries | services/prowlarr_client.py:167-180 | Exactly 150 GiB is dropped, one byte less is kept, and exactly one seeder is enough. |
| Prowlarr.CategoryList | services/prowlarr_client.py:206-210 | When the item's categories field is a list, the normalised list (entries kept, or wrapped into `{id, name}` dicts) has exactly as many entries. |
| Prowlarr.GetCategory | services/prowlarr_client.py:251-264 | The loop with its early return computes CategoryLabel of the list. |
| Prowlarr.FirstLabelIs | services/prowlarr_client.py:254-264 | The first entry with a known id decides the label; when there is none the label is 'other'. |
| Prowlarr.CategoryLabelRange | services/prowlarr_client.py:251-264 | The label is 'unknown' iff the list is empty; otherwise it is one of movies, tv, tv_boxsets, tv_episodes or other. |
| Prowlarr.WrappedIdLabel | services/prowlarr_client.py:256-263 | A wrapped id has a label iff it is 2000, 5000, 100027 or 100032, so 2000 gives movies and 2010 gives none. |
| Prowlarr.FreeleechShortList | services/prowlarr_client.py:136-146 | A result is freeleech iff indexerFlags flags it, or its lowercased title contains "fl", "free", "0%" or "0x". The other indicators are subsumed by these. |
| Prowlarr.FormatItem | services/prowlarr_client.py:211-226 | The record's name is the item's title text and its seeders are the coerced seeder count. |
| Prowlarr.FilteredConcat | services/prowlarr_client.py:160-230 | Filtering is per item, so filtering a concatenation concatenates the filtered parts (input order is kept). |
| Prowlarr.FilteredSource | services/prowlarr_client.py:160-227 | Every kept record is the formatted version of some admitted input item. |
| Prowlarr.KeptConcat | services/prowlarr_client.py:160-227 | The kept results of `a + b` are those of `a` followed by those of `b`. |
| Prowlarr.KeptAreAdmitted | services/prowlarr_client.py:160-227 | Every kept result comes from an input item that passes the size, seeder and dedup tests, and it has at least one seeder. |
| Prowlarr.KeptStep | services/prowlarr_client.py:160-227 | One more item adds its record exactly when it is admitted. |
| Prowlarr.PageWindow | services/prowlarr_client.py:232-250 | For a non-negative page the page is `kept[page*n .. page*n+n]` cut to the list. A page at or past total_pages is empty. total_results is the kept count and current_page echoes the request. |
| Prowlarr.CeilDiv | services/prowlarr_client.py:239 | total_pages pages of n hold every kept result, one page fewer would not, and the count is 0 iff nothing was kept. |
| Prowlarr.PagesCoverResults | services/prowlarr_client.py:233-239 | Pages 0 to total_pages-1, concatenated, are the kept results. |
| Prowlarr.CheckDuplicate | services/prowlarr_client.py:191-201 | The scan with its break finds a duplicate iff some existing key overlaps this key. |
| Prowlarr.BuildRecord | services/prowlarr_client.py:206-226 | The record built in place is FormatItem of the item. |
| Prowlarr.AdmitItem | services/prowlarr_client.py:161-204 | The three early `continue`s admit an item exactly when the filter predicate does. |
| Prowlarr.KeepItem | services/prowlarr_client.py:160-227 | One loop iteration extends the kept list of the prefix to the kept list of the longer prefix. |
| Prowlarr.FormatSearchResults | services/prowlarr_client.py:148-250 | The result is the requested page of the kept results. A failed fetch of existing torrents means no dedup. |
| Prowlarr.SearchRequestFor | services/prowlarr_client.py:92-113 | The request carries the raw query, limit 50 and offset 0, with one category string per id of the chosen category list, each reading back as that id. |
| Prowlarr.SearchTorrents | services/prowlarr_client.py:81-128 | A failed request gives an empty page with zero totals and the requested page. Otherwise the result is the page of the kept response items, at 8 per page. |
| Patterns.ParenYear | services/prowlarr_client.py:265-270 | The year is the first "(dddd)" group, exactly four digits, or None iff there is no such group. |
| Patterns.ResolutionTextAt | services/prowlarr_client.py:280 | A match is 3 or 4 digits followed by 'p', copied from the title. |
| Patterns.Resolution | services/prowlarr_client.py:278-283 | The resolution is the leftmost `\d{3,4}p` match, or None iff there is none. |
| Patterns.TrailingGroup | services/prowlarr_client.py:291-296 | The group is the non-empty alphanumeric run after a '-' that ends the title, or None iff there is none. |
| Patterns.GroupAtUnique | services/prowlarr_client.py:293 | There is at most one such '-' position. |
| Patterns.TrailingGroupOf | services/prowlarr_client.py:293 | `name-GROUP` yields GROUP for any alphanumeric GROUP. |
| Patterns.FirstContainedCI | services/prowlarr_client.py:271-277 | The first entry of the fixed list (list order, not title order) whose lowercase form occurs in the lowercased title, returned as spelled in the list; None iff no entry occurs. |
| Patterns.FirstContained | utils/helpers.py:110-114 | The same search, case-sensitive. |
| Patterns.EscapeTitle | services/qbittorrent_client.py:266 | The escaped title contains no space and is at least as long as the title. |
| Patterns.EscapeConcat | services/qbittorrent_client.py:266 | Escaping works character by character: the escape of `a + b` is the escape of `a` then that of `b`. |
| Patterns.EscapeIsReplaceChain | services/qbittorrent_client.py:266 | Escaping equals the three chained `replace` calls: ' ' to `\s+`, '(' to `\(` and ')' to `\)`. |
| Patterns.CollapseRuns | services/qbittorrent_client.py:203 | Every output character is the replacement or a non-whitespace character of the input. The output is empty iff the input is, and with a whitespace replacement it has no two adjacent whitespace characters. |
| Patterns.CollapseFixpoint | services/qbittorrent_client.py:203 | Text whose only whitespace is single spaces is left unchanged. |
| Helpers.ReplaceForbidden | utils/helpers.py:22-23 | Each of the nine characters Windows forbids in file names (angle brackets, colon, double quote, both slashes, pipe, question mark, asterisk) becomes a space; every other character stays, so the length is kept. |
| Helpers.CollapsedIsClean | utils/helpers.py:26 | After collapsing, no forbidden character remains, the only whitespace is single spaces, and no two are adjacent. |
| Helpers.StrippedIsClean | utils/helpers.py:29 | Stripping such text leaves a clean name. |
| Helpers.CleanFilename | utils/helpers.py:19-31 | The result has no forbidden character, no whitespace other than single spaces, and no leading or trailing whitespace. |
| Helpers.CleanFilenameFixpoint | utils/helpers.py:19-31 | Cleaning leaves a name unchanged iff it is already clean. |
| Helpers.CleanFilenameIdempotent | utils/helpers.py:19-31 | Cleaning twice equals cleaning once. |
| Helpers.TruncateText | utils/helpers.py:86-91 | Text within the limit is returned unchanged. Longer text is `text[:max-3] + "..."`, which for a limit of 3 or more has length exactly the limit and keeps the first max-3 characters. |
| Helpers.ValidTelegramToken | utils/helpers.py:68-75 | True iff the token is one or more digits, a ':', then one or more of `[A-Za-z0-9_-]`; empty input is false. |
| Helpers.ValidTorrentleechToken | utils/helpers.py:77-84 | True iff the token is non-empty and entirely ASCII alphanumeric, so a valid token has no ':'. |
| Helpers.TelegramFromParts | utils/helpers.py:68-84 | A bot id, ':' and a valid TorrentLeech-shaped secret form a valid Telegram token. |
| Helpers.ParseTorrentName | utils/helpers.py:93-126 | The title is the input. The year comes only from "(dddd)". Quality is the first case-sensitive hit in BluRay, WEB-DL, HDRip, BRRip, DVDRip. Resolution is the first `\d{3,4}p` and group is the trailing `-alnum` token. |
| Helpers.FirstContainedIs | utils/helpers.py:110-114 | The loop's break at the first hit gives that entry. |
| Helpers.UnitIndexUnique | utils/helpers.py:38-42 | At most one unit index is the largest k within the unit cap with value ≥ 1024^k. |
| Helpers.ScaleBytes | utils/helpers.py:39-42 | The division loop stops at that unit index and leaves value / 1024^unit. |
| Helpers.UnitIndex | utils/helpers.py:38-42 | The unit chosen is that unique index; negative values use unit 0. |
| Helpers.FormatSize | utils/helpers.py:33-44 | 0 gives "0 B". Otherwise the value is scaled to the unit HumanSizeOf picks, one of B, KB, MB, GB, TB. |
| Helpers.FormatSpeed | utils/helpers.py:46-57 | 0 gives "0 B/s". Otherwise the value is scaled to a unit up to GB/s. |
| Qbittorrent.CleanTitleForPath | services/qbittorrent_client.py:197-206 | The directory name has none of the nine forbidden file-name characters, no whitespace other than single spaces, and no leading or trailing whitespace. |
| Qbittorrent.CleanTitleForPathIdempotent | services/qbittorrent_client.py:197-206 | Cleaning a cleaned title changes nothing. |
| Qbittorrent.PathText | services/qbittorrent_client.py:195 | The joined path ends with the cleaned name. It starts with the base unless the name is absolute, in which case it is the name. |
| Qbittorrent.GetDownloadPath | services/qbittorrent_client.py:177-195 | The movies base is used exactly for content type 'movie' and the TV base for every other value, joined with the cleaned title. |
| Qbittorrent.DownloadPathHasNoSeparator | services/qbittorrent_client.py:194-195 | The title part of the path contains no '/' or '\\', so it is one path component. |
| Qbittorrent.SavePathOr | services/qbittorrent_client.py:261-262 | A missing or empty save path falls back to the configured base. |
| Qbittorrent.AffectedFeeds | services/qbittorrent_client.py:231-245 | The feeds are `[url]` exactly when the feed listing is a dict with a 'TorrentLeech' entry that has a url. In every other case, including a raising lookup, they are `[]`. |
| Qbittorrent.CreateAutoDownloadRule | services/qbittorrent_client.py:228-257 | The rule dict is updated in place with only its affectedFeeds changed. It is submitted under its name, and the result is true iff `rss_set_rule` did not raise. |
| Qbittorrent.MovieMustContain | services/qbittorrent_client.py:264-275 | Gives `esc.*year.*quality` when the year is a non-empty digit string, else `esc.*quality`. |
| Qbittorrent.MovieYearFromReleaseDate | services/qbittorrent_client.py:267-273 | A release date beginning with four digits supplies the year. |
| Qbittorrent.MovieYearFallback | services/qbittorrent_client.py:269-275 | With no or an empty release date, the 'year' field is used when it is all digits. |
| Qbittorrent.MovieRule | services/qbittorrent_client.py:259-293 | Fixed fields: enabled, regex, no smart filter, not paused, empty mustNotContain, episodeFilter and lastMatch, no feeds, ignoreDays 0, category "movies", and the movie save path. |
| Qbittorrent.CreateMovieRule | services/qbittorrent_client.py:259-294 | Submits MovieRule under `Auto_{title}_{quality}` with the chosen feeds, and succeeds iff the submission does. |
| Qbittorrent.EpisodeFilter | services/qbittorrent_client.py:302-320 | "1x01-;" without show data or seasons; otherwise "{s}x01-{c};" with c = 99 when the count is 0. |
| Qbittorrent.EpisodeFilterIgnoresProduction | services/qbittorrent_client.py:303-320 | The filter is computed even for shows not in production (when the TMDB regex is None). |
| Qbittorrent.EpisodeFilterZeroCount | services/qbittorrent_client.py:315-320 | Season 3 with 0 episodes gives "3x01-99;". |
| Qbittorrent.TvMustContain | services/qbittorrent_client.py:322-332 | Gives `regex.*quality` when TMDB's pattern exists, else `esc.*quality`. |
| Qbittorrent.MustContainEndsWithQuality | services/qbittorrent_client.py:273-332 | Every mustContain, movie or TV, ends with ".*" and the quality. |
| Qbittorrent.TvRule | services/qbittorrent_client.py:296-350 | Fixed fields: enabled, regex, smart filter, category "tv", ignoreDays 0, TV save path, and the episode filter above. |
| Qbittorrent.CreateTvShowRule | services/qbittorrent_client.py:296-351 | Submits TvRule under `Auto_{title}_{quality}` (no season) and succeeds iff the submission does. |
| Tmdb.IsShowInProduction | services/tmdb_client.py:95-99 | True iff `in_production` is true; a missing field counts as false. |
| Tmdb.LastMaxIndex | services/tmdb_client.py:108-110 | The position taken is the last season with the greatest season number, missing numbers counting as 0 (stable sort, then `[-1]`). |
| Tmdb.LastMaxUnique | services/tmdb_client.py:109-110 | That position is unique. |
| Tmdb.GetLastSeasonInfo | services/tmdb_client.py:101-126 | None iff seasons are missing or empty. Otherwise it is that season, with its number and its episode count defaulting to 0. |
| Tmdb.LastSeasonTieGoesToLater | services/tmdb_client.py:109-110 | Of two seasons with equal numbers the later one wins. |
| Tmdb.TvRegexPattern | services/tmdb_client.py:128-155 | None iff the show is not in production or has no seasons. Otherwise `^esc(name)\s+S{nn}E\d{2}`, with the last season number zero-padded to 2. |
| Tmdb.SeasonDigitsExamples | services/tmdb_client.py:149 | Season 3 is "03" and season 12 is "12". |
| Tmdb.TvRegexPatternSeason3 | services/tmdb_client.py:128-155 | A production show whose last season is 3 gets `^name\s+S03E\d{2}`. |
| Tmdb.DateInstant | services/tmdb_client.py:165 | A date parses iff it is a valid YYYY-MM-DD, and it denotes that day's midnight. |
| Tmdb.IsUpcomingMovie | services/tmdb_client.py:157-172 | True iff the release date is present, parses, and its midnight is after now. A missing, empty or unparsable date is false. |
| Tmdb.UpcomingMovieIsLaterDate | services/tmdb_client.py:165-167 | During a given day, a movie is upcoming iff its release date is a later calendar day. |
| Tmdb.UpcomingMovieEarlier | services/tmdb_client.py:157-172 | A movie upcoming now was upcoming at every earlier instant. |
| Tmdb.IsUpcomingTvShow | services/tmdb_client.py:174-205 | Airing statuses give true first. Next, a parseable next air date decides alone; otherwise a planned or production status gives true, and anything else false. |
| Tmdb.PlannedShowWithPastEpisode | services/tmdb_client.py:185-194 | A planned show whose next episode aired is not upcoming: the date wins over the status. |
| Tmdb.UnparsableAirDateFallsThrough | services/tmdb_client.py:189-202 | An unparsable air date falls through to the status lists. |
| Tmdb.GetTvShowStatus | services/tmdb_client.py:207-221 | The 7 known lowercased statuses get their fixed labels. Any other status gets "❓ " and the title-cased status. |
| Tmdb.StatusLabelTellsKnown | services/tmdb_client.py:211-221 | The label starts with ❓ iff the status is unknown. |
| Tmdb.StatusLabelsDistinct | services/tmdb_client.py:211-219 | Distinct known statuses have distinct labels. |
| Tmdb.WithinWindowMembers | services/tmdb_client.py:239-247 | A movie is kept iff it is a result whose parseable release date lies in [now, now+days]. |
| Tmdb.WithinWindowConcat | services/tmdb_client.py:239-247 | Keeping is per movie, so input order is preserved. |
| Tmdb.GetUpcomingMovies | services/tmdb_client.py:223-249 | The loop returns the movies of the window. The result is empty when the request fails or the cutoff overflows. |
| Tmdb.ZeroDaysWindow | services/tmdb_client.py:236-245 | With 0 days ahead only a movie dated exactly at now is listed. |
| Dates.ParseDate | services/tmdb_client.py:165 | A parsed date is a valid calendar date. |
| Dates.ParseFormatDate | services/tmdb_client.py:165 | Formatting a valid date and parsing it gives the date back. |
| Dates.ParsedIsFormatted | services/tmdb_client.py:165 | Every string that parses is the canonical text of its date: `%Y-%m-%d` is read strictly. |
| Dates.OrdinalOrder | services/tmdb_client.py:167 | Day numbers order dates as the calendar does, and equal numbers mean equal dates. |
| Dates.MidnightOrder | services/tmdb_client.py:167 | Midnights compare as their dates, a whole day apart or more. |
| Dates.AddDays | services/tmdb_client.py:237 | `now + timedelta(days)` is defined iff the day count and the result are within datetime's range. |
| Settings.QbittorrentPort | config/settings.py:17 | 8080 when unset; otherwise `int()` of the variable, or None where `int()` raises. |
| Settings.PortFromEnv | config/settings.py:17 | A port written as decimal text is read back. |
| Settings.NonBlankMembers | config/settings.py:29 | The tokens kept are exactly the ones that are not all whitespace. |
| Settings.ParseAll | config/settings.py:26-28 | All tokens parse, in order, or the whole list fails. |
| Settings.BadTokenFailsAll | config/settings.py:26-30 | One non-blank token `int()` rejects makes AUTHORIZED_USERS fail outright: there is no partial list. |
| Settings.AuthorizedUsersUnset | config/settings.py:28-30 | An unset or blank variable gives []. |
| Settings.AuthorizedUsersRoundTrip | config/settings.py:26-30 | A comma-joined list of ids is read back as that list, in order. |
| Settings.Load | config/settings.py:7-33 | The settings load iff the port and the allow-list parse, with the download-path defaults `E:\Movies` and `E:\TVShows`. |
| Settings.LoadDefaults | config/settings.py:17-33 | An empty environment gives port 8080, the two default paths and no users. |
| Text.StripEnds | services/prowlarr_client.py:51 | `strip()` output is empty or does not start or end with whitespace. |
| Text.StripIdempotent | services/qbittorrent_client.py:205 | Stripping twice equals stripping once. |
| Text.StripIgnoresSurroundingSpace | services/prowlarr_client.py:58 | Whitespace added around text does not change its strip. |
| Text.StripEmptyIffAllSpace | config/settings.py:29 | `s.strip()` is falsy iff s is all whitespace. |
| Text.SplitJoin | config/settings.py:28 | Splitting a join of separator-free parts gives the parts. |
| Text.JoinSplit | config/settings.py:28 | Joining a split gives the text back. |
| Text.SplitOnceAfterWord | services/telegram_bot.py:567 | `split(c, 1)` after a separator-free head gives the head and the whole rest. |
| Text.SplitTwiceAfterWords | services/telegram_bot.py:596 | `split(c, 2)` after two heads gives both heads and the rest. |
| Text.ParseIntOfIntToString | services/telegram_bot.py:533 | `int(str(i)) == i`. |
| Text.ContainsIff | services/prowlarr_client.py:198 | Python's `in` on strings means the pattern occurs at some index. |
| Text.ContainsTrans | services/prowlarr_client.py:146 | Substring containment is transitive. |
| Text.Pad2 | services/tmdb_client.py:149 | `{n:02d}` pads 0-9 with a zero and prints any other value in full. |
| Callbacks.DownloadStatusUnreachable | services/telegram_bot.py:258-269 | As written the chain never reaches the status view; "download_status" goes to download selection. |
| Callbacks.SearchResultsOnlyByPage | services/telegram_bot.py:254-265 | Every "search_results_…" goes to the search-type handler, so the results handler is reached only by "page_…". |
| Callbacks.Route | services/telegram_bot.py:254-279 | The corrected router sends "download_status" to the status view and agrees with the chain as written on every other input. |
| Callbacks.HandleCallback | services/telegram_bot.py:247-279 | A user outside the allow-list is refused; an allowed user goes through the if/elif chain as written, so no callback reaches the status view. |
| Callbacks.HandleCallbackCorrected | services/telegram_bot.py:247-279 | The same gate with the corrected routing: the status view is reached exactly by an allowed user's "download_status". |
| Callbacks.EmptyAllowListRejectsAll | services/telegram_bot.py:709-713 | With no authorised users every callback is refused, by the handler as written and by the corrected one. |
| Callbacks.MainMenuSearchRoutes | services/telegram_bot.py:254-255 | The three search buttons reach the search-type handler, both in the chain as written and with the corrected routing. |
| Callbacks.MainMenuRoutes | services/telegram_bot.py:258-273 | The future and my-downloads buttons reach their views, as written and corrected. The status button opens download selection as written and reaches its view only with the corrected routing. |
| Callbacks.BackAndCancelRoutes | services/telegram_bot.py:262-271 | "back_to_main" and "cancel_download" reach their handlers, as written and corrected. |
| Callbacks.SearchTypeOf | services/telegram_bot.py:285 | The search type is the text after "search_" (search_tv_boxsets gives tv_boxsets). |
| Callbacks.SearchTypeOfButton | services/telegram_bot.py:285 | "search_" + t decodes to t. |
| Callbacks.DownloadKey | services/telegram_bot.py:567 | `split("_", 1)[1]` recovers the short id of a download button. |
| Callbacks.ConfirmKey | services/telegram_bot.py:596 | `split("_", 2)[2]` recovers the short id of a confirm button. |
| Callbacks.ResultKeyRoundTrip | services/telegram_bot.py:504-510 | The short id survives download and then confirm decoding. |
| Callbacks.ResultButtonsRouteAsWritten | services/telegram_bot.py:258-261 | In the chain as written, the result buttons of every key reach selection and confirmation. |
| Callbacks.ResultButtonsRoute | services/telegram_bot.py:258-261 | With the corrected routing, result buttons reach selection and confirmation unless the key is "status". |
| Callbacks.ShortIdInjective | services/telegram_bot.py:504 | Different result indices on a page get different short ids. |
| Callbacks.PageDataRoundTrip | services/telegram_bot.py:515-533 | "page_N" decodes to N and reaches the results handler, as written and corrected. |
| Callbacks.NavButtons | services/telegram_bot.py:513-519 | Previous exists iff current_page > 0, and Next exists iff current_page < total_pages-1. |
| Callbacks.PageDataDistinct | services/telegram_bot.py:515-517 | Different pages get different page buttons. |
| Callbacks.NavButtonsDecode | services/telegram_bot.py:513-533 | Every navigation button decodes to the neighbouring page. |
| Callbacks.NavButtonsExamples | services/telegram_bot.py:513-519 | One page has no buttons; page 1 of 3 has both. |
| Callbacks.ParseCreateRule | services/telegram_bot.py:877-880 | Parsing succeeds iff the data has at least four `_`-parts; otherwise `parts[3]` raises. |
| Callbacks.CreateRuleRoundTrip | services/telegram_bot.py:877-880 | `create_rule_{type}_{id}_{quality}` decodes to the same triple when none of them contains '_'. |
| Callbacks.CreateRuleSplit | services/telegram_bot.py:877 | Such data splits into exactly five parts. |
| Callbacks.CreateRuleJoin | services/telegram_bot.py:440-441 | The button text is the `_`-join of its five parts. |
| Callbacks.CreateRuleIdRoundTrip | services/telegram_bot.py:879-909 | A numeric id comes back through `int(parts[3])`. |
| Callbacks.CreateRuleRoutes | services/telegram_bot.py:276-277 | Create-rule buttons reach the create-rule handler, as written and corrected. |
| Callbacks.FutureRouteKnown | services/telegram_bot.py:789-820 | Apart from create-rule data, only the seven known "future_…" values open a view. |
| TelegramBot.HandleSearchType | services/telegram_bot.py:281-292 | Stores the search type from the data and sets the session to waiting_for_search_query, clearing query and page. A failed write leaves the table. |
| TelegramBot.DownloadRows | services/telegram_bot.py:503-512 | Result i's button carries `download_{page}_{i}`. |
| TelegramBot.StoreResultsFinds | services/telegram_bot.py:503-506 | After display, `result_{page}_{i}` maps to result i. |
| TelegramBot.StoreResultsKeeps | services/telegram_bot.py:503-506 | Other `result_` entries are kept. |
| TelegramBot.PageRows | services/telegram_bot.py:503-512 | The loop leaves every result stored under its own `result_{page}_{i}` key and gives one download button per result, in order. |
| TelegramBot.DisplaySearchResults | services/telegram_bot.py:474-521 | No results means no keyboard. Otherwise the keyboard is the result buttons, the nav row and Back, and the results are stored by key. |
| TelegramBot.SearchCategory | services/telegram_bot.py:552-559 | The three known types search themselves; anything else searches movies. |
| TelegramBot.ResultsPageRequest | services/telegram_bot.py:529-559 | An unreadable page raises. A missing or empty query or type expires the session. Otherwise the stored query is searched at that page. |
| TelegramBot.PageButtonSearchesAgain | services/telegram_bot.py:532-559 | A page button with a live session searches that page again. |
| TelegramBot.FetchedPage | services/telegram_bot.py:553-559 | The fetched page echoes the requested page. |
| TelegramBot.HandleSearchResults | services/telegram_bot.py:529-563 | Stores the new search results and their result keys, and shows them; on expiry or error nothing changes. |
| TelegramBot.LookupResult | services/telegram_bot.py:568-571 | A torrent is found iff user_data exists and holds its key. |
| TelegramBot.SelectDownload | services/telegram_bot.py:565-590 | A missing torrent is refused. A found one gets a prompt whose Yes button is `confirm_download_{id}`. |
| TelegramBot.ContentTypeFor | services/telegram_bot.py:610 | 'movie' iff the search type is 'movies'. |
| TelegramBot.MagnetOf | services/telegram_bot.py:604 | The magnet link when truthy, otherwise the download URL. |
| TelegramBot.PlanConfirm | services/telegram_bot.py:594-618 | Missing torrent, then missing magnet, are refused. Otherwise the torrent is added at the content-type path with the search type as category (default movies). |
| TelegramBot.ShortIdNotStatus | services/telegram_bot.py:504 | A short id is never "status". |
| TelegramBot.DisplayedButtonDownloadsThatResult | services/telegram_bot.py:503-618 | A displayed button selects, confirms and adds exactly the result it was shown for. |
| TelegramBot.SqliteText | services/telegram_bot.py:622-628 | Strings bind as themselves; None, lists and dicts fail to bind. |
| TelegramBot.OutcomeWrites | services/telegram_bot.py:619-630 | A download starts iff `add_magnet_link` gave a truthy hash. It gets an id iff the insert succeeds, and its row has status downloading and no completion time. |
| TelegramBot.HandleConfirmDownload | services/telegram_bot.py:594-638 | Only a started download with an id writes a row, only a started download stores `torrent_{id}`, and nothing else changes. |
| TelegramBot.StartDownload | services/telegram_bot.py:622-630 | The insert takes the next id and appends the row; the hash is stored under `torrent_{id}` or `torrent_None`. |
| TelegramBot.EligibleShowsMembers | services/telegram_bot.py:412-448 | A show is collected iff it has an id and details, is in production, and has last-season info. |
| TelegramBot.EligibleShowsConcat | services/telegram_bot.py:406-448 | Collection is per hit, in order. |
| TelegramBot.CollectedShowsSpec | services/telegram_bot.py:406-452 | At most 5 shows are kept, all eligible and among the first 10 hits. With fewer than 5, every eligible hit among the first 10 is kept. |
| TelegramBot.CollectedShowsIgnoresLaterHits | services/telegram_bot.py:406 | Hits after the tenth are never looked at. |
| TelegramBot.ShowRows | services/telegram_bot.py:439-442 | There is one button row per collected show. |
| TelegramBot.ShowRowsButtons | services/telegram_bot.py:439-442 | Each row's 1080p and 2160p buttons decode to the show's id and quality. |
| TelegramBot.FiveKeptSettles | services/telegram_bot.py:451-452 | Once five are kept, later hits change nothing. |
| TelegramBot.ScanSettles | services/telegram_bot.py:451-452 | Stopping at the break gives the first five eligible shows. |
| TelegramBot.EligibleShowsGrowth | services/telegram_bot.py:445-452 | Each hit adds at most one show. |
| TelegramBot.ScanHit | services/telegram_bot.py:407-448 | One iteration extends the collected shows and their rows by that hit. |
| TelegramBot.ScanHits | services/telegram_bot.py:406-452 | The loop with its break yields the first five eligible shows of the first ten hits, with their rows. |
| TelegramBot.CollectShowsInProduction | services/telegram_bot.py:390-465 | No hits stores nothing. Otherwise the collected shows are stored and the keyboard is their rows plus Back. |
| TelegramBot.ShowIndex | services/telegram_bot.py:907-911 | Gives the first show with the id, or None iff there is none. |
| TelegramBot.FindShow | services/telegram_bot.py:907-911 | The loop with its break finds that show's details. |
| TelegramBot.HandleCreateRule | services/telegram_bot.py:873-933 | The handler's outcome is CreateRuleOutcome, the decision the lemmas below pin down. |
| TelegramBot.CollectedButtonCreatesTvRule | services/telegram_bot.py:901-916 | A collected show's button submits the TV rule for that show's details. |
| TelegramBot.TvRuleOutcome | services/telegram_bot.py:900-916 | A TV request for a stored id submits TvRule for that show. |
| TelegramBot.CollectedShowFound | services/telegram_bot.py:907-911 | Each collected show is found by its own id. |
| TelegramBot.MovieButtonCreatesMovieRule | services/telegram_bot.py:882-886 | A movie button submits MovieRule for TMDB's details. |
| TelegramBot.TvButtonWithoutShows | services/telegram_bot.py:902-905 | With no stored shows a TV button creates nothing. |
| TelegramBot.FirstMatching | services/telegram_bot.py:753-758 | Gives the first torrent whose lowercased name contains the title with spaces turned into dots, lowercased. |
| TelegramBot.MatchCompletedTorrent | services/telegram_bot.py:753-758 | The loop returns that torrent's hash, or None iff none matches. |
| TelegramBot.DottedReleaseMatches | services/telegram_bot.py:753-756 | A release named like the dotted title matches. |
| TelegramBot.EmptyTitleMatchesFirst | services/telegram_bot.py:753-756 | An empty title matches the first torrent. |
| TelegramBot.HashKeyCrossMatch | services/telegram_bot.py:746-750 | As written, the key for download 12 is taken for downloads 1 and 2. |
| TelegramBot.HashKeyMatchesUnique | services/telegram_bot.py:746-750 | The exact-key test picks one download per key and agrees with the test as written on the intended key. |
| TelegramBot.StoredHash | services/telegram_bot.py:746-750 | A stored hash is found iff `torrent_{id}` is present. |
| TelegramBot.StoredHashAfterStart | services/telegram_bot.py:630 | Intended design, reading the map the confirm handler writes: the hash a confirmation stores under `torrent_{id}` is found for its download and for no other. |
| TelegramBot.ResolveHash | services/telegram_bot.py:746-758 | Intended design, reading the map the confirm handler writes by exact key: a truthy stored hash wins; otherwise the name match decides. |
| TelegramBot.FirstHashEntry | services/telegram_bot.py:747-750 | Gives the first `bot_data` entry whose key starts with "torrent_" and contains the download id, or None iff there is none. |
| TelegramBot.BotDataHash | services/telegram_bot.py:747-750 | The scan ends on the value of the first kept entry, whatever it holds, and finds nothing iff no key is kept. |
| TelegramBot.ScanBotData | services/telegram_bot.py:747-750 | The loop with its break computes BotDataHash of the entries. |
| TelegramBot.ResolveHashAsWritten | services/telegram_bot.py:746-758 | As written: a truthy value found in `bot_data` wins; when the scan finds nothing or an empty value, the first name match gives the hash, and None iff no name matches. |
| TelegramBot.UnwrittenBotDataHasNoHash | services/telegram_bot.py:747-750 | With `bot_data` empty, as the program leaves it, the scan finds nothing, so the checker as written always falls back to the name match. |
| TelegramBot.BotDataCrossMatch | services/telegram_bot.py:747-750 | Were download 12's key in `bot_data`, the scan as written would give its hash to download 1. |
| Database.IssuedIdsDistinct | models/database.py:22 | AUTOINCREMENT ids are pairwise distinct. |
| Database.WithStatus | models/database.py:71-82 | Status is set. completed_at becomes now only for 'completed' and is otherwise kept; no other column changes. |
| Database.StatusUpdated | models/database.py:66-85 | Only rows with that id change, and each changes as WithStatus says. |
| Database.StatusUpdatedKeepsIds | models/database.py:72-82 | An update keeps the id invariant. |
| Database.StatusUpdateOfUnknownId | models/database.py:75-81 | An unknown id changes nothing. |
| Database.CompletedAtSurvivesLaterStatus | models/database.py:71-82 | A later non-completed status keeps the completion time. |
| Database.Owned | models/database.py:92-97 | A row is listed iff it belongs to the user. |
| Database.Insert | models/database.py:96 | Inserting adds exactly one row (as a multiset). |
| Database.InsertSorted | models/database.py:96 | Insertion keeps created_at non-increasing. |
| Database.UserRows | models/database.py:92-98 | The listing is newest first and is a permutation of the user's rows. |
| Database.NoRowsNoListing | models/database.py:87-98 | A user with no rows lists nothing. |
| Database.Upsert | models/database.py:109-113 | `INSERT OR REPLACE` keeps one row per user, overwrites every column, and leaves other users alone. |
| Database.ViewOf | models/database.py:123-135 | No session iff the user was never written. |
| Database.ReadsLastWrite | models/database.py:103-135 | A read returns the last write for that user, and writes for other users do not disturb it. |
| Database.StateOnlyWriteClears | models/database.py:103-113 | A write with only a state clears the query to NULL and the page to 0. |
| Database.Store.constructor | models/database.py:13-45 | A new database has empty tables and the first id 1. |
| Database.Store.AddDownload | models/database.py:50-64 | The new row takes an id above every earlier one, status downloading and no completion time. A raising insert returns None and changes nothing. |
| Database.Store.UpdateDownloadStatus | models/database.py:66-85 | The table becomes StatusUpdated, or stays unchanged when the update raises. |
| Database.Store.GetUserDownloads | models/database.py:87-101 | Returns exactly the user's rows, newest first, or [] when the query raises. |
| Database.Store.UpdateUserSession | models/database.py:103-116 | The sessions become the upsert, or stay unchanged when the write raises. |
| Database.Store.GetUserSession | models/database.py:118-138 | Returns the stored view, None for an unknown user, and None when the query raises. |

## Left out

- HTTP and foreign-library calls are parameters: Prowlarr and TMDB requests, and every qbittorrentapi call (`torrents_add`, `torrents_info`, `rss_items`, `rss_set_rule`, `sync_maindata`). What they are asked is modelled only where the request is built in the code under study.
- `rss_set_rule` success, `add_magnet_link`'s hash and whether a sqlite statement raises are booleans or options passed in, because they are decided outside the model.
- `os.makedirs` is not modelled: it is pure I/O.
- `os.path.join` is modelled as the POSIX join, because Windows drive semantics depend on the host.
- Telegram plumbing is not modelled: message texts, Markdown, keyboard objects, polling, the background thread, and the `check_completed_downloads` loop with its sleeps. Only the checker's hash lookup and name match are kept.
- The completion checker reads `application.bot_data`, but the confirm handler writes `context.user_data` (services/telegram_bot.py:630). These are different dictionaries and nothing writes `bot_data`, so as written the scan finds nothing and the name match always decides. TelegramBot.ResolveHashAsWritten models the code as written; with empty `bot_data` it gives the name match (TelegramBot.UnwrittenBotDataHasNoHash). TelegramBot.StoredHash, TelegramBot.StoredHashAfterStart and TelegramBot.ResolveHash describe the intended design, where the checker reads the map the confirm handler writes.
- The values in `bot_data` are strings. A `None` hash stored by a failed start is modelled as the empty string, which is falsy in the same way.
- `create_user_session`, called at services/telegram_bot.py:63, does not exist in models/database.py, so there is nothing to model.
- `ProwlarrClient._is_duplicate` (services/prowlarr_client.py:63-79) is never called.
- `freeleech_only` is accepted by `search_torrents` but never used, so the model ignores it.
- Prowlarr.FormatSearchResults computes the existing torrents' keys once before the loop, not once per item. The computation is pure, so the result is the same.
- Helpers.FormatSize, Helpers.FormatSpeed: the `.1f` rendering of the float is not modelled. The scaled value is a real, so int-to-float rounding above 2^53 is also left out. Float formatting is not part of the exact arithmetic here.
- Regex `$` is modelled as the end of the string. Python also lets `$` match before one trailing newline, so a token or title ending in "\n" is judged by the stricter reading.
- `\w`, `\d`, `lower()` and `title()` are modelled on ASCII only. Python's Unicode classes and case mappings need tables the model does not carry. Whitespace does follow Python's full `str.isspace` set.
- Text.ParseInt, Text.ParseDecimal: the digits `int()` and `float()` accept are ASCII 0-9 only. Python also accepts every Unicode decimal digit (category Nd), so `int("١٢")` is 12 and fullwidth digits parse. In the model such texts do not parse, and a Prowlarr value written that way reads as 0.
- `int(float(x))` is modelled for integers, integer texts and `digits.digits` decimals. The value is rounded to the nearest IEEE 754 binary64 double, with ties going to an even mantissa, then truncated toward zero. A magnitude that rounds to 2^1024 or beyond reads as 0, as the code's `except` gives. Texts with exponents, `inf` or `nan` read as 0. For `inf` and `nan` that matches the code, which raises. For an exponent such as "1e3", Python gives the number.
- Subnormal doubles are not modelled separately. They matter only below 2^-1022, where `int()` gives 0 either way.
- JSON `null` values are mostly modelled as missing keys. A present `null` is only distinguished where the code tests it.
- Tmdb.GetLastSeasonInfo: an empty season dictionary `{}` is falsy in Python, so the code returns None for it. The model treats every season entry as non-empty.
- Tmdb.IsShowInProduction: a non-boolean `in_production` value is not modelled; the field is an optional boolean.
- `datetime.strptime` leniency (single-digit months and days) is not modelled; dates parse strictly as YYYY-MM-DD.
- Text.TitleCase: only its length is stated. It is used only to render unknown TV statuses.
- Retention, collision checking and an ignore window for repeated downloads are not present in the code, so nothing models them.
- `clean_filename` and `_clean_title_for_path` replace forbidden characters with spaces rather than deleting them. The model follows the code.
- Decoded JSON numbers are integers only: a decimal such as `1.5` has no value in the model, so a decimal size or seeder count in a Prowlarr item cannot be expressed. A decimal given as a string is read by `int(float(x))` as modelled.
- Prowlarr.PyStr: a list or dict becomes "" rather than its Python `repr`. This matters for a title that is not a string, and for the name of a category entry wrapped at services/prowlarr_client.py:208-209 when the first entry is an int and a later one is a list or dict.

## Findings

| source | as written | input that shows it | evidently intended | confidence | as-written member | corrected member |
|---|---|---|---|---|---|---|
| services/telegram_bot.py:258-269 | `data.startswith("download_")` comes before `data == "download_status"`, so the status branch is dead | callback data "download_status" (the main menu's status button) opens download selection for result "status" | the status button shows the download status view | not executed | Callbacks.DownloadStatusUnreachable | Callbacks.Route |
| services/telegram_bot.py:746-750 | a stored hash key is accepted when it starts with "torrent_" and contains `str(download_id)` anywhere | key "torrent_12" is accepted for download 1 and for download 2 | only the key "torrent_{download_id}" belongs to a download; the bug is latent, because nothing writes `bot_data`, so the scan as written never finds a key | not executed | TelegramBot.BotDataCrossMatch | TelegramBot.StoredHash |
