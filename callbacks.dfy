/** The bot's inline-button callback data: how `handle_callback` routes it,
    and how the handlers build and read back the strings they put on
    their buttons. */
module Callbacks {
  import opened Wrappers
  import opened Text

  /** The handler a callback reaches. */
  datatype Handler =
    | NotAuthorized
    | SearchType
    | SearchResults
    | DownloadSelection
    | ConfirmDownload
    | CancelDownload
    | MyDownloads
    | DownloadStatus
    | MainMenu
    | FutureDownloads
    | CreateRule
    | UnknownAction

  /** `str.startswith` */
  predicate StartsWith(s: string, prefix: string) { prefix <= s }

  /** The if/elif chain of `handle_callback` as written: the first test
      that holds decides. */
  function RouteAsWritten(data: string): Handler {
    if StartsWith(data, "search_") then SearchType
    else if StartsWith(data, "search_results_") then SearchResults
    else if StartsWith(data, "download_") then DownloadSelection
    else if StartsWith(data, "confirm_download_") then ConfirmDownload
    else if data == "cancel_download" then CancelDownload
    else if StartsWith(data, "page_") then SearchResults
    else if data == "my_downloads" then MyDownloads
    else if data == "download_status" then DownloadStatus
    else if data == "back_to_main" then MainMenu
    else if data == "future_downloads" then FutureDownloads
    else if StartsWith(data, "future_") then FutureDownloads
    else if StartsWith(data, "create_rule_") then CreateRule
    else UnknownAction
  }

  /** As written, no callback reaches the download-status view: the
      main menu's "download_status" button lands in download selection. */
  lemma DownloadStatusUnreachable(data: string)
    ensures RouteAsWritten(data) != DownloadStatus
    ensures RouteAsWritten("download_status") == DownloadSelection
  {
    assert StartsWith("download_status", "download_");
    assert "download_status"[0] == 'd';
  }

  /** Every "search_results_" callback is taken by the "search_" test, so
      results pages are only reached through "page_" callbacks. */
  lemma SearchResultsOnlyByPage(data: string)
    ensures StartsWith(data, "search_results_") ==> RouteAsWritten(data) == SearchType
    ensures RouteAsWritten(data) == SearchResults ==> StartsWith(data, "page_")
  {
    if StartsWith(data, "search_results_") {
      assert data[..7] == "search_results_"[..7];
    }
  }

  /** The routing the main menu needs: the exact "download_status" test
      comes before the "download_" prefix; everything else is unchanged. */
  function Route(data: string): (h: Handler)
    ensures h == DownloadStatus <==> data == "download_status"
    ensures data != "download_status" ==> h == RouteAsWritten(data)
  {
    if data == "download_status" then
      assert !StartsWith(data, "search_") by { assert data[0] == 'd'; }
      DownloadStatus
    else RouteAsWritten(data)
  }

  /** `_is_authorized_user`: membership in the allow-list. */
  predicate IsAuthorized(authorized: seq<int>, userId: int) {
    userId in authorized
  }

  /** `handle_callback` as written: an unknown user is turned away before
      any routing, and an allowed user goes through the if/elif chain, so
      the status button never reaches its view. */
  function HandleCallback(authorized: seq<int>, userId: int, data: string): (h: Handler)
    ensures h == NotAuthorized <==> !IsAuthorized(authorized, userId)
    ensures IsAuthorized(authorized, userId) ==> h == RouteAsWritten(data)
    ensures h != DownloadStatus
  {
    if !IsAuthorized(authorized, userId) then NotAuthorized
    else
      DownloadStatusUnreachable(data);
      RouteAsWritten(data)
  }

  /** `handle_callback` with the corrected routing: the same gate, and an
      allowed user's "download_status" reaches the status view. */
  function HandleCallbackCorrected(authorized: seq<int>, userId: int, data: string): (h: Handler)
    ensures h == NotAuthorized <==> !IsAuthorized(authorized, userId)
    ensures IsAuthorized(authorized, userId) ==> h == Route(data)
    ensures h == DownloadStatus <==> IsAuthorized(authorized, userId) && data == "download_status"
  {
    if !IsAuthorized(authorized, userId) then NotAuthorized else Route(data)
  }

  /** An empty allow-list turns everybody away, as written and corrected. */
  lemma EmptyAllowListRejectsAll(userId: int, data: string)
    ensures HandleCallback([], userId, data) == NotAuthorized
    ensures HandleCallbackCorrected([], userId, data) == NotAuthorized
  {
  }

  // ---- the menus' fixed buttons ----

  /** Where the main menu's search buttons lead, as written and corrected. */
  lemma MainMenuSearchRoutes()
    ensures RouteAsWritten("search_movies") == SearchType
    ensures RouteAsWritten("search_tv_episodes") == SearchType
    ensures RouteAsWritten("search_tv_boxsets") == SearchType
    ensures Route("search_movies") == SearchType
    ensures Route("search_tv_episodes") == SearchType
    ensures Route("search_tv_boxsets") == SearchType
  {
    assert StartsWith("search_movies", "search_");
    assert StartsWith("search_tv_episodes", "search_");
    assert StartsWith("search_tv_boxsets", "search_");
  }

  /** Where the main menu's other buttons lead: future and my-downloads
      reach their views either way; the status button reaches its view
      only with the corrected routing. */
  lemma MainMenuRoutes()
    ensures RouteAsWritten("future_downloads") == FutureDownloads
    ensures RouteAsWritten("my_downloads") == MyDownloads
    ensures RouteAsWritten("download_status") == DownloadSelection
    ensures Route("future_downloads") == FutureDownloads
    ensures Route("my_downloads") == MyDownloads
    ensures Route("download_status") == DownloadStatus
  {
    assert StartsWith("download_status", "download_");
    assert !StartsWith("download_status", "search_") by { assert "download_status"[0] == 'd'; }
    assert !StartsWith("future_downloads", "search_") by { assert "future_downloads"[0] == 'f'; }
    assert !StartsWith("my_downloads", "search_") by { assert "my_downloads"[0] == 'm'; }
    assert !StartsWith("future_downloads", "download_") by { assert "future_downloads"[0] == 'f'; }
    assert !StartsWith("my_downloads", "download_") by { assert "my_downloads"[0] == 'm'; }
    assert !StartsWith("future_downloads", "confirm_download_") by { assert "future_downloads"[0] == 'f'; }
    assert !StartsWith("my_downloads", "confirm_download_") by { assert "my_downloads"[0] == 'm'; }
    assert !StartsWith("my_downloads", "page_") by { assert "my_downloads"[0] == 'm'; }
    assert !StartsWith("future_downloads", "page_") by { assert "future_downloads"[0] == 'f'; }
    assert !StartsWith("future_downloads", "search_results_") by { assert "future_downloads"[0] == 'f'; }
    assert !StartsWith("my_downloads", "search_results_") by { assert "my_downloads"[0] == 'm'; }
  }

  /** Where the menus' back and cancel buttons lead, as written and
      corrected. */
  lemma BackAndCancelRoutes()
    ensures RouteAsWritten("back_to_main") == MainMenu
    ensures RouteAsWritten("cancel_download") == CancelDownload
    ensures Route("back_to_main") == MainMenu
    ensures Route("cancel_download") == CancelDownload
  {
    assert !StartsWith("back_to_main", "search_") by { assert "back_to_main"[0] == 'b'; }
    assert !StartsWith("cancel_download", "search_") by { assert "cancel_download"[0] == 'c'; }
    assert !StartsWith("back_to_main", "download_") by { assert "back_to_main"[0] == 'b'; }
    assert !StartsWith("cancel_download", "download_") by { assert "cancel_download"[0] == 'c'; }
    assert !StartsWith("back_to_main", "confirm_download_") by { assert "back_to_main"[0] == 'b'; }
    assert !StartsWith("cancel_download", "confirm_download_") by { assert "cancel_download"[1] == 'a'; }
    assert !StartsWith("back_to_main", "page_") by { assert "back_to_main"[0] == 'b'; }
    assert !StartsWith("back_to_main", "search_results_") by { assert "back_to_main"[0] == 'b'; }
  }

  // ---- _handle_search_type ----

  /** `data.split("_", 1)[1]`: everything after the first '_'. */
  function SearchTypeOf(data: string): (t: string)
    requires StartsWith(data, "search_")
    ensures data == "search_" + t
  {
    var rest := data[7..];
    assert data == data[..7] + rest;
    assert data[..7] == "search" + ['_'];
    SplitOnceAfterWord("search", '_', rest);
    SplitMax(data, '_', 1)[1]
  }

  /** The search type is what the button put after "search_". */
  lemma SearchTypeOfButton(t: string)
    ensures SearchTypeOf("search_" + t) == t
  {
    var data := "search_" + t;
    assert data[7..] == t;
  }

  // ---- result buttons: download_{page}_{i} and confirm_download_{page}_{i} ----

  /** `f"{current_page}_{i}"` */
  function ShortId(page: int, i: int): string {
    IntToString(page) + "_" + IntToString(i)
  }

  /** The `user_data` key a result is stored under. */
  function ResultKey(shortId: string): string { "result_" + shortId }

  function DownloadData(shortId: string): string { "download_" + shortId }

  function ConfirmData(shortId: string): string { "confirm_download_" + shortId }

  /** `data.split("_", 1)[1]` in `_handle_download_selection`. */
  function DownloadKey(data: string): (k: string)
    requires StartsWith(data, "download_")
    ensures data == DownloadData(k)
  {
    var rest := data[9..];
    assert data == data[..9] + rest;
    assert data[..9] == "download" + ['_'];
    SplitOnceAfterWord("download", '_', rest);
    SplitMax(data, '_', 1)[1]
  }

  /** `data.split("_", 2)[2]` in `_handle_confirm_download`. */
  function ConfirmKey(data: string): (k: string)
    requires StartsWith(data, "confirm_download_")
    ensures data == ConfirmData(k)
  {
    var rest := data[17..];
    assert data == data[..17] + rest;
    assert data[..17] == "confirm" + ['_'] + "download" + ['_'];
    SplitTwiceAfterWords("confirm", "download", '_', rest);
    SplitMax(data, '_', 2)[2]
  }

  /** Any key survives the two buttons: the confirmation button built from
      a download button's key carries the same key. */
  lemma ResultKeyRoundTrip(k: string)
    ensures DownloadKey(DownloadData(k)) == k
    ensures ConfirmKey(ConfirmData(DownloadKey(DownloadData(k)))) == k
  {
    assert StartsWith(DownloadData(k), "download_");
    assert DownloadData(k)[9..] == k;
    assert StartsWith(ConfirmData(k), "confirm_download_");
    assert ConfirmData(k)[17..] == k;
  }

  /** As written, the two result buttons of every key reach their
      handlers. */
  lemma ResultButtonsRouteAsWritten(k: string)
    ensures RouteAsWritten(DownloadData(k)) == DownloadSelection
    ensures RouteAsWritten(ConfirmData(k)) == ConfirmDownload
  {
    var d := DownloadData(k);
    var c := ConfirmData(k);
    assert StartsWith(d, "download_");
    assert !StartsWith(d, "search_") && !StartsWith(d, "search_results_") by { assert d[0] == 'd'; }
    assert StartsWith(c, "confirm_download_");
    assert !StartsWith(c, "search_") && !StartsWith(c, "search_results_") && !StartsWith(c, "download_")
      by { assert c[0] == 'c'; }
  }

  /** With the corrected routing the two result buttons reach their
      handlers; the one key that does not is "status", whose download
      button is the main menu's "download_status". */
  lemma ResultButtonsRoute(k: string)
    requires k != "status"
    ensures Route(DownloadData(k)) == DownloadSelection
    ensures Route(ConfirmData(k)) == ConfirmDownload
  {
    var d := DownloadData(k);
    var c := ConfirmData(k);
    ResultButtonsRouteAsWritten(k);
    assert d != "download_status" by {
      assert d[9..] == k;
      assert "download_status"[9..] == "status";
    }
    assert c != "download_status" by { assert c[0] == 'c'; }
  }

  /** Different results of one page get different keys. */
  lemma ShortIdInjective(page: int, i: int, j: int)
    requires ShortId(page, i) == ShortId(page, j)
    ensures i == j
  {
    var p := IntToString(page) + "_";
    assert ShortId(page, i)[|p|..] == IntToString(i);
    assert ShortId(page, j)[|p|..] == IntToString(j);
    ParseIntOfIntToString(i);
    ParseIntOfIntToString(j);
  }

  // ---- page navigation ----

  function PageData(page: int): string { "page_" + IntToString(page) }

  /** The page a results callback asks for: `int(data.split("_")[1])` for
      "page_", `int(data.split("_")[2])` for "search_results_", 0 for
      anything else; None where `int()` raises or the part is missing. */
  function RequestedPage(data: string): Option<int> {
    var parts := Split(data, '_');
    if StartsWith(data, "page_") then
      (if |parts| > 1 then ParseInt(parts[1]) else None)
    else if StartsWith(data, "search_results_") then
      (if |parts| > 2 then ParseInt(parts[2]) else None)
    else Some(0)
  }

  /** Every page button reads back as its page. */
  lemma PageDataRoundTrip(page: int)
    ensures RequestedPage(PageData(page)) == Some(page)
    ensures RouteAsWritten(PageData(page)) == SearchResults
    ensures Route(PageData(page)) == SearchResults
  {
    var s := IntToString(page);
    IntToStringNoUnderscore(page);
    SplitJoin(["page", s], '_');
    assert Join(["page", s], '_') == PageData(page) by {
      assert Join(["page", s][1..], '_') == s;
    }
    ParseIntOfIntToString(page);
    var d := PageData(page);
    assert StartsWith(d, "page_");
    assert d[0] == 'p';
    assert !StartsWith(d, "search_") && !StartsWith(d, "search_results_") && !StartsWith(d, "download_")
           && !StartsWith(d, "confirm_download_");
    assert d != "cancel_download" && d != "download_status";
  }

  /** The Previous and Next buttons under a results page. */
  function NavButtons(currentPage: int, totalPages: int): (r: seq<string>)
    ensures PageData(currentPage - 1) in r <==> currentPage > 0
    ensures PageData(currentPage + 1) in r <==> currentPage < totalPages - 1
    ensures |r| <= 2
  {
    PageDataDistinct(currentPage - 1, currentPage + 1);
    (if currentPage > 0 then [PageData(currentPage - 1)] else [])
    + (if currentPage < totalPages - 1 then [PageData(currentPage + 1)] else [])
  }

  lemma PageDataDistinct(a: int, b: int)
    requires a != b
    ensures PageData(a) != PageData(b)
  {
    if PageData(a) == PageData(b) {
      PageDataRoundTrip(a);
      PageDataRoundTrip(b);
    }
  }

  /** The Previous button asks for the page before, Next for the page after. */
  lemma NavButtonsDecode(currentPage: int, totalPages: int)
    ensures forall d :: d in NavButtons(currentPage, totalPages) ==>
              RequestedPage(d) == Some(currentPage - 1) || RequestedPage(d) == Some(currentPage + 1)
  {
    var r := NavButtons(currentPage, totalPages);
    forall d | d in r
      ensures RequestedPage(d) == Some(currentPage - 1) || RequestedPage(d) == Some(currentPage + 1)
    {
      if d == PageData(currentPage - 1) {
        PageDataRoundTrip(currentPage - 1);
      } else {
        assert d == PageData(currentPage + 1);
        PageDataRoundTrip(currentPage + 1);
      }
    }
  }

  /** A single page has no navigation; a middle page has both buttons. */
  lemma NavButtonsExamples()
    ensures NavButtons(0, 1) == []
    ensures NavButtons(1, 3) == [PageData(0), PageData(2)]
  {
  }

  // ---- create_rule_{type}_{id}_{quality} ----

  datatype RuleRequest = RuleRequest(contentType: string, contentId: string, quality: string)

  const DefaultQuality: string := "1080p"

  function CreateRuleData(contentType: string, contentId: string, quality: string): string {
    "create_rule_" + contentType + "_" + contentId + "_" + quality
  }

  /** `parts = data.split("_")`: type, id and quality from parts 2, 3 and
      4 (quality "1080p" when there is no fifth part); None for the
      IndexError of a shorter list. */
  function ParseCreateRule(data: string): (r: Option<RuleRequest>)
    ensures r.Some? <==> |Split(data, '_')| >= 4
  {
    var parts := Split(data, '_');
    if |parts| < 4 then None
    else Some(RuleRequest(parts[2], parts[3], if |parts| > 4 then parts[4] else DefaultQuality))
  }

  /** A rule button reads back as its type, id and quality, provided none
      of them holds '_'. */
  lemma CreateRuleRoundTrip(contentType: string, contentId: string, quality: string)
    requires '_' !in contentType && '_' !in contentId && '_' !in quality
    ensures ParseCreateRule(CreateRuleData(contentType, contentId, quality))
            == Some(RuleRequest(contentType, contentId, quality))
  {
    CreateRuleSplit(contentType, contentId, quality);
  }

  lemma CreateRuleSplit(contentType: string, contentId: string, quality: string)
    requires '_' !in contentType && '_' !in contentId && '_' !in quality
    ensures Split(CreateRuleData(contentType, contentId, quality), '_')
            == ["create", "rule", contentType, contentId, quality]
  {
    var parts := ["create", "rule", contentType, contentId, quality];
    CreateRuleJoin(contentType, contentId, quality);
    assert forall k :: 0 <= k < |parts| ==> '_' !in parts[k];
    SplitJoin(parts, '_');
  }

  lemma CreateRuleJoin(contentType: string, contentId: string, quality: string)
    ensures Join(["create", "rule", contentType, contentId, quality], '_')
            == CreateRuleData(contentType, contentId, quality)
  {
    var parts := ["create", "rule", contentType, contentId, quality];
    var j3 := contentId + ['_'] + quality;
    var j2 := contentType + ['_'] + j3;
    var j1 := "rule" + ['_'] + j2;
    assert Join(parts[4..], '_') == quality;
    assert Join(parts[3..], '_') == j3 by { assert parts[3..][1..] == parts[4..]; }
    assert Join(parts[2..], '_') == j2 by { assert parts[2..][1..] == parts[3..]; }
    assert Join(parts[1..], '_') == j1 by { assert parts[1..][1..] == parts[2..]; }
    assert Join(parts, '_') == "create" + ['_'] + j1;
  }

  /** Rule buttons for TMDB ids: the id written in decimal reads back. */
  lemma CreateRuleIdRoundTrip(contentType: string, id: int, quality: string)
    requires '_' !in contentType && '_' !in quality
    ensures ParseCreateRule(CreateRuleData(contentType, IntToString(id), quality)).Some?
    ensures ParseInt(ParseCreateRule(CreateRuleData(contentType, IntToString(id), quality)).value.contentId) == Some(id)
  {
    IntToStringNoUnderscore(id);
    CreateRuleRoundTrip(contentType, IntToString(id), quality);
    ParseIntOfIntToString(id);
  }

  /** Rule buttons reach the rule handler, as written and corrected. */
  lemma CreateRuleRoutes(contentType: string, contentId: string, quality: string)
    ensures RouteAsWritten(CreateRuleData(contentType, contentId, quality)) == CreateRule
    ensures Route(CreateRuleData(contentType, contentId, quality)) == CreateRule
  {
    var d := CreateRuleData(contentType, contentId, quality);
    assert StartsWith(d, "create_rule_");
    assert d[0] == 'c' && d[1] == 'r';
    assert !StartsWith(d, "search_") && !StartsWith(d, "search_results_") && !StartsWith(d, "download_")
           && !StartsWith(d, "confirm_download_") && !StartsWith(d, "page_") && !StartsWith(d, "future_");
    assert d != "cancel_download" && d != "download_status" && d != "my_downloads"
           && d != "back_to_main" && d != "future_downloads";
  }

  // ---- _handle_future_downloads ----

  datatype FutureView =
    | FutureMenu
    | FutureMovies
    | FutureTvShows
    | FutureRules
    | FutureSearchMovie
    | FutureSearchTv
    | FutureUpcomingMovies
    | FutureCreateRule
    | FutureNothing

  /** The sub-router for "future_" callbacks; no data shows the menu, and
      data matching no test does nothing. */
  function FutureRoute(data: Option<string>): FutureView {
    match data
    case None => FutureMenu
    case Some(d) =>
      if d == "future_downloads" then FutureMenu
      else if d == "future_movies" then FutureMovies
      else if d == "future_tv_shows" then FutureTvShows
      else if d == "future_rules" then FutureRules
      else if d == "future_search_movie" then FutureSearchMovie
      else if d == "future_search_tv" then FutureSearchTv
      else if d == "future_upcoming_movies" then FutureUpcomingMovies
      else if StartsWith(d, "create_rule_") then FutureCreateRule
      else FutureNothing
  }

  /** Only the literal callbacks of the future menus reach a view: any other
      "future_" data is silently dropped. */
  lemma FutureRouteKnown(d: string)
    requires FutureRoute(Some(d)) != FutureNothing && !StartsWith(d, "create_rule_")
    ensures d in {"future_downloads", "future_movies", "future_tv_shows", "future_rules",
                  "future_search_movie", "future_search_tv", "future_upcoming_movies"}
  {
  }
}
