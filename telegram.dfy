/** The bot's handlers, modelled on the state they read and write: one
    user's `context.user_data`, the store, and the replies of Prowlarr,
    TMDB and qBittorrent, which are parameters. Message texts are not
    modelled; keyboards are the callback data of their buttons, row by
    row. */
module TelegramBot {
  import opened Wrappers
  import opened Text
  import opened Callbacks
  import Prowlarr
  import Settings
  import Tmdb
  import Qbittorrent
  import Database

  type Torrent = Prowlarr.FormattedTorrent

  /** An entry of `shows_in_production`. */
  datatype ShowEntry = ShowEntry(id: int, data: Tmdb.TvShow)

  /** `context.user_data` of one user; an absent key is None. */
  class UserData {
    var searchType: Option<string>
    var searchQuery: Option<string>
    var searchResults: Option<Prowlarr.SearchPage>
    /** the "result_{page}_{i}" entries */
    var results: map<string, Torrent>
    var showsInProduction: Option<seq<ShowEntry>>
    /** the "torrent_{download_id}" entries */
    var torrentHashes: map<string, string>

    constructor()
      ensures searchType == None && searchQuery == None && searchResults == None
      ensures results == map[] && showsInProduction == None && torrentHashes == map[]
    {
      searchType := None;
      searchQuery := None;
      searchResults := None;
      results := map[];
      showsInProduction := None;
      torrentHashes := map[];
    }
  }

  /** Python truthiness of a JSON value. */
  predicate Truthy(j: Prowlarr.Json) {
    match j
    case JNull => false
    case JBool(b) => b
    case JInt(i) => i != 0
    case JStr(s) => s != []
    case JList(items) => items != []
    case JObject(fields) => fields != map[]
  }

  // ---- _handle_search_type ----

  const WaitingForQuery: string := "waiting_for_search_query"

  /** Remembers the chosen type and moves the stored session to waiting for
      a query (search text and page cleared). */
  method HandleSearchType(data: string, userData: UserData, db: Database.Store, userId: int,
                          now: Database.Timestamp, dbSucceeds: bool)
    requires StartsWith(data, "search_")
    modifies userData, db
    ensures userData.searchType == Some(SearchTypeOf(data))
    ensures userData.searchQuery == old(userData.searchQuery) && userData.results == old(userData.results)
    ensures userData.searchResults == old(userData.searchResults)
    ensures userData.showsInProduction == old(userData.showsInProduction)
    ensures userData.torrentHashes == old(userData.torrentHashes)
    ensures db.sessions == if dbSucceeds then Database.Upsert(old(db.sessions), userId, WaitingForQuery, None, 0, now)
                           else old(db.sessions)
    ensures db.downloads == old(db.downloads) && db.nextId == old(db.nextId)
  {
    userData.searchType := Some(SearchTypeOf(data));
    db.UpdateUserSession(userId, WaitingForQuery, None, 0, now, dbSucceeds);
  }

  // ---- _display_search_results ----

  /** One "download_{page}_{i}" row per result. */
  function DownloadRows(page: int, n: nat): (r: seq<seq<string>>)
    ensures |r| == n
    ensures forall i :: 0 <= i < n ==> r[i] == [DownloadData(ShortId(page, i))]
  {
    if n == 0 then [] else DownloadRows(page, n - 1) + [[DownloadData(ShortId(page, n - 1))]]
  }

  /** The keyboard of a non-empty page: the download rows, the navigation
      row when it has a button, and the way back to the menu. */
  function ResultsKeyboard(results: Prowlarr.SearchPage): seq<seq<string>> {
    var nav := NavButtons(results.currentPage, results.totalPages);
    DownloadRows(results.currentPage, |results.torrents|)
    + (if nav == [] then [] else [nav])
    + [["back_to_main"]]
  }

  /** The user data after the results of a page are stored under their
      short ids. */
  function StoreResults(m: map<string, Torrent>, page: int, ts: seq<Torrent>): map<string, Torrent> {
    if ts == [] then m
    else StoreResults(m, page, ts[..|ts| - 1])[ResultKey(ShortId(page, |ts| - 1)) := ts[|ts| - 1]]
  }

  lemma StoreResultsStep(m: map<string, Torrent>, page: int, ts: seq<Torrent>, i: nat)
    requires i < |ts|
    ensures StoreResults(m, page, ts[..i + 1]) == StoreResults(m, page, ts[..i])[ResultKey(ShortId(page, i)) := ts[i]]
  {
    assert ts[..i + 1][..i] == ts[..i];
  }

  /** Every result of the page is found under its own key. */
  lemma {:induction false} StoreResultsFinds(m: map<string, Torrent>, page: int, ts: seq<Torrent>, i: int)
    requires 0 <= i < |ts|
    ensures ResultKey(ShortId(page, i)) in StoreResults(m, page, ts)
    ensures StoreResults(m, page, ts)[ResultKey(ShortId(page, i))] == ts[i]
    decreases |ts|
  {
    var n := |ts| - 1;
    if i < n {
      StoreResultsFinds(m, page, ts[..n], i);
      if ResultKey(ShortId(page, n)) == ResultKey(ShortId(page, i)) {
        assert ShortId(page, n) == ResultKey(ShortId(page, n))[7..];
        ShortIdInjective(page, n, i);
      }
    }
  }

  /** Keys that are no result key of this page keep their entries. */
  lemma {:induction false} StoreResultsKeeps(m: map<string, Torrent>, page: int, ts: seq<Torrent>, k: string)
    requires forall i :: 0 <= i < |ts| ==> k != ResultKey(ShortId(page, i))
    ensures k in StoreResults(m, page, ts) <==> k in m
    ensures k in m ==> StoreResults(m, page, ts)[k] == m[k]
    decreases |ts|
  {
    if ts != [] {
      StoreResultsKeeps(m, page, ts[..|ts| - 1], k);
    }
  }

  /** The loop over a page's results: the download button of each result,
      and the user data with each result stored under its key. */
  method PageRows(m: map<string, Torrent>, page: int, torrents: seq<Torrent>)
    returns (stored: map<string, Torrent>, rows: seq<seq<string>>)
    ensures stored == StoreResults(m, page, torrents)
    ensures rows == DownloadRows(page, |torrents|)
  {
    stored := m;
    rows := [];
    var i := 0;
    while i < |torrents|
      invariant 0 <= i <= |torrents|
      invariant rows == DownloadRows(page, i)
      invariant stored == StoreResults(m, page, torrents[..i])
    {
      var shortId := ShortId(page, i);
      StoreResultsStep(m, page, torrents, i);
      stored := stored[ResultKey(shortId) := torrents[i]];
      rows := rows + [[DownloadData(shortId)]];
      i := i + 1;
    }
    assert torrents[..i] == torrents;
  }

  /** Shows a results page: nothing for an empty page; otherwise every
      result is stored under its short id (when there is user data)
      and the keyboard gets a download button per result. */
  method DisplaySearchResults(results: Prowlarr.SearchPage, userData: UserData?)
    returns (keyboard: seq<seq<string>>)
    modifies userData
    ensures results.torrents == [] ==> keyboard == []
    ensures results.torrents != [] ==> keyboard == ResultsKeyboard(results)
    ensures userData != null ==>
              userData.results == StoreResults(old(userData.results), results.currentPage, results.torrents)
    ensures userData != null ==>
              userData.searchType == old(userData.searchType) && userData.searchQuery == old(userData.searchQuery)
              && userData.searchResults == old(userData.searchResults)
              && userData.showsInProduction == old(userData.showsInProduction)
              && userData.torrentHashes == old(userData.torrentHashes)
  {
    var torrents := results.torrents;
    var page := results.currentPage;
    if torrents == [] {
      return [];
    }
    var stored, rows := PageRows(if userData != null then userData.results else map[], page, torrents);
    if userData != null {
      userData.results := stored;
    }
    var nav := NavButtons(page, results.totalPages);
    keyboard := rows + (if nav == [] then [] else [nav]) + [["back_to_main"]];
  }

  // ---- _handle_search_results ----

  /** What a results callback leads to: `int()` raising on the page,
      an expired session, or a search for a page. */
  datatype PageRequest =
    | PageRaised
    | SessionExpired
    | RunSearch(query: string, category: string, page: int)

  /** The Prowlarr helper chosen for a search type; unknown types search
      movies. */
  function SearchCategory(searchType: string): (c: string)
    ensures c in {"movies", "tv_episodes", "tv_boxsets"}
    ensures searchType in {"movies", "tv_episodes", "tv_boxsets"} ==> c == searchType
  {
    if searchType == "tv_episodes" || searchType == "tv_boxsets" then searchType else "movies"
  }

  /** The page is read first; a missing or empty query or type then
      expires the session. */
  function ResultsPageRequest(data: string, searchQuery: Option<string>, searchType: Option<string>): (r: PageRequest)
    ensures r == PageRaised <==> RequestedPage(data).None?
    ensures r.SessionExpired? <==>
              RequestedPage(data).Some?
              && (searchQuery.None? || searchQuery == Some([]) || searchType.None? || searchType == Some([]))
    ensures r.RunSearch? ==> Some(r.page) == RequestedPage(data) && Some(r.query) == searchQuery
                             && r.category == SearchCategory(searchType.value)
  {
    match RequestedPage(data)
    case None => PageRaised
    case Some(page) =>
      if searchQuery.None? || searchQuery.value == [] || searchType.None? || searchType.value == [] then SessionExpired
      else RunSearch(searchQuery.value, SearchCategory(searchType.value), page)
  }

  /** A Previous or Next button of a live session searches its page again
      with the same query. */
  lemma PageButtonSearchesAgain(page: int, query: string, searchType: string)
    requires query != [] && searchType != []
    ensures ResultsPageRequest(PageData(page), Some(query), Some(searchType))
            == RunSearch(query, SearchCategory(searchType), page)
  {
    PageDataRoundTrip(page);
  }

  /** The page `search_torrents` returns for a reply. */
  function FetchedPage(response: Result<seq<Prowlarr.Json>>, fetch: Option<seq<string>>, page: int): (r: Prowlarr.SearchPage)
    ensures r.currentPage == page
  {
    if response.Err? then Prowlarr.SearchPage([], 0, page, 0)
    else Prowlarr.PageOf(Prowlarr.Kept(response.value, Prowlarr.ExistingNames(fetch)), page, Settings.ResultsPerPage)
  }

  /** Searches the requested page again, stores the reply as
      "search_results" and displays it. */
  method HandleSearchResults(data: string, userData: UserData, response: Result<seq<Prowlarr.Json>>,
                             fetch: Option<seq<string>>)
    returns (request: PageRequest, keyboard: seq<seq<string>>)
    modifies userData
    ensures request == ResultsPageRequest(data, old(userData.searchQuery), old(userData.searchType))
    ensures !request.RunSearch? ==>
              keyboard == [] && userData.results == old(userData.results)
              && userData.searchResults == old(userData.searchResults)
    ensures request.RunSearch? ==>
              var fetched := FetchedPage(response, fetch, request.page);
              userData.searchResults == Some(fetched)
              && userData.results == StoreResults(old(userData.results), request.page, fetched.torrents)
              && keyboard == (if fetched.torrents == [] then [] else ResultsKeyboard(fetched))
    ensures userData.searchType == old(userData.searchType) && userData.searchQuery == old(userData.searchQuery)
    ensures userData.showsInProduction == old(userData.showsInProduction)
    ensures userData.torrentHashes == old(userData.torrentHashes)
  {
    request := ResultsPageRequest(data, userData.searchQuery, userData.searchType);
    if !request.RunSearch? {
      return request, [];
    }
    var req, fetched := Prowlarr.SearchTorrents(request.query, Some(request.category), request.page, response, fetch);
    userData.searchResults := Some(fetched);
    keyboard := DisplaySearchResults(fetched, userData);
  }

  // ---- _handle_download_selection / _handle_confirm_download ----

  /** The stored result a key names; None without user data. */
  function LookupResult(results: Option<map<string, Torrent>>, shortId: string): (r: Option<Torrent>)
    ensures r.Some? <==> results.Some? && ResultKey(shortId) in results.value
  {
    if results.Some? && ResultKey(shortId) in results.value then Some(results.value[ResultKey(shortId)]) else None
  }

  datatype Selection =
    | SelectionMissing
    | ConfirmPrompt(torrent: Torrent, buttons: seq<string>)

  /** The confirmation prompt for a download button: Yes carries the same
      short id, No cancels. */
  function SelectDownload(data: string, results: Option<map<string, Torrent>>): (r: Selection)
    requires StartsWith(data, "download_")
    ensures r.SelectionMissing? <==> LookupResult(results, DownloadKey(data)).None?
    ensures r.ConfirmPrompt? ==>
              Some(r.torrent) == LookupResult(results, DownloadKey(data))
              && r.buttons == [ConfirmData(DownloadKey(data)), "cancel_download"]
  {
    match LookupResult(results, DownloadKey(data))
    case None => SelectionMissing
    case Some(t) => ConfirmPrompt(t, [ConfirmData(DownloadKey(data)), "cancel_download"])
  }

  /** What a confirmation leads to before qBittorrent is asked. */
  datatype ConfirmPlan =
    | ConfirmMissing
    | NoMagnet
    | AddTorrent(torrent: Torrent, magnet: Prowlarr.Json, path: Qbittorrent.JoinedPath, category: string)

  /** `user_data.get('search_type', 'movies')` */
  function SearchTypeOr(searchType: Option<string>): string { searchType.GetOr("movies") }

  /** 'movie' for a movies search, 'tv' for everything else. */
  function ContentTypeFor(searchType: string): (c: string)
    ensures c == "movie" <==> searchType == "movies"
  {
    if searchType == "movies" then "movie" else "tv"
  }

  /** The magnet link, or the download URL when the link is falsy. */
  function MagnetOf(t: Torrent): (m: Prowlarr.Json)
    ensures Truthy(t.magnetLink) ==> m == t.magnetLink
    ensures !Truthy(t.magnetLink) ==> m == t.downloadUrl
  {
    if Truthy(t.magnetLink) then t.magnetLink else t.downloadUrl
  }

  function PlanConfirm(data: string, results: Option<map<string, Torrent>>, searchType: Option<string>,
                       cfg: Settings.Config): (r: ConfirmPlan)
    requires StartsWith(data, "confirm_download_")
    ensures r.ConfirmMissing? <==> LookupResult(results, ConfirmKey(data)).None?
    ensures r.NoMagnet? <==>
              (LookupResult(results, ConfirmKey(data)).Some?
               && !Truthy(MagnetOf(LookupResult(results, ConfirmKey(data)).value)))
    ensures r.AddTorrent? ==>
              Some(r.torrent) == LookupResult(results, ConfirmKey(data)) && Truthy(r.magnet)
              && r.magnet == MagnetOf(r.torrent) && r.category == SearchTypeOr(searchType)
              && r.path == Qbittorrent.GetDownloadPath(cfg, ContentTypeFor(SearchTypeOr(searchType)), r.torrent.name)
  {
    match LookupResult(results, ConfirmKey(data))
    case None => ConfirmMissing
    case Some(t) =>
      var magnet := MagnetOf(t);
      if !Truthy(magnet) then NoMagnet
      else
        var st := SearchTypeOr(searchType);
        AddTorrent(t, magnet, Qbittorrent.GetDownloadPath(cfg, ContentTypeFor(st), t.name), st)
  }

  lemma ShortIdNotStatus(page: int, i: int)
    ensures ShortId(page, i) != "status"
  {
    var s := ShortId(page, i);
    assert s[|IntToString(page)|] == '_';
    assert '_' !in "status";
  }

  /** End to end: the i-th download button of a displayed page reaches
      download selection and prompts for the i-th result, and its Yes
      button reaches the confirmation, which downloads that result into
      the folder of the search type. */
  lemma DisplayedButtonDownloadsThatResult(m: map<string, Torrent>, page: int, ts: seq<Torrent>, i: int,
                                           searchType: Option<string>, cfg: Settings.Config)
    requires 0 <= i < |ts|
    ensures Route(DownloadData(ShortId(page, i))) == DownloadSelection
    ensures SelectDownload(DownloadData(ShortId(page, i)), Some(StoreResults(m, page, ts)))
            == ConfirmPrompt(ts[i], [ConfirmData(ShortId(page, i)), "cancel_download"])
    ensures Route(ConfirmData(ShortId(page, i))) == ConfirmDownload
    ensures Truthy(MagnetOf(ts[i])) ==>
              PlanConfirm(ConfirmData(ShortId(page, i)), Some(StoreResults(m, page, ts)), searchType, cfg)
              == AddTorrent(ts[i], MagnetOf(ts[i]),
                            Qbittorrent.GetDownloadPath(cfg, ContentTypeFor(SearchTypeOr(searchType)), ts[i].name),
                            SearchTypeOr(searchType))
  {
    var k := ShortId(page, i);
    ShortIdNotStatus(page, i);
    ResultButtonsRoute(k);
    ResultKeyRoundTrip(k);
    StoreResultsFinds(m, page, ts, i);
  }

  /** How the torrent id and magnet reach the TEXT columns: ints as their
      decimal text, booleans as 1 and 0, None failing NOT NULL and lists
      or dicts failing to bind. */
  function SqliteText(j: Prowlarr.Json): (r: Option<string>)
    ensures j.JStr? ==> r == Some(j.s)
    ensures j.JNull? || j.JList? || j.JObject? ==> r.None?
  {
    match j
    case JNull => None
    case JBool(b) => Some(if b then "1" else "0")
    case JInt(i) => Some(IntToString(i))
    case JStr(s) => Some(s)
    case _ => None
  }

  /** f'torrent_{download_id}' */
  function TorrentKey(downloadId: Option<int>): string {
    "torrent_" + (match downloadId case Some(id) => IntToString(id) case None => "None")
  }

  datatype ConfirmOutcome =
    | Missing
    | MissingMagnet
    | AddFailed
    | Started(downloadId: Option<int>, path: Qbittorrent.JoinedPath)

  /** The insert succeeds when sqlite does and both values bind to their
      NOT NULL TEXT columns. */
  predicate Inserts(plan: ConfirmPlan, dbSucceeds: bool)
    requires plan.AddTorrent?
  {
    dbSucceeds && SqliteText(plan.torrent.id).Some? && SqliteText(plan.magnet).Some?
  }

  /** How a confirmation ends: the plan's refusals, a falsy hash from
      `add_magnet_link`, or a started download whose id is the next one
      when the insert succeeds and None when it fails. */
  function OutcomeOf(plan: ConfirmPlan, addedHash: Option<string>, dbSucceeds: bool, nextId: int): ConfirmOutcome {
    match plan
    case ConfirmMissing => Missing
    case NoMagnet => MissingMagnet
    case AddTorrent(_, _, path, _) =>
      if addedHash.None? || addedHash.value == [] then AddFailed
      else Started(if Inserts(plan, dbSucceeds) then Some(nextId) else None, path)
  }

  /** The row `add_download` writes for a plan. */
  function RowOf(plan: ConfirmPlan, id: int, userId: int, now: Database.Timestamp): Database.Download
    requires plan.AddTorrent?
  {
    Database.Download(id, userId, plan.torrent.name, SqliteText(plan.torrent.id).GetOr(""),
                      SqliteText(plan.magnet).GetOr(""), Qbittorrent.PathText(plan.path),
                      Database.DefaultStatus, now, None)
  }

  /** Only a started download with an id writes a row, and only a started
      download keeps a hash; the row has the default status. */
  lemma OutcomeWrites(plan: ConfirmPlan, addedHash: Option<string>, dbSucceeds: bool, nextId: int,
                      userId: int, now: Database.Timestamp)
    ensures OutcomeOf(plan, addedHash, dbSucceeds, nextId).Started? <==>
              plan.AddTorrent? && addedHash.Some? && addedHash.value != []
    ensures OutcomeOf(plan, addedHash, dbSucceeds, nextId).Started? ==>
              (OutcomeOf(plan, addedHash, dbSucceeds, nextId).downloadId.Some? <==> Inserts(plan, dbSucceeds))
    ensures plan.AddTorrent? ==> RowOf(plan, nextId, userId, now).status == Database.DefaultStatus
                                 && RowOf(plan, nextId, userId, now).completedAt.None?
  {
  }

  /** Adds the chosen torrent: `addedHash` is what `add_magnet_link`
      returns; a falsy hash ends the handler; otherwise the download is
      recorded and its hash kept under "torrent_{id}". */
  method HandleConfirmDownload(data: string, userData: UserData?, cfg: Settings.Config, db: Database.Store,
                               userId: int, addedHash: Option<string>, now: Database.Timestamp, dbSucceeds: bool)
    returns (plan: ConfirmPlan, outcome: ConfirmOutcome)
    requires StartsWith(data, "confirm_download_")
    requires db.Valid()
    modifies userData, db
    ensures db.Valid()
    ensures plan == PlanConfirm(data, if userData == null then None else Some(old(userData.results)),
                                if userData == null then None else old(userData.searchType), cfg)
    ensures outcome == OutcomeOf(plan, addedHash, dbSucceeds, old(db.nextId))
    ensures outcome.Started? && outcome.downloadId.Some? ==>
              db.downloads == old(db.downloads) + [RowOf(plan, old(db.nextId), userId, now)]
    ensures !(outcome.Started? && outcome.downloadId.Some?) ==> db.downloads == old(db.downloads)
    ensures userData != null && outcome.Started? ==>
              userData.torrentHashes == old(userData.torrentHashes)[TorrentKey(outcome.downloadId) := addedHash.value]
    ensures userData != null && !outcome.Started? ==> userData.torrentHashes == old(userData.torrentHashes)
    ensures db.sessions == old(db.sessions)
    ensures userData != null ==>
              userData.results == old(userData.results) && userData.searchType == old(userData.searchType)
              && userData.searchQuery == old(userData.searchQuery) && userData.searchResults == old(userData.searchResults)
              && userData.showsInProduction == old(userData.showsInProduction)
  {
    plan := PlanConfirm(data, if userData == null then None else Some(userData.results),
                        if userData == null then None else userData.searchType, cfg);
    if !plan.AddTorrent? {
      return plan, OutcomeOf(plan, addedHash, dbSucceeds, db.nextId);
    }
    if addedHash.None? || addedHash.value == [] {
      return plan, AddFailed;
    }
    var downloadId := StartDownload(plan, addedHash.value, userData, db, userId, now, dbSucceeds);
    outcome := Started(downloadId, plan.path);
  }

  /** `add_download`, then the hash kept under the id it returned. */
  method StartDownload(plan: ConfirmPlan, hash: string, userData: UserData?, db: Database.Store,
                       userId: int, now: Database.Timestamp, dbSucceeds: bool)
    returns (downloadId: Option<int>)
    requires plan.AddTorrent? && db.Valid()
    modifies userData, db
    ensures db.Valid()
    ensures downloadId == if Inserts(plan, dbSucceeds) then Some(old(db.nextId)) else None
    ensures downloadId.Some? ==> db.downloads == old(db.downloads) + [RowOf(plan, old(db.nextId), userId, now)]
    ensures downloadId.None? ==> db.downloads == old(db.downloads)
    ensures db.sessions == old(db.sessions)
    ensures userData != null ==>
              userData.torrentHashes == old(userData.torrentHashes)[TorrentKey(downloadId) := hash]
              && userData.results == old(userData.results) && userData.searchType == old(userData.searchType)
              && userData.searchQuery == old(userData.searchQuery) && userData.searchResults == old(userData.searchResults)
              && userData.showsInProduction == old(userData.showsInProduction)
  {
    var row := RowOf(plan, db.nextId, userId, now);
    downloadId := db.AddDownload(userId, row.title, row.torrentId, row.magnetLink, row.downloadPath, now,
                                 Inserts(plan, dbSucceeds));
    if userData != null {
      userData.torrentHashes := userData.torrentHashes[TorrentKey(downloadId) := hash];
    }
  }

  // ---- the production-show collector of the future-TV search ----

  /** A search hit is kept when its id is truthy, TMDB has details for it,
      the show is in production and it has last-season information. */
  predicate Eligible(id: Option<int>, details: map<int, Tmdb.TvShow>) {
    id.Some? && id.value != 0 && id.value in details
    && Tmdb.IsShowInProduction(details[id.value]) && Tmdb.GetLastSeasonInfo(details[id.value]).Some?
  }

  /** The eligible hits, in order, with their details. */
  function EligibleShows(hits: seq<Option<int>>, details: map<int, Tmdb.TvShow>): (r: seq<ShowEntry>)
    ensures |r| <= |hits|
  {
    if hits == [] then []
    else
      var last := hits[|hits| - 1];
      EligibleShows(hits[..|hits| - 1], details)
      + (if Eligible(last, details) then [ShowEntry(last.value, details[last.value])] else [])
  }

  /** Exactly the eligible hits are kept, each with its own details. */
  lemma {:induction false} EligibleShowsMembers(hits: seq<Option<int>>, details: map<int, Tmdb.TvShow>)
    ensures forall e :: e in EligibleShows(hits, details) ==>
              Some(e.id) in hits && Eligible(Some(e.id), details) && e.data == details[e.id]
    ensures forall i :: 0 <= i < |hits| && Eligible(hits[i], details) ==>
              ShowEntry(hits[i].value, details[hits[i].value]) in EligibleShows(hits, details)
    decreases |hits|
  {
    if hits != [] {
      var init := hits[..|hits| - 1];
      EligibleShowsMembers(init, details);
      assert forall i :: 0 <= i < |init| ==> init[i] == hits[i];
    }
  }

  lemma {:induction false} EligibleShowsConcat(a: seq<Option<int>>, b: seq<Option<int>>, details: map<int, Tmdb.TvShow>)
    ensures EligibleShows(a + b, details) == EligibleShows(a, details) + EligibleShows(b, details)
    decreases |b|
  {
    if b == [] {
      assert a + b == a;
    } else {
      var b' := b[..|b| - 1];
      assert (a + b)[..|a + b| - 1] == a + b';
      assert (a + b)[|a + b| - 1] == b[|b| - 1];
      EligibleShowsConcat(a, b', details);
    }
  }

  lemma EligibleStep(hits: seq<Option<int>>, i: nat, details: map<int, Tmdb.TvShow>)
    requires i < |hits|
    ensures EligibleShows(hits[..i + 1], details)
            == EligibleShows(hits[..i], details)
               + (if Eligible(hits[i], details) then [ShowEntry(hits[i].value, details[hits[i].value])] else [])
  {
    assert hits[..i + 1][..i] == hits[..i];
  }

  const ScannedHits: nat := 10
  const MaxShows: nat := 5

  function Take<T>(s: seq<T>, n: nat): seq<T> { if |s| <= n then s else s[..n] }

  /** The shows the collector stores: the first five eligible hits among
      the first ten. */
  function CollectedShows(hits: seq<Option<int>>, details: map<int, Tmdb.TvShow>): seq<ShowEntry> {
    Take(EligibleShows(Take(hits, ScannedHits), details), MaxShows)
  }

  /** At most five shows, each an eligible hit among the first ten with its
      details; with fewer than five, every eligible hit among the first ten
      is there. */
  lemma CollectedShowsSpec(hits: seq<Option<int>>, details: map<int, Tmdb.TvShow>)
    ensures |CollectedShows(hits, details)| <= MaxShows
    ensures forall e :: e in CollectedShows(hits, details) ==>
              Some(e.id) in Take(hits, ScannedHits) && Eligible(Some(e.id), details) && e.data == details[e.id]
    ensures |CollectedShows(hits, details)| < MaxShows ==>
              forall i :: 0 <= i < |hits| && i < ScannedHits && Eligible(hits[i], details) ==>
                ShowEntry(hits[i].value, details[hits[i].value]) in CollectedShows(hits, details)
  {
    var all := EligibleShows(Take(hits, ScannedHits), details);
    EligibleShowsMembers(Take(hits, ScannedHits), details);
    var r := CollectedShows(hits, details);
    assert forall e :: e in r ==> e in all;
    if |r| < MaxShows {
      assert r == all;
      forall i | 0 <= i < |hits| && i < ScannedHits && Eligible(hits[i], details)
        ensures ShowEntry(hits[i].value, details[hits[i].value]) in r
      {
        assert Take(hits, ScannedHits)[i] == hits[i];
      }
    }
  }

  /** Hits after the tenth never matter. */
  lemma CollectedShowsIgnoresLaterHits(hits: seq<Option<int>>, more: seq<Option<int>>, details: map<int, Tmdb.TvShow>)
    requires |hits| >= ScannedHits
    ensures CollectedShows(hits + more, details) == CollectedShows(hits, details)
  {
    assert Take(hits + more, ScannedHits) == Take(hits, ScannedHits);
  }

  /** The two buttons of a show, 1080p and 2160p. */
  function ShowButtons(e: ShowEntry): seq<string> {
    [CreateRuleData("tv", IntToString(e.id), "1080p"), CreateRuleData("tv", IntToString(e.id), "2160p")]
  }

  /** One row of rule buttons per show. */
  function ShowRows(shows: seq<ShowEntry>): (r: seq<seq<string>>)
    ensures |r| == |shows|
  {
    if shows == [] then [] else ShowRows(shows[..|shows| - 1]) + [ShowButtons(shows[|shows| - 1])]
  }

  /** Row k holds show k's buttons, each of which reads back as its id and
      quality and reaches the rule handler. */
  lemma {:induction false} ShowRowsButtons(shows: seq<ShowEntry>, k: int)
    requires 0 <= k < |shows|
    ensures ShowRows(shows)[k] == ShowButtons(shows[k])
    ensures forall q :: q in {"1080p", "2160p"} ==>
              ParseCreateRule(CreateRuleData("tv", IntToString(shows[k].id), q))
              == Some(RuleRequest("tv", IntToString(shows[k].id), q))
    decreases |shows|
  {
    if k < |shows| - 1 {
      ShowRowsButtons(shows[..|shows| - 1], k);
    }
    IntToStringNoUnderscore(shows[k].id);
    CreateRuleRoundTrip("tv", IntToString(shows[k].id), "1080p");
    CreateRuleRoundTrip("tv", IntToString(shows[k].id), "2160p");
  }

  /** Once five shows are kept, the hits still to come change nothing. */
  lemma FiveKeptSettles(scanned: seq<Option<int>>, details: map<int, Tmdb.TvShow>, i: nat)
    requires i <= |scanned| && |EligibleShows(scanned[..i], details)| >= MaxShows
    ensures Take(EligibleShows(scanned, details), MaxShows) == Take(EligibleShows(scanned[..i], details), MaxShows)
  {
    assert scanned == scanned[..i] + scanned[i..];
    EligibleShowsConcat(scanned[..i], scanned[i..], details);
    var e := EligibleShows(scanned[..i], details);
    assert (e + EligibleShows(scanned[i..], details))[..MaxShows] == e[..MaxShows];
  }

  /** Where the scan stops, at the end or at the fifth kept show, it
      has kept what the collector keeps. */
  lemma ScanSettles(scanned: seq<Option<int>>, details: map<int, Tmdb.TvShow>, i: nat)
    requires i <= |scanned|
    requires i == |scanned| || |EligibleShows(scanned[..i], details)| >= MaxShows
    requires |EligibleShows(scanned[..i], details)| <= MaxShows
    ensures Take(EligibleShows(scanned, details), MaxShows) == EligibleShows(scanned[..i], details)
  {
    if i == |scanned| {
      assert scanned[..i] == scanned;
    } else {
      FiveKeptSettles(scanned, details, i);
    }
  }

  /** One pass of the scan: the hit at `i` is kept, with its two buttons,
      when it is eligible. */
  method ScanHit(scanned: seq<Option<int>>, details: map<int, Tmdb.TvShow>, i: nat,
                 shows: seq<ShowEntry>, rows: seq<seq<string>>)
    returns (shows': seq<ShowEntry>, rows': seq<seq<string>>)
    requires i < |scanned| && shows == EligibleShows(scanned[..i], details)
    requires rows == ShowRows(shows)
    ensures shows' == EligibleShows(scanned[..i + 1], details)
    ensures rows' == ShowRows(shows')
  {
    var id := scanned[i];
    EligibleStep(scanned, i, details);
    shows', rows' := shows, rows;
    if Eligible(id, details) {
      var entry := ShowEntry(id.value, details[id.value]);
      assert (shows + [entry])[..|shows|] == shows;
      rows' := rows + [ShowButtons(entry)];
      shows' := shows + [entry];
    }
  }

  /** The loop over the scanned hits: keeps the eligible ones with their
      two rule buttons and stops at the fifth. */
  method ScanHits(scanned: seq<Option<int>>, details: map<int, Tmdb.TvShow>)
    returns (shows: seq<ShowEntry>, rows: seq<seq<string>>)
    ensures shows == Take(EligibleShows(scanned, details), MaxShows)
    ensures rows == ShowRows(shows)
  {
    shows := [];
    rows := [];
    var i := 0;
    while i < |scanned| && |shows| < MaxShows
      invariant 0 <= i <= |scanned|
      invariant shows == EligibleShows(scanned[..i], details) && |shows| <= MaxShows
      invariant rows == ShowRows(shows)
    {
      EligibleShowsGrowth(scanned, i, details);
      shows, rows := ScanHit(scanned, details, i, shows, rows);
      i := i + 1;
    }
    ScanSettles(scanned, details, i);
  }

  /** One more hit adds at most one show. */
  lemma EligibleShowsGrowth(hits: seq<Option<int>>, i: nat, details: map<int, Tmdb.TvShow>)
    requires i < |hits|
    ensures |EligibleShows(hits[..i + 1], details)| <= |EligibleShows(hits[..i], details)| + 1
  {
    EligibleStep(hits, i, details);
  }

  /** The search-results branch of the future-TV search: scans at most ten
      hits and stops at five kept shows; an empty search stores nothing. */
  method CollectShowsInProduction(hits: seq<Option<int>>, details: map<int, Tmdb.TvShow>, userData: UserData)
    returns (keyboard: seq<seq<string>>)
    modifies userData
    ensures hits == [] ==> keyboard == [] && userData.showsInProduction == old(userData.showsInProduction)
    ensures hits != [] ==>
              userData.showsInProduction == Some(CollectedShows(hits, details))
              && keyboard == ShowRows(CollectedShows(hits, details)) + [["future_tv_shows"]]
    ensures userData.searchType == old(userData.searchType) && userData.searchQuery == old(userData.searchQuery)
    ensures userData.searchResults == old(userData.searchResults) && userData.results == old(userData.results)
    ensures userData.torrentHashes == old(userData.torrentHashes)
  {
    if hits == [] {
      return [];
    }
    var shows, rows := ScanHits(Take(hits, ScannedHits), details);
    keyboard := rows + [["future_tv_shows"]];
    userData.showsInProduction := Some(shows);
  }

  // ---- _handle_create_rule ----

  /** What `get_movie_details` returned, as the handler reads it. */
  datatype MovieDetails = MovieDetails(title: Option<string>, data: Qbittorrent.MovieData)

  datatype RuleOutcome =
    | RuleRaised
    | NoMovieDetails
    | NoShowDetails
    | ShowNotFound
    | RuleSubmitted(submission: Qbittorrent.Submission, created: bool)
    | NothingDone

  /** The index of the first stored show with the id, from `from` on. */
  function ShowIndex(shows: seq<ShowEntry>, id: int, from: nat): (r: Option<nat>)
    requires from <= |shows|
    ensures r.None? <==> forall k :: from <= k < |shows| ==> shows[k].id != id
    ensures r.Some? ==> from <= r.value < |shows| && shows[r.value].id == id
                        && forall k :: from <= k < r.value ==> shows[k].id != id
    decreases |shows| - from
  {
    if from == |shows| then None
    else if shows[from].id == id then Some(from)
    else ShowIndex(shows, id, from + 1)
  }

  /** The details of the first stored show with the id, as the
      `for ... break` finds them. */
  function ShowWithId(shows: seq<ShowEntry>, id: int): Option<Tmdb.TvShow> {
    match ShowIndex(shows, id, 0)
    case None => None
    case Some(k) => Some(shows[k].data)
  }

  /** The loop of the handler over `shows_in_production`. */
  method FindShow(shows: seq<ShowEntry>, id: int) returns (found: Option<Tmdb.TvShow>)
    ensures found == ShowWithId(shows, id)
  {
    found := None;
    var i := 0;
    while i < |shows|
      invariant 0 <= i <= |shows|
      invariant ShowIndex(shows, id, 0) == ShowIndex(shows, id, i)
    {
      if shows[i].id == id {
        found := Some(shows[i].data);
        return;
      }
      i := i + 1;
    }
  }

  /** The rule a button asks for: parts 2 to 4 of its data; a movie by its
      TMDB details, a show by the details stored with the search; an id
      `int()` cannot read, like a short callback, ends in the handler's
      `except`. */
  function CreateRuleOutcome(data: string, shows: Option<seq<ShowEntry>>, movieDetails: Option<MovieDetails>,
                             cfg: Settings.Config, items: Qbittorrent.FeedItems, setRuleSucceeds: bool): RuleOutcome
  {
    match ParseCreateRule(data)
    case None => RuleRaised
    case Some(req) =>
      if req.contentType == "movie" then
        if ParseInt(req.contentId).None? then RuleRaised
        else match movieDetails
          case None => NoMovieDetails
          case Some(md) =>
            var title := md.title.GetOr("Unknown");
            RuleSubmitted(Qbittorrent.Submission(
                            Qbittorrent.RuleName(title, req.quality),
                            Qbittorrent.MovieRule(cfg, title, req.quality, None, Some(md.data))
                              .(affectedFeeds := Qbittorrent.AffectedFeeds(items))),
                          setRuleSucceeds)
      else if req.contentType == "tv" then
        if shows.None? || shows.value == [] then NoShowDetails
        else match ParseInt(req.contentId)
          case None => RuleRaised
          case Some(id) =>
            match ShowWithId(shows.value, id)
            case None => ShowNotFound
            case Some(tv) =>
              var title := tv.name.GetOr("Unknown");
              RuleSubmitted(Qbittorrent.Submission(
                              Qbittorrent.RuleName(title, req.quality),
                              Qbittorrent.TvRule(cfg, title, req.quality, None, Some(tv))
                                .(affectedFeeds := Qbittorrent.AffectedFeeds(items))),
                            setRuleSucceeds)
      else NothingDone
  }

  /** `_handle_create_rule`; `movieDetails` is TMDB's reply for the id and
      `setRuleSucceeds` qBittorrent's answer to the rule. */
  method HandleCreateRule(data: string, userData: UserData, cfg: Settings.Config, movieDetails: Option<MovieDetails>,
                          items: Qbittorrent.FeedItems, setRuleSucceeds: bool)
    returns (outcome: RuleOutcome)
    ensures outcome == CreateRuleOutcome(data, userData.showsInProduction, movieDetails, cfg, items, setRuleSucceeds)
  {
    var request := ParseCreateRule(data);
    if request.None? {
      return RuleRaised;
    }
    var req := request.value;
    if req.contentType == "movie" {
      var id := ParseInt(req.contentId);
      if id.None? {
        return RuleRaised;
      }
      if movieDetails.None? {
        return NoMovieDetails;
      }
      var title := movieDetails.value.title.GetOr("Unknown");
      var ok, submitted := Qbittorrent.CreateMovieRule(cfg, title, req.quality, None, Some(movieDetails.value.data),
                                                       items, setRuleSucceeds);
      return RuleSubmitted(submitted, ok);
    } else if req.contentType == "tv" {
      var shows := userData.showsInProduction;
      if shows.None? || shows.value == [] {
        return NoShowDetails;
      }
      var id := ParseInt(req.contentId);
      if id.None? {
        return RuleRaised;
      }
      var found := FindShow(shows.value, id.value);
      if found.None? {
        return ShowNotFound;
      }
      var title := found.value.name.GetOr("Unknown");
      var ok, submitted := Qbittorrent.CreateTvShowRule(cfg, title, req.quality, None, found, items, setRuleSucceeds);
      return RuleSubmitted(submitted, ok);
    }
    return NothingDone;
  }

  /** End to end: a quality button the collector put under a show creates
      the TV rule for that show's details, named after the show. */
  lemma CollectedButtonCreatesTvRule(hits: seq<Option<int>>, details: map<int, Tmdb.TvShow>, k: int, quality: string,
                                     movieDetails: Option<MovieDetails>, cfg: Settings.Config,
                                     items: Qbittorrent.FeedItems, ok: bool)
    requires 0 <= k < |CollectedShows(hits, details)|
    requires quality in {"1080p", "2160p"}
    ensures var e := CollectedShows(hits, details)[k];
            var tv := e.data;
            var title := tv.name.GetOr("Unknown");
            CreateRuleOutcome(CreateRuleData("tv", IntToString(e.id), quality), Some(CollectedShows(hits, details)),
                              movieDetails, cfg, items, ok)
            == RuleSubmitted(Qbittorrent.Submission(
                               Qbittorrent.RuleName(title, quality),
                               Qbittorrent.TvRule(cfg, title, quality, None, Some(tv))
                                 .(affectedFeeds := Qbittorrent.AffectedFeeds(items))), ok)
  {
    var shows := CollectedShows(hits, details);
    var e := shows[k];
    IntToStringNoUnderscore(e.id);
    CreateRuleRoundTrip("tv", IntToString(e.id), quality);
    ParseIntOfIntToString(e.id);
    CollectedShowFound(hits, details, k);
    TvRuleOutcome(CreateRuleData("tv", IntToString(e.id), quality), IntToString(e.id), e.id, quality, shows, e.data,
                  movieDetails, cfg, items, ok);
  }

  /** A TV request whose id reads back and is among the stored shows
      submits that show's rule. */
  lemma TvRuleOutcome(data: string, contentId: string, id: int, quality: string, shows: seq<ShowEntry>,
                      tv: Tmdb.TvShow, movieDetails: Option<MovieDetails>, cfg: Settings.Config,
                      items: Qbittorrent.FeedItems, ok: bool)
    requires ParseCreateRule(data) == Some(RuleRequest("tv", contentId, quality))
    requires ParseInt(contentId) == Some(id)
    requires ShowWithId(shows, id) == Some(tv)
    ensures var title := tv.name.GetOr("Unknown");
            CreateRuleOutcome(data, Some(shows), movieDetails, cfg, items, ok)
            == RuleSubmitted(Qbittorrent.Submission(
                               Qbittorrent.RuleName(title, quality),
                               Qbittorrent.TvRule(cfg, title, quality, None, Some(tv))
                                 .(affectedFeeds := Qbittorrent.AffectedFeeds(items))), ok)
  {
    assert shows != [];
  }

  /** The lookup finds a collected show's own details: entries with the
      same id carry the same details. */
  lemma CollectedShowFound(hits: seq<Option<int>>, details: map<int, Tmdb.TvShow>, k: int)
    requires 0 <= k < |CollectedShows(hits, details)|
    ensures ShowWithId(CollectedShows(hits, details), CollectedShows(hits, details)[k].id)
            == Some(CollectedShows(hits, details)[k].data)
  {
    var shows := CollectedShows(hits, details);
    CollectedShowsSpec(hits, details);
    var j := ShowIndex(shows, shows[k].id, 0).value;
    assert shows[j] in shows && shows[k] in shows;
  }

  /** A movie button (`create_rule_movie_{id}_{quality}`) creates the movie
      rule from TMDB's details. */
  lemma MovieButtonCreatesMovieRule(id: int, quality: string, shows: Option<seq<ShowEntry>>, md: MovieDetails,
                                    cfg: Settings.Config, items: Qbittorrent.FeedItems, ok: bool)
    requires quality in {"1080p", "2160p"}
    ensures var title := md.title.GetOr("Unknown");
            CreateRuleOutcome(CreateRuleData("movie", IntToString(id), quality), shows, Some(md), cfg, items, ok)
            == RuleSubmitted(Qbittorrent.Submission(
                               Qbittorrent.RuleName(title, quality),
                               Qbittorrent.MovieRule(cfg, title, quality, None, Some(md.data))
                                 .(affectedFeeds := Qbittorrent.AffectedFeeds(items))), ok)
  {
    IntToStringNoUnderscore(id);
    CreateRuleRoundTrip("movie", IntToString(id), quality);
    ParseIntOfIntToString(id);
  }

  /** A TV button after the stored shows are gone (a new session, or a
      search that kept none) creates nothing. */
  lemma TvButtonWithoutShows(data: string, movieDetails: Option<MovieDetails>, cfg: Settings.Config,
                             items: Qbittorrent.FeedItems, ok: bool)
    requires ParseCreateRule(data).Some? && ParseCreateRule(data).value.contentType == "tv"
    ensures CreateRuleOutcome(data, None, movieDetails, cfg, items, ok) == NoShowDetails
    ensures CreateRuleOutcome(data, Some([]), movieDetails, cfg, items, ok) == NoShowDetails
  {
  }

  // ---- check_completed_downloads: finding a download's torrent ----

  /** An entry of `get_all_torrents`. */
  datatype QbTorrent = QbTorrent(name: string, hash: string)

  /** The title with its spaces turned into dots, lower-cased. */
  function SearchNormalized(title: string): string { Lower(ReplaceChar(title, ' ', ".")) }

  predicate NameMatches(title: string, t: QbTorrent) {
    Contains(Lower(t.name), SearchNormalized(title))
  }

  /** The index of the first torrent whose name matches, from `from` on. */
  function FirstMatching(title: string, torrents: seq<QbTorrent>, from: nat): (r: Option<nat>)
    requires from <= |torrents|
    ensures r.None? <==> forall k :: from <= k < |torrents| ==> !NameMatches(title, torrents[k])
    ensures r.Some? ==> from <= r.value < |torrents| && NameMatches(title, torrents[r.value])
                        && forall k :: from <= k < r.value ==> !NameMatches(title, torrents[k])
    decreases |torrents| - from
  {
    if from == |torrents| then None
    else if NameMatches(title, torrents[from]) then Some(from)
    else FirstMatching(title, torrents, from + 1)
  }

  /** The name match of the checker: the hash of the first torrent whose
      lower-cased name contains the normalized title. */
  method MatchCompletedTorrent(title: string, torrents: seq<QbTorrent>) returns (hash: Option<string>)
    ensures hash.None? <==> forall k :: 0 <= k < |torrents| ==> !NameMatches(title, torrents[k])
    ensures hash.Some? ==> exists k :: 0 <= k < |torrents| && NameMatches(title, torrents[k])
                                       && hash.value == torrents[k].hash
                                       && forall j :: 0 <= j < k ==> !NameMatches(title, torrents[j])
  {
    var search := SearchNormalized(title);
    var i := 0;
    while i < |torrents|
      invariant 0 <= i <= |torrents|
      invariant forall j :: 0 <= j < i ==> !NameMatches(title, torrents[j])
    {
      if Contains(Lower(torrents[i].name), search) {
        return Some(torrents[i].hash);
      }
      i := i + 1;
    }
    return None;
  }

  /** A release named after the title with dots, in any case, matches. */
  lemma DottedReleaseMatches(title: string, suffix: string, hash: string)
    ensures NameMatches(title, QbTorrent(ReplaceChar(title, ' ', ".") + suffix, hash))
  {
    var dotted := ReplaceChar(title, ' ', ".");
    LowerConcat(dotted, suffix);
    ContainsAt(Lower(dotted + suffix), SearchNormalized(title), 0);
  }

  /** An empty title matches every torrent, so the first one is taken. */
  lemma EmptyTitleMatchesFirst(torrents: seq<QbTorrent>)
    requires torrents != []
    ensures FirstMatching("", torrents, 0) == Some(0)
  {
    assert SearchNormalized("") == [];
    ContainsEmpty(Lower(torrents[0].name));
  }

  /** As written, the stored-hash scan keeps a key when it starts with
      "torrent_" and contains the download id anywhere. */
  predicate HashKeyMatchesAsWritten(k: string, downloadId: int) {
    StartsWith(k, "torrent_") && Contains(k, IntToString(downloadId))
  }

  /** The key of download 12 is taken for downloads 1 and 2 as well. */
  lemma HashKeyCrossMatch()
    ensures HashKeyMatchesAsWritten(TorrentKey(Some(12)), 1)
    ensures HashKeyMatchesAsWritten(TorrentKey(Some(12)), 2)
  {
    var k := TorrentKey(Some(12));
    assert k == "torrent_12";
    assert IntToString(1) == "1" && IntToString(2) == "2";
    assert StartsWith(k, "torrent_");
    assert "1" <= k[8..];
    assert "2" <= k[9..];
    ContainsAt(k, "1", 8);
    ContainsAt(k, "2", 9);
  }

  /** A download's key is exactly "torrent_{id}". */
  predicate HashKeyMatches(k: string, downloadId: int) {
    k == TorrentKey(Some(downloadId))
  }

  /** Each key belongs to one download, and every download's own key is
      also kept by the scan as written. */
  lemma HashKeyMatchesUnique(k: string, a: int, b: int)
    ensures HashKeyMatches(k, a) && HashKeyMatches(k, b) ==> a == b
    ensures HashKeyMatches(k, a) ==> HashKeyMatchesAsWritten(k, a)
  {
    if HashKeyMatches(k, a) {
      assert k[8..] == IntToString(a);
      ContainsAt(k, IntToString(a), 8);
      if HashKeyMatches(k, b) {
        assert k[8..] == IntToString(b);
        ParseIntOfIntToString(a);
        ParseIntOfIntToString(b);
      }
    }
  }

  /** The hash kept for a download, found by its exact key. */
  function StoredHash(hashes: map<string, string>, downloadId: int): (r: Option<string>)
    ensures r.Some? <==> TorrentKey(Some(downloadId)) in hashes
  {
    var k := TorrentKey(Some(downloadId));
    if k in hashes then Some(hashes[k]) else None
  }

  /** The hash a confirmation keeps is found for its download and for no
      other. */
  lemma StoredHashAfterStart(hashes: map<string, string>, id: int, other: int, hash: string)
    requires other != id
    ensures StoredHash(hashes[TorrentKey(Some(id)) := hash], id) == Some(hash)
    ensures StoredHash(hashes[TorrentKey(Some(id)) := hash], other) == StoredHash(hashes, other)
  {
    HashKeyMatchesUnique(TorrentKey(Some(id)), id, other);
  }

  /** The checker's hash for a download: the stored one when it is
      truthy, otherwise the first torrent whose name matches. */
  method ResolveHash(hashes: map<string, string>, downloadId: int, title: string, torrents: seq<QbTorrent>)
    returns (hash: Option<string>)
    ensures StoredHash(hashes, downloadId).Some? && StoredHash(hashes, downloadId).value != [] ==>
              hash == StoredHash(hashes, downloadId)
    ensures (StoredHash(hashes, downloadId).None? || StoredHash(hashes, downloadId).value == []) ==>
              (hash.None? <==> forall k :: 0 <= k < |torrents| ==> !NameMatches(title, torrents[k]))
    ensures (StoredHash(hashes, downloadId).None? || StoredHash(hashes, downloadId).value == []) && hash.Some? ==>
              exists k :: 0 <= k < |torrents| && NameMatches(title, torrents[k]) && hash.value == torrents[k].hash
                          && forall j :: 0 <= j < k ==> !NameMatches(title, torrents[j])
  {
    var stored := StoredHash(hashes, downloadId);
    if stored.Some? && stored.value != [] {
      return stored;
    }
    hash := MatchCompletedTorrent(title, torrents);
  }

  // ---- the completion checker as written ----

  /** `application.bot_data.items()`, in insertion order. No handler of the
      bot writes this dictionary: the confirm handler keeps its hashes in
      `context.user_data`, a different one. */
  type BotData = seq<(string, string)>

  /** The index of the first entry, from `from` on, whose key the scan as
      written keeps. */
  function FirstHashEntry(botData: BotData, downloadId: int, from: nat): (r: Option<nat>)
    requires from <= |botData|
    ensures r.None? <==> forall k :: from <= k < |botData| ==> !HashKeyMatchesAsWritten(botData[k].0, downloadId)
    ensures r.Some? ==> from <= r.value < |botData| && HashKeyMatchesAsWritten(botData[r.value].0, downloadId)
                        && forall k :: from <= k < r.value ==> !HashKeyMatchesAsWritten(botData[k].0, downloadId)
    decreases |botData| - from
  {
    if from == |botData| then None
    else if HashKeyMatchesAsWritten(botData[from].0, downloadId) then Some(from)
    else FirstHashEntry(botData, downloadId, from + 1)
  }

  /** The value the scan ends on: that of the first kept entry, whatever
      it holds. */
  function BotDataHash(botData: BotData, downloadId: int): (r: Option<string>)
    ensures r.None? <==> forall k :: 0 <= k < |botData| ==> !HashKeyMatchesAsWritten(botData[k].0, downloadId)
    ensures r.Some? ==> exists k :: 0 <= k < |botData| && HashKeyMatchesAsWritten(botData[k].0, downloadId)
                                    && r.value == botData[k].1
                                    && forall j :: 0 <= j < k ==> !HashKeyMatchesAsWritten(botData[j].0, downloadId)
  {
    match FirstHashEntry(botData, downloadId, 0)
    case None => None
    case Some(k) => Some(botData[k].1)
  }

  /** The loop over `bot_data`: it stops at the first kept key and takes
      that entry's value. */
  method ScanBotData(botData: BotData, downloadId: int) returns (stored: Option<string>)
    ensures stored == BotDataHash(botData, downloadId)
  {
    stored := None;
    var i := 0;
    while i < |botData|
      invariant 0 <= i <= |botData|
      invariant forall j :: 0 <= j < i ==> !HashKeyMatchesAsWritten(botData[j].0, downloadId)
    {
      var (k, v) := botData[i];
      if HashKeyMatchesAsWritten(k, downloadId) {
        stored := Some(v);
        break;
      }
      i := i + 1;
    }
    var first := FirstHashEntry(botData, downloadId, 0);
    if first.Some? {
      assert !(first.value < i) && !(i < first.value);
    }
  }

  /** The checker's hash for a download as written: the scan of
      `bot_data` decides when it ends on a truthy value, and otherwise the
      first torrent whose name matches does. */
  method ResolveHashAsWritten(botData: BotData, downloadId: int, title: string, torrents: seq<QbTorrent>)
    returns (hash: Option<string>)
    ensures BotDataHash(botData, downloadId).Some? && BotDataHash(botData, downloadId).value != [] ==>
              hash == BotDataHash(botData, downloadId)
    ensures (BotDataHash(botData, downloadId).None? || BotDataHash(botData, downloadId).value == []) ==>
              (hash.None? <==> forall k :: 0 <= k < |torrents| ==> !NameMatches(title, torrents[k]))
    ensures (BotDataHash(botData, downloadId).None? || BotDataHash(botData, downloadId).value == []) && hash.Some? ==>
              exists k :: 0 <= k < |torrents| && NameMatches(title, torrents[k]) && hash.value == torrents[k].hash
                          && forall j :: 0 <= j < k ==> !NameMatches(title, torrents[j])
  {
    var stored := ScanBotData(botData, downloadId);
    if stored.Some? && stored.value != [] {
      return stored;
    }
    hash := MatchCompletedTorrent(title, torrents);
  }

  /** With `bot_data` as the program leaves it, empty, the scan finds
      nothing and the checker as written falls back to the name match. */
  lemma UnwrittenBotDataHasNoHash(downloadId: int)
    ensures BotDataHash([], downloadId).None?
  {
  }

  /** Were the key of download 12 in `bot_data`, the scan as written would
      hand its hash to download 1. */
  lemma BotDataCrossMatch(hash: string)
    ensures BotDataHash([(TorrentKey(Some(12)), hash)], 1) == Some(hash)
  {
    HashKeyCrossMatch();
  }
}
