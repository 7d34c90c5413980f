/** The sqlite store, as an in-memory pair of tables: `downloads`, whose
    AUTOINCREMENT primary key is issued from a counter, and
    `user_sessions`, keyed by user id. CURRENT_TIMESTAMP is a parameter,
    and so is whether the sqlite call raises (`succeeds`): every method
    swallows its exception and leaves the tables as they were. */
module Database {
  import opened Wrappers

  /** A CURRENT_TIMESTAMP value. */
  type Timestamp = int

  datatype Download = Download(
    id: int,
    userId: int,
    title: string,
    torrentId: string,
    magnetLink: string,
    downloadPath: string,
    status: string,
    createdAt: Timestamp,
    completedAt: Option<Timestamp>)

  datatype UserSession = UserSession(
    currentState: string,
    searchQuery: Option<string>,
    currentPage: int,
    lastActivity: Timestamp)

  /** The three columns `get_user_session` returns. */
  datatype SessionView = SessionView(currentState: string, searchQuery: Option<string>, currentPage: int)

  /** The column default of `status`. */
  const DefaultStatus: string := "downloading"

  const CompletedStatus: string := "completed"

  /** Rows in insertion order have strictly increasing ids, all below the
      next id to issue. */
  predicate IdsIssued(rows: seq<Download>, nextId: int) {
    (forall i, j :: 0 <= i < j < |rows| ==> rows[i].id < rows[j].id)
    && (forall i :: 0 <= i < |rows| ==> rows[i].id < nextId)
  }

  /** No two rows share an id. */
  lemma IssuedIdsDistinct(rows: seq<Download>, nextId: int, i: int, j: int)
    requires IdsIssued(rows, nextId)
    requires 0 <= i < |rows| && 0 <= j < |rows| && i != j
    ensures rows[i].id != rows[j].id
  {
    if i < j {
      assert rows[i].id < rows[j].id;
    } else {
      assert rows[j].id < rows[i].id;
    }
  }

  // ---- update_download_status ----

  /** The row after `UPDATE ... SET status = ?` (and `completed_at =
      CURRENT_TIMESTAMP` when the new status is 'completed'). */
  function WithStatus(row: Download, status: string, now: Timestamp): (r: Download)
    ensures r.status == status
    ensures status == CompletedStatus ==> r.completedAt == Some(now)
    ensures status != CompletedStatus ==> r.completedAt == row.completedAt
    ensures r.(status := row.status, completedAt := row.completedAt) == row
  {
    if status == CompletedStatus then row.(status := status, completedAt := Some(now))
    else row.(status := status)
  }

  /** The table after the UPDATE ... WHERE id = ?: only rows with that id
      change. */
  function StatusUpdated(rows: seq<Download>, downloadId: int, status: string, now: Timestamp): (r: seq<Download>)
    ensures |r| == |rows|
    ensures forall k :: 0 <= k < |rows| && rows[k].id != downloadId ==> r[k] == rows[k]
    ensures forall k :: 0 <= k < |rows| && rows[k].id == downloadId ==> r[k] == WithStatus(rows[k], status, now)
  {
    seq(|rows|, k requires 0 <= k < |rows| =>
      if rows[k].id == downloadId then WithStatus(rows[k], status, now) else rows[k])
  }

  /** An update leaves every id, and so the id invariant, in place. */
  lemma StatusUpdatedKeepsIds(rows: seq<Download>, nextId: int, downloadId: int, status: string, now: Timestamp)
    requires IdsIssued(rows, nextId)
    ensures IdsIssued(StatusUpdated(rows, downloadId, status, now), nextId)
  {
    var r := StatusUpdated(rows, downloadId, status, now);
    assert forall k :: 0 <= k < |rows| ==> r[k].id == rows[k].id;
  }

  /** An id no row carries changes nothing. */
  lemma StatusUpdateOfUnknownId(rows: seq<Download>, downloadId: int, status: string, now: Timestamp)
    requires forall k :: 0 <= k < |rows| ==> rows[k].id != downloadId
    ensures StatusUpdated(rows, downloadId, status, now) == rows
  {
  }

  /** A status other than 'completed' after completion keeps the
      completion time. */
  lemma CompletedAtSurvivesLaterStatus(row: Download, t1: Timestamp, t2: Timestamp, status: string)
    requires status != CompletedStatus
    ensures WithStatus(WithStatus(row, CompletedStatus, t1), status, t2).completedAt == Some(t1)
  {
  }

  // ---- get_user_downloads ----

  /** The rows of one user, in table order (`WHERE user_id = ?`). */
  function Owned(rows: seq<Download>, userId: int): (r: seq<Download>)
    ensures forall x :: x in r <==> x in rows && x.userId == userId
    ensures |r| <= |rows|
  {
    if rows == [] then []
    else
      var last := rows[|rows| - 1];
      Owned(rows[..|rows| - 1], userId) + (if last.userId == userId then [last] else [])
  }

  /** `ORDER BY created_at DESC` */
  predicate NewestFirst(rows: seq<Download>) {
    forall i, j :: 0 <= i < j < |rows| ==> rows[i].createdAt >= rows[j].createdAt
  }

  /** One row put into a newest-first list before the first row that is
      not newer than it. */
  function Insert(sorted: seq<Download>, d: Download): (r: seq<Download>)
    ensures multiset(r) == multiset(sorted) + multiset{d}
  {
    if sorted == [] then [d]
    else if d.createdAt >= sorted[0].createdAt then [d] + sorted
    else
      assert sorted == [sorted[0]] + sorted[1..];
      [sorted[0]] + Insert(sorted[1..], d)
  }

  lemma {:induction false} InsertSorted(sorted: seq<Download>, d: Download)
    requires NewestFirst(sorted)
    ensures NewestFirst(Insert(sorted, d))
  {
    if sorted == [] {
    } else if d.createdAt >= sorted[0].createdAt {
      ConsSorted(d, sorted);
    } else {
      var tail := sorted[1..];
      var rest := Insert(tail, d);
      InsertSorted(tail, d);
      assert rest[0] == d || rest[0] == tail[0];
      ConsSorted(sorted[0], rest);
    }
  }

  lemma ConsSorted(a: Download, rest: seq<Download>)
    requires NewestFirst(rest)
    requires rest != [] ==> a.createdAt >= rest[0].createdAt
    ensures NewestFirst([a] + rest)
  {
    var r := [a] + rest;
    forall i, j | 0 <= i < j < |r| ensures r[i].createdAt >= r[j].createdAt {
      if i == 0 && j > 1 {
        assert rest[0].createdAt >= rest[j - 1].createdAt;
      }
    }
  }

  /** The user's rows, each inserted newest-first as the table is scanned. */
  function UserRows(rows: seq<Download>, userId: int): (r: seq<Download>)
    ensures NewestFirst(r)
    ensures multiset(r) == multiset(Owned(rows, userId))
  {
    if rows == [] then []
    else
      var last := rows[|rows| - 1];
      var before := UserRows(rows[..|rows| - 1], userId);
      if last.userId == userId then
        InsertSorted(before, last);
        Insert(before, last)
      else before
  }

  /** A user who never downloaded anything lists nothing. */
  lemma NoRowsNoListing(rows: seq<Download>, userId: int)
    requires forall k :: 0 <= k < |rows| ==> rows[k].userId != userId
    ensures UserRows(rows, userId) == []
  {
  }

  // ---- update_user_session / get_user_session ----

  /** `INSERT OR REPLACE`: the user's one row, every column overwritten. */
  function Upsert(sessions: map<int, UserSession>, userId: int, state: string,
                  searchQuery: Option<string>, currentPage: int, now: Timestamp): (r: map<int, UserSession>)
    ensures r.Keys == sessions.Keys + {userId}
    ensures r[userId] == UserSession(state, searchQuery, currentPage, now)
    ensures forall u :: u in sessions && u != userId ==> r[u] == sessions[u]
  {
    sessions[userId := UserSession(state, searchQuery, currentPage, now)]
  }

  /** `get_user_session` on the table. */
  function ViewOf(sessions: map<int, UserSession>, userId: int): (r: Option<SessionView>)
    ensures r.None? <==> userId !in sessions
  {
    if userId in sessions then
      var s := sessions[userId];
      Some(SessionView(s.currentState, s.searchQuery, s.currentPage))
    else None
  }

  /** A read returns the last write for that user, whatever came before,
      and writes for other users do not disturb it. */
  lemma ReadsLastWrite(sessions: map<int, UserSession>, userId: int, other: int, state: string,
                       searchQuery: Option<string>, currentPage: int, now: Timestamp)
    requires other != userId
    ensures ViewOf(Upsert(sessions, userId, state, searchQuery, currentPage, now), userId)
            == Some(SessionView(state, searchQuery, currentPage))
    ensures ViewOf(Upsert(sessions, userId, state, searchQuery, currentPage, now), other)
            == ViewOf(sessions, other)
  {
  }

  /** A write that leaves out the query and the page clears them, however
      the previous row looked. */
  lemma StateOnlyWriteClears(sessions: map<int, UserSession>, userId: int, state: string, now: Timestamp)
    ensures ViewOf(Upsert(sessions, userId, state, None, 0, now), userId) == Some(SessionView(state, None, 0))
  {
  }

  class Store {
    var downloads: seq<Download>
    var sessions: map<int, UserSession>
    /** The next AUTOINCREMENT id: never reused, even after failures. */
    var nextId: int

    ghost predicate Valid()
      reads this
    {
      nextId >= 1 && IdsIssued(downloads, nextId)
    }

    /** `init_database` on a new file: both tables empty. */
    constructor()
      ensures Valid()
      ensures downloads == [] && sessions == map[] && nextId == 1
    {
      downloads := [];
      sessions := map[];
      nextId := 1;
    }

    /** `add_download`: the new row takes the next id, the default status
        and no completion time; None when the insert raises. */
    method AddDownload(userId: int, title: string, torrentId: string, magnetLink: string,
                       downloadPath: string, now: Timestamp, succeeds: bool)
      returns (id: Option<int>)
      requires Valid()
      modifies this
      ensures Valid()
      ensures !succeeds ==> id.None? && downloads == old(downloads) && nextId == old(nextId)
      ensures succeeds ==> id == Some(old(nextId)) && nextId == old(nextId) + 1
      ensures succeeds ==>
                downloads == old(downloads) + [Download(old(nextId), userId, title, torrentId, magnetLink,
                                                        downloadPath, DefaultStatus, now, None)]
      ensures succeeds ==> forall k :: 0 <= k < |old(downloads)| ==> old(downloads)[k].id < id.value
      ensures sessions == old(sessions)
    {
      if !succeeds {
        return None;
      }
      var row := Download(nextId, userId, title, torrentId, magnetLink, downloadPath, DefaultStatus, now, None);
      downloads := downloads + [row];
      id := Some(nextId);
      nextId := nextId + 1;
    }

    /** `update_download_status` */
    method UpdateDownloadStatus(downloadId: int, status: string, now: Timestamp, succeeds: bool)
      requires Valid()
      modifies this
      ensures Valid()
      ensures downloads == if succeeds then StatusUpdated(old(downloads), downloadId, status, now) else old(downloads)
      ensures sessions == old(sessions) && nextId == old(nextId)
    {
      if succeeds {
        StatusUpdatedKeepsIds(downloads, nextId, downloadId, status, now);
        downloads := StatusUpdated(downloads, downloadId, status, now);
      }
    }

    /** `get_user_downloads`: exactly the user's rows, newest first; the
        empty list when the query raises. */
    method GetUserDownloads(userId: int, succeeds: bool) returns (r: seq<Download>)
      ensures !succeeds ==> r == []
      ensures succeeds ==> NewestFirst(r) && multiset(r) == multiset(Owned(downloads, userId))
    {
      r := [];
      if !succeeds {
        return;
      }
      var i := 0;
      while i < |downloads|
        invariant 0 <= i <= |downloads|
        invariant r == UserRows(downloads[..i], userId)
      {
        assert downloads[..i + 1][..i] == downloads[..i];
        if downloads[i].userId == userId {
          r := Insert(r, downloads[i]);
        }
        i := i + 1;
      }
      assert downloads[..i] == downloads;
    }

    /** `update_user_session` */
    method UpdateUserSession(userId: int, state: string, searchQuery: Option<string>,
                             currentPage: int, now: Timestamp, succeeds: bool)
      modifies this
      ensures sessions == if succeeds then Upsert(old(sessions), userId, state, searchQuery, currentPage, now)
                          else old(sessions)
      ensures downloads == old(downloads) && nextId == old(nextId)
    {
      if succeeds {
        sessions := Upsert(sessions, userId, state, searchQuery, currentPage, now);
      }
    }

    /** `get_user_session`: None for a user never written, and when the
        query raises. */
    method GetUserSession(userId: int, succeeds: bool) returns (r: Option<SessionView>)
      ensures r == if succeeds then ViewOf(sessions, userId) else None
    {
      if !succeeds {
        return None;
      }
      r := ViewOf(sessions, userId);
    }
  }
}
