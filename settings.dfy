/** The configuration read from the environment when the settings class is
    loaded. The environment is a parameter; a value whose `int()`
    conversion raises makes loading fail as a whole. */
module Settings {
  import opened Wrappers
  import opened Text

  type Env = map<string, string>

  /** `os.getenv(key, default)` */
  function Getenv(env: Env, key: string, default: string): string {
    if key in env then env[key] else default
  }

  const DefaultPort: int := 8080
  const DefaultMoviesPath: string := "E:\\Movies"
  const DefaultTvShowsPath: string := "E:\\TVShows"

  /** The page size of search results. */
  const ResultsPerPage: nat := 8

  /** `int(os.getenv('QBITTORRENT_PORT', 8080))`: the default is already an
      int; a set value must read as one. */
  function QbittorrentPort(env: Env): (r: Option<int>)
    ensures "QBITTORRENT_PORT" !in env ==> r == Some(DefaultPort)
    ensures "QBITTORRENT_PORT" in env ==> r == ParseInt(env["QBITTORRENT_PORT"])
  {
    if "QBITTORRENT_PORT" in env then ParseInt(env["QBITTORRENT_PORT"]) else Some(DefaultPort)
  }

  /** A port written in decimal is read back. */
  lemma PortFromEnv(env: Env, port: int)
    requires "QBITTORRENT_PORT" in env && env["QBITTORRENT_PORT"] == IntToString(port)
    ensures QbittorrentPort(env) == Some(port)
  {
    ParseIntOfIntToString(port);
  }

  // ---- AUTHORIZED_USERS ----

  /** The tokens that survive `if user_id.strip()`: a stripped token is
      empty exactly when it is all whitespace (StripEmptyIffAllSpace). */
  function NonBlank(tokens: seq<string>): seq<string> {
    if tokens == [] then []
    else (if !AllSpace(tokens[0]) then [tokens[0]] else []) + NonBlank(tokens[1..])
  }

  /** Exactly the non-blank tokens are kept. */
  lemma {:induction false} NonBlankMembers(tokens: seq<string>)
    ensures forall t :: t in NonBlank(tokens) <==> t in tokens && !AllSpace(t)
  {
    if tokens != [] {
      NonBlankMembers(tokens[1..]);
      assert forall t :: t in tokens <==> t == tokens[0] || t in tokens[1..];
    }
  }

  /** `int(t.strip())`, None where it raises. */
  function ReadId(t: string): Option<int> { ParseInt(Strip(t)) }

  /** Every token read with `read`, in order; None as soon as one of
      them fails. */
  function ParseAll(tokens: seq<string>, read: string -> Option<int>): (r: Option<seq<int>>)
    ensures r.Some? <==> forall k :: 0 <= k < |tokens| ==> read(tokens[k]).Some?
    ensures r.Some? ==> |r.value| == |tokens|
                        && forall k :: 0 <= k < |tokens| ==> read(tokens[k]) == Some(r.value[k])
  {
    if tokens == [] then Some([])
    else
      var rest := ParseAll(tokens[1..], read);
      assert forall k :: 1 <= k < |tokens| ==> tokens[1..][k - 1] == tokens[k];
      match read(tokens[0])
      case None => None
      case Some(id) =>
        if rest.None? then None else Some([id] + rest.value)
  }

  /** The list comprehension: the non-blank tokens, each read as an int. */
  function ParseIds(tokens: seq<string>): Option<seq<int>> {
    ParseAll(NonBlank(tokens), ReadId)
  }

  /** `AUTHORIZED_USERS`: the comma-separated integers of the variable. */
  function AuthorizedUsers(env: Env): Option<seq<int>> {
    ParseIds(Split(Getenv(env, "AUTHORIZED_USERS", ""), ','))
  }

  /** One token that is not blank and not an integer fails the whole list:
      there is no partial allow-list. */
  lemma BadTokenFailsAll(env: Env, t: string)
    requires t in Split(Getenv(env, "AUTHORIZED_USERS", ""), ',')
    requires Strip(t) != [] && ReadId(t).None?
    ensures AuthorizedUsers(env).None?
  {
    var kept := NonBlank(Split(Getenv(env, "AUTHORIZED_USERS", ""), ','));
    StripEmptyIffAllSpace(t);
    NonBlankMembers(Split(Getenv(env, "AUTHORIZED_USERS", ""), ','));
    assert t in kept;
    var k :| 0 <= k < |kept| && kept[k] == t;
  }

  /** Unset, empty or blank, the allow-list is empty; nobody is let in. */
  lemma AuthorizedUsersUnset(env: Env)
    requires "AUTHORIZED_USERS" !in env || AllSpace(env["AUTHORIZED_USERS"])
    ensures AuthorizedUsers(env) == Some([])
  {
    var raw := Getenv(env, "AUTHORIZED_USERS", "");
    NoCommaInSpace(raw);
    assert Split(raw, ',') == [raw] by {
      assert IndexOf(raw, ',') == None;
    }
    assert [raw][1..] == [];
    assert NonBlank([raw]) == [];
  }

  lemma NoCommaInSpace(s: string)
    requires AllSpace(s)
    ensures ',' !in s
  {
    forall k | 0 <= k < |s| ensures s[k] != ',' {
      AllSpaceAt(s, k);
    }
  }

  /** `str(i)` for each id. */
  function Rendered(ids: seq<int>): (r: seq<string>)
    ensures |r| == |ids|
    ensures forall k :: 0 <= k < |r| ==> ',' !in r[k]
  {
    if ids == [] then []
    else
      IntToStringNoComma(ids[0]);
      [IntToString(ids[0])] + Rendered(ids[1..])
  }

  /** `",".join(str(i) for i in ids)` */
  function JoinIds(ids: seq<int>): string {
    if ids == [] then "" else Join(Rendered(ids), ',')
  }

  /** A list written back as comma-separated decimals is read back unchanged. */
  lemma AuthorizedUsersRoundTrip(env: Env, ids: seq<int>)
    requires "AUTHORIZED_USERS" in env && env["AUTHORIZED_USERS"] == JoinIds(ids)
    ensures AuthorizedUsers(env) == Some(ids)
  {
    if ids == [] {
      AuthorizedUsersUnset(env);
    } else {
      SplitJoin(Rendered(ids), ',');
      ParseIdsOfRendered(ids);
    }
  }

  lemma IntToStringNoComma(i: int)
    ensures ',' !in IntToString(i)
  {
    var d := NatToString(if i < 0 then -i else i);
    assert ',' !in d;
    if i < 0 { assert IntToString(i) == "-" + d; }
  }

  lemma {:induction false} RenderedEntries(ids: seq<int>)
    ensures forall k :: 0 <= k < |ids| ==> Rendered(ids)[k] == IntToString(ids[k])
  {
    if ids != [] {
      RenderedEntries(ids[1..]);
    }
  }

  lemma IntToStringStrips(i: int)
    ensures Strip(IntToString(i)) == IntToString(i)
  {
    IntToStringNoSpace(i);
    StripNoSpace(IntToString(i));
  }

  lemma ReadIdOfIntToString(i: int)
    ensures ReadId(IntToString(i)) == Some(i)
  {
    IntToStringStrips(i);
    ParseIntOfIntToString(i);
  }

  lemma {:induction false} NonBlankRendered(ids: seq<int>)
    ensures NonBlank(Rendered(ids)) == Rendered(ids)
  {
    if ids != [] {
      NonBlankRendered(ids[1..]);
      NonBlankRenderedCons(ids, NonBlank(Rendered(ids[1..])));
    }
  }

  lemma NonBlankRenderedCons(ids: seq<int>, tail: seq<string>)
    requires ids != [] && tail == NonBlank(Rendered(ids[1..]))
    ensures NonBlank(Rendered(ids)) == [IntToString(ids[0])] + tail
  {
    var t := IntToString(ids[0]);
    var rest := Rendered(ids[1..]);
    assert Rendered(ids) == [t] + rest;
    IntToStringNoSpace(ids[0]);
    assert !IsSpace(t[0]);
    NonBlankCons(t, rest);
  }

  lemma NonBlankCons(t: string, rest: seq<string>)
    requires !AllSpace(t)
    ensures NonBlank([t] + rest) == [t] + NonBlank(rest)
  {
    assert ([t] + rest)[0] == t && ([t] + rest)[1..] == rest;
  }

  lemma ParseIdsOfRendered(ids: seq<int>)
    ensures ParseIds(Rendered(ids)) == Some(ids)
  {
    var ts := Rendered(ids);
    NonBlankRendered(ids);
    RenderedEntries(ids);
    forall k | 0 <= k < |ts| ensures ReadId(ts[k]) == Some(ids[k]) {
      ReadIdOfIntToString(ids[k]);
    }
    ParseAllOf(ts, ReadId, ids);
  }

  lemma ParseAllOf(tokens: seq<string>, read: string -> Option<int>, ids: seq<int>)
    requires |tokens| == |ids| && forall k :: 0 <= k < |tokens| ==> read(tokens[k]) == Some(ids[k])
    ensures ParseAll(tokens, read) == Some(ids)
  {
    var r := ParseAll(tokens, read);
    assert r.value == ids;
  }

  // ---- the loaded configuration ----

  datatype Config = Config(
    qbittorrentPort: int,
    moviesDownloadPath: string,
    tvShowsDownloadPath: string,
    authorizedUsers: seq<int>)

  /** The settings class body: None when the port or the allow-list raises. */
  function Load(env: Env): (r: Option<Config>)
    ensures r.Some? <==> QbittorrentPort(env).Some? && AuthorizedUsers(env).Some?
    ensures r.Some? ==> r.value.moviesDownloadPath == Getenv(env, "MOVIES_DOWNLOAD_PATH", DefaultMoviesPath)
                        && r.value.tvShowsDownloadPath == Getenv(env, "TVSHOWS_DOWNLOAD_PATH", DefaultTvShowsPath)
  {
    match QbittorrentPort(env)
    case None => None
    case Some(port) =>
      match AuthorizedUsers(env)
      case None => None
      case Some(users) =>
        Some(Config(port, Getenv(env, "MOVIES_DOWNLOAD_PATH", DefaultMoviesPath),
                    Getenv(env, "TVSHOWS_DOWNLOAD_PATH", DefaultTvShowsPath), users))
  }

  /** With nothing set, the defaults apply. */
  lemma LoadDefaults()
    ensures Load(map[]) == Some(Config(DefaultPort, DefaultMoviesPath, DefaultTvShowsPath, []))
  {
    AuthorizedUsersUnset(map[]);
  }
}
