/** The Prowlarr search client: the JSON items of a search response are
    filtered by size and seeders, dropped when they duplicate a torrent
    already in qBittorrent, classified, and paginated locally. */
module Prowlarr {
  import opened Wrappers
  import opened Text
  import opened Patterns
  import opened Titles
  import opened Doubles
  import Helpers
  import Settings

  const MaxSizeBytes: int := 150 * 1024 * 1024 * 1024
  const MinSeeders: int := 1
  const MovieCategories: seq<int> := [2000, 2010, 2030, 2040, 2045, 2050, 2070, 2080]
  const TvEpisodeCategories: seq<int> := [100032]
  const TvBoxsetCategories: seq<int> := [100027]
  /** Results requested from the API; pagination happens locally. */
  const ApiLimit: nat := 50

  /** A decoded JSON value. Decimal numbers are not represented. */
  datatype Json =
    | JNull
    | JBool(b: bool)
    | JInt(i: int)
    | JStr(s: string)
    | JList(items: seq<Json>)
    | JObject(fields: map<string, Json>)

  /** `d.get(key, default)` */
  function Get(fields: map<string, Json>, key: string, default: Json): Json {
    if key in fields then fields[key] else default
  }

  /** `str(v)` for the scalar values; lists and dicts render as "". */
  function PyStr(v: Json): string {
    match v
    case JNull => "None"
    case JBool(b) => if b then "True" else "False"
    case JInt(i) => IntToString(i)
    case JStr(s) => s
    case _ => ""
  }

  /** `int(float(v))` inside `try`/`except Exception: 0`: the value is
      rounded to a double, which `int` truncates toward zero; a value
      `float` cannot hold raises and gives 0. */
  function Coerce(v: Json): int {
    match v
    case JInt(i) => Truncated(i < 0, FloatOfInt(Magnitude(i)))
    case JBool(b) => if b then 1 else 0
    case JStr(s) =>
      (match ParseInt(s)
       case Some(n) => Truncated(n < 0, FloatOfInt(Magnitude(n)))
       case None =>
         (match ParseDecimal(s)
          case Some(x) => Truncated(x.negative, DoubleTrunc(x.num, x.den))
          case None => 0))
    case _ => 0
  }

  function Magnitude(i: int): nat { if i < 0 then -i else i }

  /** The truncated double with its sign, 0 when `float` overflowed. */
  function Truncated(negative: bool, magnitude: Option<nat>): int {
    match magnitude
    case None => 0
    case Some(m) => if negative then -(m as int) else m
  }

  /** An integer reads the same sent as a number or as its text, and
      comes back exactly while its magnitude is at most 2^53. */
  lemma CoerceIntText(i: int)
    ensures Coerce(JStr(IntToString(i))) == Coerce(JInt(i))
    ensures -(Two53 as int) <= i <= Two53 ==> Coerce(JStr(IntToString(i))) == i
  {
    ParseIntOfIntToString(i);
    if -(Two53 as int) <= i <= Two53 {
      CoerceExact(i);
    }
  }

  /** Up to 2^53 in magnitude every integer is a double. */
  lemma CoerceExact(i: int)
    requires -(Two53 as int) <= i <= Two53
    ensures Coerce(JInt(i)) == i
  {
    FloatOfIntExact(Magnitude(i));
  }

  /** Between 2^53 and 2^54 an odd count is read as the neighbouring
      multiple of 4. */
  lemma CoerceAbove53(i: int)
    requires Two53 <= i < 2 * Two53
    ensures i % 2 == 0 ==> Coerce(JInt(i)) == i
    ensures i % 2 == 1 && (i / 2) % 2 == 0 ==> Coerce(JInt(i)) == i - 1
    ensures i % 2 == 1 && (i / 2) % 2 == 1 ==> Coerce(JInt(i)) == i + 1
  {
    FloatOfIntAbove53(i);
  }

  /** The smallest integer that is not read back: 2^53 + 1 reads as 2^53. */
  lemma CoerceFirstInexact()
    ensures Coerce(JInt(Two53 + 1)) == Two53
  {
    CoerceAbove53(Two53 + 1);
  }

  /** From 2^1024 in magnitude `float` overflows, as a number or as text,
      and the value counts as 0. */
  lemma CoerceOverflow(i: int)
    requires i >= DoubleLimit || i <= -(DoubleLimit as int)
    ensures Coerce(JInt(i)) == 0
    ensures Coerce(JStr(IntToString(i))) == 0
  {
    FloatOfIntOverflow(Magnitude(i));
    CoerceIntText(i);
  }

  /** A decimal text reads as its integer part, or one more where the
      fraction is so near 1 that the double rounds up. */
  lemma CoerceDecimalText(ip: string, fp: string)
    requires DigitPart(ip) && DigitPart(fp) && DigitsValue(ip) < Two52
    ensures Coerce(JStr(ip + "." + fp)) == DigitsValue(ip) || Coerce(JStr(ip + "." + fp)) == DigitsValue(ip) + 1
  {
    var body := ip + "." + fp;
    DecimalTextParse(ip, fp);
    DecimalValueOfParts(ip, fp);
    var x := DecimalValue(body).value;
    BelowOfDiv(x.num, Two52, x.den);
    DoubleTruncSmall(x.num, x.den);
  }

  /** "ip.fp" is no integer text, and reads as the decimal it spells. */
  lemma DecimalTextParse(ip: string, fp: string)
    requires DigitPart(ip) && DigitPart(fp)
    ensures ParseInt(ip + "." + fp).None?
    ensures ParseDecimal(ip + "." + fp) == DecimalValue(ip + "." + fp)
  {
    var body := ip + "." + fp;
    DecimalTextNoSpace(ip, fp);
    ParseNoSpace(body);
    DecimalTextNotInt(ip, fp);
    assert body[0] == ip[0];
    SignedDecimalUnsigned(body);
  }

  lemma DecimalTextNotInt(ip: string, fp: string)
    requires DigitPart(ip) && DigitPart(fp)
    ensures SignedInt(ip + "." + fp).None?
  {
    var body := ip + "." + fp;
    assert body[0] == ip[0];
    assert body[|ip|] == '.';
  }

  lemma DecimalTextNoSpace(ip: string, fp: string)
    requires DigitPart(ip) && DigitPart(fp)
    ensures NoSpace(ip + "." + fp)
  {
    var body := ip + "." + fp;
    forall k | 0 <= k < |body| ensures !IsSpace(body[k]) {
      if k < |ip| { assert body[k] == ip[k]; }
      else if k > |ip| { assert body[k] == fp[k - |ip| - 1]; }
    }
  }

  predicate NoDigits(s: string) { forall k :: 0 <= k < |s| ==> !IsDigit(s[k]) }

  lemma NoDigitsSlice(s: string, i: nat, j: nat)
    requires NoDigits(s) && i <= j <= |s|
    ensures NoDigits(s[i..j]) && !DigitPart(s[i..j])
  {
    assert forall k :: 0 <= k < j - i ==> s[i..j][k] == s[i + k];
  }

  /** Text without a single digit cannot be parsed and counts as 0. */
  lemma CoerceNoDigits(s: string)
    requires NoDigits(s)
    ensures Coerce(JStr(s)) == 0
  {
    var t := Strip(s);
    var i, j := StripBounds(s);
    assert NoDigits(t) by {
      forall k | 0 <= k < |t| ensures !IsDigit(t[k]) { assert t[k] == s[i + k]; }
    }
    SignedIntNoDigits(t);
    SignedDecimalNoDigits(t);
  }

  lemma SignedIntNoDigits(t: string)
    requires NoDigits(t)
    ensures SignedInt(t).None?
  {
    NoDigitsSlice(t, 0, |t|);
    assert t[0..|t|] == t;
    if |t| >= 1 {
      NoDigitsSlice(t, 1, |t|);
      assert t[1..|t|] == t[1..];
    }
  }

  lemma SignedDecimalNoDigits(t: string)
    requires NoDigits(t)
    ensures SignedDecimal(t).None?
  {
    var body := if |t| >= 1 && (t[0] == '-' || t[0] == '+') then t[1..] else t;
    var off := |t| - |body|;
    assert forall i :: 0 <= i < |body| ==> body[i] == t[off + i];
    DecimalValueNoDigits(body);
  }

  lemma DecimalValueNoDigits(body: string)
    requires NoDigits(body)
    ensures DecimalValue(body).None?
  {
    match IndexOf(body, '.')
    case None =>
    case Some(k) =>
      var ip := body[..k];
      var fp := body[k + 1..];
      assert ip != [] ==> !DigitPart(ip) by {
        if ip != [] { assert ip[0] == body[0]; }
      }
      assert fp != [] ==> !DigitPart(fp) by {
        if fp != [] { assert fp[0] == body[k + 1]; }
      }
  }

  // ---- admission of one item ----

  function TitleOf(fields: map<string, Json>): string {
    PyStr(Get(fields, "title", JStr("")))
  }

  function SizeOf(fields: map<string, Json>): int {
    Coerce(Get(fields, "size", JInt(0)))
  }

  function SeedersOf(fields: map<string, Json>): int {
    Coerce(Get(fields, "seeders", JInt(0)))
  }

  function LeechersOf(fields: map<string, Json>): int {
    Coerce(Get(fields, "leechers", JInt(0)))
  }

  /** The comparison keys of the existing torrents' names. */
  function Keys(existing: seq<string>): (keys: seq<string>)
    ensures |keys| == |existing|
    ensures forall m :: 0 <= m < |existing| ==> keys[m] == DedupKey(existing[m])
  {
    seq(|existing|, m requires 0 <= m < |existing| => DedupKey(existing[m]))
  }

  /** The key overlaps one of the existing keys. */
  predicate OverlapsAny(key: string, keys: seq<string>) {
    exists m :: 0 <= m < |keys| && Overlaps(key, keys[m])
  }

  /** The search result overlaps the cleaned title of some existing torrent. */
  predicate IsDuplicate(name: string, existing: seq<string>) {
    OverlapsAny(DedupKey(name), Keys(existing))
  }

  /** The name of a result whose whole name is metadata is a duplicate of any
      existing torrent. */
  lemma EmptyKeyIsDuplicate(name: string, existing: seq<string>)
    requires DedupKey(name) == [] && |existing| > 0
    ensures IsDuplicate(name, existing)
  {
    EmptyKeyOverlaps(Keys(existing)[0]);
  }

  /** An item survives the loop: it is a dict (anything else raises inside
      the `try` and is skipped), smaller than 150 GiB, with at least one
      seeder, and not a duplicate when there are existing torrents. */
  predicate Admit(item: Json, existing: seq<string>) {
    item.JObject?
    && SizeOf(item.fields) < MaxSizeBytes
    && SeedersOf(item.fields) >= MinSeeders
    && !(|existing| > 0 && IsDuplicate(TitleOf(item.fields), existing))
  }

  /** The ceiling is strict and the floor inclusive. */
  lemma AdmitBoundaries(fields: map<string, Json>, existing: seq<string>)
    requires SeedersOf(fields) >= MinSeeders && |existing| == 0
    ensures SizeOf(fields) == MaxSizeBytes ==> !Admit(JObject(fields), existing)
    ensures SizeOf(fields) == MaxSizeBytes - 1 ==> Admit(JObject(fields), existing)
    ensures SeedersOf(fields) == 1 && SizeOf(fields) < MaxSizeBytes ==> Admit(JObject(fields), existing)
  {
  }

  /** A seeder count beyond the double range overflows `float`, reads as 0
      and drops the item. */
  lemma HugeSeedersDropped(fields: map<string, Json>, existing: seq<string>, k: int)
    requires Get(fields, "seeders", JInt(0)) == JInt(k) && k >= DoubleLimit
    ensures SeedersOf(fields) == 0
    ensures !Admit(JObject(fields), existing)
  {
    CoerceOverflow(k);
  }

  /** A size beyond the double range reads as 0 and passes the ceiling. */
  lemma HugeSizeReadsZero(fields: map<string, Json>, k: int)
    requires Get(fields, "size", JInt(0)) == JInt(k) && k >= DoubleLimit
    ensures SizeOf(fields) == 0 < MaxSizeBytes
  {
    CoerceOverflow(k);
  }

  // ---- categories ----

  function WrapCategory(c: Json): Json {
    JObject(map["id" := c, "name" := JStr(PyStr(c))])
  }

  /** `item.get('categories', [])`, replaced by [] when not a list, and
      wrapped into `{'id': c, 'name': str(c)}` dicts when the first element
      is an int (bools are ints in Python). */
  function CategoryList(fields: map<string, Json>): (cats: seq<Json>)
    ensures Get(fields, "categories", JList([])).JList? ==> |cats| == |Get(fields, "categories", JList([])).items|
  {
    var c := Get(fields, "categories", JList([]));
    var cats := if c.JList? then c.items else [];
    if |cats| > 0 && (cats[0].JInt? || cats[0].JBool?) then
      seq(|cats|, i requires 0 <= i < |cats| => WrapCategory(cats[i]))
    else cats
  }

  /** The label a single category entry decides, if any. */
  function CategoryLabelOf(cat: Json): Option<string> {
    if cat.JObject? && "id" in cat.fields then
      match cat.fields["id"]
      case JInt(id) =>
        if id == 2000 then Some("movies")
        else if id == 5000 then Some("tv")
        else if id == 100027 then Some("tv_boxsets")
        else if id == 100032 then Some("tv_episodes")
        else None
      case _ => None
    else None
  }

  /** The label of the first deciding entry, "other" when none decides. */
  function FirstLabel(cats: seq<Json>): string {
    if cats == [] then "other" else CategoryLabelOf(cats[0]).GetOr(FirstLabel(cats[1..]))
  }

  function CategoryLabel(cats: seq<Json>): string {
    if cats == [] then "unknown" else FirstLabel(cats)
  }

  /** `_get_category`: a loop with early returns. */
  method GetCategory(cats: seq<Json>) returns (r: string)
    ensures r == CategoryLabel(cats)
  {
    if cats == [] {
      return "unknown";
    }
    var i := 0;
    while i < |cats|
      invariant 0 <= i <= |cats|
      invariant FirstLabel(cats) == FirstLabel(cats[i..])
    {
      assert cats[i..][1..] == cats[i + 1..];
      var l := CategoryLabelOf(cats[i]);
      if l.Some? {
        return l.value;
      }
      i := i + 1;
    }
    return "other";
  }

  /** The label is the one of the first deciding entry, whatever follows. */
  lemma {:induction false} FirstLabelIs(cats: seq<Json>, i: nat)
    requires i <= |cats|
    requires forall j :: 0 <= j < i ==> CategoryLabelOf(cats[j]).None?
    requires i < |cats| ==> CategoryLabelOf(cats[i]).Some?
    ensures FirstLabel(cats) == if i < |cats| then CategoryLabelOf(cats[i]).value else "other"
    decreases i
  {
    if i > 0 {
      FirstLabelIs(cats[1..], i - 1);
    }
  }

  /** "unknown" only for an empty list; every label is one of the five a
      non-empty list can get. */
  lemma CategoryLabelRange(cats: seq<Json>)
    ensures CategoryLabel(cats) == "unknown" <==> cats == []
    ensures cats != [] ==> CategoryLabel(cats) in {"movies", "tv", "tv_boxsets", "tv_episodes", "other"}
  {
    if cats != [] {
      FirstLabelRange(cats);
    }
  }

  lemma {:induction false} FirstLabelRange(cats: seq<Json>)
    ensures FirstLabel(cats) in {"movies", "tv", "tv_boxsets", "tv_episodes", "other"}
    decreases |cats|
  {
    if cats != [] {
      FirstLabelRange(cats[1..]);
    }
  }

  /** Of plain integer ids, only 2000, 5000, 100027 and 100032 decide; any
      other movie sub-category such as 2010 does not. */
  lemma WrappedIdLabel(id: int)
    ensures CategoryLabelOf(WrapCategory(JInt(id))).Some?
            <==> id == 2000 || id == 5000 || id == 100027 || id == 100032
    ensures CategoryLabelOf(WrapCategory(JInt(2000))) == Some("movies")
    ensures CategoryLabelOf(WrapCategory(JInt(2010))).None?
  {
  }

  // ---- freeleech ----

  const FreeleechIndicators: seq<string> :=
    ["freeleech", "fl", "free", "0%", "0x", "free leech", "free-leech", "free_leech"]

  /** 'freeleech' among the lower-cased indexer flags (when they form a list). */
  predicate FlaggedFreeleech(fields: map<string, Json>) {
    var flags := Get(fields, "indexerFlags", JList([]));
    flags.JList? && exists i :: 0 <= i < |flags.items| && Lower(PyStr(flags.items[i])) == "freeleech"
  }

  /** `_is_freeleech`: the flags, else any indicator in the lower-cased title. */
  predicate IsFreeleech(fields: map<string, Json>) {
    FlaggedFreeleech(fields)
    || exists i :: 0 <= i < |FreeleechIndicators| && Contains(Lower(TitleOf(fields)), FreeleechIndicators[i])
  }

  /** Four indicators suffice: each of the others contains "free". So every
      title containing "fl" or "free" (e.g. "Flash") is flagged. */
  lemma FreeleechShortList(fields: map<string, Json>)
    ensures IsFreeleech(fields) <==>
      FlaggedFreeleech(fields)
      || Contains(Lower(TitleOf(fields)), "fl") || Contains(Lower(TitleOf(fields)), "free")
      || Contains(Lower(TitleOf(fields)), "0%") || Contains(Lower(TitleOf(fields)), "0x")
  {
    var t := Lower(TitleOf(fields));
    assert FreeleechIndicators[1] == "fl" && FreeleechIndicators[2] == "free";
    assert FreeleechIndicators[3] == "0%" && FreeleechIndicators[4] == "0x";
    forall i | 0 <= i < |FreeleechIndicators| && Contains(t, FreeleechIndicators[i])
      ensures Contains(t, "fl") || Contains(t, "free") || Contains(t, "0%") || Contains(t, "0x")
    {
      var ind := FreeleechIndicators[i];
      if i == 0 || i >= 5 {
        assert "free" <= ind;
        ContainsTrans(t, ind, "free");
      }
    }
  }

  // ---- the formatted record ----

  const QualityList: seq<string> := ["BluRay", "WEB-DL", "HDRip", "BRRip", "DVDRip", "HDTV"]
  const CodecList: seq<string> := ["x264", "x265", "H.264", "H.265", "AVC", "HEVC"]

  datatype FormattedTorrent = FormattedTorrent(
    id: Json,
    name: string,
    size: Helpers.HumanSize,
    seeders: int,
    leechers: int,
    category: string,
    freeleech: bool,
    year: Option<string>,
    quality: Option<string>,
    resolution: Option<string>,
    codec: Option<string>,
    group: Option<string>,
    magnetLink: Json,
    downloadUrl: Json)

  /** The record built for an admitted item. */
  function FormatItem(fields: map<string, Json>): (t: FormattedTorrent)
    ensures t.name == TitleOf(fields) && t.seeders == SeedersOf(fields)
  {
    var name := TitleOf(fields);
    FormattedTorrent(
      Get(fields, "guid", Get(fields, "link", JStr(""))),
      name,
      Helpers.HumanSizeOf(SizeOf(fields), |Helpers.SizeUnits| - 1),
      SeedersOf(fields),
      LeechersOf(fields),
      CategoryLabel(CategoryList(fields)),
      IsFreeleech(fields),
      ParenYear(name),
      FirstContainedCI(QualityList, name),
      Resolution(name),
      FirstContainedCI(CodecList, name),
      TrailingGroup(name),
      Get(fields, "link", JStr("")),
      Get(fields, "downloadUrl", JStr("")))
  }

  /** The items `admit` accepts, each formatted by `format`, in input order. */
  function Filtered(data: seq<Json>, admit: Json -> bool, format: Json -> FormattedTorrent): (kept: seq<FormattedTorrent>)
    ensures |kept| <= |data|
  {
    if data == [] then []
    else
      var last := data[|data| - 1];
      Filtered(data[..|data| - 1], admit, format) + (if admit(last) then [format(last)] else [])
  }

  lemma {:induction false} FilteredConcat(a: seq<Json>, b: seq<Json>, admit: Json -> bool, format: Json -> FormattedTorrent)
    ensures Filtered(a + b, admit, format) == Filtered(a, admit, format) + Filtered(b, admit, format)
    decreases |b|
  {
    if b == [] {
      assert a + b == a;
    } else {
      var b' := b[..|b| - 1];
      var x := b[|b| - 1];
      var t := if admit(x) then [format(x)] else [];
      FilteredConcat(a, b', admit, format);
      assert (a + b)[..|a + b| - 1] == a + b';
      assert (a + b)[|a + b| - 1] == x;
      assert Filtered(a + b, admit, format) == Filtered(a + b', admit, format) + t;
      assert Filtered(b, admit, format) == Filtered(b', admit, format) + t;
      AppendAssoc(Filtered(a, admit, format), Filtered(b', admit, format), t);
    }
  }

  /** The position of the item a kept record was formatted from. */
  lemma {:induction false} FilteredSource(data: seq<Json>, admit: Json -> bool, format: Json -> FormattedTorrent,
                                          t: FormattedTorrent) returns (i: nat)
    requires t in Filtered(data, admit, format)
    ensures i < |data| && admit(data[i]) && t == format(data[i])
    decreases |data|
  {
    var init := data[..|data| - 1];
    if t in Filtered(init, admit, format) {
      i := FilteredSource(init, admit, format, t);
      assert data[i] == init[i];
    } else {
      i := |data| - 1;
    }
  }

  function AdmitIn(existing: seq<string>): Json -> bool {
    item => Admit(item, existing)
  }

  /** The record of an object item (every admitted item is one). */
  function FormatJson(item: Json): FormattedTorrent {
    FormatItem(if item.JObject? then item.fields else map[])
  }

  /** The admitted items, formatted, in input order. */
  function Kept(data: seq<Json>, existing: seq<string>): (kept: seq<FormattedTorrent>)
    ensures |kept| <= |data|
  {
    Filtered(data, AdmitIn(existing), FormatJson)
  }

  /** Filtering commutes with concatenation: results keep their input order. */
  lemma KeptConcat(a: seq<Json>, b: seq<Json>, existing: seq<string>)
    ensures Kept(a + b, existing) == Kept(a, existing) + Kept(b, existing)
  {
    FilteredConcat(a, b, AdmitIn(existing), FormatJson);
  }

  /** Every kept record comes from an admitted item, so it has fewer than
      150 GiB and at least one seeder. */
  lemma KeptAreAdmitted(data: seq<Json>, existing: seq<string>, t: FormattedTorrent)
    requires t in Kept(data, existing)
    ensures exists i :: 0 <= i < |data| && Admit(data[i], existing) && t == FormatItem(data[i].fields)
    ensures t.seeders >= MinSeeders
  {
    var i := FilteredSource(data, AdmitIn(existing), FormatJson, t);
    assert AdmitIn(existing)(data[i]);
    assert Admit(data[i], existing);
    assert t == FormatItem(data[i].fields);
  }

  // ---- pagination ----

  datatype SearchPage = SearchPage(
    torrents: seq<FormattedTorrent>,
    totalPages: int,
    currentPage: int,
    totalResults: int)

  /** The page dict: a Python slice of the kept list and the totals. */
  function PageOf(kept: seq<FormattedTorrent>, page: int, perPage: nat): SearchPage
    requires perPage > 0
  {
    SearchPage(
      PySlice(kept, page * perPage, page * perPage + perPage),
      (|kept| + perPage - 1) / perPage,
      page,
      |kept|)
  }

  function Min(a: int, b: int): int { if a <= b then a else b }

  /** A non-negative page is the window [page*n, page*n+n) cut to the list;
      past the end it is empty, and the totals never depend on the page. */
  lemma PageWindow(kept: seq<FormattedTorrent>, page: int, perPage: nat)
    requires perPage > 0 && page >= 0
    ensures var r := PageOf(kept, page, perPage);
      && page * perPage <= page * perPage + perPage
      && r.torrents == kept[Min(page * perPage, |kept|)..Min(page * perPage + perPage, |kept|)]
      && (page >= r.totalPages ==> r.torrents == [])
      && r.totalResults == |kept| && r.currentPage == page
  {
    var r := PageOf(kept, page, perPage);
    var t := r.totalPages;
    if page >= t {
      assert t * perPage >= |kept| by { CeilDiv(|kept|, perPage); }
      assert page * perPage >= t * perPage by { MulMono(t, page, perPage); }
    }
  }

  lemma MulMono(a: nat, b: nat, n: nat)
    requires a <= b
    ensures a * n <= b * n
  {
  }

  /** `(k + n - 1) // n` is the least page count covering k results. */
  lemma CeilDiv(k: nat, n: nat)
    requires n > 0
    ensures ((k + n - 1) / n) * n >= k
    ensures k > 0 ==> ((k + n - 1) / n - 1) * n < k
    ensures (k + n - 1) / n == 0 <==> k == 0
  {
    var t := (k + n - 1) / n;
    assert t * n + (k + n - 1) % n == k + n - 1;
  }

  /** Page `page` starts at offset `x`. */
  lemma PageSliceAt(kept: seq<FormattedTorrent>, page: int, perPage: nat, x: int)
    requires perPage > 0 && x == page * perPage && x >= 0
    ensures PageOf(kept, page, perPage).torrents == kept[Min(x, |kept|)..Min(x + perPage, |kept|)]
  {
  }

  lemma MulStep(p: nat, n: nat)
    requires p > 0
    ensures p * n == (p - 1) * n + n
  {
  }

  /** Pages 0 .. p-1 one after another. */
  function PagesUpTo(kept: seq<FormattedTorrent>, perPage: nat, p: nat): seq<FormattedTorrent>
    requires perPage > 0
  {
    if p == 0 then [] else PagesUpTo(kept, perPage, p - 1) + PageOf(kept, p - 1, perPage).torrents
  }

  /** Reading every page in order gives back each kept result exactly once. */
  lemma PagesCoverResults(kept: seq<FormattedTorrent>, perPage: nat)
    requires perPage > 0
    ensures PagesUpTo(kept, perPage, PageOf(kept, 0, perPage).totalPages) == kept
  {
    var t := PageOf(kept, 0, perPage).totalPages;
    CeilDiv(|kept|, perPage);
    PagesPrefix(kept, perPage, t);
  }

  lemma {:induction false} PagesPrefix(kept: seq<FormattedTorrent>, perPage: nat, p: nat)
    requires perPage > 0
    ensures p * perPage >= 0
    ensures PagesUpTo(kept, perPage, p) == kept[..Min(p * perPage, |kept|)]
  {
    if p > 0 {
      PagesPrefix(kept, perPage, p - 1);
      var x := (p - 1) * perPage;
      var y := p * perPage;
      assert y == x + perPage by { MulStep(p, perPage); }
      var a := Min(x, |kept|);
      var b := Min(y, |kept|);
      PageSliceAt(kept, p - 1, perPage, x);
      assert PagesUpTo(kept, perPage, p) == kept[..a] + kept[a..b];
      assert kept[..a] + kept[a..b] == kept[..b];
    }
  }

  // ---- the loop of _format_search_results ----

  /** The existing-torrent names: a failed fetch leaves the list empty. */
  function ExistingNames(fetch: Option<seq<string>>): seq<string> {
    fetch.GetOr([])
  }

  lemma KeptStep(data: seq<Json>, i: nat, existing: seq<string>)
    requires i < |data|
    ensures Kept(data[..i + 1], existing)
            == Kept(data[..i], existing) + (if Admit(data[i], existing) then [FormatItem(data[i].fields)] else [])
  {
    var prefix := data[..i + 1];
    assert prefix[..|prefix| - 1] == data[..i] && prefix[|prefix| - 1] == data[i];
    assert AdmitIn(existing)(data[i]) == Admit(data[i], existing);
  }

  /** The inner loop over the existing torrents' keys, stopping at the first
      that overlaps the result's key. */
  method CheckDuplicate(key: string, keys: seq<string>) returns (isDuplicate: bool)
    ensures isDuplicate == OverlapsAny(key, keys)
  {
    var j := 0;
    while j < |keys|
      invariant 0 <= j <= |keys|
      invariant forall m :: 0 <= m < j ==> !Overlaps(key, keys[m])
    {
      if Contains(keys[j], key) || Contains(key, keys[j]) {
        return true;
      }
      j := j + 1;
    }
    return false;
  }

  /** The record of an admitted item, with the category and size formatted
      by their own loops. */
  method BuildRecord(fields: map<string, Json>) returns (t: FormattedTorrent)
    ensures t == FormatItem(fields)
  {
    var name := TitleOf(fields);
    var category := GetCategory(CategoryList(fields));
    var sizeText := Helpers.FormatSize(SizeOf(fields));
    t := FormattedTorrent(
      Get(fields, "guid", Get(fields, "link", JStr(""))),
      name, sizeText, SeedersOf(fields), LeechersOf(fields), category, IsFreeleech(fields),
      ParenYear(name), FirstContainedCI(QualityList, name), Resolution(name),
      FirstContainedCI(CodecList, name), TrailingGroup(name),
      Get(fields, "link", JStr("")), Get(fields, "downloadUrl", JStr("")));
  }

  /** The checks of the loop body, each `continue` a rejection: an object,
      under the size ceiling, with enough seeders and, when there are
      existing torrents, not a duplicate of one. */
  method AdmitItem(item: Json, existing: seq<string>, existingKeys: seq<string>) returns (admitted: bool)
    requires existingKeys == Keys(existing)
    ensures admitted == Admit(item, existing)
  {
    if !item.JObject? {
      return false;
    }
    var fields := item.fields;
    if SizeOf(fields) >= MaxSizeBytes || SeedersOf(fields) < MinSeeders {
      return false;
    }
    if |existing| > 0 {
      var isDuplicate := CheckDuplicate(DedupKey(TitleOf(fields)), existingKeys);
      if isDuplicate {
        return false;
      }
    }
    return true;
  }

  /** One pass of the loop body: the item at `i` is checked and, when
      admitted, formatted and appended. */
  method KeepItem(data: seq<Json>, i: nat, existing: seq<string>, existingKeys: seq<string>,
                  torrents: seq<FormattedTorrent>) returns (next: seq<FormattedTorrent>)
    requires i < |data| && existingKeys == Keys(existing)
    requires torrents == Kept(data[..i], existing)
    ensures next == Kept(data[..i + 1], existing)
  {
    var item := data[i];
    KeptStep(data, i, existing);
    var admitted := AdmitItem(item, existing, existingKeys);
    next := torrents;
    if admitted {
      var formatted := BuildRecord(item.fields);
      next := torrents + [formatted];
    }
  }

  /** `_format_search_results`: each item is coerced, checked, compared with
      the existing torrents, formatted and appended in input order; then the
      kept list is paginated. */
  method FormatSearchResults(data: seq<Json>, page: int, perPage: nat, fetch: Option<seq<string>>)
    returns (r: SearchPage)
    requires perPage > 0
    ensures r == PageOf(Kept(data, ExistingNames(fetch)), page, perPage)
  {
    var existing := ExistingNames(fetch);
    var existingKeys := Keys(existing);
    var torrents: seq<FormattedTorrent> := [];
    var i := 0;
    while i < |data|
      invariant 0 <= i <= |data|
      invariant torrents == Kept(data[..i], existing)
    {
      torrents := KeepItem(data, i, existing, existingKeys, torrents);
      i := i + 1;
    }
    assert data[..|data|] == data;
    r := SearchPage(
      PySlice(torrents, page * perPage, page * perPage + perPage),
      (|torrents| + perPage - 1) / perPage,
      page,
      |torrents|);
  }

  // ---- search_torrents ----

  /** The query parameters sent to the search endpoint. */
  datatype SearchRequest = SearchRequest(
    query: string,
    indexerIds: string,
    limit: nat,
    offset: nat,
    categories: seq<string>)

  function CategoryIds(category: Option<string>): seq<int> {
    if category == Some("movies") then MovieCategories
    else if category == Some("tv_boxsets") then TvBoxsetCategories
    else if category == Some("tv_episodes") then TvEpisodeCategories
    else []
  }

  /** The request for a query: the raw query (the cleaned title is only
      logged), the first indexer, 50 results from offset 0, and the
      category ids as strings (none for an unknown category). */
  function SearchRequestFor(query: string, category: Option<string>): (req: SearchRequest)
    ensures req.query == query && req.limit == ApiLimit && req.offset == 0
    ensures |req.categories| == |CategoryIds(category)|
    ensures forall i :: 0 <= i < |req.categories| ==> ParseInt(req.categories[i]) == Some(CategoryIds(category)[i])
  {
    var ids := CategoryIds(category);
    var req := SearchRequest(query, "1", ApiLimit, 0, seq(|ids|, i requires 0 <= i < |ids| => IntToString(ids[i])));
    assert forall i :: 0 <= i < |ids| ==> ParseInt(req.categories[i]) == Some(ids[i]) by {
      forall i | 0 <= i < |ids| ensures ParseInt(req.categories[i]) == Some(ids[i]) {
        ParseIntOfIntToString(ids[i]);
      }
    }
    req
  }

  /** `search_torrents`: a failed request gives an empty page that still
      echoes the requested page; otherwise the response list goes through
      the result loop with the configured page size. */
  method SearchTorrents(query: string, category: Option<string>, page: int,
                        response: Result<seq<Json>>, fetch: Option<seq<string>>)
    returns (req: SearchRequest, r: SearchPage)
    ensures req == SearchRequestFor(query, category)
    ensures response.Err? ==> r == SearchPage([], 0, page, 0)
    ensures response.Ok? ==> r == PageOf(Kept(response.value, ExistingNames(fetch)), page, Settings.ResultsPerPage)
  {
    req := SearchRequestFor(query, category);
    if response.Err? {
      return req, SearchPage([], 0, page, 0);
    }
    r := FormatSearchResults(response.value, page, Settings.ResultsPerPage, fetch);
  }
}
