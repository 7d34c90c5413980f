/** The string utilities of the helper module: filename cleaning, truncation,
    token validation, the torrent-name parser and the byte-unit selection of
    the size and speed formatters. */
module Helpers {
  import opened Wrappers
  import opened Text
  import opened Patterns

  // ---- clean_filename / _clean_title_for_path ----

  /** The characters of the class `[<>:"/\\|?*]`. */
  predicate IsForbidden(c: char) {
    c == '<' || c == '>' || c == ':' || c == '"' || c == '/' || c == '\\' || c == '|' || c == '?' || c == '*'
  }

  /** `re.sub(r'[<>:"/\\|?*]', ' ', s)` */
  function ReplaceForbidden(s: string): (r: string)
    ensures |r| == |s|
    ensures forall i :: 0 <= i < |s| ==> r[i] == if IsForbidden(s[i]) then ' ' else s[i]
  {
    if s == [] then [] else [if IsForbidden(s[0]) then ' ' else s[0]] + ReplaceForbidden(s[1..])
  }

  /** What a cleaned name looks like: no forbidden character, no whitespace
      other than single spaces, and no whitespace at either end. */
  predicate IsCleanName(s: string) {
    CleanChars(s) && (s == [] || (!IsSpace(s[0]) && !IsSpace(s[|s| - 1])))
  }

  /** No forbidden character, whitespace only as single spaces. */
  predicate CleanChars(s: string) {
    (forall i :: 0 <= i < |s| ==> !IsForbidden(s[i]))
    && (forall i :: 0 <= i < |s| ==> IsSpace(s[i]) ==> s[i] == ' ')
    && (forall i :: 0 <= i < |s| - 1 ==> !IsSpace(s[i]) || !IsSpace(s[i + 1]))
  }

  /** `clean_filename` (and the identical `_clean_title_for_path`): forbidden
      characters become spaces, whitespace runs become one space, and the
      result is stripped. */
  function CleanFilename(s: string): (r: string)
    ensures IsCleanName(r)
  {
    var c := CollapseRuns(ReplaceForbidden(s), IsSpace, ' ');
    CollapsedIsClean(ReplaceForbidden(s), c);
    StrippedIsClean(c);
    Strip(c)
  }

  /** Collapsing the whitespace of text without forbidden characters leaves
      single spaces as its only whitespace. */
  lemma CollapsedIsClean(t: string, c: string)
    requires forall i :: 0 <= i < |t| ==> !IsForbidden(t[i])
    requires c == CollapseRuns(t, IsSpace, ' ')
    ensures forall i :: 0 <= i < |c| ==> !IsForbidden(c[i]) && (IsSpace(c[i]) ==> c[i] == ' ')
    ensures forall i :: 0 <= i < |c| - 1 ==> !IsSpace(c[i]) || !IsSpace(c[i + 1])
  {
    forall i | 0 <= i < |c| ensures !IsForbidden(c[i]) && (IsSpace(c[i]) ==> c[i] == ' ') {
      if c[i] != ' ' {
        assert c[i] in t;
      }
    }
  }

  /** Stripping keeps a slice, so the per-character and adjacency properties
      survive and the ends lose their whitespace. */
  lemma StrippedIsClean(c: string)
    requires forall i :: 0 <= i < |c| ==> !IsForbidden(c[i]) && (IsSpace(c[i]) ==> c[i] == ' ')
    requires forall i :: 0 <= i < |c| - 1 ==> !IsSpace(c[i]) || !IsSpace(c[i + 1])
    ensures IsCleanName(Strip(c))
  {
    assert CleanChars(c);
    var i, j := StripBounds(c);
    CleanCharsSlice(c, i, j);
    StripEnds(c);
  }

  lemma CleanCharsSlice(c: string, i: nat, j: nat)
    requires CleanChars(c) && i <= j <= |c|
    ensures CleanChars(c[i..j])
  {
    var r := c[i..j];
    forall k | 0 <= k < |r| - 1 ensures !IsSpace(r[k]) || !IsSpace(r[k + 1]) {
      assert r[k] == c[i + k] && r[k + 1] == c[i + k + 1];
    }
  }

  /** A name is left unchanged by cleaning exactly when it is already clean. */
  lemma CleanFilenameFixpoint(s: string)
    ensures CleanFilename(s) == s <==> IsCleanName(s)
  {
    if IsCleanName(s) {
      assert ReplaceForbidden(s) == s;
      CollapseFixpoint(s, IsSpace, ' ');
      StripNoop(s);
    }
  }

  lemma CleanFilenameIdempotent(s: string)
    ensures CleanFilename(CleanFilename(s)) == CleanFilename(s)
  {
    CleanFilenameFixpoint(CleanFilename(s));
  }

  // ---- truncate_text ----

  /** `truncate_text`: text longer than `maxLength` is cut with `[:maxLength-3]`
      (Python slicing, so a small `maxLength` counts from the end) and gets
      "..." appended. */
  function TruncateText(text: string, maxLength: int): (r: string)
    ensures |text| <= maxLength ==> r == text
    ensures |text| > maxLength ==> r == PySlice(text, 0, maxLength - 3) + "..."
    ensures |text| > maxLength >= 3 ==> |r| == maxLength && r[..maxLength - 3] == text[..maxLength - 3]
  {
    if |text| <= maxLength then text else PySlice(text, 0, maxLength - 3) + "..."
  }

  // ---- token validators ----

  predicate IsTokenChar(c: char) { IsAlnum(c) || c == '_' || c == '-' }

  /** The shape `^\d+:[A-Za-z0-9_-]+$`, stated with an explicit split point. */
  predicate TelegramShape(token: string) {
    exists k :: 0 < k < |token| - 1 && AllDigits(token[..k]) && token[k] == ':'
                && forall i :: k < i < |token| ==> IsTokenChar(token[i])
  }

  /** `validate_telegram_token`: the scan stops at the first ':' because no
      digit is a ':'. */
  function ValidTelegramToken(token: string): (r: bool)
    ensures r <==> TelegramShape(token)
  {
    match IndexOf(token, ':')
    case None => false
    case Some(k) =>
      var ok := 0 < k < |token| - 1 && AllDigits(token[..k])
                && forall i :: k < i < |token| ==> IsTokenChar(token[i]);
      assert TelegramShape(token) ==> ok by {
        if TelegramShape(token) {
          var k' :| 0 < k' < |token| - 1 && AllDigits(token[..k']) && token[k'] == ':'
                    && forall i :: k' < i < |token| ==> IsTokenChar(token[i]);
          forall i | 0 <= i < k' ensures token[i] != ':' { assert token[..k'][i] == token[i]; }
          IndexOfFirst(token, ':', k');
        }
      }
      ok
  }

  /** `validate_torrentleech_token`: non-empty and ASCII alphanumeric. */
  function ValidTorrentleechToken(token: string): (r: bool)
    ensures r <==> |token| >= 1 && forall c :: c in token ==> IsAlnum(c)
    ensures r ==> ':' !in token
  {
    token != [] && AllAlnum(token)
  }

  /** A TorrentLeech-shaped token after a bot id and a colon is a
      Telegram-shaped token. */
  lemma TelegramFromParts(id: nat, secret: string)
    requires ValidTorrentleechToken(secret)
    ensures ValidTelegramToken(NatToString(id) + ":" + secret)
  {
    var d := NatToString(id);
    var t := d + ":" + secret;
    assert t[..|d|] == d;
    assert forall i :: |d| < i < |t| ==> t[i] == secret[i - |d| - 1];
  }

  // ---- parse_torrent_name ----

  datatype TorrentInfo = TorrentInfo(
    title: string,
    year: Option<string>,
    quality: Option<string>,
    resolution: Option<string>,
    group: Option<string>)

  /** The qualities `parse_torrent_name` looks for, in order (HDTV is not
      among them). */
  const NameQualities: seq<string> := ["BluRay", "WEB-DL", "HDRip", "BRRip", "DVDRip"]

  /** `parse_torrent_name`: the fields are filled one after another; the
      quality is the first listed entry occurring case-sensitively. */
  method ParseTorrentName(name: string) returns (info: TorrentInfo)
    ensures info.title == name
    ensures info.year == ParenYear(name)
    ensures info.quality == FirstContained(NameQualities, name)
    ensures info.resolution == Resolution(name)
    ensures info.group == TrailingGroup(name)
  {
    info := TorrentInfo(name, None, None, None, None);
    var year := ParenYear(name);
    if year.Some? {
      info := info.(year := year);
    }
    var i := 0;
    while i < |NameQualities|
      invariant 0 <= i <= |NameQualities|
      invariant info.quality.None?
      invariant forall j :: 0 <= j < i ==> !Contains(name, NameQualities[j])
      invariant info == TorrentInfo(name, ParenYear(name), None, None, None)
    {
      if Contains(name, NameQualities[i]) {
        info := info.(quality := Some(NameQualities[i]));
        break;
      }
      i := i + 1;
    }
    assert info.quality.Some? ==>
             i < |NameQualities| && info.quality == Some(NameQualities[i]) && Contains(name, NameQualities[i]);
    FirstContainedIs(NameQualities, name, i);
    var resolution := Resolution(name);
    if resolution.Some? {
      info := info.(resolution := resolution);
    }
    var group := TrailingGroup(name);
    if group.Some? {
      info := info.(group := group);
    }
  }

  /** The first containing entry is unique. */
  lemma FirstContainedIs(list: seq<string>, title: string, i: nat)
    requires i <= |list|
    requires forall j :: 0 <= j < i ==> !Contains(title, list[j])
    requires i < |list| ==> Contains(title, list[i])
    ensures FirstContained(list, title) == if i < |list| then Some(list[i]) else None
  {
    var r := FirstContained(list, title);
    if r.Some? {
      var i' :| 0 <= i' < |list| && r.value == list[i'] && Contains(title, list[i'])
                && forall j :: 0 <= j < i' ==> !Contains(title, list[j]);
    }
  }

  // ---- unit selection of format_size / format_speed / _format_size ----

  function Pow1024(k: nat): (p: nat)
    ensures p >= 1
  {
    if k == 0 then 1 else 1024 * Pow1024(k - 1)
  }

  lemma {:induction false} Pow1024Monotone(a: nat, b: nat)
    requires a <= b
    ensures Pow1024(a) <= Pow1024(b)
    decreases b
  {
    if a < b {
      Pow1024Monotone(a, b - 1);
    }
  }

  /** The unit the formatting loop stops at: the largest `k <= maxUnit` with
      `n >= 1024^k`, and 0 when `n < 1024` (negative sizes included). */
  predicate IsUnitIndex(n: int, maxUnit: nat, k: nat) {
    k <= maxUnit && (k == 0 || Pow1024(k) <= n) && (k == maxUnit || n < Pow1024(k + 1))
  }

  lemma UnitIndexUnique(n: int, maxUnit: nat, a: nat, b: nat)
    requires IsUnitIndex(n, maxUnit, a) && IsUnitIndex(n, maxUnit, b)
    ensures a == b
  {
    if a < b { Pow1024Monotone(a + 1, b); }
    if b < a { Pow1024Monotone(b + 1, a); }
  }

  /** The scaling loop: `value` is divided by 1024 while it is at least 1024
      and a larger unit exists. Division by 1024 is exact on doubles, so
      reals model it faithfully once `n` is converted. */
  method ScaleBytes(n: int, maxUnit: nat) returns (value: real, unit: nat)
    ensures IsUnitIndex(n, maxUnit, unit)
    ensures value == n as real / Pow1024(unit) as real
  {
    value := n as real;
    unit := 0;
    while value >= 1024.0 && unit < maxUnit
      invariant unit <= maxUnit
      invariant value * Pow1024(unit) as real == n as real
      invariant unit == 0 || Pow1024(unit) <= n
      decreases maxUnit - unit
    {
      ScaleNext(value, unit, n);
      value := value / 1024.0;
      unit := unit + 1;
    }
    ScaleDone(value, unit, n);
  }

  /** One step of the loop in exact arithmetic: a scaled value of at least
      1024 means `n` reaches the next power, and dividing keeps the
      product. */
  lemma ScaleNext(value: real, unit: nat, n: int)
    requires value * Pow1024(unit) as real == n as real && value >= 1024.0
    ensures (value / 1024.0) * Pow1024(unit + 1) as real == n as real
    ensures Pow1024(unit + 1) <= n
  {
    var p := Pow1024(unit) as real;
    assert Pow1024(unit + 1) as real == 1024.0 * p;
    ScaleStep(value, p, n as real);
    assert (Pow1024(unit + 1) as real) <= n as real;
  }

  /** Where the loop stops: below 1024 means `n` is below the next power. */
  lemma ScaleDone(value: real, unit: nat, n: int)
    requires value * Pow1024(unit) as real == n as real
    ensures value == n as real / Pow1024(unit) as real
    ensures value < 1024.0 ==> n < Pow1024(unit + 1)
  {
    var p := Pow1024(unit) as real;
    assert Pow1024(unit + 1) as real == 1024.0 * p;
    ScaleStep(value, p, n as real);
  }

  lemma ScaleStep(value: real, p: real, n: real)
    requires p > 0.0 && value * p == n
    ensures value >= 1024.0 <==> n >= 1024.0 * p
    ensures value == n / p
    ensures (value / 1024.0) * (1024.0 * p) == n
  {
    if value >= 1024.0 {
      assert value * p >= 1024.0 * p;
    } else {
      assert value * p < 1024.0 * p;
    }
  }

  /** A formatted size before its one-decimal rendering: "0 B" for zero,
      otherwise a scaled value and an index into the unit names. */
  datatype HumanSize = Zero | Scaled(value: real, unit: nat)

  const SizeUnits: seq<string> := ["B", "KB", "MB", "GB", "TB"]
  const SpeedUnits: seq<string> := ["B/s", "KB/s", "MB/s", "GB/s"]

  /** The unit the formatters choose for `n`, as a function. */
  function UnitIndex(n: int, maxUnit: nat): (k: nat)
    ensures IsUnitIndex(n, maxUnit, k)
  {
    UnitFrom(n, maxUnit, 0)
  }

  function UnitFrom(n: int, maxUnit: nat, k: nat): (r: nat)
    requires k <= maxUnit && (k == 0 || Pow1024(k) <= n)
    ensures IsUnitIndex(n, maxUnit, r)
    decreases maxUnit - k
  {
    if k < maxUnit && n >= Pow1024(k + 1) then UnitFrom(n, maxUnit, k + 1) else k
  }

  function HumanSizeOf(n: int, maxUnit: nat): HumanSize {
    if n == 0 then Zero else Scaled(n as real / Pow1024(UnitIndex(n, maxUnit)) as real, UnitIndex(n, maxUnit))
  }

  /** `format_size` / `_format_size`: units up to TB. */
  method FormatSize(n: int) returns (r: HumanSize)
    ensures r == HumanSizeOf(n, |SizeUnits| - 1)
    ensures r.Scaled? ==> r.unit < |SizeUnits|
  {
    if n == 0 {
      return Zero;
    }
    var value, unit := ScaleBytes(n, |SizeUnits| - 1);
    UnitIndexUnique(n, |SizeUnits| - 1, unit, UnitIndex(n, |SizeUnits| - 1));
    r := Scaled(value, unit);
  }

  /** `format_speed`: units up to GB/s. */
  method FormatSpeed(n: int) returns (r: HumanSize)
    ensures r == HumanSizeOf(n, |SpeedUnits| - 1)
    ensures r.Scaled? ==> r.unit < |SpeedUnits|
  {
    if n == 0 {
      return Zero;
    }
    var value, unit := ScaleBytes(n, |SpeedUnits| - 1);
    UnitIndexUnique(n, |SpeedUnits| - 1, unit, UnitIndex(n, |SpeedUnits| - 1));
    r := Scaled(value, unit);
  }
}
