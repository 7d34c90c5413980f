/** The search client's title cleaner and the two keys derived from titles:
    the dotted search pattern and the key used to drop results that are
    already in qBittorrent. */
module Titles {
  import opened Text
  import opened Patterns

  // ---- extension removal: re.sub(r'\.[a-z0-9]{2,4}$', '', s, flags=re.IGNORECASE) ----

  predicate ExtensionAt(s: string, k: nat) {
    k < |s| && s[k] == '.' && 2 <= |s| - k - 1 <= 4 && AllAlnum(s[k + 1..])
  }

  /** The '.' that starts an extension is the last '.' of the string. */
  lemma ExtensionAtUnique(s: string, i: nat, j: nat)
    requires ExtensionAt(s, i) && ExtensionAt(s, j)
    ensures i == j
  {
    forall k | i < k < |s| ensures s[k] != '.' { assert s[k] == s[i + 1..][k - i - 1]; }
    forall k | j < k < |s| ensures s[k] != '.' { assert s[k] == s[j + 1..][k - j - 1]; }
  }

  function RemoveExtension(s: string): (r: string)
    ensures (exists k :: 0 <= k < |s| && ExtensionAt(s, k) && r == s[..k])
            || ((forall k :: 0 <= k < |s| ==> !ExtensionAt(s, k)) && r == s)
  {
    var P := (j: nat) => ExtensionAt(s, j);
    var k := FirstFrom(|s|, 0, P);
    forall j | 0 <= j < k ensures !ExtensionAt(s, j) { assert !P(j); }
    if k < |s| then s[..k] else s
  }

  /** A two- to four-character alphanumeric suffix after a '.' is removed,
      and only that suffix with its dot. */
  lemma {:induction false} RemoveExtensionOf(name: string, ext: string)
    requires 2 <= |ext| <= 4 && AllAlnum(ext)
    ensures RemoveExtension(name + "." + ext) == name
  {
    var s := name + "." + ext;
    assert s[|name| + 1..] == ext;
    assert ExtensionAt(s, |name|);
    forall k | 0 <= k < |s| && ExtensionAt(s, k) ensures k == |name| {
      ExtensionAtUnique(s, k, |name|);
    }
    assert s[..|name|] == name;
  }

  // ---- re.sub(r'[._]+', ' ', s) ----

  predicate IsDotOrUnderscore(c: char) { c == '.' || c == '_' }

  /** The filename with its extension removed and its dot/underscore runs
      turned into single spaces: the text the markers are searched in. */
  function Cleaned(filename: string): (c: string)
    ensures '.' !in c && '_' !in c
  {
    var c := CollapseRuns(RemoveExtension(filename), IsDotOrUnderscore, ' ');
    assert forall i :: 0 <= i < |c| ==> c[i] != '.' && c[i] != '_';
    c
  }

  // ---- the metadata markers that end a title ----

  /** The alternatives of the marker regex other than the year and the
      release group, one entry per spelling an alternation admits. */
  const MarkerTokens: seq<string> := [
    "720p", "1080p", "2160p",
    "UHD", "HDR", "HDR10", "DV", "SDR",
    "BluRay", "WEB-DL", "WEB DL", "WEBDL", "HDRip", "DVDRip", "HDTV", "NF", "AMZN",
    "HEVC", "H.264", "H264", "H.265", "H265", "x264", "x265",
    "DTS", "DD", "DDP", "AAC", "TrueHD", "FLAC",
    "MA", "ATMOS", "5.1", "7.1", "2.0", "2.1", "Mono", "Stereo",
    "REMUX", "HYBRID", "REPACK", "EXTENDED", "PROPER", "UNRATED", "LIMITED"
  ]

  /** `\b\d{4}\b` at `k`. */
  predicate YearAt(s: string, k: nat) {
    k + 4 <= |s| && AllDigits(s[k..k + 4]) && WordBoundary(s, k) && WordBoundary(s, k + 4)
  }

  /** Some alternative of the combined marker regex matches at `k`. */
  predicate MarkerAt(s: string, k: nat) {
    YearAt(s, k) || AnyTokenAt(s, k, MarkerTokens) || GroupAt(s, k)
  }

  /** `k` is where `pattern.split(s, maxsplit=1)` cuts: the leftmost marker
      match, or the end when there is none. */
  predicate IsLeftmostCut(s: string, k: nat) {
    k <= |s| && (k < |s| ==> MarkerAt(s, k)) && forall j :: 0 <= j < k ==> !MarkerAt(s, j)
  }

  function FirstMarker(s: string): (k: nat)
    ensures IsLeftmostCut(s, k)
  {
    var P := (j: nat) => MarkerAt(s, j);
    var k := FirstFrom(|s|, 0, P);
    forall j | 0 <= j < k ensures !MarkerAt(s, j) { assert !P(j); }
    k
  }

  /** `_extract_title`: the stripped part of the cleaned filename before the
      leftmost marker. The result has no dot, no underscore and no
      surrounding whitespace. */
  function ExtractTitle(filename: string): (title: string)
    ensures '.' !in title && '_' !in title
    ensures title == [] || (!IsSpace(title[0]) && !IsSpace(title[|title| - 1]))
  {
    var c := Cleaned(filename);
    var k := FirstMarker(c);
    StripEnds(c[..k]);
    StripPrefixAbsent(c, k, '.');
    StripPrefixAbsent(c, k, '_');
    Strip(c[..k])
  }

  /** The title is the stripped text before the leftmost cut. */
  lemma ExtractTitleSpec(filename: string)
    ensures exists k: nat :: IsLeftmostCut(Cleaned(filename), k)
                             && ExtractTitle(filename) == Strip(Cleaned(filename)[..k])
  {
    var c := Cleaned(filename);
    assert IsLeftmostCut(c, FirstMarker(c));
  }

  /** The cut is unique, so any leftmost cut yields the title. */
  lemma ExtractTitleCut(filename: string, k: nat)
    requires IsLeftmostCut(Cleaned(filename), k)
    ensures ExtractTitle(filename) == Strip(Cleaned(filename)[..k])
  {
    var c := Cleaned(filename);
    LeftmostCutUnique(c, FirstMarker(c), k);
  }

  lemma LeftmostCutUnique(s: string, a: nat, b: nat)
    requires IsLeftmostCut(s, a) && IsLeftmostCut(s, b)
    ensures a == b
  {
  }

  // ---- _create_search_pattern ----

  /** `re.sub(r'[^\w.]', '', s)` */
  function KeepWordOrDot(s: string): (r: string)
    ensures forall i :: 0 <= i < |r| ==> IsWordChar(r[i]) || r[i] == '.'
  {
    if s == [] then []
    else (if IsWordChar(s[0]) || s[0] == '.' then [s[0]] else []) + KeepWordOrDot(s[1..])
  }

  /** `_create_search_pattern`: whitespace runs of the stripped title become
      dots, everything but word characters and dots is dropped, and the
      result is lower-cased. */
  function SearchPattern(title: string): (r: string)
    ensures forall i :: 0 <= i < |r| ==> IsLowerAscii(r[i]) || IsDigit(r[i]) || r[i] == '_' || r[i] == '.'
    ensures NoSpace(r)
  {
    Lower(KeepWordOrDot(CollapseRuns(Strip(title), IsSpace, '.')))
  }

  /** Whitespace around the title does not change its pattern. */
  lemma SearchPatternIgnoresSurroundingSpace(p: string, title: string, q: string)
    requires AllSpace(p) && AllSpace(q)
    ensures SearchPattern(p + title + q) == SearchPattern(title)
  {
    StripIgnoresSurroundingSpace(p, title, q);
  }

  // ---- the duplicate check against existing torrents ----

  /** `_extract_title(name).replace(' ', '.').lower()` */
  function DedupKey(name: string): (key: string)
    ensures ' ' !in key && '_' !in key
  {
    var title := ExtractTitle(name);
    var t := ReplaceChar(title, ' ', ".");
    assert ' ' !in t;
    var key := Lower(t);
    assert forall i :: 0 <= i < |key| ==> key[i] != ' ' && key[i] != '_' by {
      forall i | 0 <= i < |key| ensures key[i] != ' ' && key[i] != '_' {
        assert t[i] in t;
        assert t[i] in title || t[i] == '.';
        assert t[i] != ' ' && t[i] != '_';
        assert key[i] == LowerChar(t[i]);
        if IsUpperAscii(t[i]) {
          assert IsLowerAscii(key[i]);
        } else {
          assert key[i] == t[i];
        }
      }
    }
    key
  }

  /** The test that drops a search result: either key contains the other. */
  predicate Overlaps(a: string, b: string) {
    Contains(b, a) || Contains(a, b)
  }

  lemma OverlapsSymmetric(a: string, b: string)
    ensures Overlaps(a, b) <==> Overlaps(b, a)
  {
  }

  /** An empty key (a name that is all metadata) overlaps every key. */
  lemma EmptyKeyOverlaps(b: string)
    ensures Overlaps("", b) && Overlaps(b, "")
  {
    ContainsEmpty(b);
  }
}
