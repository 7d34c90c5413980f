/** The character classes and `str` operations the bot relies on.
    Letters, digits and case mapping are ASCII only; whitespace is Python's
    full `str.isspace()` set, which is also what `\s` and `strip()` use. */
module Text {
  import opened Wrappers
  import opened Doubles

  predicate IsDigit(c: char) { '0' <= c <= '9' }
  predicate IsUpperAscii(c: char) { 'A' <= c <= 'Z' }
  predicate IsLowerAscii(c: char) { 'a' <= c <= 'z' }
  predicate IsAlpha(c: char) { IsUpperAscii(c) || IsLowerAscii(c) }
  predicate IsAlnum(c: char) { IsAlpha(c) || IsDigit(c) }

  /** Regex `\w`. */
  predicate IsWordChar(c: char) { IsAlnum(c) || c == '_' }

  /** Python `str.isspace()`: controls 9-13 and 28-31, the space, and the
      Unicode separators. */
  predicate IsSpace(c: char) {
    ('\t' <= c <= '\r') || ('\U{1C}' <= c <= ' ') || c == '\U{85}' || c == '\U{A0}'
    || c == '\U{1680}' || ('\U{2000}' <= c <= '\U{200A}') || c == '\U{2028}'
    || c == '\U{2029}' || c == '\U{202F}' || c == '\U{205F}' || c == '\U{3000}'
  }

  predicate NoSpace(s: string) { forall i :: 0 <= i < |s| ==> !IsSpace(s[i]) }
  predicate AllDigits(s: string) { forall i :: 0 <= i < |s| ==> IsDigit(s[i]) }
  predicate AllAlnum(s: string) { forall i :: 0 <= i < |s| ==> IsAlnum(s[i]) }
  /** Every character is whitespace (stated recursively; AllSpaceAt and
      AllSpaceOf give the indexed form). */
  predicate AllSpace(s: string)
    decreases |s|
  {
    s == [] || (IsSpace(s[0]) && AllSpace(s[1..]))
  }

  lemma {:induction false} AllSpaceAt(s: string, k: nat)
    requires AllSpace(s) && k < |s|
    ensures IsSpace(s[k])
    decreases k
  {
    if k > 0 {
      AllSpaceAt(s[1..], k - 1);
    }
  }

  lemma {:induction false} AllSpaceOf(s: string)
    requires forall k :: 0 <= k < |s| ==> IsSpace(s[k])
    ensures AllSpace(s)
    decreases |s|
  {
    if s != [] {
      assert forall k :: 0 <= k < |s[1..]| ==> s[1..][k] == s[k + 1];
      AllSpaceOf(s[1..]);
    }
  }

  lemma {:induction false} AllSpaceConcat(a: string, b: string)
    ensures AllSpace(a + b) <==> AllSpace(a) && AllSpace(b)
    decreases |a|
  {
    if a == [] {
      assert a + b == b;
    } else {
      assert (a + b)[0] == a[0] && (a + b)[1..] == a[1..] + b;
      AllSpaceConcat(a[1..], b);
    }
  }

  function LowerChar(c: char): (r: char)
    ensures !IsUpperAscii(r)
    ensures IsSpace(r) <==> IsSpace(c)
  {
    if IsUpperAscii(c) then (c as int + 32) as char else c
  }

  function UpperChar(c: char): char {
    if IsLowerAscii(c) then (c as int - 32) as char else c
  }

  /** `str.lower()` */
  function Lower(s: string): (r: string)
    ensures |r| == |s|
    ensures forall i :: 0 <= i < |s| ==> r[i] == LowerChar(s[i])
  {
    if s == [] then [] else [LowerChar(s[0])] + Lower(s[1..])
  }

  lemma {:induction false} LowerConcat(a: string, b: string)
    ensures Lower(a + b) == Lower(a) + Lower(b)
    decreases |a|
  {
    if a == [] {
      assert a + b == b;
    } else {
      assert (a + b)[0] == a[0] && (a + b)[1..] == a[1..] + b;
      LowerConcat(a[1..], b);
    }
  }

  lemma AppendAssoc<T>(a: seq<T>, b: seq<T>, c: seq<T>)
    ensures a + b + c == a + (b + c)
  {
  }

  /** Python `p in s` for strings. */
  predicate Contains(s: string, p: string)
    decreases |s|
  {
    p <= s || (|s| > 0 && Contains(s[1..], p))
  }

  lemma {:induction false} ContainsIff(s: string, p: string)
    ensures Contains(s, p) <==> exists i :: 0 <= i <= |s| && p <= s[i..]
    decreases |s|
  {
    if |s| > 0 {
      ContainsIff(s[1..], p);
      if exists i :: 0 <= i <= |s| && p <= s[i..] {
        var i :| 0 <= i <= |s| && p <= s[i..];
        if i > 0 { assert s[1..][i - 1..] == s[i..]; }
      }
      if exists i :: 0 <= i <= |s[1..]| && p <= s[1..][i..] {
        var i :| 0 <= i <= |s[1..]| && p <= s[1..][i..];
        assert s[1..][i..] == s[i + 1..];
      }
    } else {
      assert s[0..] == s;
    }
  }

  lemma ContainsAt(s: string, p: string, i: nat)
    requires i <= |s| && p <= s[i..]
    ensures Contains(s, p)
  {
    ContainsIff(s, p);
  }

  lemma ContainsEmpty(s: string)
    ensures Contains(s, "")
  {
  }

  lemma {:induction false} ContainsMiddle(a: string, p: string, b: string)
    ensures Contains(a + p + b, p)
  {
    assert (a + p + b)[|a|..] == p + b;
    ContainsAt(a + p + b, p, |a|);
  }

  /** A string that contains `q` contains everything `q` contains. */
  lemma {:induction false} ContainsTrans(s: string, q: string, p: string)
    requires Contains(s, q) && Contains(q, p)
    ensures Contains(s, p)
  {
    ContainsIff(s, q);
    ContainsIff(q, p);
    var i :| 0 <= i <= |s| && q <= s[i..];
    var j :| 0 <= j <= |q| && p <= q[j..];
    assert s[i + j..][..|p|] == q[j..][..|p|];
    ContainsAt(s, p, i + j);
  }

  lemma {:induction false} ContainsLen(s: string, p: string)
    requires Contains(s, p)
    ensures |p| <= |s|
  {
    ContainsIff(s, p);
  }

  /** The leading whitespace removed, as by `str.lstrip()`. */
  function TrimLeft(s: string): (r: string)
    ensures |r| <= |s| && r == s[|s| - |r|..]
    ensures r == [] || !IsSpace(r[0])
    decreases |s|
  {
    if |s| > 0 && IsSpace(s[0]) then TrimLeft(s[1..]) else s
  }

  /** The trailing whitespace removed, as by `str.rstrip()`. */
  function TrimRight(s: string): (r: string)
    ensures |r| <= |s| && r == s[..|r|]
    ensures r == [] || !IsSpace(r[|r| - 1])
    decreases |s|
  {
    if |s| > 0 && IsSpace(s[|s| - 1]) then TrimRight(s[..|s| - 1]) else s
  }

  /** `str.strip()` */
  function Strip(s: string): string {
    TrimRight(TrimLeft(s))
  }

  lemma {:induction false} TrimRightKeepsFirst(s: string)
    requires s == [] || !IsSpace(s[0])
    ensures var r := TrimRight(s); r == [] || !IsSpace(r[0])
  {
  }

  /** `strip()` leaves nothing exactly when the text is all whitespace. */
  lemma StripEmptyIffAllSpace(s: string)
    ensures Strip(s) == [] <==> AllSpace(s)
  {
    var l := TrimLeft(s);
    TrimLeftEmptyIff(s);
    TrimRightEmptyIff(l);
  }

  lemma {:induction false} TrimLeftEmptyIff(s: string)
    ensures TrimLeft(s) == [] <==> AllSpace(s)
    decreases |s|
  {
    if s != [] && IsSpace(s[0]) {
      TrimLeftEmptyIff(s[1..]);
    }
  }

  lemma {:induction false} TrimRightEmptyIff(s: string)
    ensures TrimRight(s) == [] <==> AllSpace(s)
    decreases |s|
  {
    if s != [] {
      var init := s[..|s| - 1];
      var last := [s[|s| - 1]];
      assert s == init + last;
      assert last[1..] == [];
      AllSpaceConcat(init, last);
      if IsSpace(s[|s| - 1]) {
        TrimRightEmptyIff(init);
      }
    }
  }

  /** Where the stripped text sits in the input. */
  lemma StripBounds(s: string) returns (i: nat, j: nat)
    ensures i <= j <= |s| && Strip(s) == s[i..j]
  {
    var l := TrimLeft(s);
    i := |s| - |l|;
    j := i + |TrimRight(l)|;
    assert TrimRight(l) == l[..|TrimRight(l)|];
  }

  /** A character absent from the text is absent from any stripped prefix. */
  lemma StripPrefixAbsent(s: string, k: nat, c: char)
    requires k <= |s| && c !in s
    ensures c !in Strip(s[..k])
  {
    var p := s[..k];
    var i, j := StripBounds(p);
    forall m | 0 <= m < |Strip(p)| ensures Strip(p)[m] != c {
      assert Strip(p)[m] == s[i + m];
    }
  }

  lemma StripEnds(s: string)
    ensures var r := Strip(s); r == [] || (!IsSpace(r[0]) && !IsSpace(r[|r| - 1]))
  {
    TrimRightKeepsFirst(TrimLeft(s));
  }

  lemma {:induction false} TrimLeftNoSpace(s: string)
    requires s == [] || !IsSpace(s[0])
    ensures TrimLeft(s) == s
  {
  }

  lemma {:induction false} StripIdempotent(s: string)
    ensures Strip(Strip(s)) == Strip(s)
  {
    var r := Strip(s);
    StripEnds(s);
    TrimLeftNoSpace(r);
    assert TrimRight(r) == r;
  }

  /** Text that neither starts nor ends with whitespace is left alone. */
  lemma {:induction false} StripNoop(s: string)
    requires s == [] || (!IsSpace(s[0]) && !IsSpace(s[|s| - 1]))
    ensures Strip(s) == s
  {
    TrimLeftNoSpace(s);
  }

  /** `strip()` only removes characters: its result is a slice of the input. */
  lemma {:induction false} StripIsSlice(s: string)
    ensures exists i, j :: 0 <= i <= j <= |s| && Strip(s) == s[i..j]
    ensures forall k :: 0 <= k < |Strip(s)| ==> Strip(s)[k] in s
  {
    var i, j := StripBounds(s);
    forall k | 0 <= k < |Strip(s)| ensures Strip(s)[k] in s {
      assert Strip(s)[k] == s[i + k];
    }
  }

  lemma {:induction false} TrimLeftSkips(p: string, s: string)
    requires AllSpace(p)
    ensures TrimLeft(p + s) == TrimLeft(s)
    decreases |p|
  {
    if |p| > 0 {
      assert (p + s)[1..] == p[1..] + s;
      TrimLeftSkips(p[1..], s);
    } else {
      assert p + s == s;
    }
  }

  lemma {:induction false} TrimRightSkips(s: string, q: string)
    requires AllSpace(q)
    ensures TrimRight(s + q) == TrimRight(s)
    decreases |q|
  {
    if |q| > 0 {
      var last := [q[|q| - 1]];
      assert q == q[..|q| - 1] + last;
      AllSpaceConcat(q[..|q| - 1], last);
      assert (s + q)[..|s + q| - 1] == s + q[..|q| - 1];
      TrimRightSkips(s, q[..|q| - 1]);
    } else {
      assert s + q == s;
    }
  }

  lemma {:induction false} TrimLeftAppendSpace(s: string, q: string)
    requires AllSpace(q)
    ensures TrimLeft(s + q) == TrimLeft(s) + q || (TrimLeft(s) == [] && TrimLeft(s + q) == [])
    decreases |s|
  {
    if |s| == 0 {
      assert s + q == q + [];
      TrimLeftSkips(q, []);
    } else if IsSpace(s[0]) {
      assert (s + q)[0] == s[0] && (s + q)[1..] == s[1..] + q;
      TrimLeftAppendSpace(s[1..], q);
    } else {
      assert (s + q)[0] == s[0];
    }
  }

  /** Whitespace around the input never changes what `strip()` returns. */
  lemma {:induction false} StripIgnoresSurroundingSpace(p: string, s: string, q: string)
    requires AllSpace(p) && AllSpace(q)
    ensures Strip(p + s + q) == Strip(s)
  {
    var l := TrimLeft(s + q);
    assert TrimLeft(p + s + q) == l by {
      AppendAssoc(p, s, q);
      TrimLeftSkips(p, s + q);
    }
    TrimLeftAppendSpace(s, q);
    if l == TrimLeft(s) + q {
      TrimRightSkips(TrimLeft(s), q);
    }
  }

  /** `s.replace(c, t)` for a one-character `c`. */
  function ReplaceChar(s: string, c: char, t: string): (r: string)
    ensures c !in t ==> c !in r
    ensures forall x :: x in r ==> x in s || x in t
  {
    if s == [] then [] else (if s[0] == c then t else [s[0]]) + ReplaceChar(s[1..], c, t)
  }

  lemma {:induction false} ReplaceCharConcat(a: string, b: string, c: char, t: string)
    ensures ReplaceChar(a + b, c, t) == ReplaceChar(a, c, t) + ReplaceChar(b, c, t)
    decreases |a|
  {
    if a == [] {
      assert a + b == b;
    } else {
      assert (a + b)[0] == a[0] && (a + b)[1..] == a[1..] + b;
      ReplaceCharConcat(a[1..], b, c, t);
    }
  }

  /** Replacing a character that does not occur changes nothing. */
  lemma {:induction false} ReplaceCharAbsent(s: string, c: char, t: string)
    requires c !in s
    ensures ReplaceChar(s, c, t) == s
    decreases |s|
  {
    if s != [] {
      assert s[0] != c;
      assert c !in s[1..];
      ReplaceCharAbsent(s[1..], c, t);
    }
  }

  /** Index of the first occurrence of `c` (Python `s.find(c)` when found). */
  function IndexOf(s: string, c: char): (r: Option<nat>)
    ensures r.None? <==> c !in s
    ensures r.Some? ==> r.value < |s| && s[r.value] == c && c !in s[..r.value]
  {
    if s == [] then None
    else if s[0] == c then Some(0)
    else match IndexOf(s[1..], c)
      case None => None
      case Some(k) => assert s[..k + 1] == [s[0]] + s[1..][..k]; Some(k + 1)
  }

  /** The first occurrence is what `IndexOf` finds. */
  lemma {:induction false} IndexOfFirst(s: string, c: char, k: nat)
    requires k < |s| && s[k] == c
    requires forall i :: 0 <= i < k ==> s[i] != c
    ensures IndexOf(s, c) == Some(k)
    decreases k
  {
    if k > 0 {
      IndexOfFirst(s[1..], c, k - 1);
    }
  }

  lemma {:induction false} IndexOfAfterPrefix(p: string, c: char, rest: string)
    requires c !in p
    ensures IndexOf(p + [c] + rest, c) == Some(|p|)
  {
    var s := p + [c] + rest;
    assert s[|p|] == c;
    assert s[..|p|] == p;
  }

  /** `s.split(c)` */
  function Split(s: string, c: char): (parts: seq<string>)
    ensures |parts| >= 1
    ensures forall k :: 0 <= k < |parts| ==> c !in parts[k]
    decreases |s|
  {
    match IndexOf(s, c)
    case None => [s]
    case Some(k) => [s[..k]] + Split(s[k + 1..], c)
  }

  /** `c.join(parts)` */
  function Join(parts: seq<string>, c: char): string
    requires |parts| >= 1
    decreases |parts|
  {
    if |parts| == 1 then parts[0] else parts[0] + [c] + Join(parts[1..], c)
  }

  lemma {:induction false} SplitJoin(parts: seq<string>, c: char)
    requires |parts| >= 1
    requires forall k :: 0 <= k < |parts| ==> c !in parts[k]
    ensures Split(Join(parts, c), c) == parts
    decreases |parts|
  {
    if |parts| > 1 {
      var rest := Join(parts[1..], c);
      var s := parts[0] + [c] + rest;
      assert Join(parts, c) == s;
      IndexOfAfterPrefix(parts[0], c, rest);
      assert s[..|parts[0]|] == parts[0];
      assert s[|parts[0]| + 1..] == rest;
      assert Split(s, c) == [parts[0]] + Split(rest, c);
      assert forall k :: 0 <= k < |parts[1..]| ==> parts[1..][k] == parts[k + 1];
      SplitJoin(parts[1..], c);
      assert parts == [parts[0]] + parts[1..];
    } else {
      assert c !in parts[0];
    }
  }

  lemma {:induction false} JoinSplit(s: string, c: char)
    ensures Join(Split(s, c), c) == s
    decreases |s|
  {
    match IndexOf(s, c)
    case None =>
    case Some(k) =>
      var parts := Split(s, c);
      assert parts == [s[..k]] + Split(s[k + 1..], c);
      assert parts[1..] == Split(s[k + 1..], c);
      JoinSplit(s[k + 1..], c);
      calc {
        Join(parts, c);
        parts[0] + [c] + Join(parts[1..], c);
        s[..k] + [c] + s[k + 1..];
        s;
      }
  }

  /** `s.split(c, n)`: at most `n` splits, the remainder kept whole. */
  function SplitMax(s: string, c: char, n: nat): (parts: seq<string>)
    ensures 1 <= |parts| <= n + 1
    decreases n
  {
    if n == 0 then [s]
    else match IndexOf(s, c)
      case None => [s]
      case Some(k) => [s[..k]] + SplitMax(s[k + 1..], c, n - 1)
  }

  /** Splitting `p_x` once at `_` gives the word before and everything after. */
  lemma {:induction false} SplitOnceAfterWord(p: string, c: char, rest: string)
    requires c !in p
    ensures SplitMax(p + [c] + rest, c, 1) == [p, rest]
  {
    var s := p + [c] + rest;
    IndexOfAfterPrefix(p, c, rest);
    assert s[..|p|] == p;
    assert s[|p| + 1..] == rest;
  }

  /** Splitting `p_q_x` twice gives both words and everything after. */
  lemma SplitTwiceAfterWords(p: string, q: string, c: char, rest: string)
    requires c !in p && c !in q
    ensures SplitMax(p + [c] + q + [c] + rest, c, 2) == [p, q, rest]
  {
    var tail := q + [c] + rest;
    var s := p + [c] + tail;
    assert p + [c] + q + [c] + rest == s;
    IndexOfAfterPrefix(p, c, tail);
    assert s[..|p|] == p;
    assert s[|p| + 1..] == tail;
    SplitOnceAfterWord(q, c, rest);
  }

  // ---- Python slicing ----

  /** A slice bound normalised as Python does: negative bounds count from
      the end, and every bound is clamped into [0, len]. */
  function SliceBound(i: int, len: nat): (b: nat)
    ensures b <= len
    ensures 0 <= i <= len ==> b == i
  {
    if i < 0 then (if i + len < 0 then 0 else i + len) else if i > len then len else i
  }

  /** `s[i:j]` */
  function PySlice<T>(s: seq<T>, i: int, j: int): (r: seq<T>)
    ensures |r| <= |s|
  {
    var a := SliceBound(i, |s|);
    var b := SliceBound(j, |s|);
    if a <= b then s[a..b] else []
  }

  // ---- decimal integers ----

  function DigitChar(d: nat): (c: char)
    requires d < 10
    ensures IsDigit(c)
  {
    ('0' as int + d) as char
  }

  function DigitValue(c: char): nat
    requires IsDigit(c)
  {
    c as int - '0' as int
  }

  /** Decimal rendering of a natural number, without leading zeros. */
  function NatToString(n: nat): (s: string)
    ensures |s| >= 1 && AllDigits(s)
    decreases n
  {
    if n < 10 then [DigitChar(n)] else NatToString(n / 10) + [DigitChar(n % 10)]
  }

  /** `str(i)` / f"{i}" for an int. */
  function IntToString(i: int): (s: string)
    ensures |s| >= 1
  {
    if i < 0 then "-" + NatToString(-i) else NatToString(i)
  }

  lemma IntToStringNoUnderscore(i: int)
    ensures '_' !in IntToString(i)
  {
    var d := NatToString(if i < 0 then -i else i);
    assert '_' !in d;
    if i < 0 { assert IntToString(i) == "-" + d; }
  }

  /** f"{n:02d}": zero-padded to two characters, wider numbers unchanged. */
  function Pad2(n: int): (s: string)
    ensures |s| >= 2
    ensures 0 <= n < 10 ==> s == "0" + NatToString(n)
    ensures (n < 0 || n >= 10) ==> s == IntToString(n)
  {
    if 0 <= n < 10 then "0" + IntToString(n) else IntToString(n)
  }

  /** Digits read as a number, `_` separators skipped. */
  function DigitsValue(s: string): nat
    requires forall i :: 0 <= i < |s| ==> IsDigit(s[i]) || s[i] == '_'
    decreases |s|
  {
    if s == [] then 0
    else if s[|s| - 1] == '_' then DigitsValue(s[..|s| - 1])
    else DigitsValue(s[..|s| - 1]) * 10 + DigitValue(s[|s| - 1])
  }

  /** The digit part of Python's integer literal: digits, with single `_`
      allowed between two digits. */
  predicate DigitPart(s: string) {
    |s| >= 1 && IsDigit(s[0]) && IsDigit(s[|s| - 1])
    && (forall i :: 0 <= i < |s| ==> IsDigit(s[i]) || s[i] == '_')
    && (forall i :: 0 < i < |s| && s[i] == '_' ==> IsDigit(s[i - 1]))
  }

  lemma {:induction false} DigitsValueOfNat(n: nat)
    ensures DigitsValue(NatToString(n)) == n
    decreases n
  {
    var s := NatToString(n);
    if n >= 10 {
      DigitsValueOfNat(n / 10);
      assert s[..|s| - 1] == NatToString(n / 10);
    }
  }

  /** A decimal read from text, exactly: (-1 if negative) * num / den. */
  datatype Decimal = Decimal(negative: bool, num: nat, den: nat)

  function Pow10(k: nat): (p: nat)
    ensures p >= 1
  {
    if k == 0 then 1 else 10 * Pow10(k - 1)
  }

  /** The number of digits, `_` separators not counted. */
  function DigitCount(s: string): nat
    decreases |s|
  {
    if s == [] then 0
    else DigitCount(s[..|s| - 1]) + (if s[|s| - 1] == '_' then 0 else 1)
  }

  /** k digits make a number below 10^k. */
  lemma {:induction false} DigitsValueBelow(s: string)
    requires forall i :: 0 <= i < |s| ==> IsDigit(s[i]) || s[i] == '_'
    ensures DigitsValue(s) < Pow10(DigitCount(s))
    decreases |s|
  {
    if s != [] {
      DigitsValueBelow(s[..|s| - 1]);
    }
  }

  /** The "int.frac" forms of Python's float literal, read exactly: digits
      before or after the point may be missing, but not both. */
  function ParseDecimal(s: string): (r: Option<Decimal>)
    ensures r.Some? ==> r.value.den >= 1
  {
    SignedDecimal(Strip(s))
  }

  /** The stripped text as an optionally signed "int.frac". */
  function SignedDecimal(t: string): (r: Option<Decimal>)
    ensures r.Some? ==> r.value.den >= 1
  {
    var neg := |t| >= 1 && t[0] == '-';
    var body := if |t| >= 1 && (t[0] == '-' || t[0] == '+') then t[1..] else t;
    match DecimalValue(body)
    case None => None
    case Some(v) => Some(v.(negative := neg))
  }

  /** Text that starts with a digit carries no sign. */
  lemma SignedDecimalUnsigned(t: string)
    requires |t| >= 1 && IsDigit(t[0])
    ensures SignedDecimal(t) == DecimalValue(t)
  {
    match DecimalValue(t)
    case None =>
    case Some(v) => assert v.(negative := false) == v;
  }

  /** The unsigned "int.frac" part: the digits with the point removed,
      over 10 to the number of digits after the point. */
  function DecimalValue(body: string): (r: Option<Decimal>)
    ensures r.Some? ==> !r.value.negative && r.value.den >= 1
  {
    match IndexOf(body, '.')
    case None => None
    case Some(k) =>
      var ip := body[..k];
      var fp := body[k + 1..];
      if (ip == [] || DigitPart(ip)) && (fp == [] || DigitPart(fp)) && (ip != [] || fp != []) then
        var den := Pow10(DigitCount(fp));
        Some(Decimal(false, DigitsValue(ip) * den + DigitsValue(fp), den))
      else None
  }

  /** "ip.fp" reads as the number whose integer part is ip's value and
      whose remainder over the denominator is fp's digits. */
  lemma DecimalValueOfParts(ip: string, fp: string)
    requires DigitPart(ip) && DigitPart(fp)
    ensures DecimalValue(ip + "." + fp).Some?
    ensures DecimalValue(ip + "." + fp).value.num / DecimalValue(ip + "." + fp).value.den == DigitsValue(ip)
    ensures DecimalValue(ip + "." + fp).value.num % DecimalValue(ip + "." + fp).value.den == DigitsValue(fp)
  {
    DecimalValueSplit(ip, fp);
    DigitsValueBelow(fp);
    var x := DecimalValue(ip + "." + fp).value;
    QuotientOf(x.num, DigitsValue(ip), DigitsValue(fp), x.den);
  }

  lemma DecimalValueSplit(ip: string, fp: string)
    requires DigitPart(ip) && DigitPart(fp)
    ensures DecimalValue(ip + "." + fp).Some?
    ensures DecimalValue(ip + "." + fp).value.den == Pow10(DigitCount(fp))
    ensures DecimalValue(ip + "." + fp).value.num == DigitsValue(ip) * Pow10(DigitCount(fp)) + DigitsValue(fp)
  {
    var body := ip + "." + fp;
    IndexOfAfterPrefix(ip, '.', fp);
    assert body[..|ip|] == ip && body[|ip| + 1..] == fp;
  }

  /** `int(s)` for a str: surrounding whitespace, an optional sign, and a
      digit part; anything else raises ValueError, modelled as None. */
  function ParseInt(s: string): (r: Option<int>)
    ensures r.Some? ==> |Strip(s)| >= 1
  {
    SignedInt(Strip(s))
  }

  /** The stripped text as an optionally signed digit part. */
  function SignedInt(t: string): (r: Option<int>)
    ensures r.Some? ==> |t| >= 1
  {
    if |t| >= 1 && (t[0] == '-' || t[0] == '+') then
      var u := t[1..];
      if DigitPart(u) then
        var v: int := DigitsValue(u);
        Some(if t[0] == '-' then -v else v)
      else None
    else if DigitPart(t) then Some(DigitsValue(t))
    else None
  }

  lemma {:induction false} StripNoSpace(s: string)
    requires NoSpace(s)
    ensures Strip(s) == s
  {
  }

  /** Text without surrounding whitespace is parsed as it stands. */
  lemma ParseNoSpace(t: string)
    requires NoSpace(t)
    ensures ParseInt(t) == SignedInt(t) && ParseDecimal(t) == SignedDecimal(t)
  {
    StripNoSpace(t);
  }

  /** Every int survives rendering with `str` and reading back with `int`. */
  lemma {:induction false} ParseIntOfIntToString(i: int)
    ensures ParseInt(IntToString(i)) == Some(i)
  {
    var s := IntToString(i);
    IntToStringNoSpace(i);
    StripNoSpace(s);
    SignedIntOfIntToString(i);
  }

  lemma IntToStringNoSpace(i: int)
    ensures NoSpace(IntToString(i))
  {
    var digits := NatToString(if i < 0 then -i else i);
    assert NoSpace(digits);
    if i < 0 {
      assert IntToString(i)[1..] == digits;
    }
  }

  lemma SignedIntOfIntToString(i: int)
    ensures SignedInt(IntToString(i)) == Some(i)
  {
    var s := IntToString(i);
    var digits := NatToString(if i < 0 then -i else i);
    assert DigitPart(digits);
    DigitsValueOfNat(if i < 0 then -i else i);
    if i < 0 {
      assert s[1..] == digits;
    }
  }

  // ---- str.title() ----

  /** `str.title()` over ASCII: a letter is upper-cased when the character
      before it is not a letter, and lower-cased otherwise. */
  function TitleCase(s: string): (r: string)
    ensures |r| == |s|
  {
    TitleFrom(s, false)
  }

  function TitleFrom(s: string, previousCased: bool): (r: string)
    ensures |r| == |s|
    decreases |s|
  {
    if s == [] then []
    else [if previousCased then LowerChar(s[0]) else UpperChar(s[0])] + TitleFrom(s[1..], IsAlpha(s[0]))
  }
}
