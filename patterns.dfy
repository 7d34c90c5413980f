/** Explicit scanners for the regular expressions the bot uses: word
    boundaries, case-insensitive tokens, and the year / resolution / release
    group / quality / codec extractors shared by the search client and the
    helper module. */
module Patterns {
  import opened Wrappers
  import opened Text

  /** The least position `k` in [from, n) with `P(k)`, or `n` when there is
      none: the leftmost match of a regex search. */
  function FirstFrom(n: nat, from: nat, P: nat -> bool): (r: nat)
    requires from <= n
    ensures from <= r <= n
    ensures r < n ==> P(r)
    ensures forall j :: from <= j < r ==> !P(j)
    decreases n - from
  {
    if from == n then n else if P(from) then from else FirstFrom(n, from + 1, P)
  }

  lemma FirstFromIsLeftmost(n: nat, P: nat -> bool, p: nat)
    requires p <= n && (p < n ==> P(p)) && (forall j :: 0 <= j < p ==> !P(j))
    ensures FirstFrom(n, 0, P) == p
  {
  }

  /** Regex `\b` at position `k` (between `s[k-1]` and `s[k]`). */
  predicate WordBoundary(s: string, k: nat)
    requires k <= |s|
  {
    (k > 0 && IsWordChar(s[k - 1])) != (k < |s| && IsWordChar(s[k]))
  }

  /** `t` occurs at position `k` under re.IGNORECASE. */
  predicate MatchesAtCI(s: string, k: nat, t: string) {
    k + |t| <= |s| && Lower(s[k..k + |t|]) == Lower(t)
  }

  /** `\bt\b` matches at position `k`. */
  predicate TokenAt(s: string, k: nat, t: string) {
    k + |t| <= |s| && MatchesAtCI(s, k, t) && WordBoundary(s, k) && WordBoundary(s, k + |t|)
  }

  /** `\b(t1|t2|...)\b` matches at position `k`: the alternation backtracks, so
      any listed token will do. */
  predicate AnyTokenAt(s: string, k: nat, tokens: seq<string>) {
    exists j :: 0 <= j < |tokens| && TokenAt(s, k, tokens[j])
  }

  // ---- \((\d{4})\) ----

  predicate ParenYearAt(s: string, k: nat) {
    k + 6 <= |s| && s[k] == '(' && AllDigits(s[k + 1..k + 5]) && s[k + 5] == ')'
  }

  /** `re.search(r'\((\d{4})\)', s).group(1)`: the four digits of the leftmost
      parenthesised four-digit group. */
  function ParenYear(s: string): (r: Option<string>)
    ensures r.None? <==> forall k :: 0 <= k < |s| ==> !ParenYearAt(s, k)
    ensures r.Some? ==> exists k :: 0 <= k < |s| && ParenYearAt(s, k) && r.value == s[k + 1..k + 5]
                                    && forall j :: 0 <= j < k ==> !ParenYearAt(s, j)
    ensures r.Some? ==> |r.value| == 4 && AllDigits(r.value)
  {
    var P := (j: nat) => ParenYearAt(s, j);
    var k := FirstFrom(|s|, 0, P);
    forall j | 0 <= j < k ensures !ParenYearAt(s, j) { assert !P(j); }
    if k < |s| then Some(s[k + 1..k + 5]) else None
  }

  // ---- (\d{3,4}p) ----

  /** `\d{3,4}p` at `k`; the four- and three-digit forms exclude each other, so
      greedy matching and "either form" agree. */
  predicate ResolutionAt(s: string, k: nat) {
    (k + 5 <= |s| && AllDigits(s[k..k + 4]) && s[k + 4] == 'p')
    || (k + 4 <= |s| && AllDigits(s[k..k + 3]) && s[k + 3] == 'p')
  }

  function ResolutionTextAt(s: string, k: nat): (r: string)
    requires ResolutionAt(s, k)
    ensures 4 <= |r| <= 5 && r[|r| - 1] == 'p' && AllDigits(r[..|r| - 1])
    ensures k + |r| <= |s| && r == s[k..k + |r|]
  {
    if k + 5 <= |s| && AllDigits(s[k..k + 4]) && s[k + 4] == 'p' then
      assert s[k..k + 5][..4] == s[k..k + 4];
      s[k..k + 5]
    else
      assert s[k..k + 4][..3] == s[k..k + 3];
      s[k..k + 4]
  }

  /** `re.search(r'(\d{3,4}p)', s).group(1)` */
  function Resolution(s: string): (r: Option<string>)
    ensures r.None? <==> forall k :: 0 <= k < |s| ==> !ResolutionAt(s, k)
    ensures r.Some? ==> exists k :: 0 <= k < |s| && ResolutionAt(s, k) && r.value == ResolutionTextAt(s, k)
                                    && forall j :: 0 <= j < k ==> !ResolutionAt(s, j)
  {
    var P := (j: nat) => ResolutionAt(s, j);
    var k := FirstFrom(|s|, 0, P);
    forall j | 0 <= j < k ensures !ResolutionAt(s, j) { assert !P(j); }
    if k < |s| then Some(ResolutionTextAt(s, k)) else None
  }

  // ---- -([A-Za-z0-9]+)$ ----

  predicate GroupAt(s: string, k: nat) {
    k + 1 < |s| && s[k] == '-' && AllAlnum(s[k + 1..])
  }

  /** Only the last '-' can start a match, since '-' is not alphanumeric. */
  lemma GroupAtUnique(s: string, i: nat, j: nat)
    requires GroupAt(s, i) && GroupAt(s, j)
    ensures i == j
  {
    forall k | i < k < |s| ensures s[k] != '-' { assert s[k] == s[i + 1..][k - i - 1]; }
    forall k | j < k < |s| ensures s[k] != '-' { assert s[k] == s[j + 1..][k - j - 1]; }
  }

  /** `re.search(r'-([A-Za-z0-9]+)$', s).group(1)`: the alphanumeric run after
      a '-' that reaches the end of the string. */
  function TrailingGroup(s: string): (r: Option<string>)
    ensures r.None? <==> forall k :: 0 <= k < |s| ==> !GroupAt(s, k)
    ensures r.Some? ==> exists k :: 0 <= k < |s| && GroupAt(s, k) && r.value == s[k + 1..]
    ensures r.Some? ==> |r.value| >= 1 && AllAlnum(r.value)
  {
    var P := (j: nat) => GroupAt(s, j);
    var k := FirstFrom(|s|, 0, P);
    forall j | 0 <= j < k ensures !GroupAt(s, j) { assert !P(j); }
    if k < |s| then Some(s[k + 1..]) else None
  }

  lemma {:induction false} TrailingGroupOf(name: string, group: string)
    requires |group| >= 1 && AllAlnum(group)
    ensures TrailingGroup(name + "-" + group) == Some(group)
  {
    var s := name + "-" + group;
    assert s[|name| + 1..] == group;
    assert GroupAt(s, |name|);
    forall k | 0 <= k < |s| && GroupAt(s, k) ensures k == |name| {
      GroupAtUnique(s, k, |name|);
    }
  }

  // ---- first listed keyword contained in the title ----

  /** The first entry of `list` (in list order) whose lower-cased form occurs
      in the lower-cased `title`, spelled as in the list. */
  function FirstContainedCI(list: seq<string>, title: string): (r: Option<string>)
    ensures r.None? <==> forall i :: 0 <= i < |list| ==> !Contains(Lower(title), Lower(list[i]))
    ensures r.Some? ==> exists i :: 0 <= i < |list| && r.value == list[i]
                                    && Contains(Lower(title), Lower(list[i]))
                                    && forall j :: 0 <= j < i ==> !Contains(Lower(title), Lower(list[j]))
  {
    var P := (i: nat) => i < |list| && Contains(Lower(title), Lower(list[i]));
    var i := FirstFrom(|list|, 0, P);
    forall j | 0 <= j < i ensures !Contains(Lower(title), Lower(list[j])) { assert !P(j); }
    if i < |list| then Some(list[i]) else None
  }

  /** The same without case folding (`quality in name`). */
  function FirstContained(list: seq<string>, title: string): (r: Option<string>)
    ensures r.None? <==> forall i :: 0 <= i < |list| ==> !Contains(title, list[i])
    ensures r.Some? ==> exists i :: 0 <= i < |list| && r.value == list[i] && Contains(title, list[i])
                                    && forall j :: 0 <= j < i ==> !Contains(title, list[j])
  {
    var P := (i: nat) => i < |list| && Contains(title, list[i]);
    var i := FirstFrom(|list|, 0, P);
    forall j | 0 <= j < i ensures !Contains(title, list[j]) { assert !P(j); }
    if i < |list| then Some(list[i]) else None
  }

  // ---- regex escaping of titles ----

  function EscapeChar(c: char): string {
    if c == ' ' then "\\s+" else if c == '(' then "\\(" else if c == ')' then "\\)" else [c]
  }

  /** The escaping the rule builders apply to a title: each space becomes
      `\s+`, each parenthesis is preceded by a backslash, and every other
      character is kept. */
  function EscapeTitle(s: string): (r: string)
    ensures ' ' !in r
    ensures |r| >= |s|
  {
    if s == [] then [] else EscapeChar(s[0]) + EscapeTitle(s[1..])
  }

  lemma {:induction false} EscapeConcat(a: string, b: string)
    ensures EscapeTitle(a + b) == EscapeTitle(a) + EscapeTitle(b)
    decreases |a|
  {
    if a == [] {
      assert a + b == b;
    } else {
      assert (a + b)[0] == a[0] && (a + b)[1..] == a[1..] + b;
      EscapeConcat(a[1..], b);
    }
  }

  lemma ReplaceSingle(x: char, c: char, t: string)
    ensures ReplaceChar([x], c, t) == if x == c then t else [x]
  {
    assert [x][1..] == [];
  }

  /** The per-character escaping equals the source's chain
      `.replace(' ', '\\s+').replace('(', '\\(').replace(')', '\\)')`:
      no replacement text contains a character a later step replaces. */
  lemma {:induction false} EscapeIsReplaceChain(s: string)
    ensures EscapeTitle(s) == ReplaceChar(ReplaceChar(ReplaceChar(s, ' ', "\\s+"), '(', "\\("), ')', "\\)")
    decreases |s|
  {
    if s != [] {
      var head := [s[0]];
      assert s == head + s[1..];
      ReplaceCharConcat(head, s[1..], ' ', "\\s+");
      var a1 := ReplaceChar(head, ' ', "\\s+");
      var b1 := ReplaceChar(s[1..], ' ', "\\s+");
      ReplaceCharConcat(a1, b1, '(', "\\(");
      var a2 := ReplaceChar(a1, '(', "\\(");
      var b2 := ReplaceChar(b1, '(', "\\(");
      ReplaceCharConcat(a2, b2, ')', "\\)");
      EscapeIsReplaceChain(s[1..]);
      assert EscapeTitle(head) == EscapeChar(s[0]) by { assert head[1..] == []; }
      ReplaceSingle(s[0], ' ', "\\s+");
      if s[0] == ' ' {
        ReplaceCharAbsent(a1, '(', "\\(");
        ReplaceCharAbsent(a2, ')', "\\)");
      } else {
        ReplaceSingle(s[0], '(', "\\(");
        if s[0] == '(' {
          ReplaceCharAbsent(a2, ')', "\\)");
        } else {
          ReplaceSingle(s[0], ')', "\\)");
        }
      }
    }
  }
  // ---- re.sub(r'<class>+', rep, s) ----

  /** The input after its leading run of characters satisfying `P`. */
  function DropRun(s: string, P: char -> bool): (r: string)
    ensures |r| <= |s| && r == s[|s| - |r|..]
    ensures r != [] ==> !P(r[0])
    ensures forall i :: 0 <= i < |s| - |r| ==> P(s[i])
    ensures s != [] && P(s[0]) ==> |r| < |s|
    decreases |s|
  {
    if s != [] && P(s[0]) then DropRun(s[1..], P) else s
  }

  /** Every maximal run of characters satisfying `P` replaced by the single
      character `rep`, as `re.sub` with a one-class `+` pattern does. */
  function CollapseRuns(s: string, P: char -> bool, rep: char): (r: string)
    ensures forall i :: 0 <= i < |r| ==> r[i] == rep || (!P(r[i]) && r[i] in s)
    ensures s == [] <==> r == []
    ensures s != [] ==> r[0] == (if P(s[0]) then rep else s[0])
    ensures P(rep) ==> forall i :: 0 <= i < |r| - 1 ==> !P(r[i]) || !P(r[i + 1])
    decreases |s|
  {
    if s == [] then []
    else if P(s[0]) then [rep] + CollapseRuns(DropRun(s, P), P, rep)
    else [s[0]] + CollapseRuns(s[1..], P, rep)
  }

  /** Text whose only `P` characters are isolated copies of `rep` is a fixed
      point of the collapse. */
  lemma {:induction false} CollapseFixpoint(s: string, P: char -> bool, rep: char)
    requires P(rep)
    requires forall i :: 0 <= i < |s| ==> P(s[i]) ==> s[i] == rep
    requires forall i :: 0 <= i < |s| - 1 ==> !P(s[i]) || !P(s[i + 1])
    ensures CollapseRuns(s, P, rep) == s
    decreases |s|
  {
    if s != [] {
      var t := s[1..];
      CollapseFixpoint(t, P, rep);
      if P(s[0]) {
        assert t == [] || !P(t[0]);
        assert DropRun(t, P) == t;
      }
    }
  }

  lemma {:induction false} DropRunOf(run: string, rest: string, P: char -> bool)
    requires forall i :: 0 <= i < |run| ==> P(run[i])
    requires rest == [] || !P(rest[0])
    ensures DropRun(run + rest, P) == rest
    decreases |run|
  {
    if run == [] {
      assert run + rest == rest;
    } else {
      assert (run + rest)[0] == run[0] && (run + rest)[1..] == run[1..] + rest;
      DropRunOf(run[1..], rest, P);
    }
  }

  /** One run between run-free text and the rest: the collapse emits the
      text, one `rep`, and continues after the run. */
  lemma CollapseRunStep(w: string, run: string, rest: string, P: char -> bool, rep: char)
    requires forall i :: 0 <= i < |w| ==> !P(w[i])
    requires run != [] && forall i :: 0 <= i < |run| ==> P(run[i])
    requires rest == [] || !P(rest[0])
    ensures CollapseRuns(w + run + rest, P, rep) == w + [rep] + CollapseRuns(rest, P, rep)
  {
    var x := CollapseRuns(rest, P, rep);
    AppendAssoc(w, run, rest);
    CollapseKeepsPrefix(w, run + rest, P, rep);
    CollapseRunAtStart(run, rest, P, rep);
    AppendAssoc(w, [rep], x);
  }

  /** Run-free text in front is copied unchanged. */
  lemma {:induction false} CollapseKeepsPrefix(w: string, tail: string, P: char -> bool, rep: char)
    requires forall i :: 0 <= i < |w| ==> !P(w[i])
    ensures CollapseRuns(w + tail, P, rep) == w + CollapseRuns(tail, P, rep)
    decreases |w|
  {
    if w == [] {
      assert w + tail == tail;
    } else {
      CollapseKeeps(w, tail, P, rep);
      assert forall i :: 0 <= i < |w[1..]| ==> w[1..][i] == w[i + 1];
      CollapseKeepsPrefix(w[1..], tail, P, rep);
      ConsSplit(w, CollapseRuns(tail, P, rep));
    }
  }

  /** A first character outside the class is kept as it is. */
  lemma CollapseKeeps(w: string, tail: string, P: char -> bool, rep: char)
    requires w != [] && !P(w[0])
    ensures CollapseRuns(w + tail, P, rep) == [w[0]] + CollapseRuns(w[1..] + tail, P, rep)
  {
    var s := w + tail;
    assert s[0] == w[0] && s[1..] == w[1..] + tail;
  }

  lemma ConsSplit<T>(w: seq<T>, y: seq<T>)
    requires w != []
    ensures [w[0]] + (w[1..] + y) == w + y
  {
    assert w == [w[0]] + w[1..];
  }

  /** A leading run becomes one `rep`. */
  lemma CollapseRunAtStart(run: string, rest: string, P: char -> bool, rep: char)
    requires run != [] && forall i :: 0 <= i < |run| ==> P(run[i])
    requires rest == [] || !P(rest[0])
    ensures CollapseRuns(run + rest, P, rep) == [rep] + CollapseRuns(rest, P, rep)
  {
    assert (run + rest)[0] == run[0];
    DropRunOf(run, rest, P);
  }

  /** Text without any `P` character is unchanged. */
  lemma {:induction false} CollapseNoRun(w: string, P: char -> bool, rep: char)
    requires forall i :: 0 <= i < |w| ==> !P(w[i])
    ensures CollapseRuns(w, P, rep) == w
    decreases |w|
  {
    if w != [] {
      CollapseNoRun(w[1..], P, rep);
    }
  }
}
