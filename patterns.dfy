/** Explicit scanners for the regular expressions of the debug-text analysis.
    Each expression there has the shape `lead\s+(C+)` or
    `lead\s+(C+)\s+trail`, where `C` is `\w`, `\d` or `[\d.]`. Since `\s`,
    and `C` share no character, and `trail` starts with a letter, the greedy
    engine's backtracking never changes the outcome: a match at position `i`
    exists exactly when `lead` occurs there, a non-empty whitespace run follows,
    then a non-empty run of `C` (captured whole), then, when there is a
    trail, a non-empty whitespace run and the trail. `String.prototype.match`
    reports the leftmost such match. */
module Patterns {
  import opened Wrappers
  import opened Strings

  /** The character classes the expressions use. `Space` is `\s`, which is
      the same set of characters that `trim` removes. */
  datatype CharClass = Space | Word | Digit | DigitOrDot

  predicate IsDigit(c: char) {
    '0' <= c <= '9'
  }

  /** `\w`: ASCII letters, digits and `_`. */
  predicate IsWordChar(c: char) {
    'a' <= c <= 'z' || 'A' <= c <= 'Z' || IsDigit(c) || c == '_'
  }

  predicate InClass(c: char, cls: CharClass) {
    match cls
    case Space => IsWhitespace(c)
    case Word => IsWordChar(c)
    case Digit => IsDigit(c)
    case DigitOrDot => IsDigit(c) || c == '.'
  }

  /** `lead\s+(C+)` followed, when `trail` is present, by `\s+trail`. */
  datatype Pattern = Pattern(lead: string, capture: CharClass, trail: Option<string>)

  /** The `w` characters from `a` on are all of class `cls`. */
  predicate RunOf(s: string, a: nat, w: nat, cls: CharClass)
    decreases w
  {
    a + w <= |s| && (w == 0 || (InClass(s[a], cls) && RunOf(s, a + 1, w - 1, cls)))
  }

  /** `RunOf` read character by character. */
  lemma {:induction false} RunOfChars(s: string, a: nat, w: nat, cls: CharClass)
    ensures RunOf(s, a, w, cls) <==> a + w <= |s| && forall k :: a <= k < a + w ==> InClass(s[k], cls)
    decreases w
  {
    if w > 0 {
      RunOfChars(s, a + 1, w - 1, cls);
    }
  }

  /** The end of a match at `e`: nothing, or `\s+` and then the trail. */
  ghost predicate TrailAt(s: string, e: nat, trail: Option<string>) {
    trail.None? || exists w2 :: w2 >= 1 && RunOf(s, e, w2, Space) && OccursAt(s, trail.value, e + w2)
  }

  /** What follows `lead` in a match, read from `a`: `\s{w}` with `w >= 1`,
      `C{n}` with `n >= 1`, then the trail. */
  ghost predicate TailMatch(s: string, a: nat, p: Pattern, w: nat, n: nat) {
    && w >= 1 && RunOf(s, a, w, Space)
    && n >= 1 && RunOf(s, a + w, n, p.capture)
    && TrailAt(s, a + w + n, p.trail)
  }

  /** The expression matches at `i` with `w` whitespace characters before a
      capture of `n` characters: `lead` at `i`, `\s{w}`, `C{n}`, then the
      trail. This is the regular expression's own reading of a match, with
      no greediness assumed. */
  ghost predicate RegexMatch(s: string, i: nat, p: Pattern, w: nat, n: nat) {
    OccursAt(s, p.lead, i) && TailMatch(s, i + |p.lead|, p, w, n)
  }

  /** Whether `\s+trail` follows at `e`, as the greedy engine checks it:
      the longest whitespace run, then the trail. */
  function TrailFollows(s: string, e: nat, trail: Option<string>): bool
    requires e <= |s|
  {
    match trail
    case None => true
    case Some(t) =>
      var w2 := Run(s, e, Space);
      w2 > 0 && OccursAt(s, t, e + w2)
  }

  /** What the greedy check accepts is a trail of the expression. */
  lemma {:induction false} TrailFollowsSound(s: string, e: nat, trail: Option<string>)
    requires e <= |s| && TrailFollows(s, e, trail)
    ensures TrailAt(s, e, trail)
  {
    if trail.Some? {
      RunSpan(s, e, Space);
    }
  }

  /** The shape every pattern of the analysis has: the capture class is not
      `\s`, and a trail starts with a character `\s` does not match. */
  predicate Separated(p: Pattern) {
    && p.capture != Space
    && (p.trail.Some? ==> |p.trail.value| >= 1 && !IsWhitespace(p.trail.value[0]))
  }

  /** `\w`, `\d` and `[\d.]` match no whitespace character. */
  lemma {:induction false} ClassNotSpace(c: char, cls: CharClass)
    requires cls != Space && InClass(c, cls)
    ensures !IsWhitespace(c)
  {
  }

  /** The length of the longest run of `cls` characters starting at `i`. */
  function Run(s: string, i: nat, cls: CharClass): (r: nat)
    requires i <= |s|
    ensures i + r <= |s|
    decreases |s| - i
  {
    if i == |s| || !InClass(s[i], cls) then 0 else 1 + Run(s, i + 1, cls)
  }

  /** The longest run is a run of `cls`, and the character after it, if
      any, is not of class `cls`. */
  lemma {:induction false} RunSpan(s: string, i: nat, cls: CharClass)
    requires i <= |s|
    ensures RunOf(s, i, Run(s, i, cls), cls)
    ensures i + Run(s, i, cls) < |s| ==> !InClass(s[i + Run(s, i, cls)], cls)
    decreases |s| - i
  {
    if i < |s| && InClass(s[i], cls) {
      RunSpan(s, i + 1, cls);
    }
  }

  /** Every character of the longest run is of class `cls`. */
  lemma {:induction false} RunCovers(s: string, i: nat, cls: CharClass, k: nat)
    requires i <= |s| && i <= k < i + Run(s, i, cls)
    ensures InClass(s[k], cls)
    decreases k - i
  {
    if k > i {
      RunCovers(s, i + 1, cls, k);
    }
  }

  /** The longest run read character by character. */
  lemma {:induction false} RunChars(s: string, i: nat, cls: CharClass)
    requires i <= |s|
    ensures forall k :: i <= k < i + Run(s, i, cls) ==> InClass(s[k], cls)
  {
    forall k | i <= k < i + Run(s, i, cls) {
      RunCovers(s, i, cls, k);
    }
  }

  /** Any run of `cls` from `i` is at most the longest one. */
  lemma {:induction false} RunLongest(s: string, i: nat, w: nat, cls: CharClass)
    requires RunOf(s, i, w, cls)
    ensures w <= Run(s, i, cls)
    decreases w
  {
    if w > 0 {
      RunLongest(s, i + 1, w - 1, cls);
    }
  }

  /** The capture at `c`: the longest run of the capture class, when it is
      not empty and the trail follows it. */
  function CaptureRun(s: string, c: nat, p: Pattern): Option<string>
    requires c <= |s|
  {
    var n := Run(s, c, p.capture);
    if n == 0 || !TrailFollows(s, c + n, p.trail) then None else Some(s[c..c + n])
  }

  /** What follows `lead`: the longest whitespace run, which must not be
      empty, then the capture. */
  function CaptureAfter(s: string, a: nat, p: Pattern): Option<string>
    requires a <= |s|
  {
    var w := Run(s, a, Space);
    if w == 0 then None else CaptureRun(s, a + w, p)
  }

  /** The capture of a match of `p` starting at `i`, or `None`: the greedy
      engine's reading, with the longest whitespace run and the longest
      capture. */
  function MatchAt(s: string, i: nat, p: Pattern): (r: Option<string>)
    requires i <= |s|
    ensures r.Some? ==> OccursAt(s, p.lead, i)
  {
    if !OccursAt(s, p.lead, i) then None else CaptureAfter(s, i + |p.lead|, p)
  }

  lemma {:induction false} CaptureAfterParts(s: string, a: nat, p: Pattern)
    requires a <= |s| && CaptureAfter(s, a, p).Some?
    ensures var w := Run(s, a, Space);
      w >= 1 && CaptureAfter(s, a, p) == CaptureRun(s, a + w, p)
  {
  }

  lemma {:induction false} CaptureRunParts(s: string, c: nat, p: Pattern)
    requires c <= |s| && CaptureRun(s, c, p).Some?
    ensures var n := Run(s, c, p.capture);
      n >= 1 && CaptureRun(s, c, p) == Some(s[c..c + n]) && TrailFollows(s, c + n, p.trail)
  {
  }

  /** The capture found at `c` is the whole run of its class there,
      followed by the trail. */
  lemma {:induction false} CaptureRunSound(s: string, c: nat, p: Pattern)
    requires c <= |s| && CaptureRun(s, c, p).Some?
    ensures var n := Run(s, c, p.capture);
      && n >= 1 && RunOf(s, c, n, p.capture) && TrailAt(s, c + n, p.trail)
      && CaptureRun(s, c, p) == Some(s[c..c + n])
      && (c + n == |s| || !InClass(s[c + n], p.capture))
  {
    CaptureRunParts(s, c, p);
    var n := Run(s, c, p.capture);
    TrailFollowsSound(s, c + n, p.trail);
    RunSpan(s, c, p.capture);
  }

  /** What the scan after `lead` finds is the expression's tail: a
      non-empty `\s` run, then the capture, which is the whole run of its
      class there, then the trail. */
  lemma {:induction false} CaptureAfterSound(s: string, a: nat, p: Pattern)
    requires a <= |s| && CaptureAfter(s, a, p).Some?
    ensures var w := Run(s, a, Space);
      var n := Run(s, a + w, p.capture);
      && TailMatch(s, a, p, w, n)
      && CaptureAfter(s, a, p) == Some(s[a + w..a + w + n])
      && (a + w + n == |s| || !InClass(s[a + w + n], p.capture))
  {
    CaptureAfterParts(s, a, p);
    CaptureRunSound(s, a + Run(s, a, Space), p);
    RunSpan(s, a, Space);
  }

  /** With a trail after it, a capture can only be the whole run of its
      class: the whitespace before the trail ends it. */
  lemma {:induction false} CaptureWhole(s: string, a: nat, p: Pattern, w: nat, n: nat)
    requires Separated(p) && p.trail.Some?
    requires TailMatch(s, a, p, w, n)
    ensures Run(s, a + w, p.capture) == n
  {
    var c := a + w;
    RunLongest(s, c, n, p.capture);
    var t := p.trail.value;
    var w2 :| w2 >= 1 && RunOf(s, c + n, w2, Space) && OccursAt(s, t, c + n + w2);
    if Run(s, c, p.capture) > n {
      RunCovers(s, c, p.capture, c + n);
      ClassNotSpace(s[c + n], p.capture);
    }
  }

  /** Whenever the expression's tail matches from `a`, the scan finds a
      match there: the whitespace run can only be the longest one, and the
      capture is at least as long as any other (exactly that one when a
      trail follows). */
  lemma {:induction false} CaptureAfterComplete(s: string, a: nat, p: Pattern, w: nat, n: nat)
    requires Separated(p)
    requires TailMatch(s, a, p, w, n)
    ensures a <= |s| && CaptureAfter(s, a, p).Some?
    ensures w == Run(s, a, Space) && n <= |CaptureAfter(s, a, p).value|
    ensures p.trail.Some? ==> CaptureAfter(s, a, p) == Some(s[a + w..a + w + n])
  {
    var c := a + w;
    RunLongest(s, a, w, Space);
    ClassNotSpace(s[c], p.capture);
    if Run(s, a, Space) > w {
      RunCovers(s, a, Space, c);
    }
    RunLongest(s, c, n, p.capture);
    var m := Run(s, c, p.capture);
    if p.trail.Some? {
      CaptureWhole(s, a, p, w, n);
      var w2 :| w2 >= 1 && RunOf(s, c + n, w2, Space) && OccursAt(s, p.trail.value, c + n + w2);
      TrailFollowsComplete(s, c + n, p.trail.value, w2);
    }
    assert CaptureRun(s, c, p) == Some(s[c..c + m]);
  }

  /** What `MatchAt` finds is a match of the expression: `lead`, a non-empty
      `\s` run, the capture, which is a whole run of its class, and then the
      trail. */
  lemma {:induction false} MatchAtSound(s: string, i: nat, p: Pattern)
    requires i <= |s| && MatchAt(s, i, p).Some?
    ensures i + |p.lead| <= |s|
    ensures var a := i + |p.lead|;
      var w := Run(s, a, Space);
      var n := Run(s, a + w, p.capture);
      && RegexMatch(s, i, p, w, n)
      && MatchAt(s, i, p) == Some(s[a + w..a + w + n])
      && (a + w + n == |s| || !InClass(s[a + w + n], p.capture))
  {
    CaptureAfterSound(s, i + |p.lead|, p);
  }

  /** Whenever the expression matches at `i`, `MatchAt` finds a match
      there: the whitespace run can only be the longest one, and the capture
      is at least as long as any other (exactly that one when a trail
      follows). */
  lemma {:induction false} MatchAtComplete(s: string, i: nat, p: Pattern, w: nat, n: nat)
    requires Separated(p)
    requires RegexMatch(s, i, p, w, n)
    ensures i <= |s| && MatchAt(s, i, p).Some?
    ensures w == Run(s, i + |p.lead|, Space) && n <= |MatchAt(s, i, p).value|
    ensures p.trail.Some? ==> MatchAt(s, i, p) == Some(s[i + |p.lead| + w..i + |p.lead| + w + n])
  {
    CaptureAfterComplete(s, i + |p.lead|, p, w, n);
  }

  /** A trail that starts with a non-whitespace character is found after the
      longest whitespace run whenever any whitespace run leads to it. */
  lemma {:induction false} TrailFollowsComplete(s: string, e: nat, t: string, w2: nat)
    requires |t| >= 1 && !IsWhitespace(t[0])
    requires w2 >= 1 && RunOf(s, e, w2, Space) && OccursAt(s, t, e + w2)
    ensures TrailFollows(s, e, Some(t))
  {
    RunLongest(s, e, w2, Space);
    assert s[e + w2] == t[0];
    if Run(s, e, Space) > w2 {
      RunCovers(s, e, Space, e + w2);
    }
  }

  /** The leftmost position at or after `from` where `p` matches. */
  function FirstMatchFrom(s: string, p: Pattern, from: nat): (r: Option<nat>)
    requires from <= |s|
    ensures r.Some? ==> from <= r.value <= |s| && MatchAt(s, r.value, p).Some?
    ensures forall j :: from <= j <= |s| && (r.None? || j < r.value) ==> MatchAt(s, j, p).None?
    decreases |s| - from
  {
    if MatchAt(s, from, p).Some? then Some(from)
    else if from == |s| then None
    else FirstMatchFrom(s, p, from + 1)
  }

  /** `s.match(p)[1]`: the capture of the leftmost match, or `None` when
      `match` returns `null`. */
  function Capture(s: string, p: Pattern): (r: Option<string>)
    ensures r.Some? <==> exists i :: 0 <= i <= |s| && MatchAt(s, i, p).Some?
    ensures r.Some? ==> exists i :: 0 <= i <= |s| && MatchAt(s, i, p) == r &&
                          forall j :: 0 <= j < i ==> MatchAt(s, j, p).None?
  {
    match FirstMatchFrom(s, p, 0)
    case None => None
    case Some(i) => MatchAt(s, i, p)
  }

  /** `k` starts a maximal run of digits and dots within `s[i..]`. */
  predicate TokenStart(s: string, i: nat, k: int) {
    i <= k < |s| && InClass(s[k], DigitOrDot) && (k == i || !InClass(s[k - 1], DigitOrDot))
  }

  /** The positions, from `i` on, where a run of digits and dots starts. */
  function TokenStarts(s: string, i: nat): (r: seq<nat>)
    requires i <= |s|
    ensures forall k :: 0 <= k < |r| ==> i <= r[k] < |s|
    decreases |s| - i
  {
    if i == |s| then []
    else
      var n := Run(s, i, DigitOrDot);
      if n == 0 then TokenStarts(s, i + 1) else [i] + TokenStarts(s, i + n)
  }

  /** Every listed position starts a run. */
  lemma {:induction false} TokenStartsAreStarts(s: string, i: nat)
    requires i <= |s|
    ensures forall k :: 0 <= k < |TokenStarts(s, i)| ==> TokenStart(s, i, TokenStarts(s, i)[k])
    decreases |s| - i
  {
    if i < |s| {
      var n := Run(s, i, DigitOrDot);
      RunSpan(s, i, DigitOrDot);
      if n == 0 {
        TokenStartsAreStarts(s, i + 1);
        var r := TokenStarts(s, i + 1);
        assert TokenStarts(s, i) == r;
        forall k | 0 <= k < |r|
          ensures TokenStart(s, i, r[k])
        {
          assert TokenStart(s, i + 1, r[k]);
        }
      } else {
        TokenStartsAreStarts(s, i + n);
        var rest := TokenStarts(s, i + n);
        assert TokenStarts(s, i) == [i] + rest;
        forall k | 0 <= k < |rest|
          ensures TokenStart(s, i, rest[k])
        {
          assert TokenStart(s, i + n, rest[k]);
        }
      }
    }
  }

  /** Every position where a run starts is listed. */
  lemma {:induction false} TokenStartsComplete(s: string, i: nat)
    requires i <= |s|
    ensures forall k :: i <= k < |s| && TokenStart(s, i, k) ==> k in TokenStarts(s, i)
    decreases |s| - i
  {
    if i < |s| {
      var n := Run(s, i, DigitOrDot);
      RunSpan(s, i, DigitOrDot);
      if n == 0 {
        TokenStartsComplete(s, i + 1);
        assert TokenStarts(s, i) == TokenStarts(s, i + 1);
        assert forall k :: i + 1 <= k < |s| && TokenStart(s, i, k) ==> TokenStart(s, i + 1, k);
      } else {
        TokenStartsComplete(s, i + n);
        RunChars(s, i, DigitOrDot);
        assert TokenStarts(s, i) == [i] + TokenStarts(s, i + n);
        assert forall k :: i + n <= k < |s| && TokenStart(s, i, k) ==> TokenStart(s, i + n, k);
        assert forall k :: i < k < i + n ==> !TokenStart(s, i, k);
      }
    }
  }

  /** The listed positions increase. */
  lemma {:induction false} TokenStartsIncreasing(s: string, i: nat)
    requires i <= |s|
    ensures forall k, m :: 0 <= k < m < |TokenStarts(s, i)| ==> TokenStarts(s, i)[k] < TokenStarts(s, i)[m]
    decreases |s| - i
  {
    if i < |s| {
      var n := Run(s, i, DigitOrDot);
      if n == 0 {
        TokenStartsIncreasing(s, i + 1);
        assert TokenStarts(s, i) == TokenStarts(s, i + 1);
      } else {
        TokenStartsIncreasing(s, i + n);
        var rest := TokenStarts(s, i + n);
        var r := TokenStarts(s, i);
        assert r == [i] + rest;
        forall k, m | 0 <= k < m < |r|
          ensures r[k] < r[m]
        {
          assert r[m] == rest[m - 1];
          if k > 0 {
            assert r[k] == rest[k - 1];
          }
        }
      }
    }
  }

  /** `s.match(/([\d.]+)/g)` from position `i` on. */
  function TokensFrom(s: string, i: nat): seq<string>
    requires i <= |s|
    decreases |s| - i
  {
    if i == |s| then []
    else
      var n := Run(s, i, DigitOrDot);
      if n == 0 then TokensFrom(s, i + 1)
      else [s[i..i + n]] + TokensFrom(s, i + n)
  }

  /** Every token is a non-empty string of digits and dots. */
  lemma {:induction false} TokensFromChars(s: string, i: nat)
    requires i <= |s|
    ensures var r := TokensFrom(s, i);
      forall k :: 0 <= k < |r| ==> |r[k]| >= 1 && forall m :: 0 <= m < |r[k]| ==> InClass(r[k][m], DigitOrDot)
    decreases |s| - i
  {
    if i < |s| {
      var n := Run(s, i, DigitOrDot);
      if n == 0 {
        TokensFromChars(s, i + 1);
        var r := TokensFrom(s, i);
        assert r == TokensFrom(s, i + 1);
        forall k | 0 <= k < |r|
          ensures |r[k]| >= 1 && forall m :: 0 <= m < |r[k]| ==> InClass(r[k][m], DigitOrDot)
        {
          assert r[k] == TokensFrom(s, i + 1)[k];
        }
      } else {
        TokensFromChars(s, i + n);
        RunChars(s, i, DigitOrDot);
        var r := TokensFrom(s, i);
        assert r == [s[i..i + n]] + TokensFrom(s, i + n);
        forall k | 0 <= k < |r|
          ensures |r[k]| >= 1 && forall m :: 0 <= m < |r[k]| ==> InClass(r[k][m], DigitOrDot)
        {
          if k > 0 {
            assert r[k] == TokensFrom(s, i + n)[k - 1];
          }
        }
      }
    }
  }

  /** The run of digits and dots that starts at `k`. */
  function RunText(s: string, k: nat): string {
    if k <= |s| then s[k..k + Run(s, k, DigitOrDot)] else []
  }

  /** The runs that start at the positions `st`, in the same order. */
  function RunTexts(s: string, st: seq<nat>): seq<string> {
    if st == [] then [] else [RunText(s, st[0])] + RunTexts(s, st[1..])
  }

  /** One text per position, the run that starts there. */
  lemma {:induction false} RunTextsAt(s: string, st: seq<nat>)
    ensures |RunTexts(s, st)| == |st|
    ensures forall k :: 0 <= k < |st| ==> RunTexts(s, st)[k] == RunText(s, st[k])
  {
    if st != [] {
      RunTextsAt(s, st[1..]);
      var r := RunTexts(s, st);
      assert r == [RunText(s, st[0])] + RunTexts(s, st[1..]);
      forall k | 1 <= k < |st|
        ensures r[k] == RunText(s, st[k])
      {
        assert r[k] == RunTexts(s, st[1..])[k - 1];
        assert st[k] == st[1..][k - 1];
      }
    }
  }

  /** The tokens are the maximal runs of digits and dots, all of them and in
      order: one per run start, each the whole run from its start. */
  lemma {:induction false} TokensFromRuns(s: string, i: nat)
    requires i <= |s|
    ensures TokensFrom(s, i) == RunTexts(s, TokenStarts(s, i))
    decreases |s| - i
  {
    if i < |s| {
      var n := Run(s, i, DigitOrDot);
      if n == 0 {
        TokensFromRuns(s, i + 1);
        assert TokenStarts(s, i) == TokenStarts(s, i + 1);
      } else {
        TokensFromRuns(s, i + n);
        var st := TokenStarts(s, i);
        var rest := TokenStarts(s, i + n);
        assert st == [i] + rest;
        assert st[0] == i && st[1..] == rest;
        assert RunTexts(s, st) == [RunText(s, i)] + RunTexts(s, rest);
      }
    }
  }

  function Tokens(s: string): seq<string> {
    TokensFrom(s, 0)
  }

  // ---- parseFloat on a digit/dot token ----

  /** The value of a string of decimal digits (0 for the empty string). */
  function DigitsValue(d: string): nat
    decreases |d|
  {
    if d == [] then 0
    else
      var last := d[|d| - 1];
      DigitsValue(d[..|d| - 1]) * 10 + (if IsDigit(last) then last as int - '0' as int else 0)
  }

  function Pow10(n: nat): (r: nat)
    ensures r >= 1
  {
    if n == 0 then 1 else 10 * Pow10(n - 1)
  }

  predicate AllDigits(d: string) {
    forall k :: 0 <= k < |d| ==> IsDigit(d[k])
  }

  /** The longest prefix `parseFloat` reads from a digit/dot token, as its
      integer digits and its fraction digits; `None` where it gives `NaN`.
      The prefix is `D+`, `D+.D*` or `.D+`. */
  function NumericPrefix(t: string): (r: Option<(string, string)>)
    ensures r.Some? ==> AllDigits(r.value.0) && AllDigits(r.value.1)
    ensures r.Some? ==> |r.value.0| + |r.value.1| >= 1
  {
    var d := Run(t, 0, Digit);
    RunChars(t, 0, Digit);
    if d > 0 then
      if d < |t| && t[d] == '.' then
        var f := Run(t, d + 1, Digit);
        RunChars(t, d + 1, Digit);
        Some((t[..d], t[d + 1..d + 1 + f]))
      else Some((t[..d], ""))
    else if |t| > 0 && t[0] == '.' && Run(t, 1, Digit) > 0 then
      RunChars(t, 1, Digit);
      Some(("", t[1..1 + Run(t, 1, Digit)]))
    else None
  }

  /** The exact value of the prefix `parseFloat` reads. */
  function DecimalValue(intDigits: string, fracDigits: string): real {
    DigitsValue(intDigits) as real + DigitsValue(fracDigits) as real / Pow10(|fracDigits|) as real
  }

  /** `num >= 0.0 && num <= 1.0` for `num = parseFloat(t)`, decided on the
      digits: the integer part is 0, or it is 1 and the fraction is 0. */
  predicate InUnitInterval(t: string) {
    match NumericPrefix(t)
    case None => false
    case Some((i, f)) => DigitsValue(i) == 0 || (DigitsValue(i) == 1 && DigitsValue(f) == 0)
  }

  /** The filter of the threshold fallback. */
  predicate Reasonable(t: string) {
    InUnitInterval(t) && '.' in t
  }

  /** `k` is the position of the first token that passes the filter. */
  predicate FirstReasonableAt(tokens: seq<string>, k: int) {
    0 <= k < |tokens| && Reasonable(tokens[k]) && forall j :: 0 <= j < k ==> !Reasonable(tokens[j])
  }

  /** The filtered tokens, in order. */
  function ReasonableTokens(tokens: seq<string>): (r: seq<string>)
    ensures forall k :: 0 <= k < |r| ==> Reasonable(r[k]) && r[k] in tokens
    ensures |r| == 0 <==> forall k :: 0 <= k < |tokens| ==> !Reasonable(tokens[k])
    ensures |r| > 0 ==> exists k :: FirstReasonableAt(tokens, k) && tokens[k] == r[0]
    decreases |tokens|
  {
    if tokens == [] then []
    else if Reasonable(tokens[0]) then
      assert FirstReasonableAt(tokens, 0);
      [tokens[0]] + ReasonableTokens(tokens[1..])
    else
      var r := ReasonableTokens(tokens[1..]);
      assert |r| > 0 ==> exists k :: FirstReasonableAt(tokens, k) && tokens[k] == r[0] by {
        if |r| > 0 {
          var k :| FirstReasonableAt(tokens[1..], k) && tokens[1..][k] == r[0];
          assert FirstReasonableAt(tokens, k + 1);
        }
      }
      r
  }

  // ---- properties ----

  lemma {:induction false} DigitsValueBound(d: string)
    ensures DigitsValue(d) < Pow10(|d|)
    decreases |d|
  {
    if d != [] {
      DigitsValueBound(d[..|d| - 1]);
    }
  }

  /** A fraction of digits lies in `[0, 1)`, and is 0 only for zero digits. */
  lemma {:induction false} FractionBounds(fv: nat, p: nat)
    requires 1 <= p && fv < p
    ensures 0.0 <= fv as real / p as real < 1.0
    ensures fv > 0 ==> fv as real / p as real > 0.0
  {
    var q := fv as real / p as real;
    assert q * p as real == fv as real;
  }

  /** The digit comparison decides the same as comparing the exact value
      with 0 and 1. */
  lemma {:induction false} UnitIntervalExact(t: string)
    requires NumericPrefix(t).Some?
    ensures var (i, f) := NumericPrefix(t).value;
      InUnitInterval(t) <==> 0.0 <= DecimalValue(i, f) <= 1.0
  {
    var (i, f) := NumericPrefix(t).value;
    var iv, fv, p := DigitsValue(i), DigitsValue(f), Pow10(|f|);
    var frac := fv as real / p as real;
    DigitsValueBound(f);
    FractionBounds(fv, p);
    assert DecimalValue(i, f) == iv as real + frac;
    assert InUnitInterval(t) <==> iv == 0 || (iv == 1 && fv == 0);
    if iv >= 2 {
      assert iv as real >= 2.0;
    }
  }
}
