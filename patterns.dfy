/**
 * Hand-written scanners for the regular expressions of the phone scripts.
 * Each scanner does what Python's `re` does with its one pattern: leftmost
 * matches, greedy repetition with backtracking worked out by hand, and
 * `findall`/`split` resuming right after each match.
 */
module Patterns {
  import opened Text

  // ---------------------------------------------------------------- runs

  /** Length of the run of digits that starts at `i`. */
  function DigitRun(s: string, i: nat): (n: nat)
    requires i <= |s|
    ensures i + n <= |s| && AllDigits(s[i..i + n])
    ensures i + n == |s| || !IsDigit(s[i + n])
    decreases |s| - i
  {
    if i < |s| && IsDigit(s[i]) then
      var n := DigitRun(s, i + 1);
      assert s[i..i + 1 + n] == [s[i]] + s[i + 1..i + 1 + n];
      1 + n
    else 0
  }

  /** `k` digits at `i` make the digit run there at least `k` long. */
  lemma {:induction false} DigitRunAtLeast(s: string, i: nat, k: nat)
    requires i + k <= |s| && AllDigits(s[i..i + k])
    ensures DigitRun(s, i) >= k
    decreases k
  {
    if k > 0 {
      assert IsDigit(s[i..i + k][0]);
      assert s[i + 1..i + k] == s[i..i + k][1..];
      DigitRunAtLeast(s, i + 1, k - 1);
    }
  }

  /** `r` occurs in `s` at `p` with no digit right before or right after it. */
  predicate StandaloneAt(s: string, r: string, p: int) {
    && 0 <= p <= |s| - |r|
    && s[p..p + |r|] == r
    && (p == 0 || !IsDigit(s[p - 1]))
    && (p + |r| == |s| || !IsDigit(s[p + |r|]))
  }

  predicate Standalone(s: string, r: string) {
    exists p | 0 <= p <= |s| :: StandaloneAt(s, r, p)
  }

  /** A maximal run of digits starts at `p`: a digit with no digit right before it. */
  predicate RunStart(s: string, p: int) {
    0 <= p < |s| && IsDigit(s[p]) && (p == 0 || !IsDigit(s[p - 1]))
  }

  /** The maximal digit runs that start at `i` or later, position by position, in order. */
  function RunsAt(s: string, i: nat): seq<string>
    requires i <= |s|
    decreases |s| - i
  {
    if i == |s| then []
    else (if RunStart(s, i) then [s[i..i + DigitRun(s, i)]] else []) + RunsAt(s, i + 1)
  }

  /** Inside a run (a digit right before every position) no run starts. */
  lemma {:induction false} RunsAtInside(s: string, a: nat, b: nat)
    requires 1 <= a <= b <= |s|
    requires forall p | a - 1 <= p < b :: IsDigit(s[p])
    ensures RunsAt(s, a) == RunsAt(s, b)
    decreases b - a
  {
    if a < b {
      assert !RunStart(s, a);
      RunsAtInside(s, a + 1, b);
    }
  }

  /**
   * The maximal runs of digits of `s` from `i` on, in order. Patterns framed
   * by `(?<!\d)` and `(?!\d)` can only match a whole run. The scan jumps
   * over each run it lists, yet it lists every run there is.
   */
  function Runs(s: string, i: nat): (runs: seq<string>)
    requires i <= |s|
    requires i == 0 || i == |s| || !IsDigit(s[i - 1]) || !IsDigit(s[i])
    ensures runs == RunsAt(s, i)
    ensures forall r | r in runs :: r != [] && AllDigits(r) && Standalone(s, r)
    decreases |s| - i
  {
    if i == |s| then []
    else if IsDigit(s[i]) then
      var n := DigitRun(s, i);
      RunAt(s, i, n);
      var rest := Runs(s, i + n);
      assert Standalone(s, s[i..i + n]);
      [s[i..i + n]] + rest
    else Runs(s, i + 1)
  }

  /** A run starting at `i`: it is listed first, stands alone, and the listing resumes after it. */
  lemma RunAt(s: string, i: nat, n: nat)
    requires i < |s| && IsDigit(s[i]) && (i == 0 || !IsDigit(s[i - 1])) && n == DigitRun(s, i)
    ensures n >= 1 && StandaloneAt(s, s[i..i + n], i)
    ensures RunsAt(s, i) == [s[i..i + n]] + RunsAt(s, i + n)
  {
    RunDigits(s, i, n);
    RunsAtFirst(s, i, n);
    RunsAtInside(s, i + 1, i + n);
  }

  /** Every position of the run holds a digit. */
  lemma RunDigits(s: string, i: nat, n: nat)
    requires i <= |s| && n == DigitRun(s, i)
    ensures forall p | i <= p < i + n :: IsDigit(s[p])
  {
    var run := s[i..i + n];
    forall p | i <= p < i + n ensures IsDigit(s[p]) {
      assert s[p] == run[p - i];
    }
  }

  /** One step of `RunsAt` where a run starts. */
  lemma RunsAtFirst(s: string, i: nat, n: nat)
    requires RunStart(s, i) && n == DigitRun(s, i)
    ensures RunsAt(s, i) == [s[i..i + n]] + RunsAt(s, i + 1)
  {
  }

  /** A digit run that `(?<!\d)(52\d{10}|521\d{10})(?!\d)` matches: 12 digits from 52, or 13 from 521. */
  predicate MxRun(r: string) {
    (|r| == 12 && "52" <= r) || (|r| == 13 && "521" <= r)
  }

  /** A digit run that `(?<!\d)(1?\d{10})(?!\d)` matches: 10 digits, or 11 starting with 1. */
  predicate UsRun(r: string) {
    |r| == 10 || (|r| == 11 && r[0] == '1')
  }

  /** The runs that the Mexican pattern matches, in order: all of them and nothing else. */
  function MxRuns(runs: seq<string>): (hits: seq<string>)
    ensures forall h | h in hits :: h in runs && MxRun(h)
    ensures forall r | r in runs && MxRun(r) :: r in hits
  {
    if runs == [] then []
    else
      var r := runs[0];
      assert forall x | x in runs :: x == r || x in runs[1..];
      (if MxRun(r) then [r] else []) + MxRuns(runs[1..])
  }

  /** The runs that the US pattern matches, in order: all of them and nothing else. */
  function UsRuns(runs: seq<string>): (hits: seq<string>)
    ensures forall h | h in hits :: h in runs && UsRun(h)
    ensures forall r | r in runs && UsRun(r) :: r in hits
  {
    if runs == [] then []
    else
      var r := runs[0];
      assert forall x | x in runs :: x == r || x in runs[1..];
      (if UsRun(r) then [r] else []) + UsRuns(runs[1..])
  }

  // ---------------------------------------------------------------- \+\d{8,15}

  /** `+` then 8 to 15 digits, nothing else. */
  predicate PlusHit(h: string) {
    9 <= |h| <= 16 && h[0] == '+' && AllDigits(h[1..])
  }

  /**
   * Length of the match of `\+\d{8,15}` at `i`, or 0. There is a match
   * exactly when `+` and 8 digits stand at `i`, and it is greedy: it ends
   * after the 15th digit or where the digits end.
   */
  function PlusMatch(s: string, i: nat): (n: nat)
    requires i <= |s|
    ensures n == 0 <==> !(i + 9 <= |s| && PlusHit(s[i..i + 9]))
    ensures n > 0 ==> i + n <= |s| && PlusHit(s[i..i + n]) && (n == 16 || i + n == |s| || !IsDigit(s[i + n]))
  {
    if i < |s| && s[i] == '+' then
      var run := DigitRun(s, i + 1);
      PlusRunEnough(s, i, run);
      if run >= 8 then
        var n := 1 + (if run > 15 then 15 else run);
        PlusRunHit(s, i, run, n);
        n
      else 0
    else
      assert !(i + 9 <= |s| && PlusHit(s[i..i + 9])) by {
        if i + 9 <= |s| {
          assert s[i..i + 9][0] == s[i];
        }
      }
      0
  }

  /** Behind a `+`, eight digits are there exactly when the digit run is 8 long. */
  lemma PlusRunEnough(s: string, i: nat, run: nat)
    requires i < |s| && s[i] == '+' && run == DigitRun(s, i + 1)
    ensures run >= 8 <==> i + 9 <= |s| && PlusHit(s[i..i + 9])
  {
    if i + 9 <= |s| && PlusHit(s[i..i + 9]) {
      assert s[i + 1..i + 9] == s[i..i + 9][1..];
      DigitRunAtLeast(s, i + 1, 8);
    }
    if run >= 8 {
      assert s[i..i + 9][1..] == s[i + 1..i + 1 + run][..8];
    }
  }

  /** The greedy match behind a `+` takes at most 15 digits of the run. */
  lemma PlusRunHit(s: string, i: nat, run: nat, n: nat)
    requires i < |s| && s[i] == '+' && run == DigitRun(s, i + 1) && run >= 8
    requires n == 1 + (if run > 15 then 15 else run)
    ensures i + n <= |s| && PlusHit(s[i..i + n])
    ensures n == 16 || i + n == |s| || !IsDigit(s[i + n])
  {
    assert s[i..i + n][1..] == s[i + 1..i + 1 + run][..n - 1];
  }

  /** The `+` matches at every position from `i` on, in order. */
  function PlusAt(s: string, i: nat): seq<string>
    requires i <= |s|
    decreases |s| - i
  {
    if i == |s| then []
    else (if PlusMatch(s, i) > 0 then [s[i..i + PlusMatch(s, i)]] else []) + PlusAt(s, i + 1)
  }

  /** Where there is no `+` no match starts. */
  lemma {:induction false} PlusAtSkips(s: string, a: nat, b: nat)
    requires a <= b <= |s|
    requires forall p | a <= p < b :: s[p] != '+'
    ensures PlusAt(s, a) == PlusAt(s, b)
    decreases b - a
  {
    if a < b {
      assert PlusMatch(s, a) == 0 by {
        if a + 9 <= |s| {
          assert s[a..a + 9][0] == s[a];
        }
      }
      PlusAtSkips(s, a + 1, b);
    }
  }

  /**
   * `re.findall(r"\+\d{8,15}", s[i..])`. A match holds one `+`, at its
   * start, so resuming after a match loses none: the hits are the matches at
   * every position, in order.
   */
  function PlusHits(s: string, i: nat): (hits: seq<string>)
    requires i <= |s|
    ensures hits == PlusAt(s, i)
    ensures forall h | h in hits :: PlusHit(h)
    decreases |s| - i
  {
    if i == |s| then []
    else
      var n := PlusMatch(s, i);
      if n > 0 then
        PlusAtMatch(s, i, n);
        [s[i..i + n]] + PlusHits(s, i + n)
      else PlusHits(s, i + 1)
  }

  /** A match at `i` is listed first, and the listing resumes after it. */
  lemma PlusAtMatch(s: string, i: nat, n: nat)
    requires i < |s| && n == PlusMatch(s, i) && n > 0
    ensures PlusAt(s, i) == [s[i..i + n]] + PlusAt(s, i + n)
  {
    PlusAtFirst(s, i, n);
    PlusMatchNoPlus(s, i, n);
    PlusAtSkips(s, i + 1, i + n);
  }

  /** One step of `PlusAt` where a match starts. */
  lemma PlusAtFirst(s: string, i: nat, n: nat)
    requires i < |s| && n == PlusMatch(s, i) && n > 0
    ensures PlusAt(s, i) == [s[i..i + n]] + PlusAt(s, i + 1)
  {
  }

  /** After its `+` a match holds only digits, so no other `+`. */
  lemma PlusMatchNoPlus(s: string, i: nat, n: nat)
    requires i < |s| && n == PlusMatch(s, i) && n > 0
    ensures forall p | i + 1 <= p < i + n :: s[p] != '+'
  {
    var digits := s[i..i + n][1..];
    forall p | i + 1 <= p < i + n ensures s[p] != '+' {
      assert s[p] == digits[p - i - 1];
    }
  }

  /** The first match of `\+\d{8,15}` at or after `i`, as `re.search` finds it. */
  function PlusSearch(s: string, i: nat): (m: int)
    requires i <= |s|
    ensures m == -1 || (i <= m < |s| && PlusMatch(s, m) > 0)
    ensures forall p | i <= p < (if m == -1 then |s| else m) :: PlusMatch(s, p) == 0
    decreases |s| - i
  {
    if i == |s| then -1
    else if PlusMatch(s, i) > 0 then i
    else PlusSearch(s, i + 1)
  }

  // ---------------------------------------------------------------- split

  predicate SepChar(c: char) {
    c == ',' || c == '|' || c == '/' || c == ';' || c == ':' || c == '\t'
  }

  /** Length of the run of whitespace that starts at `i`. */
  function SpaceRun(s: string, i: nat): (n: nat)
    requires i <= |s|
    ensures i + n <= |s|
    ensures forall p | i <= p < i + n :: IsSpace(s[p])
    ensures i + n == |s| || !IsSpace(s[i + n])
    decreases |s| - i
  {
    if i < |s| && IsSpace(s[i]) then 1 + SpaceRun(s, i + 1) else 0
  }

  /** A separator starts at `q`: one of `,|/;:` or a tab, or two whitespace characters. */
  predicate SepAt(s: string, q: int) {
    0 <= q < |s| && (SepChar(s[q]) || (q + 1 < |s| && IsSpace(s[q]) && IsSpace(s[q + 1])))
  }

  /**
   * Length of the match of `[,\|/;:\t]|:::|\s{2,}` at `i`, or 0. The first
   * alternative already takes a colon, so `:::` splits as three colons; a
   * whitespace separator is the whole run of whitespace.
   */
  function SepMatch(s: string, i: nat): (n: nat)
    requires i < |s|
    ensures n > 0 <==> SepAt(s, i)
    ensures i + n <= |s|
    ensures SepChar(s[i]) ==> n == 1
    ensures !SepChar(s[i]) && n > 0 ==>
      && n >= 2 && (forall p | i <= p < i + n :: IsSpace(s[p]))
      && (i + n == |s| || !IsSpace(s[i + n]))
  {
    if SepChar(s[i]) then 1
    else if i + 1 < |s| && IsSpace(s[i]) && IsSpace(s[i + 1]) then SpaceRun(s, i)
    else 0
  }

  /** What `re.split` cuts out: one separator character, or two or more whitespace characters. */
  predicate SepToken(t: string) {
    (|t| == 1 && SepChar(t[0])) || (|t| >= 2 && forall p | 0 <= p < |t| :: IsSpace(t[p]))
  }

  /** A piece holds no separator. */
  predicate SepFree(t: string) {
    forall q | 0 <= q < |t| :: !SepAt(t, q)
  }

  /** The first position at or after `i` where a separator starts, or `|s|` when none does. */
  function NextSep(s: string, i: nat): (q: nat)
    requires i <= |s|
    ensures i <= q <= |s|
    ensures forall p | i <= p < q :: !SepAt(s, p)
    ensures q < |s| ==> SepAt(s, q)
    decreases |s| - i
  {
    if i == |s| || SepAt(s, i) then i else NextSep(s, i + 1)
  }

  /**
   * `re.split(r"[,\|/;:\t]|:::|\s{2,}", s)` from `start` on: the text up to
   * the leftmost separator, then the split of what follows that separator.
   */
  function SplitFrom(s: string, start: nat): (pieces: seq<string>)
    requires start <= |s|
    ensures |pieces| >= 1
    decreases |s| - start
  {
    var q := NextSep(s, start);
    if q == |s| then [s[start..q]]
    else [s[start..q]] + SplitFrom(s, q + SepMatch(s, q))
  }

  /** The text before the next separator holds none. */
  lemma BeforeSepFree(s: string, start: nat)
    requires start <= |s|
    ensures SepFree(s[start..NextSep(s, start)])
  {
    var t := s[start..NextSep(s, start)];
    forall p | 0 <= p < |t| ensures !SepAt(t, p) {
      assert t[p] == s[start + p];
      assert p + 1 < |t| ==> t[p + 1] == s[start + p + 1];
      assert !SepAt(s, start + p);
    }
  }

  /** No piece of a split holds a separator. */
  lemma {:induction false} SplitFromSepFree(s: string, start: nat)
    requires start <= |s|
    ensures forall t | t in SplitFrom(s, start) :: SepFree(t)
    decreases |s| - start
  {
    var q := NextSep(s, start);
    BeforeSepFree(s, start);
    if q < |s| {
      SplitFromSepFree(s, q + SepMatch(s, q));
    }
  }

  /** The separators that `SplitFrom` cuts out, in order. */
  function SepsFrom(s: string, start: nat): (seps: seq<string>)
    requires start <= |s|
    decreases |s| - start
  {
    var q := NextSep(s, start);
    if q == |s| then []
    else
      var n := SepMatch(s, q);
      [s[q..q + n]] + SepsFrom(s, q + n)
  }

  /** Every separator that the split cuts out is a separator token. */
  lemma {:induction false} SepsFromTokens(s: string, start: nat)
    requires start <= |s|
    ensures forall t | t in SepsFrom(s, start) :: SepToken(t)
    decreases |s| - start
  {
    var q := NextSep(s, start);
    if q < |s| {
      var n := SepMatch(s, q);
      var t := s[q..q + n];
      if !SepChar(s[q]) {
        assert forall p | 0 <= p < |t| :: t[p] == s[q + p];
      }
      SepsFromTokens(s, q + n);
    }
  }

  /** The pieces with the separators put back between them. */
  function Glue(pieces: seq<string>, seps: seq<string>): string
    requires |pieces| == |seps| + 1
    decreases |seps|
  {
    if seps == [] then pieces[0] else pieces[0] + seps[0] + Glue(pieces[1..], seps[1..])
  }

  /** Putting the separators back between the pieces rebuilds what was split: nothing is lost. */
  lemma {:induction false} SplitRebuilds(s: string, start: nat)
    requires start <= |s|
    ensures |SplitFrom(s, start)| == |SepsFrom(s, start)| + 1
    ensures Glue(SplitFrom(s, start), SepsFrom(s, start)) == s[start..]
    decreases |s| - start
  {
    var q := NextSep(s, start);
    if q < |s| {
      var m := q + SepMatch(s, q);
      SplitRebuilds(s, m);
      SplitStep(s, start, q, m);
      GlueCons(s[start..q], s[q..m], SplitFrom(s, m), SepsFrom(s, m));
      SlicesJoin(s, start, q, m);
    } else {
      SplitLast(s, start, q);
    }
  }

  /** At the next separator the split closes the current piece, cuts the separator out and goes on after it. */
  lemma SplitStep(s: string, start: nat, q: nat, m: nat)
    requires start <= |s| && q == NextSep(s, start) < |s| && m == q + SepMatch(s, q)
    ensures SplitFrom(s, start) == [s[start..q]] + SplitFrom(s, m)
    ensures SepsFrom(s, start) == [s[q..m]] + SepsFrom(s, m)
  {
    PiecesStep(s, start, q, m);
    SepsStep(s, start, q, m);
  }

  lemma PiecesStep(s: string, start: nat, q: nat, m: nat)
    requires start <= |s| && q == NextSep(s, start) < |s| && m == q + SepMatch(s, q)
    ensures SplitFrom(s, start) == [s[start..q]] + SplitFrom(s, m)
  {
  }

  lemma SepsStep(s: string, start: nat, q: nat, m: nat)
    requires start <= |s| && q == NextSep(s, start) < |s| && m == q + SepMatch(s, q)
    ensures SepsFrom(s, start) == [s[q..m]] + SepsFrom(s, m)
  {
  }

  /** Without a further separator the rest of the text is the last piece. */
  lemma SplitLast(s: string, start: nat, q: nat)
    requires start <= |s| && q == NextSep(s, start) == |s|
    ensures SplitFrom(s, start) == [s[start..]] && SepsFrom(s, start) == []
  {
    assert s[start..q] == s[start..];
  }

  /** Gluing a piece and a separator in front of the rest. */
  lemma GlueCons(piece: string, sep: string, pieces: seq<string>, seps: seq<string>)
    requires |pieces| == |seps| + 1
    ensures Glue([piece] + pieces, [sep] + seps) == piece + sep + Glue(pieces, seps)
  {
    assert ([piece] + pieces)[1..] == pieces;
    assert ([sep] + seps)[1..] == seps;
  }

  /** Three adjacent slices make one. */
  lemma SlicesJoin(s: string, a: nat, b: nat, c: nat)
    requires a <= b <= c <= |s|
    ensures s[a..b] + s[b..c] + s[c..] == s[a..]
  {
  }

  function Pieces(s: string): (pieces: seq<string>)
    ensures |pieces| >= 1
    ensures forall t | t in pieces :: SepFree(t)
  {
    SplitFromSepFree(s, 0);
    SplitFrom(s, 0)
  }

  /**
   * The pieces of a split, with the separators it cut out: no piece holds a
   * separator, each separator is one, and gluing them back together gives
   * the text.
   */
  lemma PiecesRebuild(s: string)
    ensures var pieces, seps := Pieces(s), SepsFrom(s, 0);
      && |pieces| == |seps| + 1
      && Glue(pieces, seps) == s
      && (forall t | t in pieces :: SepFree(t))
      && (forall t | t in seps :: SepToken(t))
  {
    SplitRebuilds(s, 0);
    SplitFromSepFree(s, 0);
    SepsFromTokens(s, 0);
  }

  // ---------------------------------------------------------------- loose form

  /** What may sit between the first and last digit of a loose number: digits, `-`, whitespace, `(`, `)`, `.`. */
  predicate LooseBody(c: char) {
    IsDigit(c) || c == '-' || IsSpace(c) || c == '(' || c == ')' || c == '.'
  }

  /** Length of the run of body characters that starts at `i`: the greedy `[\d\-\s\(\)\.]*` there. */
  function BodyRun(s: string, i: nat): nat
    requires i <= |s|
    decreases |s| - i
  {
    if i < |s| && LooseBody(s[i]) then 1 + BodyRun(s, i + 1) else 0
  }

  /** The body run stays inside the text, holds only body characters and stops at the first other one. */
  lemma {:induction false} BodyRunSpan(s: string, i: nat, n: nat)
    requires i <= |s| && n == BodyRun(s, i)
    ensures i + n <= |s|
    ensures forall p | i <= p < i + n :: LooseBody(s[p])
    ensures i + n == |s| || !LooseBody(s[i + n])
    decreases |s| - i
  {
    if i < |s| && LooseBody(s[i]) {
      BodyRunSpan(s, i + 1, n - 1);
    }
  }

  /** `k` body characters at `i` make the body run there at least `k` long. */
  lemma {:induction false} BodyRunAtLeast(s: string, i: nat, k: nat)
    requires i + k <= |s| && forall p | i <= p < i + k :: LooseBody(s[p])
    ensures BodyRun(s, i) >= k
    decreases k
  {
    if k > 0 {
      BodyRunAtLeast(s, i + 1, k - 1);
    }
  }

  /** The last position in `[lo, hi)` that holds a digit, or -1. */
  function LastDigit(s: string, lo: int, hi: int): int
    requires 0 <= lo && hi <= |s|
    decreases hi - lo
  {
    if hi <= lo then -1
    else if IsDigit(s[hi - 1]) then hi - 1
    else LastDigit(s, lo, hi - 1)
  }

  /** The position found holds a digit in `[lo, hi)` and none follows it there; -1 when the range has none. */
  lemma {:induction false} LastDigitFound(s: string, lo: int, hi: int, m: int)
    requires 0 <= lo && hi <= |s| && m == LastDigit(s, lo, hi)
    ensures m == -1 || (lo <= m < hi && IsDigit(s[m]))
    ensures forall p | (if m == -1 then lo else m + 1) <= p < hi :: !IsDigit(s[p])
    decreases hi - lo
  {
    if hi > lo && !IsDigit(s[hi - 1]) {
      LastDigitFound(s, lo, hi - 1, m);
    }
  }

  /** A loose number: optional `+`, a digit, at least six body characters, a digit. */
  predicate LooseHit(h: string) {
    var j := if h != [] && h[0] == '+' then 1 else 0;
    && |h| >= j + 8
    && IsDigit(h[j]) && IsDigit(h[|h| - 1])
    && forall p | j < p < |h| - 1 :: LooseBody(h[p])
  }

  /**
   * Length of the match of `\+?\d[\d\-\s\(\)\.]{6,}\d` at `i`, or 0: the body
   * run is taken whole, then given back up to its last digit.
   */
  function LooseMatch(s: string, i: nat): (n: nat)
    requires i < |s|
    ensures n == 0 || (i + n <= |s| && LooseHit(s[i..i + n]))
  {
    var j := if s[i] == '+' then i + 1 else i;
    if j < |s| && IsDigit(s[j]) then
      var run := BodyRun(s, j + 1);
      BodyRunSpan(s, j + 1, run);
      var k := j + 1 + run;
      var m := LastDigit(s, j + 7, k);
      LastDigitFound(s, j + 7, k, m);
      if m >= 0 then
        var h := s[i..m + 1];
        assert forall p | j - i < p < |h| - 1 :: h[p] == s[i + p];
        m + 1 - i
      else 0
    else 0
  }

  /** Any loose number at `i` is no longer than the match found there. */
  lemma LooseMatchCovers(s: string, i: nat, e: nat)
    requires i < e <= |s| && LooseHit(s[i..e])
    ensures i + LooseMatch(s, i) >= e
  {
    var h := s[i..e];
    var j := if s[i] == '+' then i + 1 else i;
    assert h[0] == s[i];
    assert IsDigit(s[j]) by {
      assert h[j - i] == s[j];
    }
    assert IsDigit(s[e - 1]) by {
      assert h[|h| - 1] == s[e - 1];
    }
    forall p | j + 1 <= p < e ensures LooseBody(s[p]) {
      assert h[p - i] == s[p];
    }
    BodyRunAtLeast(s, j + 1, e - j - 1);
    var run := BodyRun(s, j + 1);
    BodyRunSpan(s, j + 1, run);
    LastDigitFound(s, j + 7, j + 1 + run, LastDigit(s, j + 7, j + 1 + run));
  }

  /**
   * The match at `i` is the longest loose number there (the greedy body
   * given back no further than needed), and there is none when no loose
   * number starts at `i`.
   */
  lemma LooseMatchGreedy(s: string, i: nat)
    requires i < |s|
    ensures var n := LooseMatch(s, i);
      && (n > 0 ==> forall e | i + n < e <= |s| :: !LooseHit(s[i..e]))
      && (n == 0 ==> forall e | i <= e <= |s| :: !LooseHit(s[i..e]))
  {
    forall e | i <= e <= |s| && LooseHit(s[i..e]) ensures i < e <= i + LooseMatch(s, i) {
      LooseMatchCovers(s, i, e);
    }
  }

  /** The first match of the loose pattern at or after `i`, or -1. */
  function LooseSearch(s: string, i: nat): (m: int)
    requires i <= |s|
    ensures m == -1 || (i <= m < |s| && LooseMatch(s, m) > 0)
    ensures forall p | i <= p < (if m == -1 then |s| else m) :: LooseMatch(s, p) == 0
    decreases |s| - i
  {
    if i == |s| then -1
    else if LooseMatch(s, i) > 0 then i
    else LooseSearch(s, i + 1)
  }

  /** `re.findall` of the loose pattern over `s[i..]`. */
  function LooseHits(s: string, i: nat): seq<string>
    requires i <= |s|
    decreases |s| - i
  {
    if i == |s| then []
    else
      var n := LooseMatch(s, i);
      if n > 0 then [s[i..i + n]] + LooseHits(s, i + n) else LooseHits(s, i + 1)
  }

  /** Everything `findall` returns is a loose number. */
  lemma {:induction false} LooseHitsAreHits(s: string, i: nat)
    requires i <= |s|
    ensures forall h | h in LooseHits(s, i) :: LooseHit(h)
    decreases |s| - i
  {
    if i < |s| {
      var n := LooseMatch(s, i);
      if n > 0 {
        LooseHitsTake(s, i, n);
        LooseHitsAreHits(s, i + n);
      } else {
        LooseHitsSkip(s, i);
        LooseHitsAreHits(s, i + 1);
      }
    }
  }

  /**
   * `findall` over `s[i..]`: nothing exactly when no loose number starts
   * anywhere; otherwise the leftmost match first, then the matches after it.
   */
  lemma {:induction false} LooseHitsLeftmost(s: string, i: nat)
    requires i <= |s|
    ensures var hits, p := LooseHits(s, i), LooseSearch(s, i);
      && (hits == [] <==> p == -1)
      && (p != -1 ==> hits == [s[p..p + LooseMatch(s, p)]] + LooseHits(s, p + LooseMatch(s, p)))
    decreases |s| - i
  {
    if i < |s| {
      var n := LooseMatch(s, i);
      if n == 0 {
        LooseHitsSkip(s, i);
        LooseSearchSkip(s, i);
        LooseHitsLeftmost(s, i + 1);
      } else {
        LooseHitsTake(s, i, n);
        LooseSearchTake(s, i);
      }
    }
  }

  /** Where no loose number starts, scanning moves on by one. */
  lemma LooseHitsSkip(s: string, i: nat)
    requires i < |s| && LooseMatch(s, i) == 0
    ensures LooseHits(s, i) == LooseHits(s, i + 1)
  {
  }

  /** Where no loose number starts, searching moves on by one. */
  lemma LooseSearchSkip(s: string, i: nat)
    requires i < |s| && LooseMatch(s, i) == 0
    ensures LooseSearch(s, i) == LooseSearch(s, i + 1)
  {
  }

  /** Where a loose number starts, it is the first hit. */
  lemma LooseHitsTake(s: string, i: nat, n: nat)
    requires i < |s| && n == LooseMatch(s, i) && n > 0
    ensures LooseHits(s, i) == [s[i..i + n]] + LooseHits(s, i + n)
  {
  }

  /** Where a loose number starts, the search stops. */
  lemma LooseSearchTake(s: string, i: nat)
    requires i < |s| && LooseMatch(s, i) > 0
    ensures LooseSearch(s, i) == i
  {
  }

  /** The loose matches of every piece, piece by piece. */
  function LooseInPieces(pieces: seq<string>): (hits: seq<string>)
    ensures forall h | h in hits :: LooseHit(h)
    ensures forall k, h | 0 <= k < |pieces| && h in LooseHits(pieces[k], 0) :: h in hits
    ensures forall h | h in hits :: exists k | 0 <= k < |pieces| :: h in LooseHits(pieces[k], 0)
  {
    if pieces == [] then []
    else
      var rest := LooseInPieces(pieces[1..]);
      LooseHitsAreHits(pieces[0], 0);
      assert forall k | 1 <= k < |pieces| :: pieces[k] == pieces[1..][k - 1];
      LooseHits(pieces[0], 0) + rest
  }

  /** Scanning one more piece appends its matches: the loop over the pieces. */
  lemma {:induction false} LooseInPiecesAppend(pieces: seq<string>, p: string)
    ensures LooseInPieces(pieces + [p]) == LooseInPieces(pieces) + LooseHits(p, 0)
  {
    if pieces == [] {
      assert [p][1..] == [];
    } else {
      assert (pieces + [p])[1..] == pieces[1..] + [p];
      LooseInPiecesAppend(pieces[1..], p);
    }
  }
}
