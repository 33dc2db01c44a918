/**
 * Character classes and string operations of Python's `str` that the contact
 * scripts rely on: `isdigit`, `isspace` (what `\s` matches), `strip`, `lower`,
 * `upper`, the `in` substring test, `replace`, `split` and `join`.
 */
module Text {

  /** A decimal digit. Python's `isdigit` and `\d` also accept non-ASCII digits; the model does not. */
  predicate IsDigit(c: char) {
    '0' <= c <= '9'
  }

  predicate AllDigits(s: string) {
    forall i | 0 <= i < |s| :: IsDigit(s[i])
  }

  /** Exactly the characters for which Python's `str.isspace` holds (and which `\s` matches). */
  predicate IsSpace(c: char) {
    || c == ' '
    || ('\t' <= c <= '\r')
    || ('\U{1c}' <= c <= '\U{1f}')
    || c == '\U{85}' || c == '\U{a0}' || c == '\U{1680}'
    || ('\U{2000}' <= c <= '\U{200a}')
    || c == '\U{2028}' || c == '\U{2029}' || c == '\U{202f}' || c == '\U{205f}' || c == '\U{3000}'
  }

  predicate NoSpace(s: string) {
    forall i | 0 <= i < |s| :: !IsSpace(s[i])
  }

  /** No whitespace at either end: what `strip` leaves. */
  predicate Trimmed(s: string) {
    s == [] || (!IsSpace(s[0]) && !IsSpace(s[|s| - 1]))
  }

  // ---------------------------------------------------------------- digits

  /** `"".join(ch for ch in s if ch.isdigit())`, also `re.sub(r"\D", "", s)`. */
  function OnlyDigits(s: string): (d: string)
    ensures AllDigits(d) && |d| <= |s|
  {
    if s == [] then []
    else (if IsDigit(s[0]) then [s[0]] else []) + OnlyDigits(s[1..])
  }

  lemma {:induction false} OnlyDigitsOfDigits(s: string)
    requires AllDigits(s)
    ensures OnlyDigits(s) == s
  {
    if s != [] {
      OnlyDigitsOfDigits(s[1..]);
    }
  }

  lemma {:induction false} OnlyDigitsAppend(a: string, b: string)
    ensures OnlyDigits(a + b) == OnlyDigits(a) + OnlyDigits(b)
  {
    if a == [] {
      assert a + b == b;
    } else {
      assert (a + b)[0] == a[0];
      assert (a + b)[1..] == a[1..] + b;
      OnlyDigitsAppend(a[1..], b);
    }
  }

  /** Dropping non-digits from `"+" + d` recovers the digit string `d`. */
  lemma OnlyDigitsOfPlus(d: string)
    requires AllDigits(d)
    ensures OnlyDigits("+" + d) == d
  {
    OnlyDigitsAppend("+", d);
    OnlyDigitsOfDigits(d);
  }

  // ---------------------------------------------------------------- strip

  function StripLeft(s: string): (r: string)
    ensures |r| <= |s| && r == s[|s| - |r|..]
    ensures r == [] || !IsSpace(r[0])
  {
    if s != [] && IsSpace(s[0]) then StripLeft(s[1..]) else s
  }

  function StripRight(s: string): (r: string)
    ensures |r| <= |s| && r == s[..|r|]
    ensures r == [] || !IsSpace(r[|r| - 1])
  {
    if s != [] && IsSpace(s[|s| - 1]) then StripRight(s[..|s| - 1]) else s
  }

  lemma {:induction false} StripLeftCut(s: string)
    ensures forall i | 0 <= i < |s| - |StripLeft(s)| :: IsSpace(s[i])
  {
    if s != [] && IsSpace(s[0]) {
      StripLeftCut(s[1..]);
      forall i | 1 <= i < |s| - |StripLeft(s)| ensures IsSpace(s[i]) {
        assert s[i] == s[1..][i - 1];
      }
    }
  }

  lemma {:induction false} StripRightCut(s: string)
    ensures forall i | |StripRight(s)| <= i < |s| :: IsSpace(s[i])
  {
    if s != [] && IsSpace(s[|s| - 1]) {
      StripRightCut(s[..|s| - 1]);
    }
  }

  /** Python's `str.strip()`: the result has no whitespace at either end. */
  function Strip(s: string): (r: string)
    ensures Trimmed(r) && |r| <= |s|
  {
    var l := StripLeft(s);
    var r := StripRight(l);
    assert r != [] ==> r[0] == l[0];
    r
  }

  /** Whitespace at the end of `s[k..]` is whitespace at the end of `s`. */
  lemma SpacesAfterCut(s: string, k: nat, n: nat)
    requires k <= |s| && n <= |s| - k
    requires forall i | n <= i < |s| - k :: IsSpace(s[k..][i])
    ensures forall i | k + n <= i < |s| :: IsSpace(s[i])
  {
    forall i | k + n <= i < |s| ensures IsSpace(s[i]) {
      assert s[i] == s[k..][i - k];
    }
  }

  /** What `strip` cuts away is whitespace, and what it keeps is one piece of the input. */
  lemma StripIsTrim(s: string)
    ensures exists k | 0 <= k <= |s| - |Strip(s)| :: TrimOf(s, Strip(s), k)
  {
    var l := StripLeft(s);
    var r := StripRight(l);
    var k := |s| - |l|;
    StripLeftCut(s);
    StripRightCut(l);
    assert Strip(s) == r;
    assert l == s[k..];
    SpacesAfterCut(s, k, |r|);
    assert s[k..k + |r|] == l[..|r|];
    assert TrimOf(s, r, k);
  }

  /** `r` sits at offset `k` of `s` with only whitespace around it. */
  predicate TrimOf(s: string, r: string, k: int) {
    && 0 <= k <= |s| - |r|
    && r == s[k..k + |r|]
    && (forall i | 0 <= i < k :: IsSpace(s[i]))
    && (forall i | k + |r| <= i < |s| :: IsSpace(s[i]))
  }

  /** A string with no whitespace at its ends is left alone by `strip`. */
  lemma StripTrimmed(s: string)
    requires Trimmed(s)
    ensures Strip(s) == s
  {
    var r := Strip(s);
    StripIsTrim(s);
    var k :| 0 <= k <= |s| - |r| && TrimOf(s, r, k);
    if s != [] {
      assert !IsSpace(s[0]) && !IsSpace(s[|s| - 1]);
    }
  }

  lemma StripIdempotent(s: string)
    ensures Strip(Strip(s)) == Strip(s)
  {
    StripTrimmed(Strip(s));
  }

  /** `strip` gives the empty string exactly when the input is all whitespace. */
  lemma StripEmpty(s: string)
    ensures Strip(s) == [] <==> forall i | 0 <= i < |s| :: IsSpace(s[i])
  {
    var r := Strip(s);
    StripIsTrim(s);
    var k :| 0 <= k <= |s| - |r| && TrimOf(s, r, k);
    if r == [] {
      forall i | 0 <= i < |s| ensures IsSpace(s[i]) {
        if i >= k { assert k + |r| <= i; }
      }
    } else {
      assert s[k] == r[0];
    }
  }

  // ---------------------------------------------------------------- case

  /** `str.lower()` on ASCII and Latin-1 letters (the Latin-1 capitals A-grave to Thorn, except the multiplication sign). */
  function LowerChar(c: char): char {
    if 'A' <= c <= 'Z' || ('\U{c0}' <= c <= '\U{de}' && c != '\U{d7}') then (c as int + 32) as char else c
  }

  /**
   * `str.upper()` of one character whose capital is one character: ASCII,
   * the Latin-1 small letters, y-diaeresis (capital in Latin Extended-A),
   * the micro sign (capital mu), the dotless i and the long s.
   */
  function UpperChar(c: char): char {
    if 'a' <= c <= 'z' || ('\U{e0}' <= c <= '\U{fe}' && c != '\U{f7}') then (c as int - 32) as char
    else if c == '\U{ff}' then '\U{178}'
    else if c == '\U{b5}' then '\U{39c}'
    else if c == '\U{131}' then 'I'
    else if c == '\U{17f}' then 'S'
    else c
  }

  /** The sharp s, the one Latin-1 letter that `str.upper()` turns into two ("SS"). */
  const SharpS: char := '\U{df}'

  /** `str.upper()` of one character, as a string. */
  function UpperOf(c: char): (u: string)
    ensures c == SharpS ==> u == "SS"
    ensures c != SharpS ==> u == [UpperChar(c)]
  {
    if c == SharpS then "SS" else [UpperChar(c)]
  }

  function Lower(s: string): (r: string)
    ensures |r| == |s| && forall i | 0 <= i < |s| :: r[i] == LowerChar(s[i])
  {
    seq(|s|, i requires 0 <= i < |s| => LowerChar(s[i]))
  }

  /**
   * `str.upper()`: each character upper-cased on its own, in order. It keeps
   * the length and maps character for character when there is no sharp s,
   * and never shortens the text.
   */
  function Upper(s: string): (r: string)
    ensures |r| >= |s|
    ensures SharpS !in s ==> |r| == |s| && forall i | 0 <= i < |s| :: r[i] == UpperChar(s[i])
    decreases |s|
  {
    if s == [] then []
    else
      var rest := Upper(s[1..]);
      assert SharpS !in s ==> SharpS !in s[1..];
      UpperOf(s[0]) + rest
  }

  /** Upper-casing a concatenation upper-cases each part. */
  lemma {:induction false} UpperAppend(a: string, b: string)
    ensures Upper(a + b) == Upper(a) + Upper(b)
    decreases |a|
  {
    if a == [] {
      assert a + b == b;
    } else {
      assert (a + b)[0] == a[0];
      assert (a + b)[1..] == a[1..] + b;
      UpperAppend(a[1..], b);
    }
  }

  lemma LowerIdempotent(s: string)
    ensures Lower(Lower(s)) == Lower(s)
  {
  }

  // ---------------------------------------------------------------- substrings

  predicate OccursAt(s: string, sub: string, i: int) {
    0 <= i && i + |sub| <= |s| && s[i..i + |sub|] == sub
  }

  /** In `a + x + b + c` the part `x` sits right after `a`. */
  lemma PlacedOne(a: string, x: string, b: string, c: string)
    ensures OccursAt(a + x + b + c, x, |a|)
  {
    assert a + x + b + c == a + (x + (b + c));
  }

  /** In `a + x + b + y + c + d` the parts `x` and `y` sit where their prefixes end. */
  lemma PlacedTwo(a: string, x: string, b: string, y: string, c: string, d: string)
    ensures OccursAt(a + x + b + y + c + d, x, |a|)
    ensures OccursAt(a + x + b + y + c + d, y, |a| + |x| + |b|)
  {
    assert a + x + b + y + c + d == a + (x + (b + (y + (c + d))));
    assert a + x + b + y + c + d == (a + x + b) + (y + (c + d));
  }

  /** Python's `sub in s`. */
  predicate Contains(s: string, sub: string) {
    exists i | 0 <= i <= |s| :: OccursAt(s, sub, i)
  }

  /** A substring test stays true when text is added on either side. */
  lemma ContainsExtend(a: string, s: string, b: string, sub: string)
    requires Contains(s, sub)
    ensures Contains(a + s + b, sub)
  {
    var i :| 0 <= i <= |s| && OccursAt(s, sub, i);
    assert (a + s + b)[|a| + i..|a| + i + |sub|] == s[i..i + |sub|];
    assert OccursAt(a + s + b, sub, |a| + i);
  }

  /** Python's `s.replace(pat, rep)` for a non-empty `pat`: leftmost, non-overlapping occurrences. */
  function Replace(s: string, pat: string, rep: string): (r: string)
    requires pat != []
    ensures rep == pat ==> r == s
    ensures |rep| == |pat| ==> |r| == |s|
    ensures |rep| <= |pat| ==> |r| <= |s|
    decreases |s|
  {
    if |s| < |pat| then s
    else if s[..|pat|] == pat then
      assert s == s[..|pat|] + s[|pat|..];
      rep + Replace(s[|pat|..], pat, rep)
    else
      assert s == [s[0]] + s[1..];
      [s[0]] + Replace(s[1..], pat, rep)
  }

  /** Python's `s.split(pat)` for a non-empty `pat`. */
  function Split(s: string, pat: string): (pieces: seq<string>)
    requires pat != []
    ensures |pieces| >= 1
    ensures forall p | p in pieces :: |p| <= |s|
    ensures |s| < |pat| ==> pieces == [s]
    decreases |s|
  {
    if |s| < |pat| then [s]
    else if s[..|pat|] == pat then [[]] + Split(s[|pat|..], pat)
    else
      var rest := Split(s[1..], pat);
      [[s[0]] + rest[0]] + rest[1..]
  }

  /** Python's `sep.join(pieces)`. */
  function Join(pieces: seq<string>, sep: string): string {
    if pieces == [] then []
    else if |pieces| == 1 then pieces[0]
    else pieces[0] + sep + Join(pieces[1..], sep)
  }

  lemma JoinFirst(pieces: seq<string>, sep: string)
    requires |pieces| >= 1
    ensures pieces[0] <= Join(pieces, sep)
  {
  }

  /** Text put in front of the first piece ends up in front of the joined string. */
  lemma JoinCons(h: string, pieces: seq<string>, sep: string)
    requires |pieces| >= 1
    ensures Join([h + pieces[0]] + pieces[1..], sep) == h + Join(pieces, sep)
  {
    var l := [h + pieces[0]] + pieces[1..];
    assert l[1..] == pieces[1..];
    if |pieces| > 1 {
      assert Join(l, sep) == h + pieces[0] + sep + Join(pieces[1..], sep);
    }
  }

  /** A separator piece: an empty first piece joins as the separator in front. */
  lemma JoinEmptyFirst(rest: seq<string>, sep: string)
    requires |rest| >= 1
    ensures Join([[]] + rest, sep) == sep + Join(rest, sep)
  {
    var l := [[]] + rest;
    assert l[1..] == rest;
  }

  /** Splitting at `pat` and joining back with `pat` gives the input back. */
  lemma {:induction false} SplitJoin(s: string, pat: string)
    requires pat != []
    ensures Join(Split(s, pat), pat) == s
    decreases |s|
  {
    if |s| < |pat| {
    } else if s[..|pat|] == pat {
      var rest := Split(s[|pat|..], pat);
      SplitJoin(s[|pat|..], pat);
      JoinEmptyFirst(rest, pat);
      assert s == pat + s[|pat|..];
    } else {
      var rest := Split(s[1..], pat);
      SplitJoin(s[1..], pat);
      JoinCons([s[0]], rest, pat);
      assert s == [s[0]] + s[1..];
    }
  }

  /** A slice of `[c] + t` that starts after `c` is a slice of `t`. */
  lemma SliceAfterHead(c: char, t: string, i: nat, n: nat)
    requires 1 <= i && i - 1 + n <= |t|
    ensures ([c] + t)[i..i + n] == t[i - 1..i - 1 + n]
  {
    var h := [c] + t;
    var a, b := h[i..i + n], t[i - 1..i - 1 + n];
    forall k | 0 <= k < n ensures a[k] == b[k] {
      assert h[i + k] == t[i - 1 + k];
    }
  }

  /**
   * A character put in front of a text without `pat` gives a text without
   * `pat`, when the whole is a prefix of a string that does not start with `pat`.
   */
  lemma ConsFree(c: char, t: string, s: string, pat: string)
    requires pat != [] && |pat| <= |s| && s[..|pat|] != pat
    requires [c] + t <= s && !Contains(t, pat)
    ensures !Contains([c] + t, pat)
  {
    var head := [c] + t;
    forall i | 0 <= i <= |head| ensures !OccursAt(head, pat, i) {
      if i == 0 {
        if |pat| <= |head| {
          assert head[..|pat|] == s[..|pat|];
        }
      } else if i - 1 + |pat| <= |t| {
        SliceAfterHead(c, t, i, |pat|);
        assert !OccursAt(t, pat, i - 1);
      }
    }
  }

  /** No piece of a split contains the separator. */
  lemma {:induction false} SplitPiecesFree(s: string, pat: string)
    requires pat != []
    ensures forall p | p in Split(s, pat) :: !Contains(p, pat)
    decreases |s|
  {
    if |s| < |pat| {
      assert Split(s, pat) == [s];
    } else if s[..|pat|] == pat {
      SplitPiecesFree(s[|pat|..], pat);
      assert !OccursAt([], pat, 0);
    } else {
      var rest := Split(s[1..], pat);
      SplitPiecesFree(s[1..], pat);
      SplitJoin(s[1..], pat);
      JoinFirst(rest, pat);
      var head := [s[0]] + rest[0];
      assert head <= s by {
        assert s == [s[0]] + s[1..];
      }
      assert rest[0] in rest;
      ConsFree(s[0], rest[0], s, pat);
      forall p | p in Split(s, pat) ensures !Contains(p, pat) {
        if p != head {
          assert p in rest;
        }
      }
    }
  }

  /** `replace` is `rep.join(s.split(pat))`: every occurrence the split cuts at is replaced. */
  lemma {:induction false} ReplaceIsJoinOfSplit(s: string, pat: string, rep: string)
    requires pat != []
    ensures Replace(s, pat, rep) == Join(Split(s, pat), rep)
    decreases |s|
  {
    if |s| < |pat| {
    } else if s[..|pat|] == pat {
      ReplaceIsJoinOfSplit(s[|pat|..], pat, rep);
      JoinEmptyFirst(Split(s[|pat|..], pat), rep);
    } else {
      ReplaceIsJoinOfSplit(s[1..], pat, rep);
      JoinCons([s[0]], Split(s[1..], pat), rep);
    }
  }

  /** A text without the pattern is returned unchanged by `replace`. */
  lemma {:induction false} ReplaceAbsent(s: string, pat: string, rep: string)
    requires pat != [] && !Contains(s, pat)
    ensures Replace(s, pat, rep) == s
    decreases |s|
  {
    if |s| >= |pat| {
      assert !OccursAt(s, pat, 0);
      assert !Contains(s[1..], pat) by {
        forall i | 0 <= i <= |s[1..]| ensures !OccursAt(s[1..], pat, i) {
          if OccursAt(s[1..], pat, i) {
            assert s[i + 1..i + 1 + |pat|] == s[1..][i..i + |pat|];
            assert OccursAt(s, pat, i + 1);
          }
        }
      }
      ReplaceAbsent(s[1..], pat, rep);
    }
  }
}
