/**
 * fix_long_numbers.py: repair phone strings that hold more than 15 digits
 * (several numbers glued together) by picking one `+` window out of them,
 * retag the country from the repaired number, and keep the first row per
 * number. 15 is the digit maximum of ITU-T Recommendation E.164 clause 6.
 */
module FixLongNumbers {
  import opened Wrappers
  import opened Text
  import opened Contacts
  import opened Dedup
  import opened Patterns
  import CleanDuplicates

  /** The most digits an international number may have. */
  const MaxDigits: nat := 15

  // ---------------------------------------------------------------- the windows

  /** The three window patterns, in the order they are tried. */
  datatype Window = UsWindow | MxWindow | PlusWindow

  /** `+1` and 10 digits at `i`: where `\+1\d{10}` matches. */
  predicate UsWindowAt(s: string, i: int) {
    0 <= i && i + 12 <= |s| && s[i] == '+' && s[i + 1] == '1' && AllDigits(s[i + 2..i + 12])
  }

  /** `+52`, then a `1` when `len` is 14, then 10 digits, at `i`. */
  predicate MxWindowAt(s: string, i: int, len: nat) {
    && (len == 13 || len == 14)
    && 0 <= i && i + len <= |s| && s[i] == '+' && s[i + 1] == '5' && s[i + 2] == '2'
    && AllDigits(s[i + 3..i + len]) && (len == 14 ==> s[i + 3] == '1')
  }

  /** Length of the match of `\+1\d{10}` at `i`, or 0. */
  function UsMatch(s: string, i: nat): (n: nat)
    requires i <= |s|
    ensures n == 0 || n == 12
    ensures n == 12 <==> UsWindowAt(s, i)
  {
    assert UsWindowAt(s, i) ==> DigitRun(s, i + 2) >= 10 by {
      if UsWindowAt(s, i) {
        DigitRunAtLeast(s, i + 2, 10);
      }
    }
    if i + 2 <= |s| && s[i] == '+' && s[i + 1] == '1' && DigitRun(s, i + 2) >= 10 then
      assert s[i + 2..i + 12] == s[i + 2..i + 2 + DigitRun(s, i + 2)][..10];
      12
    else 0
  }

  /**
   * Length of the match of `\+52(?:1)?\d{10}` at `i`, or 0: `+521` and 10
   * digits when they are there, else (the optional `1` given back) `+52` and
   * 10 digits.
   */
  function MxMatch(s: string, i: nat): (n: nat)
    requires i <= |s|
    ensures n == 0 || n == 13 || n == 14
    ensures n > 0 ==> MxWindowAt(s, i, n)
    ensures n == 0 <==> !MxWindowAt(s, i, 13)
    ensures n == 13 ==> !MxWindowAt(s, i, 14)
  {
    assert MxWindowAt(s, i, 13) ==> DigitRun(s, i + 3) >= 10 by {
      if MxWindowAt(s, i, 13) {
        DigitRunAtLeast(s, i + 3, 10);
      }
    }
    assert MxWindowAt(s, i, 14) ==> DigitRun(s, i + 3) >= 11 by {
      if MxWindowAt(s, i, 14) {
        DigitRunAtLeast(s, i + 3, 11);
      }
    }
    if i + 3 <= |s| && s[i] == '+' && s[i + 1] == '5' && s[i + 2] == '2' then
      var run := DigitRun(s, i + 3);
      var n := if run >= 11 && s[i + 3] == '1' then 14 else if run >= 10 then 13 else 0;
      if n > 0 then
        assert s[i + 3..i + n] == s[i + 3..i + 3 + run][..n - 3];
        assert s[i + 3..i + 13] == s[i + 3..i + 3 + run][..10];
        n
      else 0
    else 0
  }

  /** Where window `w` matches at `i`: the shortest text its pattern accepts is there. */
  predicate WindowAt(w: Window, s: string, i: int) {
    match w
    case UsWindow => UsWindowAt(s, i)
    case MxWindow => MxWindowAt(s, i, 13)
    case PlusWindow => 0 <= i && i + 9 <= |s| && PlusHit(s[i..i + 9])
  }

  /** Length of the match of window `w` at `i`, or 0 exactly when it does not match there. */
  function MatchAt(w: Window, s: string, i: nat): (n: nat)
    requires i <= |s|
    ensures n > 0 <==> WindowAt(w, s, i)
    ensures n == 0 || (i + n <= |s| && 9 <= n <= 16 && s[i] == '+' && AllDigits(s[i + 1..i + n]))
  {
    match w
    case UsWindow =>
      var n := UsMatch(s, i);
      assert n > 0 ==> s[i + 1..i + n] == [s[i + 1]] + s[i + 2..i + 12];
      n
    case MxWindow =>
      var n := MxMatch(s, i);
      assert n > 0 ==> s[i + 1..i + n] == [s[i + 1], s[i + 2]] + s[i + 3..i + n];
      n
    case PlusWindow =>
      var n := PlusMatch(s, i);
      assert n > 0 ==> s[i..i + n][1..] == s[i + 1..i + n];
      n
  }

  /** `pattern.search(s)` from `i`: the first position where the window matches, or -1. */
  function Search(w: Window, s: string, i: nat): (p: int)
    requires i <= |s|
    ensures p == -1 || (i <= p < |s| && MatchAt(w, s, p) > 0)
    ensures forall q | i <= q < (if p == -1 then |s| else p) :: MatchAt(w, s, q) == 0
    decreases |s| - i
  {
    if i == |s| then -1
    else if MatchAt(w, s, i) > 0 then i
    else Search(w, s, i + 1)
  }

  /** Every US or MX window is also a `+` window at the same place. */
  lemma WindowIsPlus(w: Window, s: string, i: nat)
    requires i <= |s| && MatchAt(w, s, i) > 0
    ensures PlusMatch(s, i) > 0
  {
    var h := s[i..i + 9];
    assert h[1..] == s[i + 1..i + 9];
  }

  /** A search that finds nothing means the window matches nowhere. */
  lemma SearchNone(w: Window, s: string)
    requires Search(w, s, 0) == -1
    ensures forall q | 0 <= q < |s| :: !WindowAt(w, s, q)
  {
    forall q | 0 <= q < |s| ensures !WindowAt(w, s, q) {
      assert MatchAt(w, s, q) == 0;
    }
  }

  /** A search that finds `p` finds the leftmost place where the window matches. */
  lemma SearchSome(w: Window, s: string)
    requires Search(w, s, 0) != -1
    ensures var p := Search(w, s, 0); WindowAt(w, s, p) && forall q | 0 <= q < p :: !WindowAt(w, s, q)
  {
    var p := Search(w, s, 0);
    forall q | 0 <= q < p ensures !WindowAt(w, s, q) {
      assert MatchAt(w, s, q) == 0;
    }
  }

  /**
   * `pattern.search(s).group()`: the match at the leftmost position where the
   * window matches, or nothing when it matches nowhere.
   */
  function Found(w: Window, s: string): (r: Option<string>)
    ensures r.Some? ==> IsE164(r.value) && |r.value| <= MaxDigits + 1
    ensures r.None? <==> forall q | 0 <= q < |s| :: !WindowAt(w, s, q)
    ensures r.Some? ==> exists p | 0 <= p <= |s| :: OccursAt(s, r.value, p)
    ensures r.Some? ==> var p := Search(w, s, 0);
      && OccursAt(s, r.value, p) && |r.value| == MatchAt(w, s, p)
      && forall q | 0 <= q < p :: !WindowAt(w, s, q)
  {
    var p := Search(w, s, 0);
    if p == -1 then
      SearchNone(w, s);
      None
    else
      SearchSome(w, s);
      var h := s[p..p + MatchAt(w, s, p)];
      assert OccursAt(s, h, p);
      assert h[1..] == s[p + 1..p + |h|];
      Some(h)
  }

  // ---------------------------------------------------------------- pick_window

  /**
   * `pick_window`: a stripped string with at most 15 digits is kept; a longer
   * one is cut down to its first `+1` window, else its first `+52` window,
   * else its first `+` window, else `+` and its first 15 digits. A repaired
   * number is a `+` and 8 to 15 digits, and except in the last case it is a
   * piece of the input.
   */
  function PickWindow(raw: string): (r: string)
    ensures var s := Strip(raw);
      && (|OnlyDigits(s)| <= MaxDigits ==> r == s)
      && (|OnlyDigits(s)| > MaxDigits ==>
            && IsE164(r) && |r| <= MaxDigits + 1
            && ((exists p | 0 <= p <= |s| :: OccursAt(s, r, p)) || r == "+" + OnlyDigits(s)[..MaxDigits]))
  {
    var s := Strip(raw);
    if |OnlyDigits(s)| <= MaxDigits then s else PickLong(s)
  }

  /** The repair of a string with more than 15 digits. */
  function PickLong(s: string): (r: string)
    requires |OnlyDigits(s)| > MaxDigits
    ensures && IsE164(r) && |r| <= MaxDigits + 1
            && ((exists p | 0 <= p <= |s| :: OccursAt(s, r, p)) || r == "+" + OnlyDigits(s)[..MaxDigits])
  {
    var digits := OnlyDigits(s);
    match Found(UsWindow, s)
    case Some(h) => h
    case None =>
      match Found(MxWindow, s)
      case Some(h) => h
      case None =>
        match Found(PlusWindow, s)
        case Some(h) => h
        case None =>
          if digits != [] then
            var r := "+" + digits[..MaxDigits];
            assert r[1..] == digits[..MaxDigits];
            r
          else s
  }

  /** The result of `PickWindow` on a long input has at most 15 digits. */
  lemma PickWindowShort(raw: string)
    ensures |OnlyDigits(PickWindow(raw))| <= MaxDigits
  {
    var s, r := Strip(raw), PickWindow(raw);
    if |OnlyDigits(s)| > MaxDigits {
      PlusDigitsClean(r);
    }
  }

  /** Picking a window twice changes nothing the second time. */
  lemma PickWindowIdempotent(raw: string)
    ensures PickWindow(PickWindow(raw)) == PickWindow(raw)
  {
    var s, r := Strip(raw), PickWindow(raw);
    if |OnlyDigits(s)| <= MaxDigits {
      StripIdempotent(raw);
    } else {
      PlusDigitsClean(r);
    }
  }

  /** The search finds the first window at or before a known one. */
  lemma SearchFirst(w: Window, s: string, p: nat)
    requires p < |s| && MatchAt(w, s, p) > 0
    ensures var q := Search(w, s, 0); 0 <= q <= p && MatchAt(w, s, q) > 0
  {
  }

  /** A long string with a `+1` window is cut to its first one. */
  lemma PickLongUs(s: string, p: nat)
    requires |OnlyDigits(s)| > MaxDigits && p <= |s| && UsMatch(s, p) > 0
    ensures var q, r := Search(UsWindow, s, 0), PickLong(s);
      && 0 <= q <= p && OccursAt(s, r, q) && |r| == 12 && r[0] == '+' && r[1] == '1'
  {
    assert MatchAt(UsWindow, s, p) > 0;
    SearchFirst(UsWindow, s, p);
    var q := Search(UsWindow, s, 0);
    var r := s[q..q + 12];
    assert Found(UsWindow, s) == Some(r);
    assert r[0] == s[q] && r[1] == s[q + 1];
  }

  /**
   * A `+1` window wins over everything else, wherever it is: the result is
   * the first `+1` window, even when a `+52` window comes before it.
   */
  lemma PickWindowPrefersUs(raw: string, p: nat)
    requires var s := Strip(raw); |OnlyDigits(s)| > MaxDigits && p <= |s| && UsMatch(s, p) > 0
    ensures var s, r := Strip(raw), PickWindow(raw);
      var q := Search(UsWindow, s, 0);
      && 0 <= q <= p && OccursAt(s, r, q) && |r| == 12 && r[0] == '+' && r[1] == '1'
  {
    PickLongUs(Strip(raw), p);
  }

  /** A long string without any `+` window gets `+` and its first 15 digits. */
  lemma PickLongFallback(s: string)
    requires |OnlyDigits(s)| > MaxDigits && forall q | 0 <= q < |s| :: PlusMatch(s, q) == 0
    ensures PickLong(s) == "+" + OnlyDigits(s)[..MaxDigits]
  {
    forall w: Window ensures Found(w, s).None? {
      forall q | 0 <= q < |s| ensures MatchAt(w, s, q) == 0 {
        if MatchAt(w, s, q) > 0 {
          WindowIsPlus(w, s, q);
        }
      }
    }
  }

  /** Without any `+` window, the result is `+` and the first 15 digits. */
  lemma PickWindowFallback(raw: string)
    requires var s := Strip(raw); |OnlyDigits(s)| > MaxDigits && forall q | 0 <= q < |s| :: PlusMatch(s, q) == 0
    ensures PickWindow(raw) == "+" + OnlyDigits(Strip(raw))[..MaxDigits]
  {
    PickLongFallback(Strip(raw));
  }

  /** Some window of kind `w` somewhere in `s`. */
  predicate HasWindow(w: Window, s: string) {
    exists q | 0 <= q < |s| :: WindowAt(w, s, q)
  }

  /**
   * The preference order of a long string's repair: its leftmost `+1`
   * window if it has one, else its leftmost `+52` window, else its leftmost
   * `+` window of 8 to 15 digits, else `+` and its first 15 digits.
   */
  lemma PickLongTiers(s: string)
    requires |OnlyDigits(s)| > MaxDigits
    ensures HasWindow(UsWindow, s) ==> Some(PickLong(s)) == Found(UsWindow, s)
    ensures !HasWindow(UsWindow, s) && HasWindow(MxWindow, s) ==> Some(PickLong(s)) == Found(MxWindow, s)
    ensures !HasWindow(UsWindow, s) && !HasWindow(MxWindow, s) && HasWindow(PlusWindow, s) ==>
              Some(PickLong(s)) == Found(PlusWindow, s)
    ensures !HasWindow(UsWindow, s) && !HasWindow(MxWindow, s) && !HasWindow(PlusWindow, s) ==>
              PickLong(s) == "+" + OnlyDigits(s)[..MaxDigits]
  {
  }

  /** The same order through `pick_window`, on the stripped input. */
  lemma PickWindowTiers(raw: string)
    requires |OnlyDigits(Strip(raw))| > MaxDigits
    ensures var s, r := Strip(raw), PickWindow(raw);
      if HasWindow(UsWindow, s) then Some(r) == Found(UsWindow, s)
      else if HasWindow(MxWindow, s) then Some(r) == Found(MxWindow, s)
      else if HasWindow(PlusWindow, s) then Some(r) == Found(PlusWindow, s)
      else r == "+" + OnlyDigits(s)[..MaxDigits]
  {
    PickLongTiers(Strip(raw));
  }

  // ---------------------------------------------------------------- country_of

  /** `country_of`: the tag read from the prefix of a repaired number. */
  function CountryOf(e: string): (c: Country)
    ensures c == US <==> "+1" <= e
    ensures c == MX <==> "+52" <= e
  {
    if "+1" <= e then
      assert e[1] == '1';
      US
    else if "+52" <= e then MX
    else INTL
  }

  /**
   * On an E.164 string the prefix tag is the tag that clean_duplicates_on_contacts.py's
   * normaliser gives it.
   */
  lemma CountryOfAgrees(e: string)
    requires IsE164(e)
    ensures CleanDuplicates.NormalizePhone(e, false) == Some(Phone(e, CountryOf(e)))
  {
    CleanDuplicates.NormalizeFixedPoint(e, false);
    PrefixTags(e);
  }

  /** On `+` and digits, the prefixes `+1` and `+52` are the leading digits `1` and `52`. */
  lemma PrefixTags(e: string)
    requires IsE164(e)
    ensures var d := e[1..];
      CountryOf(e) == if d[0] == '1' then US else if "52" <= d then MX else INTL
  {
    var d := e[1..];
    assert e == "+" + d;
    if "52" <= d {
      assert "+52" <= e;
      assert d[0] == d[..2][0];
    } else if d[0] == '1' {
      assert "+1" <= e;
    } else {
      assert !("+1" <= e) && !("+52" <= e);
    }
  }

  // ---------------------------------------------------------------- the rows

  const PhoneField: string := "Phone_E164"
  const CountryField: string := "Country"

  function PhoneKey(row: Row): string {
    Get(row, PhoneField)
  }

  /**
   * One round of the row loop: a row with an empty phone is dropped, any
   * other gets its phone repaired and its country recomputed from the
   * repaired phone; every other cell stays as it was.
   */
  function FixRow(row: Row): (r: Option<Row>)
    ensures r.None? <==> Strip(Get(row, PhoneField)) == []
    ensures r.Some? ==>
      && r.value.Keys == row.Keys + {PhoneField, CountryField}
      && (forall k | k in row && k != PhoneField && k != CountryField :: r.value[k] == row[k])
      && PhoneKey(r.value) == PickWindow(Get(row, PhoneField))
      && Get(r.value, CountryField) == CountryName(CountryOf(PhoneKey(r.value)))
  {
    var ph := Strip(Get(row, PhoneField));
    if ph == [] then None
    else
      StripIdempotent(Get(row, PhoneField));
      var fixed := PickWindow(ph);
      var country := CountryName(CountryOf(fixed));
      assert |PhoneField| != |CountryField|;
      SetTwo(row, PhoneField, fixed, CountryField, country);
      Some(row[PhoneField := fixed][CountryField := country])
  }

  /** The module-level script: the row loop, then the `OrderedDict` pass keyed by phone. */
  method FixLongNumbers(rows: seq<Row>) returns (unique: seq<Row>)
    ensures unique == FirstWins(Somes(rows, FixRow), PhoneKey)
  {
    var fixedRows := CollectSomes(rows, FixRow);
    unique := FirstPerKey(fixedRows, PhoneKey);
  }

  /**
   * The output has each phone once, from the earliest row that has it; every
   * row with a phone has its phone in the output; each output row is its
   * source row repaired, with its country recomputed from the phone.
   */
  lemma FixLongNumbersSpec(rows: seq<Row>)
    ensures var out, o := FirstWins(Somes(rows, FixRow), PhoneKey), Origins(rows, FixRow, PhoneKey);
      && UniqueKeys(out, PhoneKey)
      && |o| == |out|
      && (forall i | 0 <= i < |out| :: o[i] < |rows| && FixRow(rows[o[i]]) == Some(out[i]))
      && (forall i, j | 0 <= i < j < |out| :: o[i] < o[j])
      && (forall i, k | 0 <= i < |out| && 0 <= k < |rows| && k < o[i] && FixRow(rows[k]).Some? ::
            PhoneKey(FixRow(rows[k]).value) != PhoneKey(out[i]))
      && (forall j | 0 <= j < |rows| && FixRow(rows[j]).Some? :: PhoneKey(FixRow(rows[j]).value) in KeysOf(out, PhoneKey))
      && (forall r | r in out :: Get(r, CountryField) == CountryName(CountryOf(PhoneKey(r))))
  {
    OriginsSpec(rows, FixRow, PhoneKey);
    FirstWinsOfSomes(rows, FixRow, PhoneKey);
    FirstWinsOfSomesAll(rows, FixRow, PhoneKey, (r: Row) => Get(r, CountryField) == CountryName(CountryOf(PhoneKey(r))));
  }
}
