/**
 * clean_google_contacts.py: normalise the phone cells of a Google Contacts
 * export (with the `00` and `011` international prefixes), score each
 * column's number, take the best one per contact and keep the first contact
 * per number.
 */
module CleanGoogle {
  import opened Wrappers
  import opened Text
  import opened Contacts
  import opened Dedup
  import CleanDuplicates

  const DefaultUsCountryCode: string := "+1"
  /** The script's switch for rewriting `+52` + 10 digits as `+521` + 10 digits; it ships off. */
  const AddMxMobileOne: bool := false

  // ---------------------------------------------------------------- normalize_phone

  /** `+` then digits is a `+digits` string. */
  lemma PlusOfDigits(d: string)
    requires AllDigits(d)
    ensures PlusDigits("+" + d) && ("+" + d)[1..] == d
  {
    assert ("+" + d)[1..] == d;
  }

  /**
   * The Mexican rewrite shared by the `00` and `011` branches: `52` and the
   * local digits, with `1` inserted when the switch is on and there are
   * exactly 10 local digits not already starting the `521` way.
   */
  function MxAfterPrefix(d: string, addMxMobileOne: bool): (p: Phone)
    requires AllDigits(d) && "52" <= d
    ensures PlusDigits(p.e164) && p.country == MX
    ensures !addMxMobileOne ==> p.e164 == "+" + d
  {
    var local := d[2..];
    assert "52" + local == d;
    if addMxMobileOne && |local| == 10 && !("521" <= d) then
      PlusOfDigits("521" + local);
      Phone("+521" + local, MX)
    else
      PlusOfDigits(d);
      Phone("+52" + local, MX)
  }

  /**
   * `normalize_phone` of clean_google_contacts.py. A result is always `+`
   * and digits. There is no result exactly when the stripped cell has fewer
   * than 8 digits and starts with neither `00` nor, among its digits, `011`.
   */
  function NormalizeGoogle(raw: string, addMxMobileOne: bool): (r: Option<Phone>)
    ensures var s := Strip(raw); var digits := OnlyDigits(s);
      r.None? <==> !("00" <= s) && !("011" <= digits) && |digits| < 8
    ensures r.Some? ==> PlusDigits(r.value.e164)
  {
    if raw == [] then
      assert Strip(raw) == [];
      None
    else GoogleStripped(Strip(raw), addMxMobileOne)
  }

  /** `normalize_phone` after `raw.strip()`. */
  function GoogleStripped(s: string, addMxMobileOne: bool): (r: Option<Phone>)
    ensures var digits := OnlyDigits(s);
      r.None? <==> !("00" <= s) && !("011" <= digits) && |digits| < 8
    ensures r.Some? ==> PlusDigits(r.value.e164)
  {
    var digits := OnlyDigits(s);
    if "+" <= s && |digits| >= 8 then Some(PlusBranch(s, digits, addMxMobileOne))
    else if "00" <= s then
      var d := OnlyDigits(s[2..]);
      if "52" <= d then Some(MxAfterPrefix(d, addMxMobileOne))
      else PlusOfDigits(d); Some(Phone("+" + d, INTL))
    else if "011" <= digits then
      var d := digits[3..];
      if "52" <= d then Some(MxAfterPrefix(d, addMxMobileOne))
      else PlusOfDigits(d); Some(Phone("+" + d, INTL))
    else GoogleDigitsOnly(digits, addMxMobileOne)
  }

  /**
   * The `+` branch of `normalize_phone`: the country from the leading code,
   * and the `521` rewrite when the switch is on.
   */
  function PlusBranch(s: string, digits: string, addMxMobileOne: bool): (p: Phone)
    requires AllDigits(digits) && |digits| >= 2
    ensures PlusDigits(p.e164)
  {
    PlusOfDigits(digits);
    var country := if "+52" <= s then MX else if "+1" <= s then US else INTL;
    if country == MX && addMxMobileOne && "+52" <= s && !("+521" <= s) && |digits[2..]| == 10 then
      PlusOfDigits("521" + digits[2..]);
      Phone("+521" + digits[2..], MX)
    else Phone("+" + digits, country)
  }

  /**
   * The branches of `normalize_phone` for a cell with no international
   * prefix, on its digits: a number needs at least 8 digits.
   */
  function GoogleDigitsOnly(digits: string, addMxMobileOne: bool): (r: Option<Phone>)
    requires AllDigits(digits)
    ensures r.None? <==> |digits| < 8
    ensures r.Some? ==> PlusDigits(r.value.e164)
  {
    if |digits| == 11 && digits[0] == '1' then
      PlusOfDigits(digits);
      assert DefaultUsCountryCode + digits[1..] == "+" + digits;
      Some(Phone(DefaultUsCountryCode + digits[1..], US))
    else if |digits| == 10 then
      PlusOfDigits("1" + digits);
      assert DefaultUsCountryCode + digits == "+" + ("1" + digits);
      Some(Phone(DefaultUsCountryCode + digits, US))
    else if "52" <= digits && (|digits| == 12 || |digits| == 13) then
      PlusOfDigits(digits);
      if addMxMobileOne && !("521" <= digits) && |digits[2..]| == 10 then
        PlusOfDigits("521" + digits[2..]);
        Some(Phone("+521" + digits[2..], MX))
      else Some(Phone("+" + digits, MX))
    else if |digits| >= 8 then
      PlusOfDigits(digits);
      Some(Phone("+" + digits, INTL))
    else None
  }

  lemma GoogleViaStrip(raw: string, addMxMobileOne: bool)
    ensures NormalizeGoogle(raw, addMxMobileOne) == GoogleStripped(Strip(raw), addMxMobileOne)
  {
    if raw == [] {
      assert Strip(raw) == [];
    }
  }

  /** An empty or blank cell has no number. */
  lemma GoogleBlank(raw: string, addMxMobileOne: bool)
    requires forall i | 0 <= i < |raw| :: IsSpace(raw[i])
    ensures NormalizeGoogle(raw, addMxMobileOne) == None
  {
    StripEmpty(raw);
  }

  /**
   * With the switch off, a `+` and at least 8 digits give `+` and the
   * digits, tagged by how the cell itself starts: `+52` is MX, `+1` is US,
   * anything else (even `+ 52`) INTL.
   */
  lemma GooglePlus(s: string)
    requires Trimmed(s) && "+" <= s && |OnlyDigits(s)| >= 8
    ensures NormalizeGoogle(s, false) ==
      Some(Phone("+" + OnlyDigits(s), if "+52" <= s then MX else if "+1" <= s then US else INTL))
  {
    StripTrimmed(s);
    GoogleViaStrip(s, false);
  }

  /** With the switch on, `+52` and 10 more digits, not already `+521`, become `+521` and the 10 digits. */
  lemma GoogleMxMobileOne(s: string)
    requires Trimmed(s) && "+52" <= s && !("+521" <= s) && |OnlyDigits(s)| == 12
    ensures NormalizeGoogle(s, true) == Some(Phone("+521" + OnlyDigits(s)[2..], MX))
  {
    StripTrimmed(s);
    GoogleViaStrip(s, true);
    assert "+" <= s by {
      assert s[..1] == s[..3][..1];
    }
  }

  /**
   * A leading `00` is dropped and the remaining digits get a `+`: MX when
   * they start with `52`, INTL otherwise, with no length check at all.
   */
  lemma GoogleDoubleZero(s: string)
    requires Trimmed(s) && "00" <= s
    ensures var d := OnlyDigits(s[2..]);
      NormalizeGoogle(s, false) == Some(Phone("+" + d, if "52" <= d then MX else INTL))
  {
    StripTrimmed(s);
    GoogleViaStrip(s, false);
    assert !("+" <= s) by {
      assert s[..1] == s[..2][..1];
    }
  }

  /** So `"00"` alone becomes the bare `"+"`. */
  lemma GoogleDoubleZeroAlone()
    ensures NormalizeGoogle("00", false) == Some(Phone("+", INTL))
  {
    GoogleDoubleZero("00");
    assert "00"[2..] == [];
    assert OnlyDigits([]) == [];
    assert "+" + [] == "+";
  }

  /** A leading `011` among the digits is dropped the same way (no `+` and no `00` in front). */
  lemma GoogleZeroOneOne(s: string)
    requires Trimmed(s) && !("+" <= s) && !("00" <= s) && "011" <= OnlyDigits(s)
    ensures var d := OnlyDigits(s)[3..];
      NormalizeGoogle(s, false) == Some(Phone("+" + d, if "52" <= d then MX else INTL))
  {
    calc {
      NormalizeGoogle(s, false);
      { GoogleViaStrip(s, false); }
      GoogleStripped(Strip(s), false);
      { StripTrimmed(s); }
      GoogleStripped(s, false);
    }
    StrippedZeroOneOne(s);
  }

  lemma StrippedZeroOneOne(s: string)
    requires !("+" <= s) && !("00" <= s) && "011" <= OnlyDigits(s)
    ensures var d := OnlyDigits(s)[3..];
      GoogleStripped(s, false) == Some(Phone("+" + d, if "52" <= d then MX else INTL))
  {
  }

  /**
   * Without a prefix the digit rules are: 11 digits from `1` or exactly 10
   * digits are US (`+1` and the national number), 12 or 13 digits from `52`
   * are MX, 8 or more are INTL, and fewer give nothing.
   */
  lemma GoogleBareDigits(s: string)
    requires Trimmed(s) && !("+" <= s) && !("00" <= s) && !("011" <= OnlyDigits(s))
    ensures var d, r := OnlyDigits(s), NormalizeGoogle(s, false);
      if |d| == 11 && d[0] == '1' then r == Some(Phone("+" + d, US))
      else if |d| == 10 then r == Some(Phone("+1" + d, US))
      else if "52" <= d && (|d| == 12 || |d| == 13) then r == Some(Phone("+" + d, MX))
      else if |d| >= 8 then r == Some(Phone("+" + d, INTL))
      else r == None
  {
    StripTrimmed(s);
    GoogleViaStrip(s, false);
    var d := OnlyDigits(s);
    if |d| == 11 && d[0] == '1' {
      assert "+1" + d[1..] == "+" + d;
    }
  }

  /**
   * On a clean E.164 string the two normalisers agree (switch off): both
   * return it unchanged, with the country read from its leading digits.
   */
  lemma NormalizersAgreeOnE164(e: string)
    requires IsE164(e)
    ensures NormalizeGoogle(e, false) == CleanDuplicates.NormalizePhone(e, false)
  {
    PlusDigitsClean(e);
    CleanDuplicates.NormalizeFixedPoint(e, false);
    GooglePlus(e);
    var d := e[1..];
    assert e == "+" + d;
    if "52" <= d {
      assert "+52" <= e;
      assert d[0] == d[..2][0] == '5';
    } else if d[0] == '1' {
      assert "+1" <= e;
      assert !("+52" <= e);
    }
  }

  /**
   * They part ways on a `+` set off by a space: this script tags by the
   * cell's own `+52`, so `+ 52…` is INTL, while clean_duplicates_on_contacts.py
   * tags by the digits and calls it MX.
   */
  lemma NormalizersDisagreeOnSpacedPlus(d: string)
    requires AllDigits(d) && |d| >= 8 && "52" <= d
    ensures NormalizeGoogle("+ " + d, false) == Some(Phone("+" + d, INTL))
    ensures CleanDuplicates.NormalizePhone("+ " + d, false) == Some(Phone("+" + d, MX))
  {
    var s := "+ " + d;
    SpacedPlusShape(d);
    GooglePlus(s);
    CleanDuplicates.NormalizeViaStrip(s, false);
    CleanDuplicates.NormalizePlus(s, false);
    assert d[0] == d[..2][0] == '5';
  }

  lemma SpacedPlusShape(d: string)
    requires AllDigits(d) && d != []
    ensures var s := "+ " + d;
      && Trimmed(s) && OnlyDigits(s) == d && Strip(s) == s
      && "+" <= s && !("+52" <= s) && !("+1" <= s) && s[0] == '+'
  {
    var s := "+ " + d;
    OnlyDigitsOfDigits(d);
    OnlyDigitsAppend("+ ", d);
    assert OnlyDigits("+ ") == [] by {
      assert "+ "[1..] == " ";
      assert " "[1..] == [];
    }
    assert s[|s| - 1] == d[|d| - 1];
    StripTrimmed(s);
    assert s[..1] == "+" && s[1] == ' ';
  }

  // ---------------------------------------------------------------- pick_best_number

  /** A scored candidate, the tuple `(score, e164, country)` of the script. */
  datatype Cand = Cand(score: nat, e164: string, country: Country)

  /** Python's `<` on strings: code point by code point, a proper prefix first. */
  predicate StrLt(a: string, b: string)
    decreases |a|
  {
    if a == [] then b != []
    else if b == [] then false
    else if a[0] != b[0] then a[0] < b[0]
    else StrLt(a[1..], b[1..])
  }

  lemma {:induction false} StrLtIrreflexive(a: string)
    ensures !StrLt(a, a)
    decreases |a|
  {
    if a != [] {
      StrLtIrreflexive(a[1..]);
    }
  }

  lemma {:induction false} StrLtTransitive(a: string, b: string, c: string)
    requires StrLt(a, b) && StrLt(b, c)
    ensures StrLt(a, c)
    decreases |a|
  {
    if a != [] && b != [] && c != [] && a[0] == b[0] && b[0] == c[0] {
      StrLtTransitive(a[1..], b[1..], c[1..]);
    }
  }

  lemma {:induction false} StrLtTotal(a: string, b: string)
    ensures a == b || StrLt(a, b) || StrLt(b, a)
    decreases |a|
  {
    if a != [] && b != [] && a[0] == b[0] {
      StrLtTotal(a[1..], b[1..]);
      if a[1..] == b[1..] {
        assert a == [a[0]] + a[1..] && b == [b[0]] + b[1..];
      }
    }
  }

  lemma {:induction false} StrLtAsymmetric(a: string, b: string)
    requires StrLt(a, b)
    ensures !StrLt(b, a)
    decreases |a|
  {
    if a != [] && b != [] && a[0] == b[0] {
      StrLtAsymmetric(a[1..], b[1..]);
    }
  }

  /** The tuple order of the candidates: score, then e164 string, then country name. */
  predicate CandLt(x: Cand, y: Cand) {
    || x.score < y.score
    || (x.score == y.score && StrLt(x.e164, y.e164))
    || (x.score == y.score && x.e164 == y.e164 && StrLt(CountryName(x.country), CountryName(y.country)))
  }

  predicate CandLe(x: Cand, y: Cand) {
    x == y || CandLt(x, y)
  }

  /** The tuple order is a strict total order. */
  lemma CandLtOrder(x: Cand, y: Cand, z: Cand)
    ensures !CandLt(x, x)
    ensures CandLt(x, y) ==> !CandLt(y, x)
    ensures CandLt(x, y) && CandLt(y, z) ==> CandLt(x, z)
    ensures x == y || CandLt(x, y) || CandLt(y, x)
  {
    StrLtIrreflexive(x.e164);
    StrLtIrreflexive(CountryName(x.country));
    if CandLt(x, y) {
      if x.score == y.score && StrLt(x.e164, y.e164) {
        StrLtAsymmetric(x.e164, y.e164);
      } else if x.score == y.score && x.e164 == y.e164 {
        StrLtAsymmetric(CountryName(x.country), CountryName(y.country));
      }
    }
    if CandLt(x, y) && CandLt(y, z) {
      if x.score == y.score == z.score {
        if StrLt(x.e164, y.e164) && StrLt(y.e164, z.e164) {
          StrLtTransitive(x.e164, y.e164, z.e164);
        } else if x.e164 == y.e164 == z.e164 {
          StrLtTransitive(CountryName(x.country), CountryName(y.country), CountryName(z.country));
        }
      }
    }
    StrLtTotal(x.e164, y.e164);
    StrLtTotal(CountryName(x.country), CountryName(y.country));
  }

  /** The score of a label: 2 for a mobile line, 1 otherwise. */
  function Score(lowered: string): (n: nat)
    ensures n == 2 <==> MobileLabel(lowered)
    ensures n == 1 <==> !MobileLabel(lowered)
  {
    if MobileLabel(lowered) then 2 else 1
  }

  /** The candidate of column `i`, if its stripped cell normalises. */
  function ColumnCand(row: Row, i: nat): Option<Cand>
    requires i < 6
  {
    var val := Strip(Get(row, PhoneCols[i]));
    if val == [] then None
    else match NormalizeGoogle(val, AddMxMobileOne)
      case None => None
      case Some(p) => Some(Cand(Score(Lower(Get(row, LabelCols[i]))), p.e164, p.country))
  }

  /** The candidates of the first `n` columns, in column order. */
  function CandsUpTo(row: Row, n: nat): seq<Cand>
    requires n <= 6
  {
    if n == 0 then []
    else
      match ColumnCand(row, n - 1)
      case None => CandsUpTo(row, n - 1)
      case Some(c) => CandsUpTo(row, n - 1) + [c]
  }

  /** The first candidate after sorting in descending order: the greatest one. */
  function MaxCand(cs: seq<Cand>): (m: Cand)
    requires cs != []
    ensures m in cs && forall c | c in cs :: CandLe(c, m)
    decreases |cs|
  {
    if |cs| == 1 then cs[0]
    else
      var init := cs[..|cs| - 1];
      var m := MaxCand(init);
      var last := cs[|cs| - 1];
      assert cs == init + [last];
      CandLtOrder(m, last, m);
      forall c | c in init ensures CandLe(c, last) || !CandLt(m, last) {
        CandLtOrder(c, m, last);
      }
      if CandLt(m, last) then last else m
  }

  /** Only one candidate can be greater than or equal to all the others, so sorting decides nothing else. */
  lemma MaxUnique(cs: seq<Cand>, x: Cand, y: Cand)
    requires x in cs && y in cs
    requires forall c | c in cs :: CandLe(c, x)
    requires forall c | c in cs :: CandLe(c, y)
    ensures x == y
  {
    CandLtOrder(x, y, x);
  }

  /** `pick_best_number` of clean_google_contacts.py on a row. */
  function GoogleBest(row: Row): (r: Option<Phone>)
    ensures r.None? <==> CandsUpTo(row, 6) == []
    ensures r.Some? ==> exists m | m in CandsUpTo(row, 6) ::
      r.value == Phone(m.e164, m.country) && forall c | c in CandsUpTo(row, 6) :: CandLe(c, m)
  {
    var cs := CandsUpTo(row, 6);
    if cs == [] then None
    else
      var m := MaxCand(cs);
      Some(Phone(m.e164, m.country))
  }

  /** `pick_best_number`: collect the scored candidates column by column, then take the greatest. */
  method PickBestNumber(row: Row) returns (r: Option<Phone>)
    ensures r == GoogleBest(row)
  {
    var candidates: seq<Cand> := [];
    for i := 0 to 6
      invariant candidates == CandsUpTo(row, i)
    {
      var val := Strip(Get(row, PhoneCols[i]));
      if val == [] {
        continue;
      }
      var lowered := Lower(Get(row, LabelCols[i]));
      var n := NormalizeGoogle(val, AddMxMobileOne);
      if n.Some? {
        var score := if MobileLabel(lowered) then 2 else 1;
        candidates := candidates + [Cand(score, n.value.e164, n.value.country)];
      }
    }
    if candidates == [] {
      return None;
    }
    var best := SortedFirst(candidates);
    r := Some(Phone(best.e164, best.country));
  }

  /** The head of `candidates.sort(reverse=True)`: a scan for the greatest candidate. */
  method SortedFirst(cs: seq<Cand>) returns (best: Cand)
    requires cs != []
    ensures best == MaxCand(cs)
  {
    best := cs[0];
    for j := 1 to |cs|
      invariant best == MaxCand(cs[..j])
    {
      assert cs[..j + 1][..j] == cs[..j];
      if CandLt(best, cs[j]) {
        best := cs[j];
      }
    }
    assert cs[..|cs|] == cs;
  }

  // ---------------------------------------------------------------- main

  /** The output row of a contact with a number (column `Phone`), or nothing. */
  function CleanedGoogle(row: Row): (c: Option<OutRow>)
    ensures c.Some? <==> GoogleBest(row).Some?
    ensures c.Some? ==> && c.value.phone == GoogleBest(row).value.e164 && c.value.name == FullName(row)
                        && c.value.channel == "WhatsApp" && c.value.optIn == ""
    ensures c.Some? ==> c.value.country == CountryName(GoogleBest(row).value.country)
    ensures c.Some? ==> c.value.country in {"US", "MX", "INTL"}
  {
    match GoogleBest(row)
    case None => None
    case Some(p) => Some(OutRow(FullName(row), p.e164, CountryName(p.country), "WhatsApp", ""))
  }

  /** The loop of `main`: skip contacts without a number, keep the first contact per number. */
  method CleanContacts(rows: seq<Row>) returns (out: seq<OutRow>)
    ensures out == FirstWins(Somes(rows, CleanedGoogle), OutPhone)
  {
    out := KeepFirst(rows, CleanedGoogle, OutPhone);
  }

  /**
   * Each number appears once, from the earliest contact that has it; every
   * contact with a number has it listed; Channel is always WhatsApp and OptIn empty.
   */
  lemma CleanContactsSpec(rows: seq<Row>)
    ensures var out, o := FirstWins(Somes(rows, CleanedGoogle), OutPhone), Origins(rows, CleanedGoogle, OutPhone);
      && UniqueKeys(out, OutPhone)
      && |o| == |out|
      && (forall i | 0 <= i < |out| :: o[i] < |rows| && CleanedGoogle(rows[o[i]]) == Some(out[i]))
      && (forall i, k | 0 <= i < |out| && 0 <= k < |rows| && k < o[i] && CleanedGoogle(rows[k]).Some? ::
            CleanedGoogle(rows[k]).value.phone != out[i].phone)
      && (forall j | 0 <= j < |rows| && CleanedGoogle(rows[j]).Some? :: CleanedGoogle(rows[j]).value.phone in KeysOf(out, OutPhone))
      && (forall r | r in out :: r.channel == "WhatsApp" && r.optIn == "")
  {
    OriginsSpec(rows, CleanedGoogle, OutPhone);
    FirstWinsOfSomes(rows, CleanedGoogle, OutPhone);
    FirstWinsOfSomesAll(rows, CleanedGoogle, OutPhone, (r: OutRow) => r.channel == "WhatsApp" && r.optIn == "");
  }
}
