/**
 * clean_duplicates_on_contacts.py: normalise the phone cells of a contacts
 * export, find several numbers inside one messy cell, pick one number per
 * contact (a mobile-labelled column wins at once) and keep the first contact
 * per number.
 */
module CleanDuplicates {
  import opened Wrappers
  import opened Text
  import opened Contacts
  import opened Dedup
  import opened Patterns

  const DefaultUsCc: string := "+1"
  /** The script's switch for rewriting `+52` + 10 digits as `+521` + 10 digits; it ships off. */
  const AddMxMobileOne: bool := false

  // ---------------------------------------------------------------- normalize_phone

  /** `+` then digits is an E.164 string once there are at least 8 digits. */
  lemma PlusIsE164(d: string)
    requires AllDigits(d) && |d| >= 8
    ensures IsE164("+" + d) && ("+" + d)[1..] == d
  {
    assert ("+" + d)[1..] == d;
  }

  /** The Mexican branch shared by the `+` case and the bare-digit case of `normalize_phone`. */
  function MxNumber(d: string, addMxMobileOne: bool): (p: Phone)
    requires AllDigits(d) && |d| >= 8 && "52" <= d
    ensures IsE164(p.e164) && p.country == MX
    ensures !addMxMobileOne ==> p.e164 == "+" + d
    ensures p.e164 == "+" + d || (|d| == 12 && p.e164 == "+521" + d[2..])
    ensures p.e164 == "+" + d <==> !(addMxMobileOne && !("521" <= d) && |d| == 12)
  {
    PlusIsE164(d);
    var local := d[2..];
    if addMxMobileOne && !("521" <= d) && |local| == 10 then
      PlusIsE164("521" + local);
      Phone("+521" + local, MX)
    else Phone("+" + d, MX)
  }

  /**
   * `normalize_phone`: a cell to `+digits` with a country tag, or nothing.
   * It yields a number exactly when the stripped cell holds at least 8
   * digits, and the number is then `+` and those digits (a bare 10-digit
   * national number gets the US code `+1` in front).
   */
  function NormalizePhone(raw: string, addMxMobileOne: bool): (r: Option<Phone>)
    ensures var d := OnlyDigits(Strip(raw));
      && (r.None? <==> |d| < 8)
      && (r.Some? ==> IsE164(r.value.e164))
      && (r.Some? && !addMxMobileOne ==> r.value.e164 == "+" + d || (|d| == 10 && r.value.e164 == "+1" + d))
  {
    if raw == [] then
      assert Strip(raw) == [];
      None
    else NormalizeStripped(Strip(raw), addMxMobileOne)
  }

  /** `normalize_phone` after `raw.strip()`. */
  function NormalizeStripped(s: string, addMxMobileOne: bool): (r: Option<Phone>)
    ensures var d := OnlyDigits(s);
      && (r.None? <==> |d| < 8)
      && (r.Some? ==> IsE164(r.value.e164))
      && (r.Some? && !addMxMobileOne ==> r.value.e164 == "+" + d || (|d| == 10 && r.value.e164 == "+1" + d))
  {
    var d := OnlyDigits(s);
    if s != [] && s[0] == '+' then
      if |d| < 8 then None
      else if d[0] == '1' then PlusIsE164(d); Some(Phone("+" + d, US))
      else if "52" <= d then Some(MxNumber(d, addMxMobileOne))
      else PlusIsE164(d); Some(Phone("+" + d, INTL))
    else if d == [] then None
    else if "52" <= d && (|d| == 12 || |d| == 13) then Some(MxNumber(d, addMxMobileOne))
    else if |d| == 11 && d[0] == '1' then
      assert DefaultUsCc + d[1..] == "+" + d;
      PlusIsE164(d);
      Some(Phone(DefaultUsCc + d[1..], US))
    else if |d| == 10 then
      PlusIsE164("1" + d);
      assert DefaultUsCc + d == "+" + ("1" + d);
      Some(Phone(DefaultUsCc + d, US))
    else if |d| >= 8 then PlusIsE164(d); Some(Phone("+" + d, INTL))
    else None
  }

  /** `normalize_phone` is `strip` followed by the rules; the early return on an empty cell changes nothing. */
  lemma NormalizeViaStrip(raw: string, addMxMobileOne: bool)
    ensures NormalizePhone(raw, addMxMobileOne) == NormalizeStripped(Strip(raw), addMxMobileOne)
  {
    if raw == [] {
      assert Strip(raw) == [];
    }
  }

  /**
   * With a leading `+` and at least 8 digits the result is `+` and the
   * digits, tagged by the digits: `1` is US, `52` is MX (where the `+521`
   * rewrite may apply), anything else INTL.
   */
  lemma NormalizePlus(s: string, addMxMobileOne: bool)
    requires s != [] && s[0] == '+' && |OnlyDigits(s)| >= 8
    ensures var d := OnlyDigits(s);
      NormalizeStripped(s, addMxMobileOne) ==
        Some(if d[0] == '1' then Phone("+" + d, US)
             else if "52" <= d then MxNumber(d, addMxMobileOne)
             else Phone("+" + d, INTL))
  {
  }

  /** The rules on `+` and the digits `d`: `+` and `d` again, tagged by its leading digits. */
  lemma StrippedFixedPoint(d: string, addMxMobileOne: bool)
    requires AllDigits(d) && |d| >= 8 && OnlyDigits("+" + d) == d
    requires !(addMxMobileOne && "52" <= d && !("521" <= d) && |d| == 12)
    ensures NormalizeStripped("+" + d, addMxMobileOne) ==
      Some(Phone("+" + d, if d[0] == '1' then US else if "52" <= d then MX else INTL))
  {
    NormalizePlus("+" + d, addMxMobileOne);
    if "52" <= d {
      assert d[0] == d[..2][0] == '5';
    }
  }

  /**
   * An E.164 string normalises to itself, tagged by its leading digits,
   * unless the `+521` rewrite is switched on and applies to it.
   */
  lemma NormalizeFixedPoint(e: string, addMxMobileOne: bool)
    requires IsE164(e)
    requires var d := e[1..]; !(addMxMobileOne && "52" <= d && !("521" <= d) && |d| == 12)
    ensures var d := e[1..];
      NormalizePhone(e, addMxMobileOne) == Some(Phone(e, if d[0] == '1' then US else if "52" <= d then MX else INTL))
  {
    PlusDigitsClean(e);
    NormalizeViaStrip(e, addMxMobileOne);
    var d := e[1..];
    assert e == "+" + d;
    StrippedFixedPoint(d, addMxMobileOne);
  }

  /** A normalised number is never one the `+521` rewrite would still change. */
  lemma StrippedNotRewritable(s: string, addMxMobileOne: bool)
    requires NormalizeStripped(s, addMxMobileOne).Some?
    ensures var e := NormalizeStripped(s, addMxMobileOne).value.e164;
      IsE164(e) && !(addMxMobileOne && "52" <= e[1..] && !("521" <= e[1..]) && |e[1..]| == 12)
  {
    var d := OnlyDigits(s);
    var e := NormalizeStripped(s, addMxMobileOne).value.e164;
    if e == "+" + d {
      assert e[1..] == d;
    } else if |d| == 10 && e == "+1" + d {
      assert e[1..] == "1" + d;
    } else {
      assert |d| == 12 && e == "+521" + d[2..];
      assert e[1..] == "521" + d[2..];
    }
  }

  /** Normalising a normalised number again leaves its e164 string alone, with the switch on or off. */
  lemma NormalizeIdempotent(raw: string, addMxMobileOne: bool)
    requires NormalizePhone(raw, addMxMobileOne).Some?
    ensures var e := NormalizePhone(raw, addMxMobileOne).value.e164;
      NormalizePhone(e, addMxMobileOne).Some? && NormalizePhone(e, addMxMobileOne).value.e164 == e
  {
    NormalizeViaStrip(raw, addMxMobileOne);
    StrippedNotRewritable(Strip(raw), addMxMobileOne);
    var e := NormalizePhone(raw, addMxMobileOne).value.e164;
    NormalizeFixedPoint(e, addMxMobileOne);
  }

  /**
   * On a stripped cell without a leading `+` the digit rules apply in this
   * order: 12 or 13 digits from `52` are Mexican, then 11 digits from `1` or
   * exactly 10 digits are US, then 8 or more are international, and fewer
   * give nothing.
   */
  lemma StrippedBareDigits(s: string)
    requires s == [] || s[0] != '+'
    ensures var d, r := OnlyDigits(s), NormalizeStripped(s, false);
      if "52" <= d && (|d| == 12 || |d| == 13) then r == Some(Phone("+" + d, MX))
      else if |d| == 11 && d[0] == '1' then r == Some(Phone("+" + d, US))
      else if |d| == 10 then r == Some(Phone("+1" + d, US))
      else if |d| >= 8 then r == Some(Phone("+" + d, INTL))
      else r == None
  {
    var d := OnlyDigits(s);
    if |d| == 11 && d[0] == '1' {
      assert "+1" + d[1..] == "+" + d;
    }
  }

  /**
   * On a cell without a leading `+` the digit rules apply in this order:
   * 12 or 13 digits from `52` are Mexican, then 11 digits from `1` or exactly
   * 10 digits are US, then 8 or more are international, and fewer give nothing.
   */
  lemma NormalizeBareDigits(raw: string)
    requires var s := Strip(raw); s == [] || s[0] != '+'
    ensures var d, r := OnlyDigits(Strip(raw)), NormalizePhone(raw, false);
      if "52" <= d && (|d| == 12 || |d| == 13) then r == Some(Phone("+" + d, MX))
      else if |d| == 11 && d[0] == '1' then r == Some(Phone("+" + d, US))
      else if |d| == 10 then r == Some(Phone("+1" + d, US))
      else if |d| >= 8 then r == Some(Phone("+" + d, INTL))
      else r == None
  {
    NormalizeViaStrip(raw, false);
    StrippedBareDigits(Strip(raw));
  }

  // ---------------------------------------------------------------- extract_phone_candidates

  /** `normalize_phone` as the script calls it, with its switch. */
  function NormalizeHit(h: string): Option<Phone> {
    NormalizePhone(h, AddMxMobileOne)
  }

  /**
   * Every raw hit in the order the script gathers them: `+` and 8 to 15
   * digits, then the standalone Mexican runs, then the standalone US runs,
   * then the loose forms of every separator-split piece.
   */
  function RawHits(text: string): seq<string> {
    var runs := Runs(text, 0);
    PlusHits(text, 0) + MxRuns(runs) + UsRuns(runs) + LooseInPieces(Pieces(text))
  }

  /** What `extract_phone_candidates` returns: the normalised hits, the first per e164. */
  function Candidates(text: string): seq<Phone> {
    if text == [] then [] else FirstWins(Somes(RawHits(text), NormalizeHit), E164Of)
  }

  /**
   * Normalising any list of hits and keeping the first per e164: valid E.164
   * strings, no two alike, each from the earliest hit with that number, and
   * every hit that normalises contributes its number.
   */
  lemma HitsSpec(hits: seq<string>)
    ensures var c, o := FirstWins(Somes(hits, NormalizeHit), E164Of), Origins(hits, NormalizeHit, E164Of);
      && UniqueKeys(c, E164Of)
      && (forall p | p in c :: IsE164(p.e164))
      && |o| == |c|
      && (forall i | 0 <= i < |c| :: o[i] < |hits| && NormalizeHit(hits[o[i]]) == Some(c[i]))
      && (forall i, j | 0 <= i < j < |c| :: o[i] < o[j])
      && (forall j | 0 <= j < |hits| && NormalizeHit(hits[j]).Some? :: NormalizeHit(hits[j]).value.e164 in KeysOf(c, E164Of))
  {
    OriginsSpec(hits, NormalizeHit, E164Of);
    FirstWinsOfSomes(hits, NormalizeHit, E164Of);
    FirstWinsOfSomesAll(hits, NormalizeHit, E164Of, (p: Phone) => IsE164(p.e164));
  }

  /**
   * The candidates are valid E.164 strings, no two alike; each one is the
   * normalisation of a raw hit, taken from the earliest hit with that
   * number; and every hit that normalises contributes its number.
   */
  lemma CandidatesSpec(text: string)
    requires text != []
    ensures var c, hits, o := Candidates(text), RawHits(text), Origins(RawHits(text), NormalizeHit, E164Of);
      && UniqueKeys(c, E164Of)
      && (forall p | p in c :: IsE164(p.e164))
      && |o| == |c|
      && (forall i | 0 <= i < |c| :: o[i] < |hits| && NormalizeHit(hits[o[i]]) == Some(c[i]))
      && (forall i, j | 0 <= i < j < |c| :: o[i] < o[j])
      && (forall j | 0 <= j < |hits| && NormalizeHit(hits[j]).Some? :: NormalizeHit(hits[j]).value.e164 in KeysOf(c, E164Of))
  {
    HitsSpec(RawHits(text));
  }

  /** The hits gathered first keep their candidates in front, whatever follows. */
  lemma HitsPrefix(first: seq<string>, b: seq<string>, c: seq<string>, d: seq<string>)
    ensures FirstWins(Somes(first, NormalizeHit), E164Of) <= FirstWins(Somes(first + b + c + d, NormalizeHit), E164Of)
  {
    var rest := b + c + d;
    assert first + b + c + d == first + rest;
    SomesAppend(first, rest, NormalizeHit);
    FirstWinsPrefix(Somes(first, NormalizeHit), Somes(rest, NormalizeHit), E164Of);
  }

  /** The explicit `+` numbers come first: their candidates are a prefix of the result. */
  lemma CandidatesPlusFirst(text: string)
    requires text != []
    ensures FirstWins(Somes(PlusHits(text, 0), NormalizeHit), E164Of) <= Candidates(text)
  {
    var runs := Runs(text, 0);
    HitsPrefix(PlusHits(text, 0), MxRuns(runs), UsRuns(runs), LooseInPieces(Pieces(text)));
  }

  /** A match of the `+` pattern at `p` is among the matches found from `i` on. */
  lemma {:induction false} PlusAtHas(s: string, i: nat, p: nat, n: nat)
    requires i <= p < |s| && n == PlusMatch(s, p) && n > 0
    ensures s[p..p + n] in PlusAt(s, i)
    decreases p - i
  {
    if i < p {
      PlusAtHas(s, i + 1, p, n);
      var head := if PlusMatch(s, i) > 0 then [s[i..i + PlusMatch(s, i)]] else [];
      assert PlusAt(s, i) == head + PlusAt(s, i + 1);
    } else {
      PlusAtFirst(s, p, n);
    }
  }

  /** A hit that normalises contributes its number to the candidates. */
  lemma HitGivesCandidate(text: string, h: string)
    requires text != [] && h in RawHits(text) && NormalizeHit(h).Some?
    ensures NormalizeHit(h).value.e164 in KeysOf(Candidates(text), E164Of)
  {
    var hits := RawHits(text);
    var j :| 0 <= j < |hits| && hits[j] == h;
    CandidatesSpec(text);
  }

  /**
   * Nothing the `+` pattern finds is lost: the window `+` and 8 to 15 digits
   * at `p` is a candidate just as it stands.
   */
  lemma PlusWindowCandidate(text: string, p: nat, n: nat)
    requires p < |text| && n == PlusMatch(text, p) && n > 0
    ensures text[p..p + n] in KeysOf(Candidates(text), E164Of)
  {
    PlusInRawHits(text, p, n);
    PlusHitCandidate(text, text[p..p + n]);
  }

  /** A hit already in E.164 form is a candidate as it stands. */
  lemma PlusHitCandidate(text: string, h: string)
    requires text != [] && h in RawHits(text) && PlusHit(h)
    ensures h in KeysOf(Candidates(text), E164Of)
  {
    PlusHitNormalizes(h);
    HitGivesCandidate(text, h);
  }

  /** A `+` window is among the hits. */
  lemma PlusInRawHits(text: string, p: nat, n: nat)
    requires p < |text| && n == PlusMatch(text, p) && n > 0
    ensures text[p..p + n] in RawHits(text) && PlusHit(text[p..p + n])
  {
    PlusAtHas(text, 0, p, n);
  }

  /** A `+` window is already in E.164 form and normalises to itself. */
  lemma PlusHitNormalizes(h: string)
    requires PlusHit(h)
    ensures NormalizeHit(h).Some? && NormalizeHit(h).value.e164 == h
  {
    assert IsE164(h);
    NormalizeFixedPoint(h, AddMxMobileOne);
  }

  /** A standalone run that the Mexican or the US pattern matches gives a candidate. */
  lemma RunCandidate(text: string, r: string)
    requires text != [] && r in Runs(text, 0) && (MxRun(r) || UsRun(r))
    ensures NormalizeHit(r).Some? && NormalizeHit(r).value.e164 in KeysOf(Candidates(text), E164Of)
  {
    RunInRawHits(text, r);
    RunNormalizes(text, r);
    HitGivesCandidate(text, r);
  }

  /** A run that the Mexican or the US pattern matches is among the hits. */
  lemma RunInRawHits(text: string, r: string)
    requires r in Runs(text, 0) && (MxRun(r) || UsRun(r))
    ensures r in RawHits(text)
  {
    var runs := Runs(text, 0);
    assert r in MxRuns(runs) || r in UsRuns(runs);
  }

  /** Such a run is all digits and long enough, so it normalises. */
  lemma RunNormalizes(text: string, r: string)
    requires r in Runs(text, 0) && (MxRun(r) || UsRun(r))
    ensures NormalizeHit(r).Some?
  {
    assert AllDigits(r);
    assert Trimmed(r);
    StripTrimmed(r);
    OnlyDigitsOfDigits(r);
  }

  /** `extract_phone_candidates`: gather the raw hits, then normalise and keep the first per number. */
  method ExtractPhoneCandidates(text: string) returns (out: seq<Phone>)
    ensures out == Candidates(text)
    ensures UniqueKeys(out, E164Of) && forall p | p in out :: IsE164(p.e164)
  {
    if text == [] {
      return [];
    }
    var rawHits := GatherHits(text);
    out := KeepFirst(rawHits, NormalizeHit, E164Of);
    CandidatesSpec(text);
  }

  /** Lines 81-96 of the script: the hits in their fixed order, the loose ones piece by piece. */
  method GatherHits(text: string) returns (rawHits: seq<string>)
    ensures rawHits == RawHits(text)
  {
    var pieces := Pieces(text);
    var runs := Runs(text, 0);
    rawHits := PlusHits(text, 0);
    rawHits := rawHits + MxRuns(runs);
    rawHits := rawHits + UsRuns(runs);
    ghost var gathered := rawHits;
    for j := 0 to |pieces|
      invariant rawHits == gathered + LooseInPieces(pieces[..j])
    {
      LooseStep(gathered, pieces, j);
      rawHits := rawHits + LooseHits(pieces[j], 0);
    }
    assert pieces[..|pieces|] == pieces;
  }

  /** One more round of the loop over the pieces. */
  lemma LooseStep(gathered: seq<string>, pieces: seq<string>, j: nat)
    requires j < |pieces|
    ensures gathered + LooseInPieces(pieces[..j]) + LooseHits(pieces[j], 0) == gathered + LooseInPieces(pieces[..j + 1])
  {
    assert pieces[..j + 1] == pieces[..j] + [pieces[j]];
    LooseInPiecesAppend(pieces[..j], pieces[j]);
  }

  // ---------------------------------------------------------------- pick_best_number

  /** One phone column as `pick_best_number` sees it: its candidates and whether its label names a mobile line. */
  datatype Column = Column(cands: seq<Phone>, mobile: bool)

  /** Column `i` of a row (`val` stripped; an empty cell has no candidates). */
  function ColumnOf(row: Row, i: nat): Column
    requires i < 6
  {
    var val := Strip(Get(row, PhoneCols[i]));
    Column(if val == [] then [] else Candidates(val), MobileLabel(Lower(Get(row, LabelCols[i]))))
  }

  function Columns(row: Row): (cols: seq<Column>)
    ensures |cols| == 6
  {
    seq(6, i requires 0 <= i < 6 => ColumnOf(row, i))
  }

  /**
   * The column loop from column 0 with `best` found so far: a mobile column
   * with candidates ends the search, otherwise the first column with
   * candidates is remembered.
   */
  function Choose(cols: seq<Column>, best: Option<Phone>): Option<Phone>
    decreases |cols|
  {
    if cols == [] then best
    else if cols[0].cands == [] then Choose(cols[1..], best)
    else if cols[0].mobile then Some(cols[0].cands[0])
    else Choose(cols[1..], if best.None? then Some(cols[0].cands[0]) else best)
  }

  /** `pick_best_number` of a row. */
  function BestNumber(row: Row): Option<Phone> {
    Choose(Columns(row), None)
  }

  /** The first mobile column with candidates gives its first candidate, whatever came before it. */
  lemma {:induction false} ChooseFirstMobile(cols: seq<Column>, best: Option<Phone>, m: nat)
    requires m < |cols| && cols[m].cands != [] && cols[m].mobile
    requires forall j | 0 <= j < m :: cols[j].cands == [] || !cols[j].mobile
    ensures Choose(cols, best) == Some(cols[m].cands[0])
    decreases m
  {
    if m > 0 {
      var best' := if cols[0].cands != [] && best.None? then Some(cols[0].cands[0]) else best;
      ChooseFirstMobile(cols[1..], best', m - 1);
    }
  }

  /** Without a mobile column, the first column with candidates wins (unless something was found before). */
  lemma {:induction false} ChooseNoMobile(cols: seq<Column>, best: Option<Phone>, h: nat)
    requires forall j | 0 <= j < |cols| :: cols[j].cands == [] || !cols[j].mobile
    requires h < |cols| && cols[h].cands != []
    requires forall j | 0 <= j < h :: cols[j].cands == []
    ensures Choose(cols, best) == if best.Some? then best else Some(cols[h].cands[0])
    decreases h
  {
    if h > 0 {
      ChooseNoMobile(cols[1..], best, h - 1);
    } else {
      ChooseKeeps(cols[1..], if best.None? then Some(cols[0].cands[0]) else best);
    }
  }

  /** Once something is found and no mobile column follows, it stays. */
  lemma {:induction false} ChooseKeeps(cols: seq<Column>, best: Option<Phone>)
    requires best.Some?
    requires forall j | 0 <= j < |cols| :: cols[j].cands == [] || !cols[j].mobile
    ensures Choose(cols, best) == best
    decreases |cols|
  {
    if cols != [] {
      ChooseKeeps(cols[1..], best);
    }
  }

  /** Without any candidates the result is what was found before (nothing, from the start). */
  lemma {:induction false} ChooseEmpty(cols: seq<Column>, best: Option<Phone>)
    requires forall j | 0 <= j < |cols| :: cols[j].cands == []
    ensures Choose(cols, best) == best
    decreases |cols|
  {
    if cols != [] {
      ChooseEmpty(cols[1..], best);
    }
  }

  /** The chosen number is a candidate of some column, hence a valid E.164 string. */
  lemma {:induction false} BestNumberIsE164(row: Row)
    ensures BestNumber(row).Some? ==> IsE164(BestNumber(row).value.e164)
  {
    var cols := Columns(row);
    forall i | 0 <= i < 6 ensures forall p | p in cols[i].cands :: IsE164(p.e164) {
      ColumnAt(row, i);
      ColumnE164(row, i);
    }
    ChooseFrom(cols, None);
  }

  /** Every candidate of a column is a valid E.164 string. */
  lemma ColumnE164(row: Row, i: nat)
    requires i < 6
    ensures forall p | p in ColumnOf(row, i).cands :: IsE164(p.e164)
  {
    var val := Strip(Get(row, PhoneCols[i]));
    if val != [] {
      CandidatesSpec(val);
    }
  }

  /** The result of `Choose` is `best` or the first candidate of one of the columns. */
  lemma {:induction false} ChooseFrom(cols: seq<Column>, best: Option<Phone>)
    ensures Choose(cols, best) == best || exists j | 0 <= j < |cols| :: cols[j].cands != [] && Choose(cols, best) == Some(cols[j].cands[0])
    decreases |cols|
  {
    if cols != [] && cols[0].cands != [] && !cols[0].mobile {
      var best' := if best.None? then Some(cols[0].cands[0]) else best;
      ChooseFrom(cols[1..], best');
      if Choose(cols[1..], best') != best' {
        var j :| 0 <= j < |cols[1..]| && cols[1..][j].cands != [] && Choose(cols[1..], best') == Some(cols[1..][j].cands[0]);
        assert cols[j + 1] == cols[1..][j];
      }
    } else if cols != [] && cols[0].cands == [] {
      ChooseFrom(cols[1..], best);
      if Choose(cols[1..], best) != best {
        var j :| 0 <= j < |cols[1..]| && cols[1..][j].cands != [] && Choose(cols[1..], best) == Some(cols[1..][j].cands[0]);
        assert cols[j + 1] == cols[1..][j];
      }
    }
  }

  /** One round of the column loop. */
  lemma ChooseStep(cols: seq<Column>, i: nat, best: Option<Phone>)
    requires i < |cols|
    ensures Choose(cols[i..], best) ==
      if cols[i].cands == [] then Choose(cols[i + 1..], best)
      else if cols[i].mobile then Some(cols[i].cands[0])
      else Choose(cols[i + 1..], if best.None? then Some(cols[i].cands[0]) else best)
  {
    assert cols[i..][1..] == cols[i + 1..];
  }

  lemma ColumnAt(row: Row, i: nat)
    requires i < 6
    ensures Columns(row)[i] == ColumnOf(row, i)
  {
  }

  /** `pick_best_number`: the column loop, returning early at a mobile column. */
  method PickBestNumber(row: Row) returns (r: Option<Phone>)
    ensures r == BestNumber(row)
  {
    var cols := Columns(row);
    var best: Option<Phone> := None;
    for i := 0 to 6
      invariant Choose(cols, None) == Choose(cols[i..], best)
    {
      ChooseStep(cols, i, best);
      ColumnAt(row, i);
      var val := Strip(Get(row, PhoneCols[i]));
      if val == [] {
        continue;
      }
      var lowered := Lower(Get(row, LabelCols[i]));
      var cands := ExtractPhoneCandidates(val);
      assert cols[i] == Column(cands, MobileLabel(lowered));
      if cands == [] {
        continue;
      }
      if MobileLabel(lowered) {
        return Some(cands[0]);
      }
      if best.None? {
        best := Some(cands[0]);
      }
    }
    r := best;
  }

  // ---------------------------------------------------------------- main

  /** The output row of a contact with a number, or nothing when it has none. */
  function Cleaned(row: Row): (c: Option<OutRow>)
    ensures c.Some? <==> BestNumber(row).Some?
    ensures c.Some? ==> && c.value.phone == BestNumber(row).value.e164 && IsE164(c.value.phone)
                        && c.value.name == FullName(row) && c.value.channel == "WhatsApp" && c.value.optIn == ""
    ensures c.Some? ==> c.value.country == CountryName(BestNumber(row).value.country)
    ensures c.Some? ==> c.value.country in {"US", "MX", "INTL"}
  {
    BestNumberIsE164(row);
    match BestNumber(row)
    case None => None
    case Some(p) => Some(OutRow(FullName(row), p.e164, CountryName(p.country), "WhatsApp", ""))
  }

  /** The loop of `main`: skip contacts without a number, keep the first contact per number. */
  method CleanContacts(rows: seq<Row>) returns (out: seq<OutRow>)
    ensures out == FirstWins(Somes(rows, Cleaned), OutPhone)
  {
    out := KeepFirst(rows, Cleaned, OutPhone);
  }

  /**
   * The cleaned list: each number once, from the earliest contact that has
   * it, in input order; every contact with a number has its number listed;
   * numbers are valid E.164 strings, the channel is WhatsApp and OptIn is empty.
   */
  lemma CleanContactsSpec(rows: seq<Row>)
    ensures var out, o := FirstWins(Somes(rows, Cleaned), OutPhone), Origins(rows, Cleaned, OutPhone);
      && UniqueKeys(out, OutPhone)
      && |o| == |out|
      && (forall i | 0 <= i < |out| :: o[i] < |rows| && Cleaned(rows[o[i]]) == Some(out[i]))
      && (forall i, j | 0 <= i < j < |out| :: o[i] < o[j])
      && (forall i, k | 0 <= i < |out| && 0 <= k < |rows| && k < o[i] && Cleaned(rows[k]).Some? ::
            Cleaned(rows[k]).value.phone != out[i].phone)
      && (forall j | 0 <= j < |rows| && Cleaned(rows[j]).Some? :: Cleaned(rows[j]).value.phone in KeysOf(out, OutPhone))
      && (forall r | r in out :: IsE164(r.phone) && r.channel == "WhatsApp" && r.optIn == "")
  {
    OriginsSpec(rows, Cleaned, OutPhone);
    FirstWinsOfSomes(rows, Cleaned, OutPhone);
    FirstWinsOfSomesAll(rows, Cleaned, OutPhone, (r: OutRow) => IsE164(r.phone) && r.channel == "WhatsApp" && r.optIn == "");
  }
}
