/**
 * prepare_contact_lists.py: derive a friendly first name and a greeting for
 * every contact, add the two columns to the header, and split the contacts
 * into a WhatsApp list and an SMS list.
 */
module PrepareLists {
  import opened Wrappers
  import opened Text
  import opened Contacts
  import opened Dedup
  import opened Fields
  import opened InPlace

  // ---------------------------------------------------------------- derive_first_name

  /** A character of `[+()\-.\s0-9]`: what a phone number written as a name is made of. */
  predicate NumberChar(c: char) {
    c == '+' || c == '(' || c == ')' || c == '-' || c == '.' || IsSpace(c) || IsDigit(c)
  }

  /** `re.fullmatch(r"[+()\-.\s0-9]+", name)`. */
  predicate LooksLikeNumber(name: string) {
    name != [] && forall i | 0 <= i < |name| :: NumberChar(name[i])
  }

  /** The letters kept at the edges of a first name: ASCII letters and ÁÉÍÓÚÑáéíóúÜü. */
  predicate NameLetter(c: char) {
    || ('A' <= c <= 'Z') || ('a' <= c <= 'z')
    || c == 'Á' || c == 'É' || c == 'Í' || c == 'Ó' || c == 'Ú' || c == 'Ñ'
    || c == 'á' || c == 'é' || c == 'í' || c == 'ó' || c == 'ú' || c == 'Ü' || c == 'ü'
  }

  /** The honorifics, in the order the alternation tries them. */
  const Honorifics: seq<string> := ["mr", "mrs", "ms", "dr", "ing.", "sr", "sra", "srta", "ing", "lic"]

  /**
   * Case-insensitive comparison with a lower-case ASCII pattern character:
   * `lower()`, plus the dotless i, the dotted capital I and the long s, which
   * the regular-expression engine also folds to `i`, `i` and `s`.
   */
  function FoldChar(c: char): char {
    if c == '\U{131}' || c == '\U{130}' then 'i'
    else if c == '\U{17f}' then 's'
    else LowerChar(c)
  }

  predicate FoldPrefix(name: string, h: string) {
    |h| <= |name| && forall i | 0 <= i < |h| :: FoldChar(name[i]) == h[i]
  }

  /** A character of `[\s,]`: what may separate an honorific from the name. */
  predicate NameSep(c: char) {
    IsSpace(c) || c == ','
  }

  /** Length of the run of whitespace and commas that starts at `i`: the greedy `[\s,]*` there. */
  function SepRun(s: string, i: nat): (n: nat)
    requires i <= |s|
    ensures i + n <= |s|
    ensures forall p | i <= p < i + n :: NameSep(s[p])
    ensures i + n == |s| || !NameSep(s[i + n])
    decreases |s| - i
  {
    if i < |s| && NameSep(s[i]) then 1 + SepRun(s, i + 1) else 0
  }

  /**
   * Length of the match of `h\.?[\s,]+` at the start of `name`, or 0. Taking
   * the dot and then finding no separator cannot be rescued by leaving the
   * dot out, since the dot is no separator.
   */
  function HonorificMatch(name: string, h: string): (n: nat)
    ensures n <= |name|
    ensures n > 0 ==> FoldPrefix(name, h) && n > |h|
    // what is matched: the honorific, an optional dot, then a non-empty run of separators that is not cut short
    ensures n > 0 ==> && (name[|h|] == '.' || NameSep(name[|h|]))
                      && (forall p | |h| < p < n :: NameSep(name[p]))
                      && (name[|h|] == '.' ==> n > |h| + 1)
                      && (n == |name| || !NameSep(name[n]))
    // a present honorific followed by a separator, directly or after a dot, is matched
    ensures FoldPrefix(name, h) && |h| < |name| && NameSep(name[|h|]) ==> n > 0
    ensures FoldPrefix(name, h) && |h| + 1 < |name| && name[|h|] == '.' && NameSep(name[|h| + 1]) ==> n > 0
  {
    if FoldPrefix(name, h) then
      var j := |h| + (if |h| < |name| && name[|h|] == '.' then 1 else 0);
      var run := SepRun(name, j);
      if run > 0 then j + run else 0
    else 0
  }

  /**
   * Length of the leading honorific that the substitution removes, trying the
   * alternatives `hs` in order: the match of the first one that matches, or 0.
   */
  function HonorificFrom(name: string, hs: seq<string>): (n: nat)
    ensures n <= |name|
    ensures n == 0 <==> forall j | 0 <= j < |hs| :: HonorificMatch(name, hs[j]) == 0
    ensures n > 0 ==> exists j | 0 <= j < |hs| ::
      && n == HonorificMatch(name, hs[j])
      && forall l | 0 <= l < j :: HonorificMatch(name, hs[l]) == 0
  {
    if hs == [] then 0
    else
      var n := HonorificMatch(name, hs[0]);
      if n > 0 then n
      else
        var m := HonorificFrom(name, hs[1..]);
        FirstMatchStep(MatchOn(name), hs, m);
        m
  }

  /**
   * When the first alternative fails, the first match among `hs` is the first
   * match among the rest (for any measure `f` of a match).
   */
  lemma FirstMatchStep(f: string -> nat, hs: seq<string>, m: nat)
    requires hs != [] && f(hs[0]) == 0
    requires m == 0 <==> forall j | 0 <= j < |hs[1..]| :: f(hs[1..][j]) == 0
    requires m > 0 ==> exists j | 0 <= j < |hs[1..]| :: m == f(hs[1..][j]) && forall l | 0 <= l < j :: f(hs[1..][l]) == 0
    ensures m == 0 <==> forall j | 0 <= j < |hs| :: f(hs[j]) == 0
    ensures m > 0 ==> exists j | 0 <= j < |hs| :: m == f(hs[j]) && forall l | 0 <= l < j :: f(hs[l]) == 0
  {
    var tail := hs[1..];
    if m == 0 {
      forall j | 0 <= j < |hs| ensures f(hs[j]) == 0 {
        if j > 0 {
          assert hs[j] == tail[j - 1];
        }
      }
    } else {
      var j :| 0 <= j < |tail| && m == f(tail[j]) && forall l | 0 <= l < j :: f(tail[l]) == 0;
      assert hs[j + 1] == tail[j];
      forall l | 0 <= l < j + 1 ensures f(hs[l]) == 0 {
        if l > 0 {
          assert hs[l] == tail[l - 1];
        }
      }
    }
  }

  /** The honorific test on one name, as a function of the honorific. */
  function MatchOn(name: string): string -> nat {
    (h: string) => HonorificMatch(name, h)
  }

  /** Length of the prefix `re.sub` removes: the match of the first honorific that matches, or 0. */
  function HonorificLength(name: string): (n: nat)
    ensures n <= |name|
    ensures n == 0 <==> forall j | 0 <= j < |Honorifics| :: HonorificMatch(name, Honorifics[j]) == 0
    ensures n > 0 ==> exists j | 0 <= j < |Honorifics| ::
      && n == HonorificMatch(name, Honorifics[j])
      && forall l | 0 <= l < j :: HonorificMatch(name, Honorifics[l]) == 0
  {
    HonorificFrom(name, Honorifics)
  }

  /** Position of the first comma of `s`, or `|s|`. */
  function CommaAt(s: string): (i: nat)
    ensures i <= |s| && (i < |s| ==> s[i] == ',')
    ensures forall p | 0 <= p < i :: s[p] != ','
  {
    if s == [] then 0
    else if s[0] == ',' then 0
    else 1 + CommaAt(s[1..])
  }

  /** Position of the first whitespace character at or after `i`, or `|s|`. */
  function SpaceAt(s: string, i: nat): (j: nat)
    requires i <= |s|
    ensures i <= j <= |s| && (j < |s| ==> IsSpace(s[j]))
    ensures forall p | i <= p < j :: !IsSpace(s[p])
    decreases |s| - i
  {
    if i == |s| || IsSpace(s[i]) then i else SpaceAt(s, i + 1)
  }

  /** Position of the first non-whitespace character at or after `i`, or `|s|`. */
  function NonSpaceAt(s: string, i: nat): (j: nat)
    requires i <= |s|
    ensures i <= j <= |s| && (j < |s| ==> !IsSpace(s[j]))
    ensures forall p | i <= p < j :: IsSpace(s[p])
    decreases |s| - i
  {
    if i == |s| || !IsSpace(s[i]) then i else NonSpaceAt(s, i + 1)
  }

  /** The first non-empty piece of `re.split(r"\s+", s)`, or empty when there is none. */
  function FirstToken(s: string): (t: string)
    ensures NoSpace(t)
    ensures t == [] <==> forall p | 0 <= p < |s| :: IsSpace(s[p])
    ensures exists k | 0 <= k <= |s| :: OccursAt(s, t, k)
    ensures forall c | c in t :: c in s
    // the first token: only whitespace before it, and it runs up to whitespace or the end
    ensures t != [] ==> exists k | 0 <= k <= |s| :: && OccursAt(s, t, k)
                                                   && (forall p | 0 <= p < k :: IsSpace(s[p]))
                                                   && (k + |t| == |s| || IsSpace(s[k + |t|]))
  {
    var b := NonSpaceAt(s, 0);
    var e := SpaceAt(s, b);
    assert b < |s| ==> e > b;
    assert OccursAt(s, s[b..e], b);
    s[b..e]
  }

  /** First position at or after `i` that holds a name letter, or `|s|`. */
  function FirstLetter(s: string, i: nat): (j: nat)
    requires i <= |s|
    ensures i <= j <= |s| && (j < |s| ==> NameLetter(s[j]))
    ensures forall p | i <= p < j :: !NameLetter(s[p])
    decreases |s| - i
  {
    if i == |s| || NameLetter(s[i]) then i else FirstLetter(s, i + 1)
  }

  /** One past the last position before `hi` that holds a name letter, or `lo`. */
  function EndLetter(s: string, lo: nat, hi: nat): (j: nat)
    requires lo <= hi <= |s|
    ensures lo <= j <= hi && (j > lo ==> NameLetter(s[j - 1]))
    ensures forall p | j <= p < hi :: !NameLetter(s[p])
    decreases hi - lo
  {
    if hi == lo || NameLetter(s[hi - 1]) then hi else EndLetter(s, lo, hi - 1)
  }

  /**
   * The substitution of `^[^letters]+|[^letters]+$` by nothing: the token
   * from its first to its last name letter, or empty when it has none.
   */
  function TrimToLetters(t: string): (r: string)
    ensures r == [] || (NameLetter(r[0]) && NameLetter(r[|r| - 1]))
    ensures exists k | 0 <= k <= |t| :: OccursAt(t, r, k)
    ensures forall c | c in r :: c in t
    ensures r == [] <==> forall p | 0 <= p < |t| :: !NameLetter(t[p])
    // only non-letters are cut, from either end
    ensures exists k | 0 <= k <= |t| :: && OccursAt(t, r, k)
                                       && (forall p | 0 <= p < k :: !NameLetter(t[p]))
                                       && (forall p | k + |r| <= p < |t| :: !NameLetter(t[p]))
  {
    var b := FirstLetter(t, 0);
    var e := EndLetter(t, b, |t|);
    assert OccursAt(t, t[b..e], b);
    t[b..e]
  }

  /**
   * The name with one leading honorific dropped, cut at its first comma (and
   * then stripped) when it has one.
   */
  function NamePart(name: string): (part: string)
    ensures forall c | c in part :: c != ','
    ensures var rest := name[HonorificLength(name)..];
      && (NoComma(rest) ==> part == rest)
      && (!NoComma(rest) ==> exists i | 0 <= i < |rest| :: rest[i] == ',' && NoComma(rest[..i]) && part == Strip(rest[..i]))
  {
    var rest := name[HonorificLength(name)..];
    var i := CommaAt(rest);
    if i < |rest| then
      var before := rest[..i];
      assert forall c | c in before :: c != ',';
      StripIsTrim(before);
      Strip(before)
    else
      rest
  }

  /**
   * `derive_first_name`: empty for an empty or number-like name; otherwise
   * drop one leading honorific, keep what comes before a comma, take the
   * first whitespace-separated token and trim it to its letters.
   */
  function DeriveFirstName(fullName: string): (first: string)
    ensures fullName == [] || LooksLikeNumber(Strip(fullName)) ==> first == []
    ensures first == [] || (NameLetter(first[0]) && NameLetter(first[|first| - 1]))
    ensures forall c | c in first :: !IsSpace(c) && c != ','
  {
    if fullName == [] then []
    else
      var name := Strip(fullName);
      if LooksLikeNumber(name) then []
      else TrimToLetters(FirstToken(NamePart(name)))
  }

  /** An honorific whose first letter differs from the name's does not match. */
  lemma MatchNeedsHead(name: string, h: string)
    requires h != [] && name != [] && FoldChar(name[0]) != h[0]
    ensures HonorificMatch(name, h) == 0
  {
  }

  /** A leading `Dr. ` before a word is an honorific match of length 4. */
  lemma HonorificDr(name: string)
    requires |name| > 4 && name[..4] == "Dr. " && !IsSpace(name[4]) && name[4] != ','
    ensures HonorificLength(name) == 4
  {
    DrMatches(name);
    assert Honorifics[3] == "dr";
    var n := HonorificLength(name);
    var j :| 0 <= j < |Honorifics| && n == HonorificMatch(name, Honorifics[j])
             && forall l | 0 <= l < j :: HonorificMatch(name, Honorifics[l]) == 0;
    assert j == 3;
  }

  /** On `Dr. ` and then a word, "mr", "mrs" and "ms" do not match, and "dr" matches the four characters. */
  lemma DrMatches(name: string)
    requires |name| > 4 && name[..4] == "Dr. " && !IsSpace(name[4]) && name[4] != ','
    ensures forall l | 0 <= l < 3 :: HonorificMatch(name, Honorifics[l]) == 0
    ensures HonorificMatch(name, "dr") == 4
  {
    assert name[0] == 'D' && name[1] == 'r' && name[2] == '.' && name[3] == ' ';
    assert FoldChar(name[0]) == 'd' && FoldChar(name[1]) == 'r';
    assert Honorifics[0] == "mr" && Honorifics[1] == "mrs" && Honorifics[2] == "ms";
    MatchNeedsHead(name, "mr");
    MatchNeedsHead(name, "mrs");
    MatchNeedsHead(name, "ms");
    assert SepRun(name, 4) == 0;
    assert FoldPrefix(name, "dr");
  }

  lemma {:induction false} CommaAtNone(s: string)
    requires forall p | 0 <= p < |s| :: s[p] != ','
    ensures CommaAt(s) == |s|
  {
    if s != [] {
      CommaAtNone(s[1..]);
    }
  }

  lemma {:induction false} SpaceAtSkips(s: string, i: nat, j: nat)
    requires i <= j <= |s| && (j == |s| || IsSpace(s[j]))
    requires forall p | i <= p < j :: !IsSpace(s[p])
    ensures SpaceAt(s, i) == j
    decreases j - i
  {
    if i < j {
      SpaceAtSkips(s, i + 1, j);
    }
  }

  /** On a stripped name that does not start like a number, the pipeline of `derive_first_name`. */
  lemma DeriveFirstNameSteps(full: string)
    requires full != [] && Trimmed(full) && !NumberChar(full[0])
    ensures DeriveFirstName(full) == TrimToLetters(FirstToken(NamePart(full)))
  {
    StripTrimmed(full);
  }

  lemma NamePartAfterDr(full: string)
    requires |full| > 4 && full[..4] == "Dr. " && !IsSpace(full[4])
    requires forall p | 4 <= p < |full| :: full[p] != ','
    ensures NamePart(full) == full[4..]
  {
    HonorificDr(full);
    CommaAtNone(full[4..]);
  }

  lemma TokenOfWord(word: string, rest: string)
    requires word != [] && forall i | 0 <= i < |word| :: NameLetter(word[i])
    requires rest == [] || IsSpace(rest[0])
    ensures TrimToLetters(FirstToken(word + rest)) == word
  {
    var tail := word + rest;
    SpaceAtSkips(tail, 0, |word|);
    assert tail[..|word|] == word;
    assert EndLetter(word, 0, |word|) == |word|;
  }

  lemma TokenOfWordDot(word: string, rest: string)
    requires word != [] && forall i | 0 <= i < |word| :: NameLetter(word[i])
    requires rest == [] || IsSpace(rest[0])
    ensures TrimToLetters(FirstToken(word + "." + rest)) == word
  {
    var tail := word + "." + rest;
    var w := word + ".";
    SpaceAtSkips(tail, 0, |w|);
    assert tail[..|w|] == w;
    assert EndLetter(w, 0, |w|) == |word|;
    assert w[..|word|] == word;
  }

  predicate NoComma(s: string) {
    forall i | 0 <= i < |s| :: s[i] != ','
  }

  lemma NoCommaCat(a: string, b: string)
    requires NoComma(a) && NoComma(b)
    ensures NoComma(a + b)
  {
    forall i | 0 <= i < |a + b| ensures (a + b)[i] != ',' {
      if i >= |a| {
        assert (a + b)[i] == b[i - |a|];
      }
    }
  }

  /** A name made of `Dr. ` and a comma-free tail starting with a letter: the first name comes from the tail. */
  lemma DeriveFirstNameDrTail(full: string)
    requires |full| > 4 && full[..4] == "Dr. " && NameLetter(full[4]) && !IsSpace(full[|full| - 1])
    requires NoComma(full[4..])
    ensures DeriveFirstName(full) == TrimToLetters(FirstToken(full[4..]))
  {
    assert full[0] == full[..4][0];
    assert !IsSpace(full[4]) && !NumberChar(full[0]) && Trimmed(full);
    forall p | 4 <= p < |full| ensures full[p] != ',' {
      assert full[p] == full[4..][p - 4];
    }
    NamePartAfterDr(full);
    DeriveFirstNameSteps(full);
    var tail := NamePart(full);
    assert tail == full[4..];
    assert DeriveFirstName(full) == TrimToLetters(FirstToken(tail));
  }

  /** `Dr. ` and then a word: the word is the first name ("Dr. Juan Perez" gives "Juan"). */
  lemma DeriveFirstNameAfterDr(full: string, word: string, rest: string)
    requires |full| > 4 && full[..4] == "Dr. " && full[4..] == word + rest
    requires word != [] && forall i | 0 <= i < |word| :: NameLetter(word[i])
    requires rest == [] || (IsSpace(rest[0]) && !IsSpace(rest[|rest| - 1]))
    requires NoComma(rest)
    ensures DeriveFirstName(full) == word
  {
    assert full[4] == (word + rest)[0] == word[0];
    assert full[|full| - 1] == (word + rest)[|word + rest| - 1];
    assert NoComma(word);
    NoCommaCat(word, rest);
    DeriveFirstNameDrTail(full);
    TokenOfWord(word, rest);
  }

  /**
   * Only one honorific is removed: in `Dr. ` and then a word with a dot, the
   * word is the first name, even when it is an honorific itself ("Dr. Mr.
   * Juan" gives "Mr").
   */
  lemma DeriveFirstNameOneHonorific(full: string, word: string, rest: string)
    requires |full| > 4 && full[..4] == "Dr. " && full[4..] == word + "." + rest
    requires word != [] && forall i | 0 <= i < |word| :: NameLetter(word[i])
    requires rest == [] || (IsSpace(rest[0]) && !IsSpace(rest[|rest| - 1]))
    requires NoComma(rest)
    ensures DeriveFirstName(full) == word
  {
    var w := word + ".";
    assert full[4] == (w + rest)[0] == word[0];
    assert full[|full| - 1] == (w + rest)[|w + rest| - 1];
    assert NoComma(w);
    NoCommaCat(w, rest);
    DeriveFirstNameDrTail(full);
    TokenOfWordDot(word, rest);
  }

  /** `build_greeting_name`: the first name, or the neutral "amig@". Never empty. */
  function BuildGreetingName(first: string): (g: string)
    ensures g != []
    ensures first != [] ==> g == first
    ensures first == [] ==> g == "amig@"
  {
    if first != [] then first else "amig@"
  }

  // ---------------------------------------------------------------- prepare_lists

  const NameField: string := "Name"
  const FirstNameField: string := "FirstName"
  const GreetingField: string := "GreetingName"
  const ChannelField: string := "Channel"
  const CountryField: string := "Country"

  /** The row after the enrichment loop: its two new cells set, every other cell untouched. */
  function Enriched(r: Row): (e: Row)
    ensures e.Keys == r.Keys + {FirstNameField, GreetingField}
    ensures forall k | k in r && k != FirstNameField && k != GreetingField :: e[k] == r[k]
    ensures e[FirstNameField] == DeriveFirstName(Strip(Get(r, NameField)))
    ensures e[GreetingField] != [] && (e[FirstNameField] != [] ==> e[GreetingField] == e[FirstNameField])
    ensures e[GreetingField] == BuildGreetingName(e[FirstNameField])
    ensures e[FirstNameField] == [] ==> e[GreetingField] == "amig@"
  {
    WithNames(r, DeriveFirstName(Strip(Get(r, NameField))))
  }

  /** The loop body's two assignments, for a given first name. */
  function WithNames(r: Row, first: string): (e: Row)
    ensures e.Keys == r.Keys + {FirstNameField, GreetingField}
    ensures forall k | k in r && k != FirstNameField && k != GreetingField :: e[k] == r[k]
    ensures e[FirstNameField] == first && e[GreetingField] == BuildGreetingName(first)
  {
    var greeting := BuildGreetingName(first);
    SetTwo(r, FirstNameField, first, GreetingField, greeting);
    r[FirstNameField := first][GreetingField := greeting]
  }

  /** `(r.get("Channel") or "").strip().lower() == "whatsapp"`. */
  predicate IsWhatsApp(r: Row) {
    Lower(Strip(Get(r, ChannelField))) == "whatsapp"
  }

  /**
   * The Channel cells the pipeline writes: "WhatsApp" (with any surrounding
   * whitespace) puts a row in the WhatsApp list, and "SMS" does not.
   */
  lemma WhatsAppCells(r: Row)
    ensures Strip(Get(r, ChannelField)) == "WhatsApp" ==> IsWhatsApp(r)
    ensures Get(r, ChannelField) == "SMS" ==> !IsWhatsApp(r)
  {
    var cell := Get(r, ChannelField);
    if Strip(cell) == "WhatsApp" {
      LowerOfChannel("WhatsApp");
    } else if cell == "SMS" {
      assert Trimmed(cell);
      StripTrimmed(cell);
      LowerOfChannel("SMS");
    }
  }

  /** The two Channel values lower-case apart: only "WhatsApp" gives "whatsapp". */
  lemma LowerOfChannel(word: string)
    requires word == "WhatsApp" || word == "SMS"
    ensures Lower(word) == "whatsapp" <==> word == "WhatsApp"
  {
    var l := Lower(word);
    if word == "WhatsApp" {
      assert forall i | 0 <= i < |word| :: l[i] == "whatsapp"[i];
    } else {
      assert l[0] == 's';
    }
  }

  /** `(r.get("Country") or "").strip().upper() in ("US", "MX")`. */
  predicate IsSmsCountry(r: Row) {
    var c := Upper(Strip(Get(r, CountryField)));
    c == "US" || c == "MX"
  }

  /**
   * The Country cells the cleaning scripts write: "US" and "MX" rows go to
   * the SMS list and "INTL" rows do not.
   */
  lemma SmsCountryCells(r: Row)
    ensures Get(r, CountryField) == "US" || Get(r, CountryField) == "MX" ==> IsSmsCountry(r)
    ensures Get(r, CountryField) == "INTL" ==> !IsSmsCountry(r)
  {
    var cell := Get(r, CountryField);
    if cell == "US" || cell == "MX" {
      CapitalsRead(cell);
    } else if cell == "INTL" {
      CapitalsRead(cell);
    }
  }

  /** A word of ASCII capitals reads back as it is: nothing to strip, nothing to upper-case. */
  lemma CapitalsRead(word: string)
    requires forall i | 0 <= i < |word| :: 'A' <= word[i] <= 'Z'
    ensures Upper(Strip(word)) == word
  {
    assert Trimmed(word);
    StripTrimmed(word);
    assert SharpS !in word;
    var u := Upper(word);
    assert forall i | 0 <= i < |word| :: u[i] == word[i];
  }

  /** The comprehension's filter, as an item the list keeps or skips. */
  function WhatsAppOf(r: Row): Option<Row> {
    if IsWhatsApp(r) then Some(r) else None
  }

  /** The SMS loop's copy `dict(r)` of a row, with Channel forced to "SMS". */
  function SmsCopy(r: Row): (c: Row)
    ensures c.Keys == r.Keys + {ChannelField} && c[ChannelField] == "SMS"
    ensures forall k | k in r && k != ChannelField :: c[k] == r[k]
  {
    r[ChannelField := "SMS"]
  }

  /** The SMS loop keeps the copy of a US or MX row and skips the others. */
  function SmsOf(r: Row): Option<Row> {
    if IsSmsCountry(r) then Some(SmsCopy(r)) else None
  }

  /**
   * `prepare_lists` without the file I/O: extend the header, enrich every row
   * in place, then split the enriched rows into the WhatsApp and SMS lists.
   */
  method PrepareLists(fieldnames: seq<string>, rows: array<Row>)
    returns (baseFields: seq<string>, whatsapp: seq<Row>, sms: seq<Row>)
    modifies rows
    ensures baseFields == MergeFields(fieldnames, [FirstNameField, GreetingField])
    ensures forall i | 0 <= i < rows.Length :: rows[i] == Enriched(old(rows[i]))
    ensures whatsapp == Somes(rows[..], WhatsAppOf)
    ensures sms == Somes(rows[..], SmsOf)
  {
    baseFields := AppendMissing(fieldnames, [FirstNameField, GreetingField]);
    UpdateEach(rows, Enriched);
    var enriched := rows[..];
    whatsapp := CollectSomes(enriched, WhatsAppOf);
    sms := CollectSomes(enriched, SmsOf);
  }

  /**
   * The WhatsApp list is exactly the enriched rows whose Channel reads
   * "whatsapp", in order.
   */
  lemma WhatsAppSplit(enriched: seq<Row>)
    ensures var wa, at := Somes(enriched, WhatsAppOf), SomesAt(enriched, WhatsAppOf);
      && |at| == |wa|
      && (forall i | 0 <= i < |wa| :: at[i] < |enriched| && wa[i] == enriched[at[i]] && IsWhatsApp(wa[i]))
      && (forall i, j | 0 <= i < j < |wa| :: at[i] < at[j])
      && (forall j | 0 <= j < |enriched| && IsWhatsApp(enriched[j]) :: j in at)
  {
    FilterMapSpec(enriched, WhatsAppOf, IsWhatsApp, (r: Row) => r);
  }

  /**
   * The SMS list is one copy of each US or MX row, in order, differing from
   * it only in Channel.
   */
  lemma SmsSplit(enriched: seq<Row>)
    ensures var sms, at := Somes(enriched, SmsOf), SomesAt(enriched, SmsOf);
      && |at| == |sms|
      && (forall i | 0 <= i < |sms| :: at[i] < |enriched| && IsSmsCountry(enriched[at[i]])
            && sms[i] == SmsCopy(enriched[at[i]]))
      && (forall i, j | 0 <= i < j < |sms| :: at[i] < at[j])
      && (forall j | 0 <= j < |enriched| && IsSmsCountry(enriched[j]) :: j in at)
  {
    FilterMapSpec(enriched, SmsOf, IsSmsCountry, SmsCopy);
  }
}
