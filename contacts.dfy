/**
 * What the contact-cleaning scripts share: CSV rows, the `(e164, country)`
 * pair that the normalisers return, the output row, the phone and label
 * columns of a contacts export, and the display-name fallback `full_name`
 * (identical in clean_google_contacts.py and clean_duplicates_on_contacts.py).
 */
module Contacts {
  import opened Text

  /** A CSV row as `csv.DictReader` gives it: column name to cell text. */
  type Row = map<string, string>

  /** `row.get(key, "") or ""`: a missing cell reads as the empty string. */
  function Get(row: Row, key: string): string {
    if key in row then row[key] else ""
  }

  /** A cell reads back what was last written to it, and writing one cell leaves the others' readings alone. */
  lemma GetSet(row: Row, key: string, v: string, other: string)
    ensures Get(row[key := v], key) == v
    ensures other != key ==> Get(row[key := v], other) == Get(row, other)
  {
  }

  /** Setting two distinct cells of a row adds their columns and leaves every other cell as it was. */
  lemma SetTwo(r: Row, k1: string, v1: string, k2: string, v2: string)
    requires k1 != k2
    ensures var e := r[k1 := v1][k2 := v2];
      && e.Keys == r.Keys + {k1, k2}
      && e[k1] == v1 && e[k2] == v2
      && forall k | k in r && k != k1 && k != k2 :: e[k] == r[k]
  {
  }

  /** The coarse country tag; its written form is given by `CountryName`. */
  datatype Country = US | MX | INTL

  function CountryName(c: Country): string {
    match c
    case US => "US"
    case MX => "MX"
    case INTL => "INTL"
  }

  /** A normalised number with its country tag: the `(e164, country)` pair of the scripts. */
  datatype Phone = Phone(e164: string, country: Country)

  function E164Of(p: Phone): string {
    p.e164
  }

  /** `+` followed by digits only (possibly none). */
  predicate PlusDigits(e: string) {
    |e| >= 1 && e[0] == '+' && AllDigits(e[1..])
  }

  /** A `+` and digits has nothing to strip, and its digits are everything after the `+`. */
  lemma PlusDigitsClean(e: string)
    requires PlusDigits(e)
    ensures Strip(e) == e && OnlyDigits(e) == e[1..]
  {
    var d := e[1..];
    assert e == "+" + d;
    assert e[|e| - 1] == (if d == [] then '+' else d[|d| - 1]);
    StripTrimmed(e);
    OnlyDigitsOfPlus(d);
  }

  /** `+` followed by at least 8 digits and nothing else. */
  predicate IsE164(e: string) {
    PlusDigits(e) && |e| >= 9
  }

  /** The six phone columns of a contacts export, and their labels. */
  const PhoneCols: seq<string> := [
    "Phone 1 - Value", "Phone 2 - Value", "Phone 3 - Value",
    "Phone 4 - Value", "Phone 5 - Value", "Phone 6 - Value"
  ]
  const LabelCols: seq<string> := [
    "Phone 1 - Label", "Phone 2 - Label", "Phone 3 - Label",
    "Phone 4 - Label", "Phone 5 - Label", "Phone 6 - Label"
  ]

  /**
   * A lower-cased label that names a mobile line. Both scripts test "mobile",
   * "cell" and "móvil"; the fourth keyword of clean_duplicates_on_contacts.py
   * is the same "móvil" spelled with an escape.
   */
  predicate MobileLabel(lowered: string) {
    Contains(lowered, "mobile") || Contains(lowered, "cell") || Contains(lowered, "móvil")
  }

  /** The cleaned row `Name, Phone_E164 (or Phone), Country, Channel, OptIn`. */
  datatype OutRow = OutRow(name: string, phone: string, country: string, channel: string, optIn: string)

  function OutPhone(r: OutRow): string {
    r.phone
  }

  /** `full_name` of both cleaning scripts, on a row. */
  function FullName(row: Row): (name: string)
    ensures name != [] && Trimmed(name)
  {
    DisplayName(Get(row, "First Name"), Get(row, "Last Name"), Get(row, "Nickname"),
                Get(row, "Organization Name"), Get(row, "E-mail 1 - Value"))
  }

  /**
   * `full_name` on the five cells it reads: "First Last", else the nickname,
   * else the organisation or e-mail, else "Unknown". Never empty, never padded
   * with whitespace, and a personal name always wins.
   */
  function DisplayName(first: string, last: string, nick: string, org: string, email: string): (name: string)
    ensures name != [] && Trimmed(name)
    ensures Strip(first) != [] ==> Strip(first) <= name
    ensures Strip(first) != [] && Strip(last) != [] ==> name == Strip(first) + " " + Strip(last)
    ensures Strip(first) != [] && Strip(last) == [] ==> name == Strip(first)
    ensures Strip(first) == [] && Strip(last) != [] ==> name == Strip(last)
    ensures Strip(first) == [] && Strip(last) == [] && Strip(nick) != [] ==> name == Strip(nick)
    ensures Strip(first) == [] && Strip(last) == [] && Strip(nick) == [] ==>
              (Strip(org) != [] ==> name == Strip(org)) &&
              (Strip(org) == [] && Strip(email) != [] ==> name == Strip(email))
  {
    var joined := JoinNames(Strip(first), Strip(last));
    var name := if joined == [] && Strip(nick) != [] then Strip(nick) else joined;
    var name' :=
      if name != [] then name
      else if Strip(org) != [] then Strip(org)
      else Strip(email);
    if name' != [] then name' else "Unknown"
  }

  /** The non-empty strings of `xs`, in order: `(x for x in xs if x)`. */
  function NonEmpty(xs: seq<string>): (kept: seq<string>)
    ensures forall x | x in kept :: x != [] && x in xs
    ensures forall x | x in xs && x != [] :: x in kept
  {
    if xs == [] then []
    else (if xs[0] != [] then [xs[0]] else []) + NonEmpty(xs[1..])
  }

  /**
   * `" ".join(x for x in [first, last] if x)`: "First Last" when both are
   * present, otherwise whichever one is.
   */
  function JoinNames(first: string, last: string): (joined: string)
    requires Trimmed(first) && Trimmed(last)
    ensures joined == Join(NonEmpty([first, last]), " ")
    ensures Trimmed(joined)
    ensures joined == [] <==> first == [] && last == []
    ensures first != [] && last != [] ==> joined == first + " " + last
    ensures first != [] ==> first <= joined
    ensures first == [] ==> joined == last
    ensures last == [] ==> joined == first
  {
    assert [first, last][1..] == [last];
    assert NonEmpty([last]) == (if last != [] then [last] else []) by {
      assert [last][1..] == [];
    }
    if first != [] && last != [] then
      var j := first + " " + last;
      assert j[0] == first[0] && j[|j| - 1] == last[|last| - 1];
      j
    else first + last
  }

  /** With every name-like cell blank the fallback is "Unknown". */
  lemma DisplayNameUnknown(first: string, last: string, nick: string, org: string, email: string)
    requires Strip(first) == [] && Strip(last) == [] && Strip(nick) == []
    requires Strip(org) == [] && Strip(email) == []
    ensures DisplayName(first, last, nick, org, email) == "Unknown"
  {
  }
}
