/**
 * send_messages.py without Twilio: the greeting name of a row, the WhatsApp
 * address, the `{{name}}` template fill, and the index window and skip/count
 * logic of the sending loop. Whether one send raised is a parameter.
 */
module SendMessages {
  import opened Wrappers
  import opened Text
  import opened Contacts

  const GreetingField: string := "GreetingName"
  const FirstNameField: string := "FirstName"
  const NameField: string := "Name"
  const PhoneField: string := "Phone_E164"
  const LegacyPhoneField: string := "Phone"

  /**
   * `first_name`: the first non-empty of GreetingName, FirstName and Name,
   * else "friend", then stripped. A cell of blanks is non-empty, so it wins
   * and strips to "".
   */
  function FirstName(row: Row): (name: string)
    ensures Trimmed(name)
    ensures Get(row, GreetingField) != [] ==> name == Strip(Get(row, GreetingField))
    ensures Get(row, GreetingField) == [] && Get(row, FirstNameField) != [] ==>
      name == Strip(Get(row, FirstNameField))
    ensures Get(row, GreetingField) == [] && Get(row, FirstNameField) == [] && Get(row, NameField) != [] ==>
      name == Strip(Get(row, NameField))
    ensures Get(row, GreetingField) == [] && Get(row, FirstNameField) == [] && Get(row, NameField) == [] ==>
      name == "friend"
  {
    var g, f, n := Get(row, GreetingField), Get(row, FirstNameField), Get(row, NameField);
    var chosen := if g != [] then g else if f != [] then f else if n != [] then n else "friend";
    assert Trimmed("friend") by { assert !IsSpace('f') && !IsSpace('d'); }
    StripTrimmed("friend");
    Strip(chosen)
  }

  /** A non-empty cell made only of blanks. */
  predicate Blank(s: string) {
    s != [] && forall i | 0 <= i < |s| :: IsSpace(s[i])
  }

  /**
   * The name is empty exactly when the cell that wins is all blanks: such a
   * cell hides the cells after it instead of falling through to them.
   */
  lemma FirstNameEmpty(row: Row)
    ensures var g, f, n := Get(row, GreetingField), Get(row, FirstNameField), Get(row, NameField);
      FirstName(row) == [] <==>
        || Blank(g)
        || (g == [] && Blank(f))
        || (g == [] && f == [] && Blank(n))
  {
    var g, f, n := Get(row, GreetingField), Get(row, FirstNameField), Get(row, NameField);
    if g != [] {
      assert FirstName(row) == Strip(g);
      StripEmpty(g);
    } else if f != [] {
      assert FirstName(row) == Strip(f);
      StripEmpty(f);
    } else if n != [] {
      assert FirstName(row) == Strip(n);
      StripEmpty(n);
    } else {
      assert FirstName(row) == "friend";
    }
  }

  const WhatsAppScheme: string := "whatsapp:"

  /** `to_whatsapp_addr`: the number behind the `whatsapp:` scheme, which is taken off again by slicing. */
  function ToWhatsAppAddr(e164: string): (addr: string)
    ensures WhatsAppScheme <= addr && addr[|WhatsAppScheme|..] == e164
    ensures |addr| == |WhatsAppScheme| + |e164|
  {
    WhatsAppScheme + e164
  }

  const NameToken: string := "{{name}}"

  /** `personalize_template`: every `{{name}}` of the template replaced by the name. */
  function PersonalizeTemplate(template: string, name: string): (text: string)
    ensures text == Join(Split(template, NameToken), name)
    ensures !Contains(template, NameToken) ==> text == template
  {
    ReplaceIsJoinOfSplit(template, NameToken, name);
    if Contains(template, NameToken) then Replace(template, NameToken, name)
    else
      ReplaceAbsent(template, NameToken, name);
      Replace(template, NameToken, name)
  }

  /**
   * The template is a list of token-free pieces joined by `{{name}}`; the
   * personalised text is the same pieces joined by the name. So every token
   * of the template is replaced and nothing else changes.
   */
  lemma PersonalizeSpec(template: string, name: string)
    ensures var pieces := Split(template, NameToken);
      && Join(pieces, NameToken) == template
      && (forall p | p in pieces :: !Contains(p, NameToken))
      && PersonalizeTemplate(template, name) == Join(pieces, name)
  {
    SplitJoin(template, NameToken);
    SplitPiecesFree(template, NameToken);
    ReplaceIsJoinOfSplit(template, NameToken, name);
  }

  /** A template without the token comes back unchanged. */
  lemma PersonalizeWithoutToken(template: string, name: string)
    requires !Contains(template, NameToken)
    ensures PersonalizeTemplate(template, name) == template
  {
    ReplaceAbsent(template, NameToken, name);
  }

  /** The three send modes of the command line. */
  datatype Mode = WA | WaTemplate | SMS

  /** One message the loop tries to send: row index, recipient and text. */
  datatype Message = Message(idx: nat, to: string, body: string)

  /** `row.get("Phone_E164") or row.get("Phone")`: the newer column wins when it is non-empty. */
  function PhoneOf(row: Row): (phone: string)
    ensures Get(row, PhoneField) != [] ==> phone == Get(row, PhoneField)
    ensures Get(row, PhoneField) == [] ==> phone == Get(row, LegacyPhoneField)
  {
    var p := Get(row, PhoneField);
    if p != [] then p else Get(row, LegacyPhoneField)
  }

  /** The text sent for a name, by mode. The text bodies themselves are parameters. */
  function BodyFor(mode: Mode, smsBody: string -> string, waTemplate: string, name: string): string {
    if mode == SMS then smsBody(name) else PersonalizeTemplate(waTemplate, name)
  }

  /**
   * What the loop body does with row `idx`: nothing for a row without a
   * phone, otherwise one message to the phone (SMS) or to its WhatsApp
   * address (both WhatsApp modes), addressed by the row's first name.
   */
  function Compose(row: Row, idx: nat, mode: Mode, smsBody: string -> string, waTemplate: string): (m: Option<Message>)
    ensures m.None? <==> PhoneOf(row) == []
    ensures m.Some? ==> m.value.idx == idx
    ensures m.Some? && mode == SMS ==> m.value.to == PhoneOf(row)
    ensures m.Some? && mode != SMS ==> m.value.to == ToWhatsAppAddr(PhoneOf(row))
    ensures m.Some? && mode == SMS ==> m.value.body == smsBody(FirstName(row))
    ensures m.Some? && mode != SMS ==> m.value.body == PersonalizeTemplate(waTemplate, FirstName(row))
  {
    var phone := PhoneOf(row);
    if phone == [] then None
    else
      var to := if mode == SMS then phone else ToWhatsAppAddr(phone);
      Some(Message(idx, to, BodyFor(mode, smsBody, waTemplate, FirstName(row))))
  }

  /** `start = max(start_from, 0)`. */
  function StartOf(startFrom: int): (start: nat)
    ensures start >= startFrom
    ensures startFrom >= 0 ==> start == startFrom
    ensures startFrom < 0 ==> start == 0
  {
    if startFrom < 0 then 0 else startFrom
  }

  /** `end = total if limit is None else min(total, start + limit)`. */
  function EndOf(total: nat, start: nat, limit: Option<int>): (end: int)
    ensures end <= total
    ensures limit.None? ==> end == total
    ensures limit.Some? ==> end <= start + limit.value
    ensures limit.Some? ==> end == total || end == start + limit.value
  {
    if limit.None? then total
    else if total <= start + limit.value then total else start + limit.value
  }

  /** The indices `range(start, end)` visits. */
  function Visited(start: nat, end: int): nat {
    if end <= start then 0 else end - start
  }

  /** The loop visits at most `limit` rows and never reads past the last one. */
  lemma WindowBounds(total: nat, startFrom: int, limit: Option<int>)
    ensures var start := StartOf(startFrom);
      var end := EndOf(total, start, limit);
      && (Visited(start, end) > 0 ==> 0 <= start && end <= total)
      && (limit.Some? ==> Visited(start, end) <= if limit.value < 0 then 0 else limit.value)
      && (limit.None? && start <= total ==> Visited(start, end) == total - start)
  {
  }

  /** Row `i`'s message, or none when `i` is past the last row or the row has no phone. */
  function ComposeAt(rows: seq<Row>, mode: Mode, smsBody: string -> string, waTemplate: string): nat -> Option<Message> {
    (i: nat) => if i < |rows| then Compose(rows[i], i, mode, smsBody, waTemplate) else None
  }

  /** Every message `f` makes for index `i` is labelled with `i`. */
  ghost predicate Indexed(f: nat -> Option<Message>) {
    forall i :: f(i).Some? ==> f(i).value.idx == i
  }

  lemma ComposeAtSpec(rows: seq<Row>, mode: Mode, smsBody: string -> string, waTemplate: string)
    ensures Indexed(ComposeAt(rows, mode, smsBody, waTemplate))
    ensures forall i | 0 <= i < |rows| ::
      ComposeAt(rows, mode, smsBody, waTemplate)(i).Some? <==> PhoneOf(rows[i]) != []
  {
  }

  /** The messages `f` makes for the indices `lo..hi-1`, in index order, skipping the ones without. */
  function Collect(f: nat -> Option<Message>, lo: nat, hi: nat): seq<Message>
    decreases hi
  {
    if hi <= lo then []
    else
      var prev := Collect(f, lo, hi - 1);
      var c := f(hi - 1);
      if c.None? then prev else prev + [c.value]
  }

  /** One more index: its message, if any, is appended. */
  lemma CollectStep(f: nat -> Option<Message>, lo: nat, hi: nat)
    requires lo <= hi
    ensures Collect(f, lo, hi + 1) == if f(hi).None? then Collect(f, lo, hi) else Collect(f, lo, hi) + [f(hi).value]
  {
  }

  /** The messages the loop attempts for the indices `lo..hi-1`, in index order. */
  function Attempts(rows: seq<Row>, lo: nat, hi: nat, mode: Mode, smsBody: string -> string, waTemplate: string): seq<Message> {
    Collect(ComposeAt(rows, mode, smsBody, waTemplate), lo, hi)
  }

  /** Some message of `ms` is for row `idx`. */
  predicate AttemptedAt(ms: seq<Message>, idx: nat) {
    exists i | 0 <= i < |ms| :: ms[i].idx == idx
  }

  /** Every collected message is for an index in range that has one, in increasing index order. */
  lemma {:induction false} CollectOrdered(f: nat -> Option<Message>, lo: nat, hi: nat)
    requires Indexed(f)
    ensures var ms := Collect(f, lo, hi);
      && |ms| <= Visited(lo, hi)
      && (forall i | 0 <= i < |ms| :: lo <= ms[i].idx < hi && f(ms[i].idx).Some?)
      && (forall i, j | 0 <= i < j < |ms| :: ms[i].idx < ms[j].idx)
    decreases hi
  {
    if lo < hi {
      CollectOrdered(f, lo, hi - 1);
      var prev := Collect(f, lo, hi - 1);
      var c := f(hi - 1);
      if c.Some? {
        assert c.value.idx == hi - 1;
      }
    }
  }

  /** An index in range that has a message is collected. */
  lemma {:induction false} CollectHas(f: nat -> Option<Message>, lo: nat, hi: nat, idx: nat)
    requires Indexed(f) && lo <= idx < hi && f(idx).Some?
    ensures AttemptedAt(Collect(f, lo, hi), idx)
    decreases hi
  {
    var prev := Collect(f, lo, hi - 1);
    var ms := Collect(f, lo, hi);
    if idx == hi - 1 {
      assert ms == prev + [f(idx).value];
      assert ms[|prev|].idx == idx;
    } else {
      CollectHas(f, lo, hi - 1, idx);
      var i :| 0 <= i < |prev| && prev[i].idx == idx;
      if f(hi - 1).Some? {
        assert ms == prev + [f(hi - 1).value];
      } else {
        assert ms == prev;
      }
      assert ms[i].idx == idx;
    }
  }

  /** Every index in range that has a message is collected, and no other. */
  lemma CollectComplete(f: nat -> Option<Message>, lo: nat, hi: nat)
    requires Indexed(f)
    ensures var ms := Collect(f, lo, hi);
      forall idx: nat | lo <= idx < hi :: AttemptedAt(ms, idx) <==> f(idx).Some?
  {
    CollectOrdered(f, lo, hi);
    forall idx: nat | lo <= idx < hi && f(idx).Some? ensures AttemptedAt(Collect(f, lo, hi), idx) {
      CollectHas(f, lo, hi, idx);
    }
  }

  /**
   * Every attempted message belongs to a visited row with a phone, and the
   * messages come in increasing index order.
   */
  lemma AttemptsOrdered(rows: seq<Row>, lo: nat, hi: nat, mode: Mode, smsBody: string -> string, waTemplate: string)
    requires hi <= |rows|
    ensures var ms := Attempts(rows, lo, hi, mode, smsBody, waTemplate);
      && |ms| <= Visited(lo, hi)
      && (forall i | 0 <= i < |ms| :: lo <= ms[i].idx < hi && PhoneOf(rows[ms[i].idx]) != [])
      && (forall i, j | 0 <= i < j < |ms| :: ms[i].idx < ms[j].idx)
  {
    var f := ComposeAt(rows, mode, smsBody, waTemplate);
    ComposeAtSpec(rows, mode, smsBody, waTemplate);
    CollectOrdered(f, lo, hi);
  }

  /** A visited row is attempted exactly when it has a phone: rows without one are skipped. */
  lemma AttemptsComplete(rows: seq<Row>, lo: nat, hi: nat, mode: Mode, smsBody: string -> string, waTemplate: string)
    requires hi <= |rows|
    ensures var ms := Attempts(rows, lo, hi, mode, smsBody, waTemplate);
      forall idx: nat | lo <= idx < hi :: AttemptedAt(ms, idx) <==> PhoneOf(rows[idx]) != []
  {
    var f := ComposeAt(rows, mode, smsBody, waTemplate);
    ComposeAtSpec(rows, mode, smsBody, waTemplate);
    CollectComplete(f, lo, hi);
  }

  /** How many attempted sends did not raise: the final value of `sent`. */
  function Delivered(ms: seq<Message>, raised: nat -> bool): (n: nat)
    ensures n <= |ms|
  {
    if ms == [] then 0
    else Delivered(ms[..|ms| - 1], raised) + (if raised(ms[|ms| - 1].idx) then 0 else 1)
  }

  /** One more attempted message: it counts when its send did not raise. */
  lemma DeliveredStep(ms: seq<Message>, m: Message, raised: nat -> bool)
    ensures Delivered(ms + [m], raised) == Delivered(ms, raised) + if raised(m.idx) then 0 else 1
  {
    assert (ms + [m])[..|ms|] == ms;
  }

  /** `sent` never exceeds the number of visited rows, nor `limit` when one is given. */
  lemma SentBound(rows: seq<Row>, startFrom: int, limit: Option<int>, mode: Mode, smsBody: string -> string, waTemplate: string, raised: nat -> bool)
    ensures var start := StartOf(startFrom);
      var end := EndOf(|rows|, start, limit);
      var sent := Delivered(Attempts(rows, start, if end < 0 then 0 else end, mode, smsBody, waTemplate), raised);
      && sent <= Visited(start, end)
      && (limit.Some? ==> sent <= if limit.value < 0 then 0 else limit.value)
  {
    var start := StartOf(startFrom);
    var end := EndOf(|rows|, start, limit);
    var hi: nat := if end < 0 then 0 else end;
    AttemptsOrdered(rows, start, hi, mode, smsBody, waTemplate);
    WindowBounds(|rows|, startFrom, limit);
  }

  /**
   * The loop over `lo..hi-1`: `f` is the loop body's message for a row
   * (none for a row without a phone); attempt each message and count those
   * whose send did not raise (`raised` says which did).
   */
  method SendRange(f: nat -> Option<Message>, lo: nat, hi: nat, raised: nat -> bool)
    returns (attempted: seq<Message>, sent: nat)
    requires lo <= hi
    ensures attempted == Collect(f, lo, hi)
    ensures sent == Delivered(attempted, raised)
  {
    attempted := [];
    sent := 0;
    var idx := lo;
    while idx < hi
      invariant lo <= idx <= hi
      invariant attempted == Collect(f, lo, idx)
      invariant sent == Delivered(attempted, raised)
    {
      var m := f(idx);
      CollectStep(f, lo, idx);
      if m.Some? {
        DeliveredStep(attempted, m.value, raised);
        attempted := attempted + [m.value];
        if !raised(m.value.idx) {
          sent := sent + 1;
        }
      }
      idx := idx + 1;
    }
  }

  /**
   * `main` without Twilio: `start` and `end` from the command line, then the
   * loop over `range(start, end)`, which is empty when `end <= start`.
   */
  method SendRows(rows: seq<Row>, startFrom: int, limit: Option<int>, mode: Mode,
                  smsBody: string -> string, waTemplate: string, raised: nat -> bool)
    returns (start: nat, end: int, attempted: seq<Message>, sent: nat)
    ensures start == StartOf(startFrom) && end == EndOf(|rows|, start, limit)
    ensures attempted == Attempts(rows, start, if end < 0 then 0 else end, mode, smsBody, waTemplate)
    ensures sent == Delivered(attempted, raised)
  {
    start := StartOf(startFrom);
    end := EndOf(|rows|, start, limit);
    if start < end {
      attempted, sent := SendRange(ComposeAt(rows, mode, smsBody, waTemplate), start, end, raised);
    } else {
      attempted, sent := [], 0;
    }
  }
}
