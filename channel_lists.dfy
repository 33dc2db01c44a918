/**
 * make_channel_lists.py: fill in the Channel and OptIn cells, then write the
 * same contacts twice, once with Channel forced to "WhatsApp" and once with
 * Channel forced to "SMS", under a header that holds every base column.
 */
module ChannelLists {
  import opened Contacts
  import opened Fields
  import opened InPlace

  /** The columns every channel list carries, in their order. */
  const BaseFields: seq<string> := ["Name", "Phone_E164", "Country", "Channel", "OptIn"]

  const ChannelField: string := "Channel"
  const OptInField: string := "OptIn"

  /** `rdr.fieldnames or BASE_FIELDS`: a file without a header gets the base columns. */
  function HeaderOrBase(header: seq<string>): (fields: seq<string>)
    ensures fields != []
    ensures header != [] ==> fields == header
  {
    if header == [] then BaseFields else header
  }

  /**
   * The header `write_rows` writes: the given field names in their order,
   * then each base column that was missing, in the base order.
   */
  lemma WriteFieldsSpec(fieldnames: seq<string>)
    ensures var keep := MergeFields(fieldnames, BaseFields);
      && fieldnames <= keep
      && keep == fieldnames + Missing(fieldnames, BaseFields)
      && (forall c | c in BaseFields :: c in keep)
      && (NoDup(fieldnames) ==> NoDup(keep))
  {
    assert NoDup(BaseFields);
    MergeIsAppendMissing(fieldnames, BaseFields);
    if NoDup(fieldnames) {
      MergeNoDup(fieldnames, BaseFields);
    }
  }

  /** The header of the base columns is already complete: nothing is appended. */
  lemma WriteFieldsOfBase()
    ensures MergeFields(BaseFields, BaseFields) == BaseFields
  {
    WriteFieldsSpec(BaseFields);
    MissingOfPresent(BaseFields, BaseFields);
  }

  /** `setdefault` of the two cells: a missing one becomes "", a present one keeps its value. */
  function WithDefaults(r: Row): (d: Row)
    ensures d.Keys == r.Keys + {ChannelField, OptInField}
    ensures forall k | k in r :: d[k] == r[k]
    ensures ChannelField !in r ==> d[ChannelField] == ""
    ensures OptInField !in r ==> d[OptInField] == ""
  {
    var r1 := if ChannelField in r then r else r[ChannelField := ""];
    if OptInField in r1 then r1 else r1[OptInField := ""]
  }

  /** The copy `dict(r)` with Channel forced. */
  function WithChannel(r: Row, channel: string): (c: Row)
    ensures c.Keys == r.Keys + {ChannelField} && c[ChannelField] == channel
    ensures forall k | k in r && k != ChannelField :: c[k] == r[k]
  {
    r[ChannelField := channel]
  }

  /**
   * One of the two list loops: a copy of every row, in order, differing from
   * its source only in Channel. The rows themselves are not changed.
   */
  method ForceChannel(rows: array<Row>, channel: string) returns (out: seq<Row>)
    ensures |out| == rows.Length
    ensures forall i | 0 <= i < rows.Length :: out[i] == WithChannel(rows[i], channel)
  {
    out := [];
    for i := 0 to rows.Length
      invariant |out| == i
      invariant forall j | 0 <= j < i :: out[j] == WithChannel(rows[j], channel)
    {
      var rr := rows[i][ChannelField := channel];
      out := out + [rr];
    }
  }

  /**
   * `main` without the file I/O: default the two cells of every row in
   * place, build the WhatsApp and SMS lists from the defaulted rows, and
   * compute the header both lists are written with.
   */
  method MakeChannelLists(header: seq<string>, rows: array<Row>)
    returns (keep: seq<string>, wa: seq<Row>, sms: seq<Row>)
    modifies rows
    ensures forall i | 0 <= i < rows.Length :: rows[i] == WithDefaults(old(rows[i]))
    ensures keep == MergeFields(HeaderOrBase(header), BaseFields)
    ensures |wa| == |sms| == rows.Length
    ensures forall i | 0 <= i < rows.Length ::
      && wa[i] == WithChannel(rows[i], "WhatsApp") && sms[i] == WithChannel(rows[i], "SMS")
      && OptInField in wa[i] && OptInField in sms[i]
  {
    UpdateEach(rows, WithDefaults);
    wa := ForceChannel(rows, "WhatsApp");
    sms := ForceChannel(rows, "SMS");
    keep := AppendMissing(HeaderOrBase(header), BaseFields);
  }
}
