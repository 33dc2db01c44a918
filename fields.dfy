/**
 * The CSV header merge shared by prepare_contact_lists.py (`FirstName`,
 * `GreetingName`) and make_channel_lists.py (`BASE_FIELDS`): copy the
 * field list, then append each wanted column that is not there yet.
 */
module Fields {

  /** No column name occurs twice. */
  predicate NoDup(xs: seq<string>) {
    forall i, j | 0 <= i < j < |xs| :: xs[i] != xs[j]
  }

  /**
   * The field list after the append loop. It starts with the given list,
   * holds every wanted column, and holds nothing else.
   */
  function MergeFields(fields: seq<string>, wanted: seq<string>): (r: seq<string>)
    ensures fields <= r
    ensures forall c | c in wanted :: c in r
    ensures forall c | c in r :: c in fields || c in wanted
    decreases |wanted|
  {
    if wanted == [] then fields
    else
      var m := MergeFields(fields, wanted[..|wanted| - 1]);
      var c := wanted[|wanted| - 1];
      assert wanted == wanted[..|wanted| - 1] + [c];
      if c in m then m else m + [c]
  }

  /** The wanted columns missing from `fields`, in the wanted order. */
  function Missing(fields: seq<string>, wanted: seq<string>): (r: seq<string>)
    ensures forall c | c in r :: c in wanted && c !in fields
    decreases |wanted|
  {
    if wanted == [] then []
    else
      var c := wanted[|wanted| - 1];
      Missing(fields, wanted[..|wanted| - 1]) + (if c in fields then [] else [c])
  }

  /**
   * For a list of distinct wanted columns, the merge is the given list
   * followed by the missing columns in the wanted order: nothing present is
   * added again and nothing given is moved.
   */
  lemma {:induction false} MergeIsAppendMissing(fields: seq<string>, wanted: seq<string>)
    requires NoDup(wanted)
    ensures MergeFields(fields, wanted) == fields + Missing(fields, wanted)
    decreases |wanted|
  {
    if wanted != [] {
      var init := wanted[..|wanted| - 1];
      var c := wanted[|wanted| - 1];
      MergeIsAppendMissing(fields, init);
      assert c !in init by {
        forall i | 0 <= i < |init| ensures init[i] != c {
          assert init[i] == wanted[i];
        }
      }
    }
  }

  /** A list without repeated columns stays so: every wanted column is then there exactly once. */
  lemma {:induction false} MergeNoDup(fields: seq<string>, wanted: seq<string>)
    requires NoDup(fields)
    ensures NoDup(MergeFields(fields, wanted))
    decreases |wanted|
  {
    if wanted != [] {
      var m := MergeFields(fields, wanted[..|wanted| - 1]);
      MergeNoDup(fields, wanted[..|wanted| - 1]);
      var c := wanted[|wanted| - 1];
      if c !in m {
        var r := m + [c];
        forall i, j | 0 <= i < j < |r| ensures r[i] != r[j] {
          if j == |m| {
            assert r[i] == m[i];
          }
        }
      }
    }
  }

  /** When every wanted column is already present, nothing is missing. */
  lemma {:induction false} MissingOfPresent(fields: seq<string>, wanted: seq<string>)
    requires forall c | c in wanted :: c in fields
    ensures Missing(fields, wanted) == []
    decreases |wanted|
  {
    if wanted != [] {
      var init := wanted[..|wanted| - 1];
      assert forall c | c in init :: c in wanted;
      MissingOfPresent(fields, init);
    }
  }

  /** `keep = fieldnames[:]` and the loop that appends each wanted column not yet in `keep`. */
  method AppendMissing(fields: seq<string>, wanted: seq<string>) returns (keep: seq<string>)
    ensures keep == MergeFields(fields, wanted)
  {
    keep := fields;
    for i := 0 to |wanted|
      invariant keep == MergeFields(fields, wanted[..i])
    {
      assert wanted[..i + 1][..i] == wanted[..i];
      if wanted[i] !in keep {
        keep := keep + [wanted[i]];
      }
    }
    assert wanted[..|wanted|] == wanted;
  }
}
