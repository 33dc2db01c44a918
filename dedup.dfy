/**
 * First-occurrence-wins deduplication, the loop shape shared by
 * `extract_phone_candidates`, the `main` loops of both cleaning scripts and
 * the `OrderedDict` pass of fix_long_numbers.py: walk the items in order,
 * keep an item when its key has not been seen, and remember the key.
 */
module Dedup {
  import opened Wrappers

  /** The keys of the items of `xs`. */
  function KeysOf<T, K(==)>(xs: seq<T>, key: T -> K): set<K> {
    set i | 0 <= i < |xs| :: key(xs[i])
  }

  /** No key occurs twice. */
  predicate UniqueKeys<T, K(==)>(xs: seq<T>, key: T -> K) {
    forall i, j | 0 <= i < j < |xs| :: key(xs[i]) != key(xs[j])
  }

  /** The items kept by the loop, in input order. */
  function FirstWins<T, K(==)>(xs: seq<T>, key: T -> K): seq<T>
    decreases |xs|
  {
    if xs == [] then []
    else
      var kept := FirstWins(xs[..|xs| - 1], key);
      if key(xs[|xs| - 1]) in KeysOf(kept, key) then kept else kept + [xs[|xs| - 1]]
  }

  /** The positions in `xs` of the kept items. */
  function KeptAt<T, K(==)>(xs: seq<T>, key: T -> K): seq<nat>
    decreases |xs|
  {
    if xs == [] then []
    else
      var kept := FirstWins(xs[..|xs| - 1], key);
      var at := KeptAt(xs[..|xs| - 1], key);
      if key(xs[|xs| - 1]) in KeysOf(kept, key) then at else at + [|xs| - 1]
  }

  lemma KeysOfAppend<T, K>(xs: seq<T>, x: T, key: T -> K)
    ensures KeysOf(xs + [x], key) == KeysOf(xs, key) + {key(x)}
  {
    var l := xs + [x];
    forall k | k in KeysOf(l, key) ensures k in KeysOf(xs, key) + {key(x)} {
      var i :| 0 <= i < |l| && key(l[i]) == k;
      if i < |xs| { assert l[i] == xs[i]; }
    }
    forall k | k in KeysOf(xs, key) ensures k in KeysOf(l, key) {
      var i :| 0 <= i < |xs| && key(xs[i]) == k;
      assert l[i] == xs[i];
    }
    assert l[|xs|] == x;
  }

  /** The kept items are input items, at increasing positions. */
  lemma {:induction false} FirstWinsAt<T, K>(xs: seq<T>, key: T -> K)
    ensures var r, at := FirstWins(xs, key), KeptAt(xs, key);
      && |at| == |r|
      && (forall i | 0 <= i < |r| :: at[i] < |xs| && r[i] == xs[at[i]])
      && (forall i, j | 0 <= i < j < |r| :: at[i] < at[j])
    decreases |xs|
  {
    if xs != [] {
      var n := |xs| - 1;
      var p := xs[..n];
      FirstWinsAt(p, key);
      var kept, at := FirstWins(p, key), KeptAt(p, key);
      forall i | 0 <= i < |kept| ensures at[i] < n && xs[at[i]] == p[at[i]] { }
      if key(xs[n]) !in KeysOf(kept, key) {
        var r, at' := kept + [xs[n]], at + [n];
        assert FirstWins(xs, key) == r && KeptAt(xs, key) == at';
        forall i | 0 <= i < |r| ensures at'[i] < |xs| && r[i] == xs[at'[i]] {
          if i < |kept| {
            assert r[i] == kept[i] && at'[i] == at[i];
          }
        }
      } else {
        assert FirstWins(xs, key) == kept && KeptAt(xs, key) == at;
      }
    }
  }

  /** Every key of the input is kept, and only once. */
  lemma {:induction false} FirstWinsKeys<T, K>(xs: seq<T>, key: T -> K)
    ensures var r := FirstWins(xs, key);
      UniqueKeys(r, key) && KeysOf(r, key) == KeysOf(xs, key)
    decreases |xs|
  {
    if xs != [] {
      var n := |xs| - 1;
      var p := xs[..n];
      var x := xs[n];
      FirstWinsKeys(p, key);
      var kept := FirstWins(p, key);
      assert xs == p + [x];
      KeysOfAppend(p, x, key);
      if key(x) !in KeysOf(kept, key) {
        KeysOfAppend(kept, x, key);
        var r := kept + [x];
        forall i, j | 0 <= i < j < |r| ensures key(r[i]) != key(r[j]) {
          if j == |kept| {
            assert key(r[i]) in KeysOf(kept, key);
          }
        }
      }
    }
  }

  /** Each kept item is the first input item with its key. */
  lemma {:induction false} FirstWinsEarliest<T, K>(xs: seq<T>, key: T -> K)
    ensures var r, at := FirstWins(xs, key), KeptAt(xs, key);
      forall i, j | 0 <= i < |r| && i < |at| && 0 <= j < |xs| && j < at[i] :: key(xs[j]) != key(r[i])
    decreases |xs|
  {
    if xs != [] {
      var n := |xs| - 1;
      var p := xs[..n];
      var x := xs[n];
      FirstWinsEarliest(p, key);
      FirstWinsAt(p, key);
      FirstWinsKeys(p, key);
      var kept, at := FirstWins(p, key), KeptAt(p, key);
      if key(x) in KeysOf(kept, key) {
        forall i, j | 0 <= i < |kept| && i < |at| && 0 <= j < |xs| && j < at[i] ensures key(xs[j]) != key(kept[i]) {
          assert xs[j] == p[j];
        }
      } else {
        var r := kept + [x];
        var at' := at + [n];
        assert FirstWins(xs, key) == r && KeptAt(xs, key) == at';
        forall i, j | 0 <= i < |r| && i < |at'| && 0 <= j < |xs| && j < at'[i] ensures key(xs[j]) != key(r[i]) {
          if i == |kept| {
            assert xs[j] == p[j];
            assert key(p[j]) in KeysOf(p, key);
          } else {
            assert at'[i] == at[i] && r[i] == kept[i];
            assert xs[j] == p[j];
          }
        }
      }
    }
  }

  /**
   * The deduplicated list holds every key of the input exactly once, each
   * kept item is the first input item with its key, and the input order is
   * kept (the positions `KeptAt` increase).
   */
  lemma FirstWinsSpec<T, K>(xs: seq<T>, key: T -> K)
    ensures var r, at := FirstWins(xs, key), KeptAt(xs, key);
      && |at| == |r|
      && (forall i | 0 <= i < |r| :: at[i] < |xs| && r[i] == xs[at[i]])
      && (forall i, j | 0 <= i < j < |r| :: at[i] < at[j])
      && (forall i, j | 0 <= i < |r| && 0 <= j < at[i] :: key(xs[j]) != key(r[i]))
      && UniqueKeys(r, key)
      && KeysOf(r, key) == KeysOf(xs, key)
  {
    FirstWinsAt(xs, key);
    FirstWinsKeys(xs, key);
    FirstWinsEarliest(xs, key);
    var r, at := FirstWins(xs, key), KeptAt(xs, key);
    forall i, j | 0 <= i < |r| && 0 <= j < at[i] ensures key(xs[j]) != key(r[i]) {
      assert i < |at| && j < |xs|;
    }
  }

  /** The state the loop keeps: `seen` is exactly the set of keys kept so far. */
  lemma FirstWinsStep<T, K>(xs: seq<T>, x: T, key: T -> K)
    ensures FirstWins(xs + [x], key) ==
              if key(x) in KeysOf(FirstWins(xs, key), key) then FirstWins(xs, key) else FirstWins(xs, key) + [x]
  {
    assert (xs + [x])[..|xs|] == xs;
  }

  /** `FirstWins` of a longer list begins with `FirstWins` of its prefix. */
  lemma {:induction false} FirstWinsPrefix<T, K>(xs: seq<T>, ys: seq<T>, key: T -> K)
    ensures FirstWins(xs, key) <= FirstWins(xs + ys, key)
    decreases |ys|
  {
    if ys == [] {
      assert xs + ys == xs;
    } else {
      var n := |ys| - 1;
      FirstWinsPrefix(xs, ys[..n], key);
      assert (xs + ys)[..|xs + ys| - 1] == xs + ys[..n];
    }
  }

  /**
   * The values `f` gives for the items it accepts, in order: the part of a
   * loop that skips an item when it has no value (no number, an empty phone).
   */
  function Somes<T, U>(xs: seq<T>, f: T -> Option<U>): seq<U>
    decreases |xs|
  {
    if xs == [] then []
    else
      var init := Somes(xs[..|xs| - 1], f);
      match f(xs[|xs| - 1])
      case Some(u) => init + [u]
      case None => init
  }

  /** The positions in `xs` of the accepted items. */
  function SomesAt<T, U>(xs: seq<T>, f: T -> Option<U>): seq<nat>
    decreases |xs|
  {
    if xs == [] then []
    else
      var init := SomesAt(xs[..|xs| - 1], f);
      if f(xs[|xs| - 1]).Some? then init + [|xs| - 1] else init
  }

  lemma SomesStep<T, U>(xs: seq<T>, x: T, f: T -> Option<U>)
    ensures Somes(xs + [x], f) == match f(x) case Some(u) => Somes(xs, f) + [u] case None => Somes(xs, f)
  {
    assert (xs + [x])[..|xs|] == xs;
  }

  /** Every accepted item, and only those, appears, in input order. */
  lemma {:induction false} SomesAtSpec<T, U>(xs: seq<T>, f: T -> Option<U>)
    ensures var s, at := Somes(xs, f), SomesAt(xs, f);
      && |at| == |s|
      && (forall i | 0 <= i < |s| :: at[i] < |xs| && f(xs[at[i]]) == Some(s[i]))
      && (forall i, j | 0 <= i < j < |s| :: at[i] < at[j])
      && (forall j | 0 <= j < |xs| && f(xs[j]).Some? :: j in at)
    decreases |xs|
  {
    if xs != [] {
      var n := |xs| - 1;
      var p := xs[..n];
      SomesAtSpec(p, f);
      var s0, at0 := Somes(p, f), SomesAt(p, f);
      forall j | 0 <= j < n ensures xs[j] == p[j] { }
      if f(xs[n]).Some? {
        var s, at := s0 + [f(xs[n]).value], at0 + [n];
        assert Somes(xs, f) == s && SomesAt(xs, f) == at;
        forall i | 0 <= i < |s| ensures at[i] < |xs| && f(xs[at[i]]) == Some(s[i]) {
          if i < |s0| {
            assert at[i] == at0[i] && s[i] == s0[i];
          }
        }
        forall j | 0 <= j < |xs| && f(xs[j]).Some? ensures j in at {
          if j < n {
            assert j in at0;
          }
        }
      } else {
        assert Somes(xs, f) == s0 && SomesAt(xs, f) == at0;
        forall j | 0 <= j < |xs| && f(xs[j]).Some? ensures j in at0 {
          assert j < n;
        }
      }
    }
  }

  /**
   * A filter-and-map (an `f` that gives `g(x)` exactly when `p(x)` holds)
   * yields `g` of exactly the items satisfying `p`, in their order.
   */
  lemma FilterMapSpec<T, U>(xs: seq<T>, f: T -> Option<U>, p: T -> bool, g: T -> U)
    requires forall x :: f(x).Some? <==> p(x)
    requires forall x :: f(x).Some? ==> f(x).value == g(x)
    ensures var s, at := Somes(xs, f), SomesAt(xs, f);
      && |at| == |s|
      && (forall i | 0 <= i < |s| :: at[i] < |xs| && p(xs[at[i]]) && s[i] == g(xs[at[i]]))
      && (forall i, j | 0 <= i < j < |s| :: at[i] < at[j])
      && (forall j | 0 <= j < |xs| && p(xs[j]) :: j in at)
  {
    SomesAtSpec(xs, f);
  }

  /** Where each item kept by `FirstWins(Somes(xs, f), key)` came from in `xs`. */
  function Origins<T, U, K(==)>(xs: seq<T>, f: T -> Option<U>, key: U -> K): seq<nat> {
    var at, kept := SomesAt(xs, f), KeptAt(Somes(xs, f), key);
    seq(|kept|, i requires 0 <= i < |kept| => if kept[i] < |at| then at[kept[i]] else 0)
  }

  /** The origins are positions of accepted items, increasing, and give back the kept items. */
  lemma OriginsSpec<T, U, K>(xs: seq<T>, f: T -> Option<U>, key: U -> K)
    ensures var r, o := FirstWins(Somes(xs, f), key), Origins(xs, f, key);
      && |o| == |r|
      && (forall i | 0 <= i < |r| :: o[i] < |xs| && f(xs[o[i]]) == Some(r[i]))
      && (forall i, j | 0 <= i < j < |r| :: o[i] < o[j])
  {
    var s, at := Somes(xs, f), SomesAt(xs, f);
    var r, kept := FirstWins(s, key), KeptAt(s, key);
    var o := Origins(xs, f, key);
    SomesAtSpec(xs, f);
    FirstWinsSpec(s, key);
    forall i | 0 <= i < |r| ensures o[i] == at[kept[i]] { }
    forall i, j | 0 <= i < j < |r| ensures o[i] < o[j] {
      assert kept[i] < kept[j];
    }
  }

  /** No accepted item before the origin of a kept item has its key. */
  lemma FirstWinsOfSomesEarliest<T, U, K>(xs: seq<T>, f: T -> Option<U>, key: U -> K)
    ensures var r, o := FirstWins(Somes(xs, f), key), Origins(xs, f, key);
      forall i, k | 0 <= i < |r| && i < |o| && 0 <= k < |xs| && k < o[i] && f(xs[k]).Some? :: key(f(xs[k]).value) != key(r[i])
  {
    var s, at := Somes(xs, f), SomesAt(xs, f);
    var r, kept := FirstWins(s, key), KeptAt(s, key);
    var o := Origins(xs, f, key);
    SomesAtSpec(xs, f);
    FirstWinsAt(s, key);
    FirstWinsEarliest(s, key);
    forall i, k | 0 <= i < |r| && i < |o| && 0 <= k < |xs| && k < o[i] && f(xs[k]).Some?
      ensures key(f(xs[k]).value) != key(r[i])
    {
      assert o[i] == at[kept[i]];
      var i' :| 0 <= i' < |at| && at[i'] == k;
      assert i' < kept[i];
      assert s[i'] == f(xs[k]).value;
    }
  }

  /** The key of every accepted item is kept. */
  lemma FirstWinsOfSomesCovers<T, U, K>(xs: seq<T>, f: T -> Option<U>, key: U -> K)
    ensures var r := FirstWins(Somes(xs, f), key);
      forall j | 0 <= j < |xs| && f(xs[j]).Some? :: key(f(xs[j]).value) in KeysOf(r, key)
  {
    var s, at := Somes(xs, f), SomesAt(xs, f);
    SomesAtSpec(xs, f);
    FirstWinsKeys(s, key);
    forall j | 0 <= j < |xs| && f(xs[j]).Some? ensures key(f(xs[j]).value) in KeysOf(s, key) {
      var i' :| 0 <= i' < |at| && at[i'] == j;
      assert key(s[i']) in KeysOf(s, key);
    }
  }

  /**
   * Skipping the items with no value and then keeping the first item per key
   * gives one item per key that occurs, each from the earliest input item
   * with that key (the origins of `OriginsSpec`).
   */
  lemma FirstWinsOfSomes<T, U, K>(xs: seq<T>, f: T -> Option<U>, key: U -> K)
    ensures var r, o := FirstWins(Somes(xs, f), key), Origins(xs, f, key);
      && |o| == |r|
      && (forall i, k | 0 <= i < |r| && 0 <= k < |xs| && k < o[i] && f(xs[k]).Some? :: key(f(xs[k]).value) != key(r[i]))
      && (forall j | 0 <= j < |xs| && f(xs[j]).Some? :: key(f(xs[j]).value) in KeysOf(r, key))
      && UniqueKeys(r, key)
  {
    OriginsSpec(xs, f, key);
    FirstWinsOfSomesEarliest(xs, f, key);
    FirstWinsOfSomesCovers(xs, f, key);
    FirstWinsKeys(Somes(xs, f), key);
  }

  /** A property every value of `f` has, every kept item has. */
  lemma FirstWinsOfSomesAll<T, U, K>(xs: seq<T>, f: T -> Option<U>, key: U -> K, p: U -> bool)
    requires forall x :: f(x).Some? ==> p(f(x).value)
    ensures forall r | r in FirstWins(Somes(xs, f), key) :: p(r)
  {
    OriginsSpec(xs, f, key);
    var out, o := FirstWins(Somes(xs, f), key), Origins(xs, f, key);
    forall r | r in out ensures p(r) {
      var i :| 0 <= i < |out| && out[i] == r;
      assert f(xs[o[i]]) == Some(r);
    }
  }

  /** Skipping the items with no value distributes over concatenation. */
  lemma {:induction false} SomesAppend<T, U>(xs: seq<T>, ys: seq<T>, f: T -> Option<U>)
    ensures Somes(xs + ys, f) == Somes(xs, f) + Somes(ys, f)
    decreases |ys|
  {
    if ys == [] {
      assert xs + ys == xs;
    } else {
      var n := |ys| - 1;
      SomesAppend(xs, ys[..n], f);
      assert (xs + ys)[..|xs + ys| - 1] == xs + ys[..n];
      assert (xs + ys)[|xs + ys| - 1] == ys[n];
    }
  }

  /**
   * One round of a loop that skips items with no value and keeps the first
   * item per key: `seen` holds the keys kept so far.
   */
  lemma FirstWinsSomesStep<T, U, K>(done: seq<T>, x: T, f: T -> Option<U>, key: U -> K)
    ensures var kept := FirstWins(Somes(done, f), key);
      FirstWins(Somes(done + [x], f), key) ==
        match f(x)
        case None => kept
        case Some(u) => if key(u) in KeysOf(kept, key) then kept else kept + [u]
  {
    SomesStep(done, x, f);
    match f(x)
    case None =>
    case Some(u) =>
      FirstWinsStep(Somes(done, f), u, key);
  }

  /**
   * The first-occurrence-wins loop: walk the items in order, skip an item
   * with no value, skip a value whose key was seen, else keep it and
   * remember its key.
   */
  method KeepFirst<T, U, K(==)>(xs: seq<T>, f: T -> Option<U>, key: U -> K) returns (out: seq<U>)
    ensures out == FirstWins(Somes(xs, f), key)
  {
    var seen: set<K> := {};
    out := [];
    for i := 0 to |xs|
      invariant out == FirstWins(Somes(xs[..i], f), key)
      invariant seen == KeysOf(out, key)
    {
      assert xs[..i + 1] == xs[..i] + [xs[i]];
      FirstWinsSomesStep(xs[..i], xs[i], f, key);
      var v := f(xs[i]);
      if v.None? {
        continue;
      }
      var k := key(v.value);
      if k in seen {
        continue;
      }
      KeysOfAppend(out, v.value, key);
      seen := seen + {k};
      out := out + [v.value];
    }
    assert xs[..|xs|] == xs;
  }

  /** A loop that appends the value of every item that has one, in order. */
  method CollectSomes<T, U>(xs: seq<T>, f: T -> Option<U>) returns (out: seq<U>)
    ensures out == Somes(xs, f)
  {
    out := [];
    for i := 0 to |xs|
      invariant out == Somes(xs[..i], f)
    {
      SomesStep(xs[..i], xs[i], f);
      assert xs[..i + 1] == xs[..i] + [xs[i]];
      var v := f(xs[i]);
      if v.Some? {
        out := out + [v.value];
      }
    }
    assert xs[..|xs|] == xs;
  }

  /** A loop that keeps an item when its key is not yet in the (ordered) dictionary. */
  method FirstPerKey<T, K(==)>(xs: seq<T>, key: T -> K) returns (out: seq<T>)
    ensures out == FirstWins(xs, key)
  {
    var seen: set<K> := {};
    out := [];
    for i := 0 to |xs|
      invariant out == FirstWins(xs[..i], key)
      invariant seen == KeysOf(out, key)
    {
      FirstWinsStep(xs[..i], xs[i], key);
      assert xs[..i + 1] == xs[..i] + [xs[i]];
      var k := key(xs[i]);
      if k !in seen {
        KeysOfAppend(out, xs[i], key);
        seen := seen + {k};
        out := out + [xs[i]];
      }
    }
    assert xs[..|xs|] == xs;
  }
}
