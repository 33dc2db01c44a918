/**
 * The in-place loop shape of the list scripts: `for r in rows:` with the
 * body updating the row dictionary itself, so that every later reader of
 * `rows` sees the updated rows.
 */
module InPlace {

  /** Apply one round `f` to every element of `a`, in place and in order. */
  method UpdateEach<T>(a: array<T>, f: T -> T)
    modifies a
    ensures forall i | 0 <= i < a.Length :: a[i] == f(old(a[i]))
  {
    for i := 0 to a.Length
      invariant forall j | 0 <= j < i :: a[j] == f(old(a[j]))
      invariant forall j | i <= j < a.Length :: a[j] == old(a[j])
    {
      a[i] := f(a[i]);
    }
  }
}
