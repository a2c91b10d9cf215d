/** Generic sequence helpers shared by the scans. */
module Seqs {
  import opened Wrappers

  /** The values `f` yields for the elements of `xs`, in order, skipping those it drops. */
  function FilterMap<T, U>(xs: seq<T>, f: T -> Option<U>): seq<U>
  {
    if |xs| == 0 then []
    else
      var y := f(xs[|xs| - 1]);
      FilterMap(xs[..|xs| - 1], f) + (if y.Some? then [y.value] else [])
  }

  lemma {:induction false} FilterMapMembers<T, U>(xs: seq<T>, f: T -> Option<U>, u: U)
    ensures u in FilterMap(xs, f) <==> exists x :: x in xs && f(x) == Some(u)
  {
    if |xs| > 0 {
      var init, last := xs[..|xs| - 1], xs[|xs| - 1];
      FilterMapMembers(init, f, u);
      assert xs == init + [last];
      assert forall x :: x in xs <==> x in init || x == last;
    }
  }
}
