/** Leaving elements out of a list. */
module Lists {

  /** `ys` are the elements of `xs` that are kept, each as often and in the order in which it stands there. */
  ghost predicate PicksOut<T(!new)>(xs: seq<T>, ys: seq<T>, keep: T -> bool) {
    if xs == [] then ys == []
    else if keep(xs[0]) then ys != [] && ys[0] == xs[0] && PicksOut(xs[1..], ys[1..], keep)
    else PicksOut(xs[1..], ys, keep)
  }

  lemma {:induction false} PicksOutSnoc<T(!new)>(xs: seq<T>, ys: seq<T>, keep: T -> bool, x: T)
    requires PicksOut(xs, ys, keep)
    ensures PicksOut(xs + [x], ys + (if keep(x) then [x] else []), keep)
  {
    var longer := xs + [x];
    if xs == [] {
      assert longer[1..] == [];
    } else {
      assert longer[1..] == xs[1..] + [x];
      if keep(xs[0]) {
        PicksOutSnoc(xs[1..], ys[1..], keep, x);
        assert (ys + (if keep(x) then [x] else []))[1..] == ys[1..] + (if keep(x) then [x] else []);
      } else {
        PicksOutSnoc(xs[1..], ys, keep, x);
      }
    }
  }

  /** There is one such list. */
  lemma {:induction false} PicksOutOne<T(!new)>(xs: seq<T>, ys: seq<T>, zs: seq<T>, keep: T -> bool)
    requires PicksOut(xs, ys, keep) && PicksOut(xs, zs, keep)
    ensures ys == zs
  {
    if xs != [] {
      if keep(xs[0]) {
        PicksOutOne(xs[1..], ys[1..], zs[1..], keep);
        assert ys == [ys[0]] + ys[1..] && zs == [zs[0]] + zs[1..];
      } else {
        PicksOutOne(xs[1..], ys, zs, keep);
      }
    }
  }
}
