/** Sums of a per-item quantity over a sequence, and the facts every
    aggregation in the model relies on: splitting and permuting. */
module Sums {

  /** The total of `f` over `s`, from the front. */
  function SumBy<T>(s: seq<T>, f: T -> real): real
  {
    if |s| == 0 then 0.0 else f(s[0]) + SumBy(s[1..], f)
  }

  lemma {:induction false} SumByConcat<T>(xs: seq<T>, ys: seq<T>, f: T -> real)
    ensures SumBy(xs + ys, f) == SumBy(xs, f) + SumBy(ys, f)
  {
    if |xs| == 0 {
      assert xs + ys == ys;
    } else {
      assert (xs + ys)[1..] == xs[1..] + ys;
      SumByConcat(xs[1..], ys, f);
    }
  }

  /** Adding one item at the back adds its value: the step of a left fold. */
  lemma SumBySnoc<T>(s: seq<T>, x: T, f: T -> real)
    ensures SumBy(s + [x], f) == SumBy(s, f) + f(x)
  {
    SumByConcat(s, [x], f);
  }

  /** Replacing the item at `i` changes the total by the difference of the two values. */
  lemma SumByUpdate<T>(s: seq<T>, i: int, x: T, f: T -> real)
    requires 0 <= i < |s|
    ensures SumBy(s[i := x], f) == SumBy(s, f) - f(s[i]) + f(x)
  {
    assert s == s[..i] + [s[i]] + s[i+1..];
    assert s[i := x] == s[..i] + [x] + s[i+1..];
    SumByConcat(s[..i] + [s[i]], s[i+1..], f);
    SumByConcat(s[..i], [s[i]], f);
    SumByConcat(s[..i] + [x], s[i+1..], f);
    SumByConcat(s[..i], [x], f);
  }

  /** The total depends only on which items occur how often, not on their order. */
  lemma {:induction false} SumByPermutation<T>(xs: seq<T>, ys: seq<T>, f: T -> real)
    requires multiset(xs) == multiset(ys)
    ensures SumBy(xs, f) == SumBy(ys, f)
  {
    if |xs| == 0 {
      assert |ys| == |multiset(ys)| == 0;
    } else {
      var x := xs[0];
      assert x in multiset(ys);
      var i :| 0 <= i < |ys| && ys[i] == x;
      var rest := ys[..i] + ys[i+1..];
      assert ys == ys[..i] + [x] + ys[i+1..];
      assert xs == [x] + xs[1..];
      assert multiset(xs[1..]) == multiset(rest) by {
        calc {
          multiset(xs[1..]) + multiset{x};
          multiset(xs);
          multiset(ys);
          multiset(ys[..i]) + multiset{x} + multiset(ys[i+1..]);
          multiset(rest) + multiset{x};
        }
        assert multiset(xs[1..]) == multiset(xs[1..]) + multiset{x} - multiset{x};
        assert multiset(rest) == multiset(rest) + multiset{x} - multiset{x};
      }
      SumByPermutation(xs[1..], rest, f);
      SumByConcat(ys[..i] + [x], ys[i+1..], f);
      SumByConcat(ys[..i], [x], f);
      SumByConcat(ys[..i], ys[i+1..], f);
    }
  }
}
