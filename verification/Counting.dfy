/** Counting the elements of a sequence that have a property. */
module Counting {

  function Tally<T>(xs: seq<T>, p: T -> bool): (n: nat)
    ensures n <= |xs|
  {
    if xs == [] then 0 else (if p(xs[0]) then 1 else 0) + Tally(xs[1..], p)
  }

  lemma {:induction false} TallyUpdate<T>(xs: seq<T>, i: nat, x: T, p: T -> bool)
    requires i < |xs|
    ensures Tally(xs[i := x], p) == Tally(xs, p) - (if p(xs[i]) then 1 else 0) + (if p(x) then 1 else 0)
  {
    var ys := xs[i := x];
    if i == 0 {
      assert ys[1..] == xs[1..];
    } else {
      assert ys[1..] == xs[1..][i - 1 := x];
      TallyUpdate(xs[1..], i - 1, x, p);
    }
  }

  lemma {:induction false} TallyAppend<T>(xs: seq<T>, x: T, p: T -> bool)
    ensures Tally(xs + [x], p) == Tally(xs, p) + (if p(x) then 1 else 0)
  {
    if xs == [] {
      assert xs + [x] == [x];
    } else {
      assert (xs + [x])[1..] == xs[1..] + [x];
      TallyAppend(xs[1..], x, p);
    }
  }

  lemma {:induction false} TallyZero<T>(xs: seq<T>, p: T -> bool)
    ensures Tally(xs, p) == 0 <==> forall k :: 0 <= k < |xs| ==> !p(xs[k])
  {
    if xs != [] {
      TallyZero(xs[1..], p);
      if Tally(xs, p) == 0 {
        forall k | 0 <= k < |xs| ensures !p(xs[k]) {
          if k > 0 {
            assert xs[k] == xs[1..][k - 1];
          }
        }
      } else if Tally(xs[1..], p) != 0 {
        var k :| 0 <= k < |xs| - 1 && p(xs[1..][k]);
        assert p(xs[k + 1]);
      }
    }
  }

  lemma {:induction false} TallyAll<T>(xs: seq<T>, p: T -> bool)
    ensures Tally(xs, p) == |xs| <==> forall k :: 0 <= k < |xs| ==> p(xs[k])
  {
    if xs != [] {
      TallyAll(xs[1..], p);
      if Tally(xs, p) == |xs| {
        forall k | 0 <= k < |xs| ensures p(xs[k]) {
          if k > 0 {
            assert xs[k] == xs[1..][k - 1];
          }
        }
      } else if p(xs[0]) {
        var k :| 0 <= k < |xs| - 1 && !p(xs[1..][k]);
        assert !p(xs[k + 1]);
      }
    }
  }

  // The elements of xs replaced one by one under the same indices.
  lemma {:induction false} TallySame<T>(xs: seq<T>, ys: seq<T>, p: T -> bool)
    requires |xs| == |ys| && forall k :: 0 <= k < |xs| ==> p(xs[k]) == p(ys[k])
    ensures Tally(xs, p) == Tally(ys, p)
  {
    if xs != [] {
      assert xs[0] == xs[0] && p(xs[0]) == p(ys[0]);
      forall k | 0 <= k < |xs| - 1 ensures p(xs[1..][k]) == p(ys[1..][k]) {
        assert xs[1..][k] == xs[k + 1] && ys[1..][k] == ys[k + 1];
      }
      TallySame(xs[1..], ys[1..], p);
    }
  }

  // The sum of a rank over the elements.
  function Sum<T>(xs: seq<T>, f: T -> nat): nat {
    if xs == [] then 0 else f(xs[0]) + Sum(xs[1..], f)
  }

  lemma {:induction false} SumUpdate<T>(xs: seq<T>, i: nat, x: T, f: T -> nat)
    requires i < |xs|
    ensures Sum(xs[i := x], f) == Sum(xs, f) - f(xs[i]) + f(x)
  {
    var ys := xs[i := x];
    if i == 0 {
      assert ys[1..] == xs[1..];
    } else {
      assert ys[1..] == xs[1..][i - 1 := x];
      SumUpdate(xs[1..], i - 1, x, f);
    }
  }

  lemma {:induction false} SumAtMost<T>(xs: seq<T>, ys: seq<T>, f: T -> nat)
    requires |xs| == |ys| && forall k :: 0 <= k < |xs| ==> f(xs[k]) <= f(ys[k])
    ensures Sum(xs, f) <= Sum(ys, f)
  {
    if xs != [] {
      forall k | 0 <= k < |xs| - 1 ensures f(xs[1..][k]) <= f(ys[1..][k]) {
        assert xs[1..][k] == xs[k + 1] && ys[1..][k] == ys[k + 1];
      }
      SumAtMost(xs[1..], ys[1..], f);
    }
  }
}
