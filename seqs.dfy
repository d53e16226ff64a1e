/** Sequences built piece by piece, as the loops of the evaluator append to slices. */
module Seqs {
  import opened Wrappers

  /** The pieces f gives for each element, concatenated in order. */
  function FlatMap<T, U>(xs: seq<T>, f: T -> seq<U>): seq<U>
  {
    if xs == [] then [] else f(xs[0]) + FlatMap(xs[1..], f)
  }

  /** FlatMap distributes over concatenation; a loop extends its result one element at a time. */
  lemma {:induction false} FlatMapAppend<T, U>(xs: seq<T>, ys: seq<T>, f: T -> seq<U>)
    ensures FlatMap(xs + ys, f) == FlatMap(xs, f) + FlatMap(ys, f)
  {
    if xs == [] {
      assert xs + ys == ys;
    } else {
      assert (xs + ys)[1..] == xs[1..] + ys;
      FlatMapAppend(xs[1..], ys, f);
      assert f(xs[0]) + (FlatMap(xs[1..], f) + FlatMap(ys, f)) == (f(xs[0]) + FlatMap(xs[1..], f)) + FlatMap(ys, f);
    }
  }

  /** The step a loop over xs takes at index i. */
  lemma FlatMapStep<T, U>(xs: seq<T>, i: nat, f: T -> seq<U>)
    requires i < |xs|
    ensures FlatMap(xs[..i + 1], f) == FlatMap(xs[..i], f) + f(xs[i])
  {
    assert xs[..i + 1] == xs[..i] + [xs[i]];
    FlatMapAppend(xs[..i], [xs[i]], f);
    assert FlatMap([xs[i]], f) == f(xs[i]) + FlatMap([xs[i]][1..], f);
  }

  /** FlatMap of one element is its piece. */
  lemma FlatMapSingle<T, U>(x: T, f: T -> seq<U>)
    ensures FlatMap([x], f) == f(x)
  {
    assert FlatMap([x], f) == f(x) + FlatMap([x][1..], f);
  }

  /** An element of the result comes from the piece of some element, and every piece is in it. */
  lemma {:induction false} FlatMapMember<T, U>(xs: seq<T>, f: T -> seq<U>, u: U)
    ensures u in FlatMap(xs, f) <==> exists i :: 0 <= i < |xs| && u in f(xs[i])
  {
    if xs != [] {
      FlatMapMember(xs[1..], f, u);
      if exists i :: 0 <= i < |xs| && u in f(xs[i]) {
        var i :| 0 <= i < |xs| && u in f(xs[i]);
        if i > 0 {
          assert xs[1..][i - 1] == xs[i];
        }
      }
      if exists i :: 0 <= i < |xs[1..]| && u in f(xs[1..][i]) {
        var i :| 0 <= i < |xs[1..]| && u in f(xs[1..][i]);
        assert xs[1..][i] == xs[i + 1];
      }
    }
  }

  /** When every piece has at most one element, the result is no longer than xs. */
  lemma {:induction false} FlatMapAtMostOne<T, U>(xs: seq<T>, f: T -> seq<U>)
    requires forall x :: x in xs ==> |f(x)| <= 1
    ensures |FlatMap(xs, f)| <= |xs|
  {
    if xs != [] {
      assert xs[0] in xs;
      assert forall x :: x in xs[1..] ==> x in xs;
      FlatMapAtMostOne(xs[1..], f);
    }
  }

  /** When every piece has exactly one element, the result is exactly as long as xs. */
  lemma {:induction false} FlatMapExactlyOne<T, U>(xs: seq<T>, f: T -> seq<U>)
    requires forall x :: x in xs ==> |f(x)| == 1
    ensures |FlatMap(xs, f)| == |xs|
  {
    if xs != [] {
      assert xs[0] in xs;
      assert forall x :: x in xs[1..] ==> x in xs;
      FlatMapExactlyOne(xs[1..], f);
    }
  }

  /** When every piece is empty, so is the result. */
  lemma {:induction false} FlatMapNone<T, U>(xs: seq<T>, f: T -> seq<U>)
    requires forall x :: x in xs ==> f(x) == []
    ensures FlatMap(xs, f) == []
  {
    if xs != [] {
      assert xs[0] in xs;
      assert forall x :: x in xs[1..] ==> x in xs;
      FlatMapNone(xs[1..], f);
    }
  }

  /** acc in front of a successful result; an error unchanged. */
  function Prepend<T, E>(acc: seq<T>, r: Result<seq<T>, E>): (p: Result<seq<T>, E>)
    ensures p.Err? <==> r.Err?
    ensures r.Err? ==> p == r
    ensures r.Ok? ==> p.value == acc + r.value
  {
    match r
    case Ok(rs) => Ok(acc + rs)
    case Err(e) => Err(e)
  }

  lemma PrependNothing<T, E>(r: Result<seq<T>, E>)
    ensures Prepend([], r) == r
  {
    if r.Ok? {
      assert [] + r.value == r.value;
    }
  }

  lemma PrependTwice<T, E>(a: seq<T>, b: seq<T>, r: Result<seq<T>, E>)
    ensures Prepend(a, Prepend(b, r)) == Prepend(a + b, r)
  {
    if r.Ok? {
      assert a + (b + r.value) == (a + b) + r.value;
    }
  }
}
