/** The few Kotlin collection operations the resolver pipeline is built from:
    `map`, `filter` and `mapNotNull` over lists and sequences, with `null`
    written as `None`. Each keeps the order of its input. */
module Collections {

  /** A Kotlin nullable value: `None` stands for `null`. */
  datatype Option<+T> = None | Some(value: T)

  /** Kotlin `map`: one result per element, in order. */
  function Map<X, Y>(f: X -> Y, xs: seq<X>): (ys: seq<Y>)
    ensures |ys| == |xs|
    ensures forall i :: 0 <= i < |xs| ==> ys[i] == f(xs[i])
  {
    seq(|xs|, i requires 0 <= i < |xs| => f(xs[i]))
  }

  /** Kotlin `filter`: the elements satisfying `keep`, in their original order. */
  function Filter<X>(keep: X -> bool, xs: seq<X>): (ys: seq<X>)
    ensures |ys| <= |xs|
    ensures forall i :: 0 <= i < |ys| ==> keep(ys[i])
    ensures forall i :: 0 <= i < |ys| ==> ys[i] in xs
    ensures forall i :: 0 <= i < |xs| && keep(xs[i]) ==> xs[i] in ys
  {
    if xs == [] then []
    else (if keep(xs[0]) then [xs[0]] else []) + Filter(keep, xs[1..])
  }

  /** Kotlin `mapNotNull`: apply `f` to every element and keep the non-null
      results, in order. */
  function MapNotNull<X, Y>(f: X -> Option<Y>, xs: seq<X>): (ys: seq<Y>)
    ensures |ys| <= |xs|
  {
    if xs == [] then []
    else
      (match f(xs[0]) case Some(y) => [y] case None => []) + MapNotNull(f, xs[1..])
  }

  lemma {:induction false} MapAppend<X, Y>(f: X -> Y, xs: seq<X>, ys: seq<X>)
    ensures Map(f, xs + ys) == Map(f, xs) + Map(f, ys)
  {
  }

  /** `filter` works element by element: filtering a concatenation is
      concatenating the filtered parts. */
  lemma {:induction false} FilterAppend<X>(keep: X -> bool, xs: seq<X>, ys: seq<X>)
    ensures Filter(keep, xs + ys) == Filter(keep, xs) + Filter(keep, ys)
  {
    if xs == [] {
      assert xs + ys == ys;
    } else {
      assert (xs + ys)[1..] == xs[1..] + ys;
      FilterAppend(keep, xs[1..], ys);
    }
  }

  /** `mapNotNull` works element by element: an element whose `f` is null
      is dropped without affecting the others. */
  lemma {:induction false} MapNotNullAppend<X, Y>(f: X -> Option<Y>, xs: seq<X>, ys: seq<X>)
    ensures MapNotNull(f, xs + ys) == MapNotNull(f, xs) + MapNotNull(f, ys)
  {
    if xs == [] {
      assert xs + ys == ys;
    } else {
      assert (xs + ys)[1..] == xs[1..] + ys;
      MapNotNullAppend(f, xs[1..], ys);
    }
  }

  /** Every result of `mapNotNull` is the non-null image of some element, and
      every non-null image is among the results. */
  lemma {:induction false} MapNotNullMember<X, Y>(f: X -> Option<Y>, xs: seq<X>, y: Y)
    ensures y in MapNotNull(f, xs) <==> exists i :: 0 <= i < |xs| && f(xs[i]) == Some(y)
  {
    if xs != [] {
      MapNotNullMember(f, xs[1..], y);
      if exists i :: 0 <= i < |xs| && f(xs[i]) == Some(y) {
        var i :| 0 <= i < |xs| && f(xs[i]) == Some(y);
        if i > 0 {
          assert f(xs[1..][i - 1]) == Some(y);
        }
      }
      if exists i :: 0 <= i < |xs[1..]| && f(xs[1..][i]) == Some(y) {
        var i :| 0 <= i < |xs[1..]| && f(xs[1..][i]) == Some(y);
        assert f(xs[i + 1]) == Some(y);
      }
    }
  }

  /** When `f` is never null, `mapNotNull` keeps exactly one result per
      element, in order. */
  lemma {:induction false} MapNotNullTotal<X, Y>(f: X -> Option<Y>, xs: seq<X>)
    requires forall i :: 0 <= i < |xs| ==> f(xs[i]).Some?
    ensures |MapNotNull(f, xs)| == |xs|
    ensures forall i :: 0 <= i < |xs| ==> MapNotNull(f, xs)[i] == f(xs[i]).value
  {
    if xs != [] {
      assert forall i :: 0 <= i < |xs[1..]| ==> f(xs[1..][i]) == f(xs[i + 1]);
      MapNotNullTotal(f, xs[1..]);
    }
  }

  /** The last result of `mapNotNull` is the image of the last element when
      that image is non-null. */
  lemma MapNotNullLast<X, Y>(f: X -> Option<Y>, xs: seq<X>, x: X)
    requires f(x).Some?
    ensures MapNotNull(f, xs + [x]) == MapNotNull(f, xs) + [f(x).value]
  {
    MapNotNullAppend(f, xs, [x]);
    assert MapNotNull(f, [x]) == [f(x).value];
  }

  /** Kotlin `flatMap`: the results of `f` for every element, concatenated
      in order. */
  function FlatMap<X, Y>(f: X -> seq<Y>, xs: seq<X>): seq<Y> {
    if xs == [] then [] else f(xs[0]) + FlatMap(f, xs[1..])
  }

  lemma {:induction false} FlatMapAppend<X, Y>(f: X -> seq<Y>, xs: seq<X>, ys: seq<X>)
    ensures FlatMap(f, xs + ys) == FlatMap(f, xs) + FlatMap(f, ys)
  {
    if xs == [] {
      assert xs + ys == ys;
    } else {
      assert (xs + ys)[1..] == xs[1..] + ys;
      FlatMapAppend(f, xs[1..], ys);
    }
  }

  /** Element `i` contributes `f(xs[i])` between what comes before and after
      it. */
  lemma {:induction false} FlatMapAt<X, Y>(f: X -> seq<Y>, xs: seq<X>, i: nat)
    requires i < |xs|
    ensures FlatMap(f, xs) == FlatMap(f, xs[..i]) + f(xs[i]) + FlatMap(f, xs[i + 1..])
  {
    if i == 0 {
      assert xs[..0] == [] && xs[1..] == xs[i + 1..];
    } else {
      var rest := xs[1..];
      FlatMapAt(f, rest, i - 1);
      assert rest[..i - 1] == xs[1..i] && rest[i - 1] == xs[i] && rest[i..] == xs[i + 1..];
      assert xs[..i][0] == xs[0] && xs[..i][1..] == xs[1..i];
      AppendAssociates3(f(xs[0]), FlatMap(f, xs[1..i]) + f(xs[i]), FlatMap(f, xs[i + 1..]));
      AppendAssociates3(f(xs[0]), FlatMap(f, xs[1..i]), f(xs[i]));
    }
  }

  lemma AppendAssociates3<T>(x: seq<T>, y: seq<T>, z: seq<T>)
    ensures x + (y + z) == x + y + z
  {
  }

  /** Every result of every element is in the `flatMap` result. */
  lemma FlatMapComplete<X, Y>(f: X -> seq<Y>, xs: seq<X>)
    ensures forall i, k :: 0 <= i < |xs| && 0 <= k < |f(xs[i])| ==> f(xs[i])[k] in FlatMap(f, xs)
  {
    forall i, k | 0 <= i < |xs| && 0 <= k < |f(xs[i])|
      ensures f(xs[i])[k] in FlatMap(f, xs)
    {
      FlatMapAt(f, xs, i);
      var pre := FlatMap(f, xs[..i]);
      assert FlatMap(f, xs)[|pre| + k] == f(xs[i])[k];
    }
  }

  /** Every element of a `flatMap` result is an element of `f` of some input
      element. */
  lemma {:induction false} FlatMapOrigin<X, Y>(f: X -> seq<Y>, xs: seq<X>, k: nat)
    requires k < |FlatMap(f, xs)|
    ensures exists i, j :: 0 <= i < |xs| && 0 <= j < |f(xs[i])| && f(xs[i])[j] == FlatMap(f, xs)[k]
  {
    var here := f(xs[0]);
    if k >= |here| {
      FlatMapOrigin(f, xs[1..], k - |here|);
      var i, j :| 0 <= i < |xs[1..]| && 0 <= j < |f(xs[1..][i])| && f(xs[1..][i])[j] == FlatMap(f, xs[1..])[k - |here|];
      assert xs[1..][i] == xs[i + 1];
    } else {
      assert f(xs[0])[k] == FlatMap(f, xs)[k];
    }
  }

  lemma AppendAssociates<T>(w: seq<T>, x: seq<T>, y: seq<T>, z: seq<T>)
    ensures w + x + y + z == w + (x + (y + z))
  {
  }

  lemma FlatMapFour<X, Y>(f: X -> seq<Y>, a: X, b: X, c: X, d: X)
    ensures FlatMap(f, [a, b, c, d]) == f(a) + f(b) + f(c) + f(d)
  {
    assert [a, b, c, d][1..] == [b, c, d];
    assert [b, c, d][1..] == [c, d];
    assert [c, d][1..] == [d];
    assert FlatMap(f, [d]) == f(d) + FlatMap(f, []) == f(d);
    assert FlatMap(f, [c, d]) == f(c) + f(d);
    assert FlatMap(f, [b, c, d]) == f(b) + (f(c) + f(d));
  }

  /** A nullable value as a list of zero or one element. */
  function OptionToSeq<Y>(o: Option<Y>): (ys: seq<Y>)
    ensures o.None? <==> ys == []
    ensures o.Some? ==> ys == [o.value]
  {
    match o case None => [] case Some(y) => [y]
  }

  function NonNullSeq<X, Y>(f: X -> Option<Y>): X -> seq<Y> {
    x => OptionToSeq(f(x))
  }

  /** `mapNotNull` is `flatMap` over the zero-or-one results of `f`: the
      non-null images, every one of them, in the order of their elements. */
  lemma {:induction false} MapNotNullIsFlatMap<X, Y>(f: X -> Option<Y>, xs: seq<X>)
    ensures MapNotNull(f, xs) == FlatMap(NonNullSeq(f), xs)
  {
    if xs != [] {
      MapNotNullIsFlatMap(f, xs[1..]);
    }
  }

  /** Every non-null image of an element is among the results. */
  lemma MapNotNullComplete<X, Y>(f: X -> Option<Y>, xs: seq<X>)
    ensures forall i :: 0 <= i < |xs| && f(xs[i]).Some? ==> f(xs[i]).value in MapNotNull(f, xs)
  {
    forall i | 0 <= i < |xs| && f(xs[i]).Some?
      ensures f(xs[i]).value in MapNotNull(f, xs)
    {
      MapNotNullMember(f, xs, f(xs[i]).value);
    }
  }
}
