/** The pattern every loop of the exporter follows: visit a list in order,
    push the result of each step that succeeds, and skip the steps that fail. */
module Collecting {
  import opened Wrappers

  /** Concatenation is associative; stated once so that long request logs
      can be regrouped without unfolding what they are made of. */
  lemma AppendAssoc<T>(x: seq<T>, y: seq<T>, z: seq<T>)
    ensures x + y + z == x + (y + z)
  {
  }

  /** The value of a step that succeeded, as a sequence of zero or one. */
  function Kept<U>(o: Option<U>): (r: seq<U>)
    ensures |r| <= 1
    ensures o.None? ==> r == []
    ensures o.Some? ==> r == [o.value]
  {
    match o
    case None => []
    case Some(x) => [x]
  }

  /** The present results of `f` over `xs`, in order. */
  function Collect<T, U>(f: T -> Option<U>, xs: seq<T>): (r: seq<U>)
    ensures |r| <= |xs|
    decreases |xs|
  {
    if |xs| == 0 then []
    else
      Collect(f, xs[..|xs| - 1]) + Kept(f(xs[|xs| - 1]))
  }

  /** One more step adds its value, if any, at the end. */
  lemma CollectSnoc<T, U>(f: T -> Option<U>, xs: seq<T>, x: T)
    ensures Collect(f, xs + [x]) == Collect(f, xs) + Kept(f(x))
  {
    assert (xs + [x])[..|xs|] == xs;
  }

  /** Collecting over `x + y` collects over `x`, then over `y`. */
  lemma {:induction false} CollectAppend<T, U>(f: T -> Option<U>, x: seq<T>, y: seq<T>)
    ensures Collect(f, x + y) == Collect(f, x) + Collect(f, y)
    decreases |y|
  {
    if |y| > 0 {
      var xy := x + y;
      assert xy[..|xy| - 1] == x + y[..|y| - 1];
      CollectAppend(f, x, y[..|y| - 1]);
    } else {
      assert x + y == x;
    }
  }

  /** A step that fails drops out and leaves its neighbours alone. */
  lemma CollectSkip<T, U>(f: T -> Option<U>, x: seq<T>, v: T, y: seq<T>)
    requires f(v).None?
    ensures Collect(f, x + [v] + y) == Collect(f, x) + Collect(f, y)
  {
    CollectAppend(f, x + [v], y);
    CollectSnoc(f, x, v);
    assert Collect(f, x + [v]) == Collect(f, x);
  }

  /** Nothing is dropped exactly when every step succeeds, and then the result
      is every step's value, in order. */
  lemma {:induction false} CollectComplete<T, U>(f: T -> Option<U>, xs: seq<T>)
    ensures |Collect(f, xs)| == |xs| <==> forall k :: 0 <= k < |xs| ==> f(xs[k]).Some?
    ensures (forall k :: 0 <= k < |xs| ==> f(xs[k]).Some?) ==>
              forall k :: 0 <= k < |xs| ==> Collect(f, xs)[k] == f(xs[k]).value
    decreases |xs|
  {
    if |xs| > 0 {
      var front := xs[..|xs| - 1];
      CollectComplete(f, front);
      forall k | 0 <= k < |front| ensures front[k] == xs[k] { }
      if f(xs[|xs| - 1]).None? {
        assert !(forall k :: 0 <= k < |xs| ==> f(xs[k]).Some?) by {
          assert f(xs[|xs| - 1]).None?;
        }
      }
    }
  }

  /** Nothing is collected exactly when every step fails. */
  lemma {:induction false} CollectEmpty<T, U>(f: T -> Option<U>, xs: seq<T>)
    ensures |Collect(f, xs)| == 0 <==> forall k :: 0 <= k < |xs| ==> f(xs[k]).None?
    decreases |xs|
  {
    if |xs| > 0 {
      var front := xs[..|xs| - 1];
      CollectEmpty(f, front);
      forall k | 0 <= k < |front| ensures front[k] == xs[k] { }
    }
  }

  /** Every collected value is the value of some step. */
  lemma {:induction false} CollectSound<T, U>(f: T -> Option<U>, xs: seq<T>, k: nat)
    requires k < |Collect(f, xs)|
    ensures exists j :: 0 <= j < |xs| && f(xs[j]) == Some(Collect(f, xs)[k])
    decreases |xs|
  {
    var front := xs[..|xs| - 1];
    if k < |Collect(f, front)| {
      CollectSound(f, front, k);
      var j :| 0 <= j < |front| && f(front[j]) == Some(Collect(f, front)[k]);
      assert xs[j] == front[j];
    } else {
      assert f(xs[|xs| - 1]) == Some(Collect(f, xs)[k]);
    }
  }

  /** The outputs of `f` over `xs`, concatenated in order. */
  function Flatten<T, U>(f: T -> seq<U>, xs: seq<T>): seq<U>
    decreases |xs|
  {
    if |xs| == 0 then [] else Flatten(f, xs[..|xs| - 1]) + f(xs[|xs| - 1])
  }

  /** One more step adds its output at the end. */
  lemma FlattenSnoc<T, U>(f: T -> seq<U>, xs: seq<T>, x: T)
    ensures Flatten(f, xs + [x]) == Flatten(f, xs) + f(x)
  {
    assert (xs + [x])[..|xs|] == xs;
  }

  /** Flattening over `x + y` flattens over `x`, then over `y`. */
  lemma {:induction false} FlattenAppend<T, U>(f: T -> seq<U>, x: seq<T>, y: seq<T>)
    ensures Flatten(f, x + y) == Flatten(f, x) + Flatten(f, y)
    decreases |y|
  {
    if |y| > 0 {
      var xy := x + y;
      assert xy[..|xy| - 1] == x + y[..|y| - 1];
      FlattenAppend(f, x, y[..|y| - 1]);
      AppendAssoc(Flatten(f, x), Flatten(f, y[..|y| - 1]), f(y[|y| - 1]));
    } else {
      assert x + y == x;
    }
  }
}
