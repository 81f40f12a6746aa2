/**
 * The shape shared by the loops of `execute` (src/Command/GenerateSchemaCommand.php): walk
 * a list from some index on, turn each element into a result, append the successes in order
 * and stop at the first exception.
 */
module Folds {
  import opened Results

  /** The results of `f` on `xs[from..n]`, in order; the first failure is the result. */
  function MapUpTo<A, B, E>(f: A -> Result<B, E>, xs: seq<A>, from: nat, n: nat): Result<seq<B>, E>
    requires n <= |xs|
    decreases n
  {
    if n <= from then Ok([])
    else
      var before :- MapUpTo(f, xs, from, n - 1);
      var y :- f(xs[n - 1]);
      Ok(before + [y])
  }

  /** One more step of the loop. */
  lemma MapStep<A, B, E>(f: A -> Result<B, E>, xs: seq<A>, from: nat, n: nat, before: seq<B>, y: B)
    requires from <= n < |xs| && MapUpTo(f, xs, from, n) == Ok(before) && f(xs[n]) == Ok(y)
    ensures MapUpTo(f, xs, from, n + 1) == Ok(before + [y])
  {
  }

  /** A skipped element leaves the loop where it was. */
  lemma MapSkip<A, B, E>(f: A -> Result<B, E>, xs: seq<A>, from: nat, n: nat)
    requires n < from && n < |xs|
    ensures MapUpTo(f, xs, from, n + 1) == MapUpTo(f, xs, from, n) == Ok([])
  {
  }

  /** A failing step makes the loop fail with its error. */
  lemma MapFails<A, B, E>(f: A -> Result<B, E>, xs: seq<A>, from: nat, n: nat, before: seq<B>)
    requires from <= n < |xs| && MapUpTo(f, xs, from, n) == Ok(before) && f(xs[n]).Err?
    ensures MapUpTo(f, xs, from, n + 1) == Err(f(xs[n]).error)
  {
  }

  /** Once the loop has failed, running it further does not change the failure. */
  lemma {:induction false} MapFailureSticks<A, B, E>(f: A -> Result<B, E>, xs: seq<A>, from: nat, n: nat, m: nat)
    requires n <= m <= |xs| && MapUpTo(f, xs, from, n).Err?
    ensures MapUpTo(f, xs, from, m) == MapUpTo(f, xs, from, n)
    decreases m
  {
    if m > n {
      MapFailureSticks(f, xs, from, n, m - 1);
    }
  }

  /**
   * The loop succeeds exactly when every visited element does, and then its result holds one
   * value per visited element, in order.
   */
  lemma {:induction false} MapMeaning<A, B, E>(f: A -> Result<B, E>, xs: seq<A>, from: nat, n: nat)
    requires n <= |xs|
    ensures MapUpTo(f, xs, from, n).Ok? <==> forall i :: from <= i < n ==> f(xs[i]).Ok?
    ensures MapUpTo(f, xs, from, n).Ok? ==>
              var ys := MapUpTo(f, xs, from, n).value;
              |ys| == (if n <= from then 0 else n - from) &&
              forall i :: 0 <= i < |ys| ==> f(xs[from + i]) == Ok(ys[i])
    decreases n
  {
    if n > from {
      MapMeaning(f, xs, from, n - 1);
    }
  }

  /** A failure is the error of the first visited element that fails. */
  lemma {:induction false} FirstFailure<A, B, E>(f: A -> Result<B, E>, xs: seq<A>, from: nat, n: nat)
    requires n <= |xs| && MapUpTo(f, xs, from, n).Err?
    ensures exists i :: from <= i < n && f(xs[i]) == Err(MapUpTo(f, xs, from, n).error) &&
                        forall j :: from <= j < i ==> f(xs[j]).Ok?
    decreases n
  {
    var before := MapUpTo(f, xs, from, n - 1);
    if before.Err? {
      FirstFailure(f, xs, from, n - 1);
    } else {
      MapMeaning(f, xs, from, n - 1);
      assert f(xs[n - 1]) == Err(MapUpTo(f, xs, from, n).error);
    }
  }

  /** Only the visited elements are read: lists that agree on them give the same result. */
  lemma {:induction false} ReadsOnlyVisited<A, B, E>(f: A -> Result<B, E>, xs: seq<A>, ys: seq<A>, from: nat, n: nat)
    requires n <= |xs| && n <= |ys|
    requires forall i :: from <= i < n ==> xs[i] == ys[i]
    ensures MapUpTo(f, xs, from, n) == MapUpTo(f, ys, from, n)
    decreases n
  {
    if n > from {
      ReadsOnlyVisited(f, xs, ys, from, n - 1);
    }
  }
}
