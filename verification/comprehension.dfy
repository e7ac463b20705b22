/** The shape shared by the response mapper's filtered loops: walk a list,
    ask a guard of each element whether to keep it, and map every kept
    element. Both the guard and the mapping may raise, and the first
    exception ends the walk. */
module Comprehension {
  import opened Wrappers
  import opened Json

  /** `[f(x) for x in xs if keep(x)]`, with the errors of `keep` and `f`
      propagated in list order: a failed walk reports the error of the
      first element it cannot get past. */
  function Collect<T>(xs: seq<Json>, keep: Json -> Result<bool>, f: Json -> Result<T>): (r: Result<seq<T>>)
    ensures r.Failure? ==> exists i :: FirstFailure(xs, i, keep, f, r.error)
  {
    if |xs| == 0 then Success([])
    else if keep(xs[0]).Failure? then
      assert FirstFailure(xs, 0, keep, f, keep(xs[0]).error);
      Failure(keep(xs[0]).error)
    else if keep(xs[0]).value && f(xs[0]).Failure? then
      assert FirstFailure(xs, 0, keep, f, f(xs[0]).error);
      Failure(f(xs[0]).error)
    else
      var rest := Collect(xs[1..], keep, f);
      if rest.Failure? then
        FailureShift(xs, keep, f, rest.error);
        Failure(rest.error)
      else if keep(xs[0]).value then
        Success([f(xs[0]).value] + rest.value)
      else
        rest
  }

  /** Element `i` is the first the walk cannot get past, and raises `e`:
      every earlier element passes, and either the guard of element `i`
      raises `e` or the guard keeps it and its mapping raises `e`. */
  predicate FirstFailure<T>(xs: seq<Json>, i: int, keep: Json -> Result<bool>, f: Json -> Result<T>, e: Error) {
    && 0 <= i < |xs|
    && (forall j :: 0 <= j < i ==> Passes(xs[j], keep, f))
    && (keep(xs[i]) == Failure(e) || (keep(xs[i]) == Success(true) && f(xs[i]) == Failure(e)))
  }

  /** A first failure in the tail, behind a head that passes, is the first
      failure of the whole list. */
  lemma FailureShift<T>(xs: seq<Json>, keep: Json -> Result<bool>, f: Json -> Result<T>, e: Error)
    requires |xs| > 0 && Passes(xs[0], keep, f)
    requires exists i :: FirstFailure(xs[1..], i, keep, f, e)
    ensures exists i :: FirstFailure(xs, i, keep, f, e)
  {
    var i :| FirstFailure(xs[1..], i, keep, f, e);
    forall j | 0 <= j < i + 1
      ensures Passes(xs[j], keep, f)
    {
      if j > 0 {
        assert xs[j] == xs[1..][j - 1];
      }
    }
    assert xs[i + 1] == xs[1..][i];
    assert FirstFailure(xs, i + 1, keep, f, e);
  }

  /** The exception a step of straight-line code raises, `None` when the
      step completes. */
  function Raised<T>(r: Result<T>): Option<Error> {
    if r.Success? then None else Some(r.error)
  }

  /** A run of steps, each either completing or raising, completes when no
      step raises. */
  predicate Completes(steps: seq<Option<Error>>) {
    forall m :: 0 <= m < |steps| ==> steps[m].None?
  }

  /** Step `n` is the first of a run to raise, and it raises `e`: Python
      executes the steps in order and the first exception ends the run. */
  predicate FailsAt(steps: seq<Option<Error>>, n: int, e: Error) {
    && 0 <= n < |steps|
    && (forall m :: 0 <= m < n ==> steps[m].None?)
    && steps[n] == Some(e)
  }

  /** A run has at most one first failing step, so the exception it raises
      is determined. */
  lemma FailsAtUnique(steps: seq<Option<Error>>, n1: int, e1: Error, n2: int, e2: Error)
    requires FailsAt(steps, n1, e1) && FailsAt(steps, n2, e2)
    ensures n1 == n2 && e1 == e2
  {
  }

  /** A first failure behind a completing first step moves one place on. */
  lemma FailsAtShift(steps: seq<Option<Error>>, n: int, e: Error)
    requires |steps| > 0 && steps[0].None?
    requires FailsAt(steps[1..], n, e)
    ensures FailsAt(steps, n + 1, e)
  {
    forall m | 0 <= m < n + 1
      ensures steps[m].None?
    {
      if m > 0 {
        assert steps[m] == steps[1..][m - 1];
      }
    }
  }

  /** A first failure behind a completing first step is the first failure
      of the whole run. */
  lemma FailureMovesOn(steps: seq<Option<Error>>, e: Error)
    requires |steps| > 0 && steps[0].None?
    requires exists n :: FailsAt(steps[1..], n, e)
    ensures exists n :: FailsAt(steps, n, e)
  {
    var n :| FailsAt(steps[1..], n, e);
    FailsAtShift(steps, n, e);
  }

  /** The elements the guard keeps, in order. */
  function Kept(xs: seq<Json>, keep: Json -> Result<bool>): (r: seq<Json>)
    ensures |r| <= |xs|
    ensures forall x :: x in r ==> x in xs && keep(x) == Success(true)
  {
    if |xs| == 0 then []
    else (if keep(xs[0]) == Success(true) then [xs[0]] else []) + Kept(xs[1..], keep)
  }

  /** An element the walk gets past: the guard answers, and a kept element maps. */
  predicate Passes<T>(x: Json, keep: Json -> Result<bool>, f: Json -> Result<T>) {
    keep(x).Success? && (keep(x).value ==> f(x).Success?)
  }

  /** The walk completes exactly when every element passes. */
  lemma {:induction false} CollectSucceeds<T>(xs: seq<Json>, keep: Json -> Result<bool>, f: Json -> Result<T>)
    ensures Collect(xs, keep, f).Success? <==> forall i :: 0 <= i < |xs| ==> Passes(xs[i], keep, f)
    decreases |xs|
  {
    if |xs| > 0 {
      CollectSucceeds(xs[1..], keep, f);
      assert forall i :: 1 <= i < |xs| ==> xs[i] == xs[1..][i - 1];
    }
  }

  /** A completed walk yields one result per kept element: `f` of it, in order. */
  lemma {:induction false} CollectEntries<T>(xs: seq<Json>, keep: Json -> Result<bool>, f: Json -> Result<T>)
    requires Collect(xs, keep, f).Success?
    ensures |Collect(xs, keep, f).value| == |Kept(xs, keep)|
    ensures forall i :: 0 <= i < |Kept(xs, keep)| ==> f(Kept(xs, keep)[i]) == Success(Collect(xs, keep, f).value[i])
    decreases |xs|
  {
    if |xs| > 0 {
      CollectEntries(xs[1..], keep, f);
      var rest := Collect(xs[1..], keep, f).value;
      if keep(xs[0]) == Success(true) {
        var y := f(xs[0]).value;
        assert Collect(xs, keep, f).value == [y] + rest;
        assert Kept(xs, keep) == [xs[0]] + Kept(xs[1..], keep);
        assert forall i :: 0 < i < 1 + |rest| ==> ([y] + rest)[i] == rest[i - 1];
      } else {
        assert Collect(xs, keep, f).value == rest;
        assert Kept(xs, keep) == Kept(xs[1..], keep);
      }
    }
  }

  lemma {:induction false} KeptConcat(a: seq<Json>, b: seq<Json>, keep: Json -> Result<bool>)
    ensures Kept(a + b, keep) == Kept(a, keep) + Kept(b, keep)
    decreases |a|
  {
    if |a| == 0 {
      assert a + b == b;
    } else {
      assert (a + b)[0] == a[0];
      assert (a + b)[1..] == a[1..] + b;
      KeptConcat(a[1..], b, keep);
    }
  }

  /** A walk over a concatenation completes exactly when both halves do. */
  lemma CollectSplit<T>(a: seq<Json>, b: seq<Json>, keep: Json -> Result<bool>, f: Json -> Result<T>)
    ensures Collect(a + b, keep, f).Success? <==> Collect(a, keep, f).Success? && Collect(b, keep, f).Success?
  {
    CollectSucceeds(a + b, keep, f);
    CollectSucceeds(a, keep, f);
    CollectSucceeds(b, keep, f);
    assert forall i :: 0 <= i < |a| ==> (a + b)[i] == a[i];
    assert forall i :: 0 <= i < |b| ==> (a + b)[|a| + i] == b[i];
  }

  /** Walking two lists one after the other is walking their concatenation. */
  lemma CollectConcat<T>(a: seq<Json>, b: seq<Json>, keep: Json -> Result<bool>, f: Json -> Result<T>)
    requires Collect(a, keep, f).Success? && Collect(b, keep, f).Success?
    ensures Collect(a + b, keep, f) == Success(Collect(a, keep, f).value + Collect(b, keep, f).value)
  {
    CollectSplit(a, b, keep, f);
    KeptConcat(a, b, keep);
    CollectEntries(a + b, keep, f);
    CollectEntries(a, keep, f);
    CollectEntries(b, keep, f);
    var r := Collect(a + b, keep, f).value;
    var ra := Collect(a, keep, f).value;
    var rb := Collect(b, keep, f).value;
    var ka := Kept(a, keep);
    var kb := Kept(b, keep);
    forall i | 0 <= i < |r|
      ensures r[i] == (ra + rb)[i]
    {
      assert f((ka + kb)[i]) == Success(r[i]);
      if i < |ra| {
        assert (ka + kb)[i] == ka[i];
      } else {
        assert (ka + kb)[i] == kb[i - |ra|];
      }
    }
    assert |r| == |ra + rb|;
    assert r == ra + rb;
  }
}
