/** Notions shared by several components. */
module Common {

  datatype Option<+T> = None | Some(value: T)

  function Min(a: nat, b: nat): nat {
    if a < b then a else b
  }

  function Max(a: nat, b: nat): nat {
    if a > b then a else b
  }

  function Magnitude(x: int): nat {
    if x < 0 then -x else x
  }

  // ---- sequences without repetition ------------------------------------------

  function Elements<T>(s: seq<T>): set<T> {
    set x | x in s
  }

  predicate Distinct<T(==)>(s: seq<T>) {
    forall i, j :: 0 <= i < j < |s| ==> s[i] != s[j]
  }

  lemma {:induction false} DistinctCount<T>(s: seq<T>)
    requires Distinct(s)
    ensures |Elements(s)| == |s|
  {
    if s != [] {
      var init, last := s[..|s| - 1], s[|s| - 1];
      DistinctCount(init);
      ElementsAppend(init, last);
      assert s == init + [last];
      assert last !in init;
    }
  }

  lemma ElementsAppend<T>(s: seq<T>, x: T)
    ensures Elements(s + [x]) == Elements(s) + {x}
  {}

  // ---- sums over a sequence --------------------------------------------------

  function Sum<T>(xs: seq<T>, f: T -> nat): nat {
    if xs == [] then 0 else Sum(xs[..|xs| - 1], f) + f(xs[|xs| - 1])
  }

  lemma {:induction false} SumUpdate<T>(xs: seq<T>, f: T -> nat, i: nat, x: T)
    requires i < |xs|
    ensures Sum(xs[i := x], f) == Sum(xs, f) - f(xs[i]) + f(x)
  {
    var n := |xs| - 1;
    if i < n {
      SumUpdate(xs[..n], f, i, x);
      assert xs[i := x][..n] == xs[..n][i := x];
    } else {
      assert xs[i := x][..n] == xs[..n];
    }
  }

  lemma SumAppend<T>(xs: seq<T>, f: T -> nat, x: T)
    ensures Sum(xs + [x], f) == Sum(xs, f) + f(x)
  {
    assert (xs + [x])[..|xs|] == xs;
  }

  lemma {:induction false} SumZero<T>(xs: seq<T>, f: T -> nat)
    ensures Sum(xs, f) == 0 <==> forall i :: 0 <= i < |xs| ==> f(xs[i]) == 0
  {
    if xs != [] {
      SumZero(xs[..|xs| - 1], f);
      assert forall i :: 0 <= i < |xs| - 1 ==> xs[i] == xs[..|xs| - 1][i];
    }
  }

  // ---- schedules of a transition system --------------------------------------

  /** The state after a schedule, if each of its steps is enabled when its turn comes. */
  function RunSchedule<S, A>(next: (S, A) -> Option<S>, s: S, steps: seq<A>): Option<S> {
    if steps == [] then Some(s)
    else
      var before := RunSchedule(next, s, steps[..|steps| - 1]);
      if before.Some? then next(before.value, steps[|steps| - 1]) else None
  }

  /** Two schedules, one after the other. */
  lemma {:induction false} ScheduleConcat<S, A>(next: (S, A) -> Option<S>, s: S, a: seq<A>, b: seq<A>)
    requires RunSchedule(next, s, a).Some?
    ensures RunSchedule(next, s, a + b) == RunSchedule(next, RunSchedule(next, s, a).value, b)
  {
    if b == [] {
      assert a + b == a;
    } else {
      assert (a + b)[..|a + b| - 1] == a + b[..|b| - 1];
      ScheduleConcat(next, s, a, b[..|b| - 1]);
    }
  }

  lemma ScheduleFirst<S, A>(next: (S, A) -> Option<S>, s: S, step: A, rest: seq<A>)
    requires next(s, step).Some?
    ensures RunSchedule(next, s, [step] + rest) == RunSchedule(next, next(s, step).value, rest)
  {
    assert [step][..0] == [];
    ScheduleConcat(next, s, [step], rest);
  }

  lemma ScheduleLast<S, A>(next: (S, A) -> Option<S>, s: S, steps: seq<A>, step: A)
    requires RunSchedule(next, s, steps).Some?
    ensures RunSchedule(next, s, steps + [step]) == next(RunSchedule(next, s, steps).value, step)
  {
    assert (steps + [step])[..|steps|] == steps;
  }
}
