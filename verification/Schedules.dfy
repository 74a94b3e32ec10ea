/**
  Interleaved runs: a schedule picks the next action, and an action that is not
  possible when its turn comes changes nothing.
 */
module Schedules {
  import opened Wrappers

  function Execute<S, A>(next: (S, A) -> Option<S>, start: S, schedule: seq<A>): S {
    if schedule == [] then start
    else
      var before := Execute(next, start, schedule[..|schedule| - 1]);
      match next(before, schedule[|schedule| - 1])
      case Some(after) => after
      case None => before
  }

  ghost predicate Keeps<S(!new), A(!new)>(next: (S, A) -> Option<S>, inv: S -> bool) {
    forall s, a :: inv(s) && next(s, a).Some? ==> inv(next(s, a).value)
  }

  /** What every step keeps holds after every schedule. */
  lemma {:induction false} Always<S(!new), A(!new)>(
      next: (S, A) -> Option<S>, inv: S -> bool, start: S, schedule: seq<A>)
    requires Keeps(next, inv) && inv(start)
    ensures inv(Execute(next, start, schedule))
    decreases |schedule|
  {
    if schedule != [] {
      Always(next, inv, start, schedule[..|schedule| - 1]);
    }
  }

  function Advance<S, A>(next: (S, A) -> Option<S>, s: S, action: A): S {
    match next(s, action)
    case Some(after) => after
    case None => s
  }

  lemma {:induction false} FirstStep<S, A>(next: (S, A) -> Option<S>, start: S, action: A, rest: seq<A>)
    ensures Execute(next, start, [action] + rest) == Execute(next, Advance(next, start, action), rest)
    decreases |rest|
  {
    var schedule := [action] + rest;
    if rest != [] {
      assert schedule[..|schedule| - 1] == [action] + rest[..|rest| - 1];
      FirstStep(next, start, action, rest[..|rest| - 1]);
    } else {
      assert schedule[..0] == [];
    }
  }

  lemma {:induction false} TwoParts<S, A>(next: (S, A) -> Option<S>, start: S, first: seq<A>, second: seq<A>)
    ensures Execute(next, start, first + second) == Execute(next, Execute(next, start, first), second)
    decreases |second|
  {
    if second == [] {
      assert first + second == first;
    } else {
      var init := second[..|second| - 1];
      assert (first + second)[..|first + second| - 1] == first + init;
      TwoParts(next, start, first, init);
    }
  }

  lemma ThreeSteps<S, A>(next: (S, A) -> Option<S>, s: S, a: A, b: A, c: A)
    ensures Execute(next, s, [a, b, c]) == Advance(next, Advance(next, Advance(next, s, a), b), c)
  {
    FirstStep(next, s, a, [b, c]);
    FirstStep(next, Advance(next, s, a), b, [c]);
    FirstStep(next, Advance(next, Advance(next, s, a), b), c, []);
    assert [a] + [b, c] == [a, b, c] && [b] + [c] == [b, c] && [c] + [] == [c];
  }
}
