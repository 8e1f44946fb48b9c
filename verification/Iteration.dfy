/**
 Repeating a step that gets somewhere or gets smaller. A step is taken again and again from some start: while the
 state is clean, a step that does not reach the goal makes the state smaller; the goal, once reached, is kept; and
 a state that is not clean never becomes clean again, nor is it a goal.
 */
module Iteration {
  function Iterate<S>(step: S -> S, start: S, n: nat): S
    decreases n
  {
    if n == 0 then start else Iterate(step, step(start), n - 1)
  }

  ghost predicate Progresses<S(!new)>(step: S -> S, size: S -> nat, clean: S -> bool, done: S -> bool) {
    && (forall s {:trigger step(s)} :: clean(s) && !done(step(s)) ==> size(step(s)) < size(s))
    && (forall s {:trigger step(s)} :: done(s) ==> done(step(s)))
    && (forall s {:trigger step(s)} :: !clean(s) ==> !clean(step(s)))
    && (forall s {:trigger done(s)} :: done(s) ==> clean(s))
  }

  lemma {:induction false} IterateBoth<S>(step: S -> S, start: S, m: nat, n: nat)
    ensures Iterate(step, start, m + n) == Iterate(step, Iterate(step, start, m), n)
    decreases m
  {
    if m > 0 {
      IterateBoth(step, step(start), m - 1, n);
    }
  }

  lemma {:induction false} StaysDone<S(!new)>(step: S -> S, size: S -> nat, clean: S -> bool, done: S -> bool,
                                              start: S, n: nat)
    requires Progresses(step, size, clean, done) && done(start)
    ensures done(Iterate(step, start, n))
    decreases n
  {
    if n > 0 {
      StaysDone(step, size, clean, done, step(start), n - 1);
    }
  }

  lemma {:induction false} StaysUnclean<S(!new)>(step: S -> S, size: S -> nat, clean: S -> bool, done: S -> bool,
                                                 start: S, n: nat)
    requires Progresses(step, size, clean, done) && !clean(start)
    ensures !clean(Iterate(step, start, n)) && !done(Iterate(step, start, n))
    decreases n
  {
    if n > 0 {
      StaysUnclean(step, size, clean, done, step(start), n - 1);
    }
  }

  // While the state is clean, as many steps as it is large and one more reach the goal.
  lemma {:induction false} ReachesGoal<S(!new)>(step: S -> S, size: S -> nat, clean: S -> bool, done: S -> bool,
                                                start: S, n: nat)
    requires Progresses(step, size, clean, done) && n > size(start)
    requires clean(Iterate(step, start, size(start)))
    ensures done(Iterate(step, start, n))
    decreases n
  {
    var next := step(start);
    if !clean(start) {
      StaysUnclean(step, size, clean, done, start, size(start));
    } else if done(next) {
      StaysDone(step, size, clean, done, next, n - 1);
    } else {
      StillClean(step, size, clean, done, next, size(next), size(start) - 1);
      ReachesGoal(step, size, clean, done, next, n - 1);
    }
  }

  lemma StillClean<S(!new)>(step: S -> S, size: S -> nat, clean: S -> bool, done: S -> bool, start: S, m: nat, n: nat)
    requires Progresses(step, size, clean, done) && m <= n && clean(Iterate(step, start, n))
    ensures clean(Iterate(step, start, m))
  {
    IterateBoth(step, start, m, n - m);
    if !clean(Iterate(step, start, m)) {
      StaysUnclean(step, size, clean, done, Iterate(step, start, m), n - m);
    }
  }

  // The goal is reached, after more steps than the start is large, exactly when the state is clean by then; and
  // if these steps do not reach it, none do.
  lemma GoalExactlyWhen<S(!new)>(step: S -> S, size: S -> nat, clean: S -> bool, done: S -> bool, start: S, n: nat)
    requires Progresses(step, size, clean, done)
    ensures n > size(start) ==> (done(Iterate(step, start, n)) <==> clean(Iterate(step, start, size(start))))
    ensures done(Iterate(step, start, n)) ==> clean(Iterate(step, start, size(start)))
  {
    var enough := size(start);
    if clean(Iterate(step, start, enough)) {
      if n > enough { ReachesGoal(step, size, clean, done, start, n); }
    } else if n >= enough {
      IterateBoth(step, start, enough, n - enough);
      StaysUnclean(step, size, clean, done, Iterate(step, start, enough), n - enough);
    } else if done(Iterate(step, start, n)) {
      IterateBoth(step, start, n, enough - n);
      StaysDone(step, size, clean, done, Iterate(step, start, n), enough - n);
    }
  }

  // What a step keeps holds after any number of them.
  lemma {:induction false} StaysTrue<S(!new)>(step: S -> S, inv: S -> bool, start: S, n: nat)
    requires inv(start) && forall s {:trigger step(s)} :: inv(s) ==> inv(step(s))
    ensures inv(Iterate(step, start, n))
    decreases n
  {
    if n > 0 {
      StaysTrue(step, inv, step(start), n - 1);
    }
  }

  // What a clean state has whenever the next one has it, it has if a later one has it that is still clean.
  lemma {:induction false} WasTrue<S(!new)>(step: S -> S, size: S -> nat, clean: S -> bool, done: S -> bool,
                                            inv: S -> bool, start: S, n: nat)
    requires Progresses(step, size, clean, done)
    requires forall s {:trigger step(s)} :: clean(s) && inv(step(s)) ==> inv(s)
    requires clean(Iterate(step, start, n)) && inv(Iterate(step, start, n))
    ensures inv(start)
    decreases n
  {
    if n > 0 {
      WasTrue(step, size, clean, done, inv, step(start), n - 1);
      StillClean(step, size, clean, done, start, 0, n);
    }
  }
}
