/** Laws that hold along a run, and the step that first breaks one. */
module Runs {
  ghost predicate AtEveryPrefix<T(!new)>(good: seq<T> -> bool, run: seq<T>) {
    forall i | 0 <= i <= |run| :: good(run[..i])
  }

  ghost predicate AtNoStep<T(!new)>(breaks: (seq<T>, T) -> bool, run: seq<T>) {
    forall i | 0 <= i < |run| :: !breaks(run[..i], run[i])
  }

  lemma LongerPrefix<T(!new)>(good: seq<T> -> bool, run: seq<T>, step: T)
    ensures AtEveryPrefix(good, run + [step]) <==> AtEveryPrefix(good, run) && good(run + [step])
  {
    var longer := run + [step];
    assert longer[..|longer|] == longer;
    assert forall i | 0 <= i <= |run| :: run[..i] == longer[..i];
  }

  lemma LongerRun<T(!new)>(breaks: (seq<T>, T) -> bool, run: seq<T>, step: T)
    ensures AtNoStep(breaks, run + [step]) <==> AtNoStep(breaks, run) && !breaks(run, step)
  {
    var longer := run + [step];
    assert longer[..|run|] == run && longer[|run|] == step;
    assert forall i | 0 <= i < |run| :: run[..i] == longer[..i] && run[i] == longer[i];
  }

  /** A law with an exact step condition holds at every prefix exactly when no step meets it. */
  lemma {:induction false} HoldsThroughoutIff<T(!new)>(good: seq<T> -> bool, breaks: (seq<T>, T) -> bool, run: seq<T>)
    requires good([])
    requires forall before: seq<T>, step: T :: good(before) ==> (good(before + [step]) <==> !breaks(before, step))
    ensures AtEveryPrefix(good, run) <==> AtNoStep(breaks, run)
  {
    if run == [] {
      assert run[..0] == [];
    } else {
      var before, step := run[..|run| - 1], run[|run| - 1];
      assert before + [step] == run;
      HoldsThroughoutIff(good, breaks, before);
      LongerPrefix(good, before, step);
      LongerRun(breaks, before, step);
      assert AtEveryPrefix(good, before) ==> good(before[..|before|]) && before[..|before|] == before;
    }
  }
}
