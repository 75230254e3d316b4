/** Failures of rollup items: when a row is given up on, and that it stays so until it is reset. */
module RollupQueue {
  import opened Options
  import opened Checkpoints

  /** n rounds in which a worker claims the row and fails. */
  function Rounds(w: int, c: int, n: nat): seq<Step> {
    if n == 0 then [] else [Claim(w, c), Fail(w)] + Rounds(w, c, n - 1)
  }

  lemma ClaimAndFail(s: State, w: int, c: int)
    requires w !in s.workers && c in s.queue && s.queue[c].failed < 10
    ensures Enabled(s, Claim(w, c)) && Enabled(Next(s, Claim(w, c)), Fail(w))
    ensures Next(Next(s, Claim(w, c)), Fail(w))
         == s.(queue := s.queue[c := Item(None, s.queue[c].failed + 1)], tokens := s.tokens + 1)
  {
    var a := s.(queue := s.queue[c := Item(Some(s.tokens), s.queue[c].failed)], tokens := s.tokens + 1,
                workers := s.workers[w := Worker(c, s.tokens, Claimed)]);
    assert Next(s, Claim(w, c)) == a;
    assert a.workers - {w} == s.workers;
    assert a.queue[c := Item(None, s.queue[c].failed + 1)] == s.queue[c := Item(None, s.queue[c].failed + 1)];
  }

  lemma {:induction false} OneRound(s: State, w: int, c: int)
    requires w !in s.workers && c in s.queue && s.queue[c].failed < 10
    ensures Run(s, [Claim(w, c), Fail(w)])
         == s.(queue := s.queue[c := Item(None, s.queue[c].failed + 1)], tokens := s.tokens + 1)
  {
    ClaimAndFail(s, w, c);
    TwoSteps(s, Claim(w, c), Fail(w));
  }

  lemma {:induction false} TwoSteps(s: State, a: Step, b: Step)
    requires Enabled(s, a) && Enabled(Next(s, a), b)
    ensures Run(s, [a, b]) == Next(Next(s, a), b)
  {
    assert [a, b][1..] == [b] && [b][1..] == [];
    assert Run(Next(s, a), [b]) == Run(Next(Next(s, a), b), []);
  }

  lemma {:induction false} RunConcat(s: State, a: seq<Step>, b: seq<Step>)
    ensures Run(s, a + b) == Run(Run(s, a), b)
    decreases |a|
  {
    if |a| == 0 {
      assert a + b == b;
    } else {
      assert (a + b)[1..] == a[1..] + b;
      RunConcat(if Enabled(s, a[0]) then Next(s, a[0]) else s, a[1..], b);
    }
  }

  /** A fresh row that a worker keeps failing on counts every round, can be claimed through the first ten, and
      after the tenth no longer: it is not pending, so it holds up no rebuild and no worker takes it. */
  lemma {:induction false} GivenUpAfterTen(s: State, w: int, c: int, n: nat)
    requires w !in s.workers && c in s.queue && s.queue[c].failed + n <= 10
    ensures var t := Run(s, Rounds(w, c, n));
            && t.workers == s.workers && c in t.queue && t.queue[c].failed == s.queue[c].failed + n
            && (n > 0 ==> t.queue[c].claim.None?)
            && (Enabled(t, Claim(w, c)) <==> t.queue[c].failed < 10)
            && (s.rebuild.None? ==> (Enabled(t, Lock(c)) <==> t.queue[c].failed == 10))
    decreases n
  {
    if n > 0 {
      OneRound(s, w, c);
      RunConcat(s, [Claim(w, c), Fail(w)], Rounds(w, c, n - 1));
      GivenUpAfterTen(Run(s, [Claim(w, c), Fail(w)]), w, c, n - 1);
    }
  }

  ghost predicate GivenUp(s: State, c: int) {
    c in s.queue && s.queue[c].failed >= 10 && s.queue[c].claim.None?
  }

  lemma StepKeepsGivenUp(s: State, step: Step, c: int)
    requires GivenUp(s, c) && Enabled(s, step) && step != Reset(c)
    ensures GivenUp(Next(s, step), c)
  {
  }

  /** A row given up on stays in the queue, unclaimed, through every run that does not reset it. */
  lemma {:induction false} GivenUpStays(s: State, steps: seq<Step>, c: int)
    requires GivenUp(s, c) && forall i :: 0 <= i < |steps| ==> steps[i] != Reset(c)
    ensures GivenUp(Run(s, steps), c)
    decreases |steps|
  {
    if |steps| > 0 {
      if Enabled(s, steps[0]) {
        StepKeepsGivenUp(s, steps[0], c);
        GivenUpStays(Next(s, steps[0]), steps[1..], c);
      } else {
        GivenUpStays(s, steps[1..], c);
      }
    }
  }

  /** A worker whose claim has been taken over or cleared changes nothing in the queue by failing. */
  lemma StrangerFails(s: State, w: int)
    requires w in s.workers && !(s.workers[w].cls in s.queue && s.queue[s.workers[w].cls].claim == Some(s.workers[w].token))
    ensures Next(s, Fail(w)) == s.(workers := s.workers - {w})
  {
  }
}
