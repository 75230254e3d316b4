/** Exactly when an operator's rebuild of a checkpoint lasts, seen from its overwrite and from the moment
    the pending rows were counted, and the runs in which it does not. */
module Rebuilds {
  import opened Options
  import opened Checkpoints

  // ---------------------------------------------------------------- exactly when a rebuild lasts

  ghost predicate Wrong(s: State, c: int) {
    Balance(s, c) != Recompute(s.entries, c)
  }

  ghost predicate CanGoWrong(s: State, c: int) {
    exists steps: seq<Step> :: Wrong(Run(s, steps), c)
  }

  lemma WrongNow(s: State, c: int)
    requires Wrong(s, c)
    ensures CanGoWrong(s, c)
  {
    assert Run(s, []) == s;
  }

  lemma WrongLater(s: State, step: Step, c: int)
    requires Enabled(s, step) && CanGoWrong(Next(s, step), c)
    ensures CanGoWrong(s, c)
  {
    var rest :| Wrong(Run(Next(s, step), rest), c);
    assert ([step] + rest)[1..] == rest;
    assert Run(s, [step] + rest) == Run(Next(s, step), rest);
  }

  lemma AppendOne(es: seq<Entry>, e: Entry, c: int, at: nat)
    requires Increasing(es) && e.id > MaxId(es)
    ensures Increasing(es + [e]) && MaxId(es + [e]) == e.id
    ensures SumUpTo(es + [e], c, at) == SumUpTo(es, c, at) + if e.cls == c && e.id <= at then e.value else 0.0
    ensures SumAfter(es + [e], c, at) == SumAfter(es, c, at) + if e.cls == c && e.id > at then e.value else 0.0
    ensures Recompute(es + [e], c) == Recompute(es, c) + if e.cls == c then e.value else 0.0
  {
    assert (es + [e])[..|es|] == es;
    if |es| > 0 { assert forall i :: 0 <= i < |es| - 1 ==> es[i].id < es[|es| - 1].id; }
  }

  /** Writing an unsound value goes wrong: at once, or with the next post below its watermark. */
  lemma BadUpsert(s: State, w: int)
    requires WellFormed(s) && s.rebuild.None? && w in s.workers && s.workers[w].phase.Summed?
    requires !Sound(s.entries, s.workers[w].cls, s.workers[w].phase.next)
    requires Stored(s, s.workers[w].cls).last < s.workers[w].phase.next.last
    ensures CanGoWrong(s, s.workers[w].cls)
  {
    var Worker(c, _, phase) := s.workers[w];
    var t := Next(s, Upsert(w));
    assert Stored(t, c) == phase.next;
    SumsSplit(t.entries, c, phase.next.last);
    if !Wrong(t, c) {
      var e := Entry(MaxId(s.entries) + 1, c, 1.0);
      AppendOne(s.entries, e, c, phase.next.last);
      WrongNow(Next(t, Post([e])), c);
      WrongLater(t, Post([e]), c);
    } else {
      WrongNow(t, c);
    }
    WrongLater(s, Upsert(w), c);
  }

  lemma BadSum(es: seq<Entry>, e: Entry, c: int, copy: Checkpoint)
    requires Increasing(es) && e.id > MaxId(es) && e.id > copy.last && copy.balance != SumUpTo(es, c, copy.last)
    ensures Increasing(es + [e]) && MaxId(es + [e]) == e.id
    ensures !Sound(es + [e], c, Checkpoint(copy.balance + SumAfter(es + [e], c, copy.last), e.id))
  {
    AppendOne(es, e, c, copy.last);
    SumsSplit(es + [e], c, copy.last);
    DimMaxBelow(es + [e], c);
    UpToMax(es + [e], c, e.id);
  }

  /** A read copy with a wrong balance goes wrong after one post. */
  lemma BadBalance(s: State, w: int)
    requires WellFormed(s) && s.rebuild.None? && w in s.workers && s.workers[w].phase.HasRead?
    requires s.workers[w].phase.copy.balance != SumUpTo(s.entries, s.workers[w].cls, s.workers[w].phase.copy.last)
    requires Stored(s, s.workers[w].cls).last <= MaxId(s.entries)
    ensures CanGoWrong(s, s.workers[w].cls)
  {
    var Worker(c, _, phase) := s.workers[w];
    var last := phase.copy.last;
    var e := Entry((if last > MaxId(s.entries) then last else MaxId(s.entries)) + 1, c, 1.0);
    BadSum(s.entries, e, c, phase.copy);
    BadAfterPost(s, w, e);
  }

  lemma BadAfterPost(s: State, w: int, e: Entry)
    requires WellFormed(s) && s.rebuild.None? && w in s.workers && s.workers[w].phase.HasRead?
    requires Increasing(s.entries + [e]) && MaxId(s.entries + [e]) == e.id
    requires e.id > s.workers[w].phase.copy.last && e.id > Stored(s, s.workers[w].cls).last
    requires var copy := s.workers[w].phase.copy;
             !Sound(s.entries + [e], s.workers[w].cls,
                    Checkpoint(copy.balance + SumAfter(s.entries + [e], s.workers[w].cls, copy.last), e.id))
    ensures CanGoWrong(s, s.workers[w].cls)
  {
    var t := Next(s, Post([e]));
    BadSummed(t, w);
    WrongLater(s, Post([e]), s.workers[w].cls);
  }

  lemma BadSummed(t: State, w: int)
    requires WellFormed(t) && t.rebuild.None? && w in t.workers && t.workers[w].phase.HasRead?
    requires MaxId(t.entries) > t.workers[w].phase.copy.last && MaxId(t.entries) > Stored(t, t.workers[w].cls).last
    requires Summing(t, w).Summed? && !Sound(t.entries, t.workers[w].cls, Summing(t, w).next)
    ensures CanGoWrong(t, t.workers[w].cls)
  {
    var c, p := t.workers[w].cls, Summing(t, w);
    var u := Next(t, SumSince(w));
    assert u == To(t, w, p);
    BadUpsert(u, w);
    WrongLater(t, SumSince(w), c);
  }

  lemma BadCopy(s: State, w: int)
    requires WellFormed(s) && s.rebuild.None? && w in s.workers && s.workers[w].phase.HasRead?
    requires !Sound(s.entries, s.workers[w].cls, s.workers[w].phase.copy)
    requires Stored(s, s.workers[w].cls).last <= MaxId(s.entries)
    ensures CanGoWrong(s, s.workers[w].cls)
  {
    var Worker(c, _, phase) := s.workers[w];
    if phase.copy.balance != SumUpTo(s.entries, c, phase.copy.last) {
      BadBalance(s, w);
    } else {
      var e := Entry(MaxId(s.entries) + 1, c, 1.0);
      AppendOne(s.entries, e, c, phase.copy.last);
      BadBalance(Next(s, Post([e])), w);
      WrongLater(s, Post([e]), c);
    }
  }

  /** A rebuild over an arbitrary checkpoint makes checkpoint plus later entries equal the recompute at
      once, and keeps it so through every later run, if and only if no rollup worker of that
      classification still holds an unsound copy the monotonic upsert would let through. */
  lemma RebuildExact(s: State, c: int)
    requires WellFormed(s) && Enabled(s, Overwrite) && c == s.rebuild.value.cls
    ensures !Wrong(Next(s, Overwrite), c)
    ensures !CanGoWrong(Next(s, Overwrite), c)
            <==> forall w :: w in s.workers && s.workers[w].cls == c ==> CopySafe(s.entries, s.workers[w])
  {
    var t := Next(s, Overwrite);
    DimMaxBelow(s.entries, c);
    UpToMax(s.entries, c, DimMax(s.entries, c));
    SumsSplit(t.entries, c, Stored(t, c).last);
    if w :| w in s.workers && s.workers[w].cls == c && !CopySafe(s.entries, s.workers[w]) {
      if s.workers[w].phase.HasRead? { BadCopy(t, w); } else { BadUpsert(t, w); }
    } else {
      assert Good(t, c);
      forall steps: seq<Step> ensures !Wrong(Run(t, steps), c) {
        RunKeepsBalance(t, steps, c);
      }
    }
  }

  /** No copy, a sound copy, or a finished sum whose watermark does not pass the rebuilt one. */
  ghost predicate CopySafe(es: seq<Entry>, w: Worker) {
    match w.phase
    case HasRead(copy) => Sound(es, w.cls, copy)
    case Summed(next) => Sound(es, w.cls, next) || next.last <= DimMax(es, w.cls)
    case _ => true
  }

  // ---------------------------------------------------------------- from the lock on

  // Pending rows are counted once, right after the lock; what happens between that and the overwrite
  // is the window.

  ghost predicate InWindow(window: seq<Step>) {
    forall i :: 0 <= i < |window| ==> !window[i].Overwrite? && !window[i].Abandon?
  }

  /** Some window after the lock, the overwrite and some later run end with a wrong balance. */
  ghost predicate CanSpoil(t: State, c: int) {
    exists window: seq<Step> :: SpoiledBy(t, c, window)
  }

  ghost predicate SpoiledBy(t: State, c: int, window: seq<Step>) {
    && InWindow(window) && Enabled(Run(t, window), Overwrite)
    && CanGoWrong(Next(Run(t, window), Overwrite), c)
  }

  ghost predicate CopiesSafe(s: State, c: int) {
    forall w :: w in s.workers && s.workers[w].cls == c ==> CopySafe(s.entries, s.workers[w])
  }

  /** Somebody may still read the checkpoint: a worker about to, one about to enqueue the row again, or
      a row given up on that an operator may reset. */
  ghost predicate Exposed(s: State, c: int) {
    || c in s.queue
    || exists w :: w in s.workers && s.workers[w].cls == c && MayRead(s.entries, s.workers[w])
  }

  ghost predicate MayRead(es: seq<Entry>, w: Worker) {
    w.phase.Claimed? || (w.phase.Marked? && DimMax(es, w.cls) > w.phase.upto)
  }

  /** A rebuild of this classification is under way. */
  ghost predicate Rebuilding(s: State, c: int) {
    WellFormed(s) && s.rebuild.Some? && s.rebuild.value.cls == c
  }

  lemma RebuildingGoesOn(s: State, step: Step, c: int)
    requires Rebuilding(s, c) && Enabled(s, step) && !step.Overwrite? && !step.Abandon?
    ensures Rebuilding(Next(s, step), c) && Next(s, step).entries == s.entries
  {
    StepKeepsWellFormed(s, step);
  }

  /** With nobody able to read, everybody's copy stays safe until the overwrite. */
  lemma QuietStep(s: State, step: Step, c: int)
    requires Rebuilding(s, c) && Enabled(s, step) && !step.Overwrite? && !step.Abandon?
    requires CopiesSafe(s, c) && !Exposed(s, c)
    ensures CopiesSafe(Next(s, step), c) && !Exposed(Next(s, step), c)
  {
    var t := Next(s, step);
    RebuildingGoesOn(s, step, c);
    forall w | w in t.workers && t.workers[w].cls == c
      ensures CopySafe(t.entries, t.workers[w]) && !MayRead(t.entries, t.workers[w])
    {
      assert w in s.workers && s.workers[w].cls == c && CopySafe(s.entries, s.workers[w]) && !MayRead(s.entries, s.workers[w]);
      if step == SumSince(w) { SumIsSafe(s, w); }
    }
  }

  lemma SumIsSafe(s: State, w: int)
    requires WellFormed(s) && w in s.workers && s.workers[w].phase.HasRead? && CopySafe(s.entries, s.workers[w])
    ensures CopySafe(s.entries, s.workers[w].(phase := Summing(s, w)))
  {
    var Worker(c, _, phase) := s.workers[w];
    SumsSplit(s.entries, c, phase.copy.last);
    DimMaxBelow(s.entries, c);
    UpToMax(s.entries, c, MaxId(s.entries));
  }

  lemma {:induction false} QuietWindow(s: State, window: seq<Step>, c: int)
    requires Rebuilding(s, c) && InWindow(window) && CopiesSafe(s, c) && !Exposed(s, c)
    ensures Rebuilding(Run(s, window), c) && CopiesSafe(Run(s, window), c)
    decreases |window|
  {
    if |window| > 0 {
      assert InWindow(window[1..]);
      if Enabled(s, window[0]) {
        RebuildingGoesOn(s, window[0], c);
        QuietStep(s, window[0], c);
        QuietWindow(Next(s, window[0]), window[1..], c);
      } else {
        QuietWindow(s, window[1..], c);
      }
    }
  }

  lemma {:induction false} GoodWindow(s: State, window: seq<Step>, c: int)
    requires Rebuilding(s, c) && InWindow(window) && Good(s, c)
    ensures Rebuilding(Run(s, window), c) && Good(Run(s, window), c)
    decreases |window|
  {
    if |window| > 0 {
      assert InWindow(window[1..]);
      if Enabled(s, window[0]) {
        RebuildingGoesOn(s, window[0], c);
        StepKeepsGood(s, window[0], c);
        GoodWindow(Next(s, window[0]), window[1..], c);
      } else {
        GoodWindow(s, window[1..], c);
      }
    }
  }

  lemma NotSpoiled(s: State, c: int, window: seq<Step>)
    requires Rebuilding(s, c) && InWindow(window)
    requires Good(s, c) || (CopiesSafe(s, c) && !Exposed(s, c))
    ensures !SpoiledBy(s, c, window)
  {
    if Enabled(Run(s, window), Overwrite) {
      if Good(s, c) {
        GoodWindow(s, window, c);
        OverwriteKeepsGood(Run(s, window), c);
        StepKeepsWellFormed(Run(s, window), Overwrite);
        GoodStays(Next(Run(s, window), Overwrite), c);
      } else {
        QuietWindow(s, window, c);
        RebuildExact(Run(s, window), c);
      }
    }
  }

  lemma GoodStays(s: State, c: int)
    requires WellFormed(s) && Good(s, c)
    ensures !CanGoWrong(s, c)
  {
    forall steps: seq<Step> ensures !Wrong(Run(s, steps), c) {
      RunKeepsBalance(s, steps, c);
    }
  }

  lemma SpoilLater(s: State, step: Step, c: int)
    requires Enabled(s, step) && !step.Overwrite? && !step.Abandon? && CanSpoil(Next(s, step), c)
    ensures CanSpoil(s, c)
  {
    var rest :| SpoiledBy(Next(s, step), c, rest);
    var window := [step] + rest;
    assert window[1..] == rest;
    assert Run(s, window) == Run(Next(s, step), rest);
    assert forall i :: 0 <= i < |window| ==> window[i] == step || window[i] == rest[i - 1];
    assert SpoiledBy(s, c, window);
  }

  /** An unsafe copy in hand spoils the rebuild, whatever comes in between. */
  lemma UnsafeSpoils(s: State, c: int)
    requires Rebuilding(s, c) && !CopiesSafe(s, c)
    ensures CanSpoil(s, c)
  {
    if s.rebuild.value.Ready? {
      RebuildExact(s, c);
      assert Run(s, []) == s;
      assert SpoiledBy(s, c, []);
    } else {
      var t := Next(s, Recomputed);
      assert t.workers == s.workers && t.entries == s.entries;
      RebuildExact(t, c);
      assert Run(t, []) == t;
      assert SpoiledBy(t, c, []);
      SpoilLater(s, Recomputed, c);
    }
  }

  lemma ReadSpoils(s: State, w: int, c: int)
    requires Rebuilding(s, c) && !Sound(s.entries, c, Stored(s, c))
    requires w in s.workers && s.workers[w].cls == c && s.workers[w].phase.Claimed?
    ensures CanSpoil(s, c)
  {
    var t := Next(s, Read(w));
    RebuildingGoesOn(s, Read(w), c);
    assert t.workers[w].cls == c && !CopySafe(t.entries, t.workers[w]);
    UnsafeSpoils(t, c);
    SpoilLater(s, Read(w), c);
  }

  lemma {:induction false} IdBound(ids: set<int>) returns (n: int)
    ensures forall i :: i in ids ==> i < n
    decreases |ids|
  {
    n := 0;
    if i :| i in ids {
      n := IdBound(ids - {i});
      assert forall j :: j in ids ==> j == i || j in ids - {i};
      if n <= i { n := i + 1; }
    }
  }

  lemma PendingSpoils(s: State, c: int)
    requires Rebuilding(s, c) && !Sound(s.entries, c, Stored(s, c)) && Pending(s, c)
    ensures CanSpoil(s, c)
  {
    var w := IdBound(s.workers.Keys);
    RebuildingGoesOn(s, Claim(w, c), c);
    ReadSpoils(Next(s, Claim(w, c)), w, c);
    SpoilLater(s, Claim(w, c), c);
  }

  /** With an unsound checkpoint, whoever may read it spoils the rebuild. */
  lemma ExposedSpoils(s: State, c: int)
    requires Rebuilding(s, c) && !Sound(s.entries, c, Stored(s, c)) && Exposed(s, c)
    ensures CanSpoil(s, c)
  {
    if c in s.queue {
      RebuildingGoesOn(s, Reset(c), c);
      PendingSpoils(Next(s, Reset(c)), c);
      SpoilLater(s, Reset(c), c);
    } else {
      var w :| w in s.workers && s.workers[w].cls == c && MayRead(s.entries, s.workers[w]);
      if s.workers[w].phase.Claimed? {
        ReadSpoils(s, w, c);
      } else {
        RebuildingGoesOn(s, Recheck(w), c);
        PendingSpoils(Next(s, Recheck(w)), c);
        SpoilLater(s, Recheck(w), c);
      }
    }
  }

  /** A safe but unsound sum may first be written over a sound checkpoint that lags behind it. */
  lemma LaggingSpoils(s: State, w: int, c: int)
    requires Rebuilding(s, c) && Exposed(s, c) && Sound(s.entries, c, Stored(s, c))
    requires w in s.workers && s.workers[w].cls == c && !Harmless(s, s.workers[w]) && CopySafe(s.entries, s.workers[w])
    ensures CanSpoil(s, c)
  {
    var t := Next(s, Upsert(w));
    RebuildingGoesOn(s, Upsert(w), c);
    assert Stored(t, c) == s.workers[w].phase.next;
    assert Exposed(t, c) by {
      if c !in s.queue {
        var x :| x in s.workers && s.workers[x].cls == c && MayRead(s.entries, s.workers[x]);
        assert x in t.workers && t.workers[x] == s.workers[x];
      }
    }
    ExposedSpoils(t, c);
    SpoilLater(s, Upsert(w), c);
  }

  /** From the moment the pending rows were counted: through every window, the overwrite and every later
      run, the rebuilt balance stays right if and only if it was right and safe already, or no
      worker holds an unsafe copy and nobody may read the checkpoint before it is overwritten. */
  lemma LockExact(s: State, c: int)
    requires WellFormed(s) && Enabled(s, Lock(c))
    ensures !CanSpoil(Next(s, Lock(c)), c) <==> Good(s, c) || (CopiesSafe(s, c) && !Exposed(s, c))
  {
    var t := Next(s, Lock(c));
    SameUnderLock(s, c);
    if Good(t, c) || (CopiesSafe(t, c) && !Exposed(t, c)) {
      forall window: seq<Step> ensures !SpoiledBy(t, c, window) {
        if InWindow(window) { NotSpoiled(t, c, window); }
      }
    } else if !CopiesSafe(t, c) {
      UnsafeSpoils(t, c);
    } else if !Sound(t.entries, c, Stored(t, c)) {
      ExposedSpoils(t, c);
    } else {
      var w :| w in t.workers && t.workers[w].cls == c && !Harmless(t, t.workers[w]);
      LaggingSpoils(t, w, c);
    }
  }

  lemma SameUnderLock(s: State, c: int)
    requires WellFormed(s) && Enabled(s, Lock(c))
    ensures var t := Next(s, Lock(c));
            && Rebuilding(t, c) && (Good(t, c) <==> Good(s, c))
            && (CopiesSafe(t, c) <==> CopiesSafe(s, c)) && (Exposed(t, c) <==> Exposed(s, c))
  {
    var t := Next(s, Lock(c));
    assert t.entries == s.entries && t.workers == s.workers && t.queue == s.queue && t.cps == s.cps;
    GoodDependsOn(s, t, c);
    GoodDependsOn(t, s, c);
  }

  lemma GoodDependsOn(s: State, t: State, c: int)
    requires t.entries == s.entries && t.workers == s.workers && t.cps == s.cps
    ensures Good(s, c) ==> Good(t, c)
  {
    if Good(s, c) {
      forall w | w in t.workers && t.workers[w].cls == c ensures Harmless(t, t.workers[w]) {
        assert Harmless(s, s.workers[w]);
      }
    }
  }

  /** While workers touch a classification only under a pending row of it, the count is enough exactly
      when no row was given up on: an accepted rebuild of an unsound checkpoint lasts if and only if the
      classification has no row in the queue at all. */
  lemma RebuildLastsUnderClaims(s: State, c: int)
    requires WellFormed(s) && Enabled(s, Lock(c)) && !Sound(s.entries, c, Stored(s, c))
    requires forall w :: w in s.workers && s.workers[w].cls == c ==> Pending(s, c)
    ensures !CanSpoil(Next(s, Lock(c)), c) <==> c !in s.queue
  {
    LockExact(s, c);
  }

  /** One entry, a checkpoint that says otherwise, a row that failed ten times, and nobody at work. */
  function GivenUpOn(c: int, balance: real): State {
    State([Entry(1, c, 1.0)], map[c := Checkpoint(balance, 0)], map[c := Item(None, 10)], 0, map[], None, [])
  }

  // ---------------------------------------------------------------- a rebuild undone

  ghost predicate Reaches(s: State, t: State) {
    exists steps: seq<Step> :: Run(s, steps) == t
  }

  lemma {:induction false} RunThen(s: State, steps: seq<Step>, step: Step)
    requires Enabled(Run(s, steps), step)
    ensures Run(s, steps + [step]) == Next(Run(s, steps), step)
    decreases |steps|
  {
    if |steps| == 0 {
      assert Run(Next(s, step), [step][1..]) == Next(s, step);
      assert steps + [step] == [step];
    } else {
      assert (steps + [step])[1..] == steps[1..] + [step];
      RunThen(if Enabled(s, steps[0]) then Next(s, steps[0]) else s, steps[1..], step);
    }
  }

  // One reset is enough.

  /** Every worker's classification has a pending row. */
  ghost predicate UnderClaims(s: State) {
    forall w :: w in s.workers ==> Pending(s, s.workers[w].cls)
  }

  /** The pending count passes, the row is reset and claimed, the checkpoint read and then rebuilt; a post
      later the worker writes what it read. */
  function Reopening(c: int, w: int): seq<Step> {
    [Lock(c), Reset(c), Claim(w, c), Read(w), Recomputed, Overwrite, Post([Entry(2, c, 1.0)]), SumSince(w), Upsert(w)]
  }

  /** The state after the first steps of it. */
  function Reopened(c: int, balance: real, w: int, i: nat): State
    requires i <= 9
  {
    var es, read, sum, rebuilt := [Entry(1, c, 1.0)], Checkpoint(balance, 0), Checkpoint(balance + 2.0, 2), Checkpoint(1.0, 1);
    var es', audits := es + [Entry(2, c, 1.0)], [Audit(c, read, rebuilt, balance - 1.0)];
    var free, taken := map[c := Item(None, 0)], map[c := Item(Some(0), 0)];
    var holding := map[w := Worker(c, 0, HasRead(read))];
    match i
    case 0 => GivenUpOn(c, balance)
    case 1 => State(es, map[c := read], map[c := Item(None, 10)], 0, map[], Some(Locked(c)), [])
    case 2 => State(es, map[c := read], free, 0, map[], Some(Locked(c)), [])
    case 3 => State(es, map[c := read], taken, 1, map[w := Worker(c, 0, Claimed)], Some(Locked(c)), [])
    case 4 => State(es, map[c := read], taken, 1, holding, Some(Locked(c)), [])
    case 5 => State(es, map[c := read], taken, 1, holding, Some(Ready(c, read, rebuilt)), [])
    case 6 => State(es, map[c := rebuilt], taken, 1, holding, None, audits)
    case 7 => State(es', map[c := rebuilt], free, 1, holding, None, audits)
    case 8 => State(es', map[c := rebuilt], free, 1, map[w := Worker(c, 0, Summed(sum))], None, audits)
    case _ => State(es', map[c := sum], free, 1, map[w := Worker(c, 0, Written(true, 2))], None, audits)
  }

  lemma OneEntry(c: int)
    ensures var es := [Entry(1, c, 1.0)];
            MaxId(es) == 1 && DimMax(es, c) == 1 && SumAfter(es, c, 0) == 1.0 && SumAfter(es, c, 1) == 0.0
            && Recompute(es, c) == 1.0
  {
    assert [Entry(1, c, 1.0)][..0] == [];
  }

  lemma TwoEntries(c: int)
    ensures var es := [Entry(1, c, 1.0)] + [Entry(2, c, 1.0)];
            && Increasing(es) && MaxId(es) == 2 && Touched([Entry(2, c, 1.0)]) == {c}
            && SumAfter(es, c, 0) == 2.0 && SumAfter(es, c, 2) == 0.0 && Recompute(es, c) == 2.0
  {
    var one, two := [Entry(1, c, 1.0)], [Entry(1, c, 1.0)] + [Entry(2, c, 1.0)];
    OneEntry(c);
    assert two[..|two| - 1] == one && two[1] == Entry(2, c, 1.0);
    assert one[..0] == [] && SumAfter(one, c, 2) == 0.0;
    assert Entry(2, c, 1.0) in [Entry(2, c, 1.0)];
  }

  lemma ReopenedStep(c: int, balance: real, w: int, i: nat)
    requires i < 9
    ensures Enabled(Reopened(c, balance, w, i), Reopening(c, w)[i])
    ensures Next(Reopened(c, balance, w, i), Reopening(c, w)[i]) == Reopened(c, balance, w, i + 1)
  {
    OneEntry(c);
    if i >= 6 { TwoEntries(c); }
  }

  lemma {:induction false} ReopenedRun(c: int, balance: real, w: int, i: nat)
    requires i <= 9
    ensures Run(GivenUpOn(c, balance), Reopening(c, w)[..i]) == Reopened(c, balance, w, i)
    ensures UnderClaims(Reopened(c, balance, w, i))
  {
    var steps := Reopening(c, w);
    if i == 0 {
      assert steps[..0] == [];
    } else {
      ReopenedRun(c, balance, w, i - 1);
      ReopenedStep(c, balance, w, i - 1);
      assert steps[..i] == steps[..i - 1] + [steps[i - 1]];
      RunThen(GivenUpOn(c, balance), steps[..i - 1], steps[i - 1]);
    }
  }

  /** In that run every copy is held under a pending row throughout, the rebuild is accepted and gives the
      right balance, and still it is undone; so the lock's count does not protect it. */
  lemma ResetReopens(c: int, balance: real, w: int)
    requires balance != 0.0
    ensures var s, steps := GivenUpOn(c, balance), Reopening(c, w);
            && (forall i :: 0 <= i <= |steps| ==> UnderClaims(Run(s, steps[..i])))
            && Run(s, steps[..6]).audits != [] && !Wrong(Run(s, steps[..6]), c)
            && Wrong(Run(s, steps), c)
            && Enabled(s, Lock(c)) && SpoiledBy(Next(s, Lock(c)), c, steps[1..5])
  {
    var s, steps := GivenUpOn(c, balance), Reopening(c, w);
    forall i | 0 <= i <= |steps| ensures UnderClaims(Run(s, steps[..i])) {
      ReopenedRun(c, balance, w, i);
    }
    ReopenedRun(c, balance, w, 6);
    ReopenedRun(c, balance, w, 9);
    assert steps[..9] == steps;
    OneEntry(c);
    TwoEntries(c);
    ReopenedSpoils(c, balance, w);
  }

  /** Seen from the lock, the steps between it and the overwrite are the window that spoils the rebuild. */
  lemma ReopenedSpoils(c: int, balance: real, w: int)
    requires balance != 0.0
    ensures var s := GivenUpOn(c, balance);
            Enabled(s, Lock(c)) && SpoiledBy(Next(s, Lock(c)), c, Reopening(c, w)[1..5])
  {
    var s, steps := GivenUpOn(c, balance), Reopening(c, w);
    var t := Next(s, Lock(c));
    ReopenedRun(c, balance, w, 5);
    assert steps[..5][1..] == steps[1..5];
    assert Run(s, steps[..5]) == Run(t, steps[1..5]);
    var u := Reopened(c, balance, w, 5);
    OneEntry(c);
    assert SumUpTo(u.entries[..0], c, 0) == 0.0;
    assert WellFormed(u) && !CopySafe(u.entries, u.workers[w]);
    RebuildExact(u, c);
  }

  lemma ReachesNext(s: State, t: State, step: Step)
    requires Reaches(s, t) && Enabled(t, step)
    ensures Reaches(s, Next(t, step))
  {
    var steps :| Run(s, steps) == t;
    RunThen(s, steps, step);
  }

  /** One entry, a checkpoint of some balance at watermark 0, one queue row, and nobody at work. */
  function Drifted(c: int, balance: real): State {
    State([Entry(1, c, 1.0)], map[c := Checkpoint(balance, 0)], map[c := Item(None, 0)], 0, map[], None, [])
  }

  /** The run up to the rebuild: worker 1 reads and stalls past its lease, worker 2 takes the row over
      and finishes it, so nothing is pending while worker 1 still holds what it read. */
  lemma LapsedClaim(c: int, balance: real)
    ensures Reaches(Drifted(c, balance),
                    State([Entry(1, c, 1.0)], map[c := Checkpoint(balance + 1.0, 1)], map[], 2,
                          map[1 := Worker(c, 0, HasRead(Checkpoint(balance, 0)))], None, []))
  {
    var es, cp := [Entry(1, c, 1.0)], map[c := Checkpoint(balance, 0)];
    var stalled := Worker(c, 0, HasRead(Checkpoint(balance, 0)));
    var s := Drifted(c, balance);
    assert Run(s, []) == s;
    ReachesNext(s, s, Claim(1, c));
    var a := State(es, cp, map[c := Item(Some(0), 0)], 1, map[1 := Worker(c, 0, Claimed)], None, []);
    assert Next(s, Claim(1, c)) == a;
    ReachesNext(s, a, Read(1));
    var b := a.(workers := map[1 := stalled]);
    assert Next(a, Read(1)) == b;
    ReachesNext(s, b, Claim(2, c));
    var d := State(es, cp, map[c := Item(Some(1), 0)], 2, map[1 := stalled, 2 := Worker(c, 1, Claimed)], None, []);
    assert Next(b, Claim(2, c)) == d;
    ReachesNext(s, d, Read(2));
    var e := d.(workers := map[1 := stalled, 2 := Worker(c, 1, HasRead(Checkpoint(balance, 0)))]);
    assert Next(d, Read(2)) == e;
    TakenOver(s, c, balance, stalled, e);
  }

  lemma TakenOver(s: State, c: int, balance: real, stalled: Worker, e: State)
    requires stalled == Worker(c, 0, HasRead(Checkpoint(balance, 0)))
    requires e == State([Entry(1, c, 1.0)], map[c := Checkpoint(balance, 0)], map[c := Item(Some(1), 0)], 2,
                        map[1 := stalled, 2 := Worker(c, 1, HasRead(Checkpoint(balance, 0)))], None, [])
    requires Reaches(s, e)
    ensures Reaches(s, State([Entry(1, c, 1.0)], map[c := Checkpoint(balance + 1.0, 1)], map[], 2, map[1 := stalled], None, []))
  {
    var next := Checkpoint(balance + 1.0, 1);
    OneEntry(c);
    ReachesNext(s, e, SumSince(2));
    var f := e.(workers := map[1 := stalled, 2 := Worker(c, 1, Summed(next))]);
    assert Next(e, SumSince(2)) == f;
    WorkerTwoWrites(s, f, c, stalled, next);
  }

  lemma WorkerTwoWrites(s: State, f: State, c: int, stalled: Worker, next: Checkpoint)
    requires Reaches(s, f) && f.workers == map[1 := stalled, 2 := Worker(c, 1, Summed(next))] && f.entries == [Entry(1, c, 1.0)]
    requires next.last == 1 && f.cps.Keys == {c} && f.cps[c].last == 0 && f.queue == map[c := Item(Some(1), 0)]
    ensures Reaches(s, f.(cps := map[c := next], queue := map[], workers := map[1 := stalled]))
  {
    ReachesNext(s, f, Upsert(2));
    var g := f.(cps := map[c := next], workers := map[1 := stalled, 2 := Worker(c, 1, Written(true, 1))]);
    assert Next(f, Upsert(2)) == g;
    ReachesNext(s, g, Mark(2));
    var h := g.(queue := map[], workers := map[1 := stalled, 2 := Worker(c, 1, Marked(1))]);
    assert g.queue - {c} == map[];
    assert Next(g, Mark(2)) == h;
    WorkerTwoFinishes(s, h, c, stalled);
  }

  lemma WorkerTwoFinishes(s: State, h: State, c: int, stalled: Worker)
    requires Reaches(s, h) && h.workers == map[1 := stalled, 2 := Worker(c, 1, Marked(1))] && h.entries == [Entry(1, c, 1.0)]
    ensures Reaches(s, h.(workers := map[1 := stalled]))
  {
    ReachesNext(s, h, Recheck(2));
    assert h.workers - {2} == map[1 := stalled];
    assert DimMax(h.entries, c) == 1;
  }

  /** Without that condition the promise fails: with a claim that lapsed, an accepted and completed
      rebuild of any drifted balance is undone by the worker that read it before. */
  lemma RebuildUndone(c: int, balance: real)
    requires balance != 0.0
    ensures exists t: State :: Reaches(Drifted(c, balance), t) && |t.audits| == 1 && t.rebuild.None?
                               && Stored(t, c) == FromEntries(t.entries, c) && CanGoWrong(t, c)
  {
    var s := Drifted(c, balance);
    var stalled := Worker(c, 0, HasRead(Checkpoint(balance, 0)));
    var a := State([Entry(1, c, 1.0)], map[c := Checkpoint(balance + 1.0, 1)], map[], 2, map[1 := stalled], None, []);
    LapsedClaim(c, balance);
    ReachesNext(s, a, Lock(c));
    var b := Next(a, Lock(c));
    ReachesNext(s, b, Recomputed);
    var d := Next(b, Recomputed);
    ReachesNext(s, d, Overwrite);
    var t := Next(d, Overwrite);
    assert SumUpTo(d.entries[..0], c, 0) == 0.0;
    assert !CopySafe(d.entries, d.workers[1]);
    RebuildExact(d, c);
  }
}
