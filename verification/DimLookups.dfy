/** Lookups that run undisturbed, and where committed rows come from. */
module DimLookups {
  import opened Options
  import opened DimCache

  // ---------------------------------------------------------------- what a caller sees

  /** The committed rows, and for a view those its own transaction has inserted. */
  ghost function Seen(s: State, at: At): set<Row>
    requires Live(s, at)
  {
    match at
    case Pool => s.committed
    case View(v) => s.committed + s.own[s.views[v].tx]
  }

  ghost predicate RightAnswer(result: Option<Row>, sees: set<Row>, k: Key) {
    && (result.Some? <==> exists r :: r in sees && Matches(r, k))
    && (result.Some? ==> result.value in sees && Matches(result.value, k))
  }

  /** A lookup that nothing has disturbed since it started, at each point of its way. */
  ghost predicate OnCourse(s: State, l: int, at: At, k: Key, sees: set<Row>) {
    && Caches(s) && Live(s, at) && Seen(s, at) == sees
    && l in s.lookups && s.lookups[l].at == at && s.lookups[l].key == k
    && match s.lookups[l].phase
       case Listing(n, got) => n <= 3 && got == (set r | r in sees && Index(r.table) < n)
       case SecondOwn(_) => Content(s, at) == sees
       case SecondParent(_) => !HasKey(sees, k)
       case Done(result) => RightAnswer(result, sees, k)
       case Failed => false
       case _ => true
  }

  /** How many actions are left at most. */
  function Left(p: Phase): nat {
    match p
    case FirstOwn => 8
    case FirstParent => 7
    case Listing(n, _) => if n <= 3 then 6 - n else 0
    case SecondOwn(_) => 2
    case SecondParent(_) => 1
    case _ => 0
  }

  lemma FoundIn(rows: set<Row>, sees: set<Row>, k: Key)
    requires rows <= sees && (HasKey(rows, k) || !HasKey(sees, k))
    ensures RightAnswer(Find(rows, k), sees, k)
  {
  }

  lemma NextListing(sees: set<Row>, n: nat)
    requires n < 3
    ensures (set r | r in sees && Index(r.table) < n) + OfTable(sees, n) == set r | r in sees && Index(r.table) < n + 1
  {
  }

  lemma AllListed(sees: set<Row>)
    ensures (set r | r in sees && Index(r.table) < 3) == sees
  {
    assert forall r :: r in sees ==> Index(r.table) < 3;
  }

  lemma AdvanceOnCourse(s: State, l: int, at: At, k: Key, sees: set<Row>)
    requires OnCourse(s, l, at, k, sees)
    ensures var t := Next(s, Advance(l));
            OnCourse(t, l, at, k, sees)
            && (Left(s.lookups[l].phase) > 0 ==> Left(t.lookups[l].phase) < Left(s.lookups[l].phase))
  {
    AdvanceKeeps(s, l);
    match s.lookups[l].phase {
      case FirstOwn => if HasKey(Content(s, at), k) { FoundIn(Content(s, at), sees, k); }
      case FirstParent => if HasKey(s.pool, k) { FoundIn(s.pool, sees, k); }
      case Listing(n, got) => if n < 3 { NextListing(sees, n); } else { AllListed(sees); }
      case SecondOwn(_) => if HasKey(Content(s, at), k) || at.Pool? { FoundIn(Content(s, at), sees, k); }
      case SecondParent(_) => FoundIn(s.pool, sees, k);
      case _ =>
    }
  }

  function Advances(l: int, n: nat): seq<Step> {
    if n == 0 then [] else [Advance(l)] + Advances(l, n - 1)
  }

  lemma {:induction false} RunsToTheEnd(s: State, l: int, at: At, k: Key, sees: set<Row>, n: nat)
    requires OnCourse(s, l, at, k, sees) && n >= Left(s.lookups[l].phase)
    ensures var t := Run(s, Advances(l, n));
            l in t.lookups && t.lookups[l].phase.Done? && RightAnswer(t.lookups[l].phase.result, sees, k)
    decreases n
  {
    if n > 0 {
      AdvanceOnCourse(s, l, at, k, sees);
      assert Advances(l, n)[1..] == Advances(l, n - 1);
      RunsToTheEnd(Next(s, Advance(l)), l, at, k, sees, n - 1);
    }
  }

  /** From every state runs reach, a lookup that runs on its own, on the pool-wide cache or on a view, and
      whatever the caches held, ends with the row its caller can see: committed, or inserted by the view's
      own transaction. It ends with nothing exactly when there is none. */
  lemma UndisturbedLookup(before: seq<Step>, l: int, at: At, k: Key)
    requires l !in Run(START, before).lookups && Live(Run(START, before), at)
    ensures var s := Run(START, before);
            var t := Run(s, [Look(l, at, k)] + Advances(l, 8));
            l in t.lookups && t.lookups[l].phase.Done? && RightAnswer(t.lookups[l].phase.result, Seen(s, at), k)
  {
    var s := Run(START, before);
    RunFromStart(before);
    var a := Next(s, Look(l, at, k));
    StepKeeps(s, Look(l, at, k));
    assert ([Look(l, at, k)] + Advances(l, 8))[1..] == Advances(l, 8);
    RunsToTheEnd(a, l, at, k, Seen(s, at), 8);
  }

  // ---------------------------------------------------------------- where committed rows come from

  /** A run without a commit publishes nothing. */
  lemma {:induction false} OnlyCommitsPublish(s: State, steps: seq<Step>)
    requires forall i :: 0 <= i < |steps| ==> !(steps[i].End? && steps[i].commit)
    ensures Run(s, steps).committed == s.committed
    decreases |steps|
  {
    if |steps| > 0 { OnlyCommitsPublish(Next(s, steps[0]), steps[1..]); }
  }

  /** What a transaction has inserted stays with it, and its commit publishes it, whatever runs in between. */
  lemma {:induction false} CommitPublishes(s: State, steps: seq<Step>, tx: int, r: Row)
    requires tx in s.own && r in s.own[tx]
    requires forall i :: 0 <= i < |steps| ==> !(steps[i].End? && steps[i].tx == tx)
    ensures tx in Run(s, steps).own && r in Run(s, steps).own[tx] && r in Next(Run(s, steps), End(tx, true)).committed
    decreases |steps|
  {
    if |steps| > 0 { CommitPublishes(Next(s, steps[0]), steps[1..], tx, r); }
  }

  /** Committed rows stay committed. */
  lemma {:induction false} CommittedStays(s: State, steps: seq<Step>)
    ensures s.committed <= Run(s, steps).committed
    decreases |steps|
  {
    if |steps| > 0 { CommittedStays(Next(s, steps[0]), steps[1..]); }
  }
}
