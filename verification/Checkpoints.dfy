/** Checkpoint plus later entries against the from-entry-0 recompute, for one (holder, currency) pair,
    with rollup workers, lapsing claims and operator rebuilds interleaved step by step. */
module Checkpoints {
  import opened Options

  /** An entry of the pair with its signed amount. */
  datatype Entry = Entry(id: nat, cls: int, value: real)

  datatype Checkpoint = Checkpoint(balance: real, last: nat)

  const ABSENT: Checkpoint := Checkpoint(0.0, 0)

  // ---------------------------------------------------------------- sums over entries

  /** Entry ids grow with commit order inside a pair, because posting holds the pair's lock. */
  ghost predicate Increasing(es: seq<Entry>) {
    && (forall i :: 0 <= i < |es| ==> es[i].id >= 1)
    && (forall i, j :: 0 <= i < j < |es| ==> es[i].id < es[j].id)
  }

  function MaxId(es: seq<Entry>): nat {
    if |es| == 0 then 0 else es[|es| - 1].id
  }

  /** The last id of one classification. */
  function DimMax(es: seq<Entry>, c: int): nat {
    if |es| == 0 then 0
    else if es[|es| - 1].cls == c then es[|es| - 1].id
    else DimMax(es[..|es| - 1], c)
  }

  function SumUpTo(es: seq<Entry>, c: int, upto: nat): real {
    if |es| == 0 then 0.0
    else
      var e := es[|es| - 1];
      SumUpTo(es[..|es| - 1], c, upto) + if e.cls == c && e.id <= upto then e.value else 0.0
  }

  function SumAfter(es: seq<Entry>, c: int, since: nat): real {
    if |es| == 0 then 0.0
    else
      var e := es[|es| - 1];
      SumAfter(es[..|es| - 1], c, since) + if e.cls == c && e.id > since then e.value else 0.0
  }

  /** The balance from entry 0. */
  function Recompute(es: seq<Entry>, c: int): real {
    if |es| == 0 then 0.0
    else
      var e := es[|es| - 1];
      Recompute(es[..|es| - 1], c) + if e.cls == c then e.value else 0.0
  }

  lemma {:induction false} SumsSplit(es: seq<Entry>, c: int, at: nat)
    ensures SumUpTo(es, c, at) + SumAfter(es, c, at) == Recompute(es, c)
  {
    if |es| > 0 { SumsSplit(es[..|es| - 1], c, at); }
  }

  lemma {:induction false} UpToMax(es: seq<Entry>, c: int, at: nat)
    requires Increasing(es) && at >= DimMax(es, c)
    ensures SumUpTo(es, c, at) == Recompute(es, c) && DimMax(es, c) <= MaxId(es)
  {
    if |es| > 0 {
      var rest, e := es[..|es| - 1], es[|es| - 1];
      assert Increasing(rest);
      DimMaxBelow(rest, c);
      if e.cls == c {
        assert |rest| > 0 ==> rest[|rest| - 1].id < e.id;
      }
      UpToMax(rest, c, at);
    }
  }

  lemma {:induction false} DimMaxBelow(es: seq<Entry>, c: int)
    requires Increasing(es)
    ensures DimMax(es, c) <= MaxId(es)
  {
    if |es| > 0 {
      var rest := es[..|es| - 1];
      assert Increasing(rest);
      DimMaxBelow(rest, c);
      assert |rest| > 0 ==> rest[|rest| - 1].id < es[|es| - 1].id;
    }
  }

  /** Appending entries with larger ids leaves every sum up to an older id as it was. */
  lemma {:induction false} AppendBeyond(es: seq<Entry>, more: seq<Entry>, c: int, at: nat)
    requires Increasing(es + more) && at <= MaxId(es)
    ensures Increasing(es) && MaxId(es) <= MaxId(es + more) && DimMax(es, c) <= DimMax(es + more, c)
    ensures SumUpTo(es + more, c, at) == SumUpTo(es, c, at)
  {
    assert forall i :: 0 <= i < |es| ==> (es + more)[i] == es[i];
    if |more| == 0 {
      assert es + more == es;
    } else {
      var n := |more| - 1;
      assert (es + more)[..|es + more| - 1] == es + more[..n];
      assert (es + more)[|es| + n] == more[n];
      assert Increasing(es + more[..n]);
      AppendBeyond(es, more[..n], c, at);
      DimMaxBelow(es, c);
      LastIsLargest(es, more);
    }
  }

  lemma LastIsLargest(es: seq<Entry>, more: seq<Entry>)
    requires Increasing(es + more) && |more| > 0
    ensures MaxId(es) < more[|more| - 1].id && MaxId(es + more) == more[|more| - 1].id
    ensures forall c :: DimMax(es, c) <= MaxId(es)
  {
    assert (es + more)[|es + more| - 1] == more[|more| - 1];
    assert forall i :: 0 <= i < |es| ==> (es + more)[i] == es[i];
    if |es| > 0 { assert (es + more)[|es| - 1] == es[|es| - 1]; }
    forall c ensures DimMax(es, c) <= MaxId(es) { DimMaxBelow(es, c); }
  }

  // ---------------------------------------------------------------- the system

  /** An unprocessed rollup_queue row. */
  datatype Item = Item(claim: Option<nat>, failed: nat)

  const MAX_FAILED := 10

  datatype Phase =
    | Claimed
    | HasRead(copy: Checkpoint)
    | Summed(next: Checkpoint)
    | Written(wrote: bool, upto: nat)
    | Marked(upto: nat)

  datatype Worker = Worker(cls: int, token: nat, phase: Phase)

  datatype Rebuild =
    | Locked(cls: int)
    | Ready(cls: int, previous: Checkpoint, rebuilt: Checkpoint)

  datatype Audit = Audit(cls: int, previous: Checkpoint, rebuilt: Checkpoint, drift: real)

  datatype State = State(entries: seq<Entry>, cps: map<int, Checkpoint>, queue: map<int, Item>, tokens: nat,
                         workers: map<int, Worker>, rebuild: Option<Rebuild>, audits: seq<Audit>)

  datatype Step =
    | Post(more: seq<Entry>)
    | Claim(w: int, cls: int)
    | Read(w: int)
    | SumSince(w: int)
    | Upsert(w: int)
    | Mark(w: int)
    | Recheck(w: int)
    | Fail(w: int)
    | Crash(w: int)
    | Reset(cls: int)
    | Lock(cls: int)
    | Recomputed
    | Overwrite
    | Abandon

  function Stored(s: State, c: int): Checkpoint {
    if c in s.cps then s.cps[c] else ABSENT
  }

  /** GetBalance: the stored checkpoint plus the entries after it. */
  function Balance(s: State, c: int): real {
    Stored(s, c).balance + SumAfter(s.entries, c, Stored(s, c).last)
  }

  /** A queue row that can still be dequeued. */
  predicate Pending(s: State, c: int) {
    c in s.queue && s.queue[c].failed < MAX_FAILED
  }

  function Enqueued(queue: map<int, Item>, touched: set<int>): map<int, Item> {
    map c | c in queue.Keys + touched ::
      if c !in queue then Item(None, 0) else if c in touched then queue[c].(claim := None) else queue[c]
  }

  function Touched(more: seq<Entry>): set<int> {
    set i | 0 <= i < |more| :: more[i].cls
  }

  predicate Owns(s: State, w: int)
    requires w in s.workers
  {
    s.workers[w].cls in s.queue && s.queue[s.workers[w].cls].claim == Some(s.workers[w].token)
  }

  function To(s: State, w: int, p: Phase): State
    requires w in s.workers
  {
    s.(workers := s.workers[w := s.workers[w].(phase := p)])
  }

  function Gone(s: State, w: int): State {
    s.(workers := s.workers - {w})
  }

  /** A step is possible now. A claim whose lease has run out can be taken by another worker; time is
      not modelled, so any claim may have run out. Posting waits for the pair's lock. */
  ghost predicate Enabled(s: State, step: Step) {
    match step
    case Post(more) => s.rebuild.None? && Increasing(s.entries + more)
    case Claim(w, c) => w !in s.workers && Pending(s, c)
    case Read(w) => w in s.workers && s.workers[w].phase.Claimed?
    case SumSince(w) => w in s.workers && s.workers[w].phase.HasRead?
    case Upsert(w) => w in s.workers && s.workers[w].phase.Summed?
    case Mark(w) => w in s.workers && s.workers[w].phase.Written?
    case Recheck(w) => w in s.workers && s.workers[w].phase.Marked?
    case Fail(w) => w in s.workers
    case Crash(w) => w in s.workers
    case Reset(c) => c in s.queue
    case Lock(c) => s.rebuild.None? && !Pending(s, c)
    case Recomputed => s.rebuild.Some? && s.rebuild.value.Locked?
    case Overwrite => s.rebuild.Some? && s.rebuild.value.Ready?
    case Abandon => s.rebuild.Some?
  }

  function Summing(s: State, w: int): Phase
    requires w in s.workers && s.workers[w].phase.HasRead?
  {
    var Worker(c, _, phase) := s.workers[w];
    var last := phase.copy.last;
    if MaxId(s.entries) <= last then Written(false, 0)
    else Summed(Checkpoint(phase.copy.balance + SumAfter(s.entries, c, last), MaxId(s.entries)))
  }

  /** The monotonic upsert. */
  function Advanced(s: State, c: int, next: Checkpoint): map<int, Checkpoint> {
    if c !in s.cps || s.cps[c].last < next.last then s.cps[c := next] else s.cps
  }

  function Next(s: State, step: Step): State
    requires Enabled(s, step)
  {
    match step
    case Post(more) => s.(entries := s.entries + more, queue := Enqueued(s.queue, Touched(more)))
    case Claim(w, c) =>
      s.(queue := s.queue[c := s.queue[c].(claim := Some(s.tokens))], tokens := s.tokens + 1,
      workers := s.workers[w := Worker(c, s.tokens, Claimed)])
    case Read(w) => To(s, w, HasRead(Stored(s, s.workers[w].cls)))
    case SumSince(w) => To(s, w, Summing(s, w))
    case Upsert(w) =>
      var Worker(c, _, phase) := s.workers[w];
      To(s.(cps := Advanced(s, c, phase.next)), w, Written(true, phase.next.last))
    case Mark(w) =>
      if !Owns(s, w) then Gone(s, w)
      else
        var processed := s.(queue := s.queue - {s.workers[w].cls});
        if s.workers[w].phase.wrote then To(processed, w, Marked(s.workers[w].phase.upto)) else Gone(processed, w)
    case Recheck(w) =>
      var Worker(c, _, phase) := s.workers[w];
      if DimMax(s.entries, c) > phase.upto then Gone(s.(queue := Enqueued(s.queue, {c})), w) else Gone(s, w)
    case Fail(w) =>
      if !Owns(s, w) then Gone(s, w)
      else
        var c := s.workers[w].cls;
        Gone(s.(queue := s.queue[c := Item(None, s.queue[c].failed + 1)]), w)
    case Crash(w) => Gone(s, w)
    case Reset(c) => s.(queue := s.queue[c := Item(None, 0)])
    case Lock(c) => s.(rebuild := Some(Locked(c)))
    case Recomputed =>
      var c := s.rebuild.value.cls;
      s.(rebuild := Some(Ready(c, Stored(s, c), FromEntries(s.entries, c))))
    case Overwrite =>
      var Ready(c, previous, rebuilt) := s.rebuild.value;
      s.(cps := s.cps[c := rebuilt], rebuild := None,
      audits := s.audits + [Audit(c, previous, rebuilt, previous.balance - rebuilt.balance)])
    case Abandon => s.(rebuild := None)
  }

  /** What RecomputeCheckpointFromEntries answers. */
  function FromEntries(es: seq<Entry>, c: int): Checkpoint {
    Checkpoint(Recompute(es, c), DimMax(es, c))
  }

  ghost function Run(s: State, steps: seq<Step>): State
    decreases |steps|
  {
    if |steps| == 0 then s
    else Run(if Enabled(s, steps[0]) then Next(s, steps[0]) else s, steps[1..])
  }

  // ---------------------------------------------------------------- what keeps a balance right

  /** A rebuild under way has computed what the entries still say. */
  ghost predicate WellFormed(s: State) {
    Increasing(s.entries) && (s.rebuild.Some? && s.rebuild.value.Ready? ==>
      s.rebuild.value.rebuilt == FromEntries(s.entries, s.rebuild.value.cls))
  }

  /** A checkpoint value that says what the entries up to its watermark say. */
  ghost predicate Sound(es: seq<Entry>, c: int, cp: Checkpoint) {
    cp.last <= MaxId(es) && cp.balance == SumUpTo(es, c, cp.last)
  }

  /** A worker whose copy cannot put a wrong value in the checkpoint: it holds none, or a sound one, or
      one the monotonic upsert will always refuse. */
  ghost predicate Harmless(s: State, w: Worker) {
    match w.phase
    case HasRead(copy) => Sound(s.entries, w.cls, copy)
    case Summed(next) =>
      Sound(s.entries, w.cls, next)
      || (next.last <= DimMax(s.entries, w.cls) && w.cls in s.cps && next.last <= s.cps[w.cls].last)
    case _ => true
  }

  ghost predicate Good(s: State, c: int) {
    && Sound(s.entries, c, Stored(s, c))
    && forall w :: w in s.workers && s.workers[w].cls == c ==> Harmless(s, s.workers[w])
  }

  lemma GoodIsRight(s: State, c: int)
    requires Good(s, c)
    ensures Balance(s, c) == Recompute(s.entries, c)
  {
    SumsSplit(s.entries, c, Stored(s, c).last);
  }

  lemma SoundAfterPost(es: seq<Entry>, more: seq<Entry>, c: int, cp: Checkpoint)
    requires Increasing(es + more) && Sound(es, c, cp)
    ensures Sound(es + more, c, cp)
  {
    AppendBeyond(es, more, c, cp.last);
  }

  lemma PostKeepsGood(s: State, more: seq<Entry>, c: int)
    requires WellFormed(s) && Good(s, c) && Enabled(s, Post(more))
    ensures Good(Next(s, Post(more)), c)
  {
    var t := Next(s, Post(more));
    SoundAfterPost(s.entries, more, c, Stored(s, c));
    forall w | w in t.workers && t.workers[w].cls == c ensures Harmless(t, t.workers[w]) {
      assert Harmless(s, s.workers[w]);
      AppendBeyond(s.entries, more, c, 0);
      match s.workers[w].phase {
        case HasRead(copy) => SoundAfterPost(s.entries, more, c, copy);
        case Summed(next) => if Sound(s.entries, c, next) { SoundAfterPost(s.entries, more, c, next); }
        case _ =>
      }
    }
  }

  lemma SumKeepsGood(s: State, w: int, c: int)
    requires WellFormed(s) && Good(s, c) && Enabled(s, SumSince(w))
    ensures Good(Next(s, SumSince(w)), c)
  {
    var Worker(k, _, phase) := s.workers[w];
    if k == c {
      assert Harmless(s, s.workers[w]);
      SumsSplit(s.entries, c, phase.copy.last);
      DimMaxBelow(s.entries, c);
      UpToMax(s.entries, c, MaxId(s.entries));
    }
    var t := Next(s, SumSince(w));
    forall x | x in t.workers && t.workers[x].cls == c ensures Harmless(t, t.workers[x]) {
      assert Harmless(s, s.workers[x]);
    }
  }

  lemma UpsertKeepsGood(s: State, w: int, c: int)
    requires Good(s, c) && Enabled(s, Upsert(w))
    ensures Good(Next(s, Upsert(w)), c)
  {
    var t := Next(s, Upsert(w));
    assert s.workers[w].cls == c ==> Harmless(s, s.workers[w]);
    forall x | x in t.workers && t.workers[x].cls == c ensures Harmless(t, t.workers[x]) {
      assert Harmless(s, s.workers[x]);
    }
  }

  lemma OverwriteKeepsGood(s: State, c: int)
    requires WellFormed(s) && Good(s, c) && Enabled(s, Overwrite)
    ensures Good(Next(s, Overwrite), c)
  {
    UpToMax(s.entries, c, DimMax(s.entries, c));
    var t := Next(s, Overwrite);
    forall x | x in t.workers && t.workers[x].cls == c ensures Harmless(t, t.workers[x]) {
      assert Harmless(s, s.workers[x]);
    }
  }

  lemma StepKeepsWellFormed(s: State, step: Step)
    requires WellFormed(s) && Enabled(s, step)
    ensures WellFormed(Next(s, step))
  {
  }

  lemma OtherStepKeepsGood(s: State, step: Step, c: int)
    requires WellFormed(s) && Good(s, c) && Enabled(s, step)
    requires !step.Post? && !step.SumSince? && !step.Upsert? && !step.Overwrite?
    ensures Good(Next(s, step), c)
  {
    var t := Next(s, step);
    assert t.entries == s.entries && t.cps == s.cps;
    forall x | x in t.workers && t.workers[x].cls == c ensures Harmless(t, t.workers[x]) {
      if x in s.workers && s.workers[x].cls == c { assert Harmless(s, s.workers[x]); }
    }
  }

  lemma StepKeepsGood(s: State, step: Step, c: int)
    requires WellFormed(s) && Good(s, c) && Enabled(s, step)
    ensures Good(Next(s, step), c)
  {
    match step
    case Post(more) => PostKeepsGood(s, more, c);
    case SumSince(w) => SumKeepsGood(s, w, c);
    case Upsert(w) => UpsertKeepsGood(s, w, c);
    case Overwrite => OverwriteKeepsGood(s, c);
    case _ => OtherStepKeepsGood(s, step, c);
  }

  /** From a good state, through every interleaving of posts, worker steps, lapsing claims, failures and
      rebuilds, the checkpoint plus the later entries is the balance recomputed from entry 0. */
  lemma {:induction false} RunKeepsBalance(s: State, steps: seq<Step>, c: int)
    requires WellFormed(s) && Good(s, c)
    ensures WellFormed(Run(s, steps)) && Good(Run(s, steps), c)
    ensures Balance(Run(s, steps), c) == Recompute(Run(s, steps).entries, c)
    decreases |steps|
  {
    if |steps| == 0 {
      GoodIsRight(s, c);
    } else if Enabled(s, steps[0]) {
      StepKeepsGood(s, steps[0], c);
      StepKeepsWellFormed(s, steps[0]);
      RunKeepsBalance(Next(s, steps[0]), steps[1..], c);
    } else {
      RunKeepsBalance(s, steps[1..], c);
    }
  }

  // ---------------------------------------------------------------- no entry is forgotten

  /** A worker that still owns its claim knows enough to bring the checkpoint up to date. */
  ghost predicate UpToDate(s: State, w: Worker) {
    var last, due := Stored(s, w.cls).last, DimMax(s.entries, w.cls);
    match w.phase
    case HasRead(copy) => last >= due || last >= copy.last
    case Summed(next) => next.last >= due
    case Written(_, _) => last >= due
    case _ => true
  }

  /** Entries the checkpoint does not cover yet have a queue row. */
  ghost predicate Queued(s: State, c: int) {
    DimMax(s.entries, c) > Stored(s, c).last ==> c in s.queue
  }

  ghost predicate NothingForgotten(s: State) {
    && (forall c :: Queued(s, c))
    && (forall w :: w in s.workers ==> s.workers[w].token < s.tokens)
    && (forall w :: w in s.workers && Owns(s, w) ==> UpToDate(s, s.workers[w]))
  }

  lemma {:induction false} DimMaxUntouched(es: seq<Entry>, more: seq<Entry>, c: int)
    requires c !in Touched(more)
    ensures DimMax(es + more, c) == DimMax(es, c)
  {
    if |more| == 0 {
      assert es + more == es;
    } else {
      var n := |more| - 1;
      assert (es + more)[..|es + more| - 1] == es + more[..n];
      assert more[n].cls in Touched(more);
      forall x | x in Touched(more[..n]) ensures x in Touched(more) {
        var i :| 0 <= i < n && more[..n][i].cls == x;
        assert more[i].cls == x;
      }
      DimMaxUntouched(es, more[..n], c);
    }
  }

  lemma PostForgetsNothing(s: State, more: seq<Entry>)
    requires NothingForgotten(s) && Enabled(s, Post(more))
    ensures NothingForgotten(Next(s, Post(more)))
  {
    var t := Next(s, Post(more));
    forall c ensures Queued(t, c) {
      assert Queued(s, c);
      if c !in Touched(more) { DimMaxUntouched(s.entries, more, c); }
    }
    forall w | w in t.workers && Owns(t, w) ensures UpToDate(t, t.workers[w]) {
      assert t.workers[w].cls !in Touched(more);
      DimMaxUntouched(s.entries, more, t.workers[w].cls);
      assert Owns(s, w) && UpToDate(s, s.workers[w]);
    }
  }

  lemma WorkForgetsNothing(s: State, step: Step)
    requires WellFormed(s) && NothingForgotten(s) && Enabled(s, step)
    requires step.Read? || step.SumSince? || step.Upsert? || step.Overwrite?
    ensures NothingForgotten(Next(s, step))
  {
    var t := Next(s, step);
    forall c ensures Queued(t, c) {
      assert Queued(s, c);
    }
    forall w | w in t.workers && Owns(t, w) ensures UpToDate(t, t.workers[w]) {
      assert Owns(s, w) && UpToDate(s, s.workers[w]);
      DimMaxBelow(s.entries, s.workers[w].cls);
    }
  }

  lemma {:induction false} QueueForgetsNothing(s: State, step: Step)
    requires NothingForgotten(s) && Enabled(s, step)
    requires !step.Post? && !step.Read? && !step.SumSince? && !step.Upsert? && !step.Overwrite?
    ensures NothingForgotten(Next(s, step))
  {
    var t := Next(s, step);
    forall c ensures Queued(t, c) {
      assert Queued(s, c);
      if step.Mark? && Owns(s, step.w) { assert UpToDate(s, s.workers[step.w]); }
    }
    forall w | w in t.workers && Owns(t, w) ensures UpToDate(t, t.workers[w]) {
      if w in s.workers && Owns(s, w) { assert UpToDate(s, s.workers[w]); }
    }
  }

  /** Through every interleaving, with lapsed claims, failures, crashes and rebuilds, every entry a
      checkpoint does not cover has a row in the queue: marking a row processed never loses one that
      was posted meanwhile. */
  lemma {:induction false} RunForgetsNothing(s: State, steps: seq<Step>, c: int)
    requires WellFormed(s) && NothingForgotten(s)
    ensures NothingForgotten(Run(s, steps)) && Queued(Run(s, steps), c)
    decreases |steps|
  {
    if |steps| > 0 {
      var step := steps[0];
      if Enabled(s, step) {
        StepKeepsWellFormed(s, step);
        if step.Post? {
          PostForgetsNothing(s, step.more);
        } else if step.Read? || step.SumSince? || step.Upsert? || step.Overwrite? {
          WorkForgetsNothing(s, step);
        } else {
          QueueForgetsNothing(s, step);
        }
        RunForgetsNothing(Next(s, step), steps[1..], c);
      } else {
        RunForgetsNothing(s, steps[1..], c);
      }
    }
  }

  /** A ledger with nothing in it. */
  const START: State := State([], map[], map[], 0, map[], None, [])

  /** From an empty ledger every run keeps every balance right and every uncovered entry queued. */
  lemma {:induction false} RunFromStart(steps: seq<Step>, c: int)
    ensures Balance(Run(START, steps), c) == Recompute(Run(START, steps).entries, c)
    ensures Queued(Run(START, steps), c)
  {
    assert WellFormed(START) && Good(START, c);
    RunKeepsBalance(START, steps, c);
    assert forall k :: Queued(START, k);
    RunForgetsNothing(START, steps, c);
  }

  // ---------------------------------------------------------------- the store

  class CheckpointStore {
    var entries: seq<Entry>
    var cps: map<int, Checkpoint>
    var queue: map<int, Item>
    var audits: seq<Audit>

    /** The tables as a state of the system, with the pair's lock free. */
    ghost function Tables(): State
      reads this
    {
      State(entries, cps, queue, 0, map[], None, audits)
    }

    constructor (entries: seq<Entry>, cps: map<int, Checkpoint>, queue: map<int, Item>)
      ensures Tables() == State(entries, cps, queue, 0, map[], None, [])
    {
      this.entries, this.cps, this.queue, audits := entries, cps, queue, [];
    }

    /** The sum and the last id of a classification's entries, the checkpoint never being read. */
    method RecomputeFromEntries(c: int) returns (cp: Checkpoint)
      ensures cp == FromEntries(entries, c)
    {
      var balance, last := 0.0, 0;
      for i := 0 to |entries|
        invariant balance == Recompute(entries[..i], c) && last == DimMax(entries[..i], c)
      {
        assert entries[..i + 1][..i] == entries[..i];
        if entries[i].cls == c {
          balance, last := balance + entries[i].value, entries[i].id;
        }
      }
      assert entries[..|entries|] == entries;
      return Checkpoint(balance, last);
    }

    method RecomputeBalance(c: int) returns (balance: real)
      ensures balance == Recompute(entries, c)
    {
      var cp := RecomputeFromEntries(c);
      return cp.balance;
    }

    method GetBalance(c: int) returns (balance: real)
      ensures balance == Balance(Tables(), c)
    {
      var cp := if c in cps then cps[c] else ABSENT;
      balance := 0.0;
      for i := 0 to |entries|
        invariant balance == SumAfter(entries[..i], c, cp.last)
      {
        assert entries[..i + 1][..i] == entries[..i];
        if entries[i].cls == c && entries[i].id > cp.last {
          balance := balance + entries[i].value;
        }
      }
      assert entries[..|entries|] == entries;
      balance := cp.balance + balance;
    }

    /** RebuildCheckpoint: refused exactly while a row is pending and then nothing changes; otherwise the
        lock, recompute and overwrite steps in one go, whatever the checkpoint said before. */
    method RebuildCheckpoint(c: int) returns (r: Option<Checkpoint>)
      requires Increasing(entries)
      modifies this
      ensures r.None? <==> old(Pending(Tables(), c))
      ensures r.None? ==> Tables() == old(Tables())
      ensures r.Some? ==> Tables() == old(Rebuilt(Tables(), c))
      ensures r.Some? ==> r.value == Checkpoint(Recompute(entries, c), DimMax(entries, c)) && cps == old(cps)[c := r.value]
      ensures r.Some? ==>
                var was := old(if c in cps then cps[c] else Checkpoint(0.0, 0));
                audits == old(audits) + [Audit(c, was, r.value, was.balance - r.value.balance)]
      ensures r.Some? ==> entries == old(entries) && queue == old(queue) && Balance(Tables(), c) == Recompute(entries, c)
    {
      if c in queue && queue[c].failed < MAX_FAILED {
        return None;
      }
      var previous := if c in cps then cps[c] else ABSENT;
      var cp := RecomputeFromEntries(c);
      cps := cps[c := cp];
      audits := audits + [Audit(c, previous, cp, previous.balance - cp.balance)];
      UpToMax(entries, c, DimMax(entries, c));
      SumsSplit(entries, c, DimMax(entries, c));
      RebuiltTables(old(Tables()), c);
      return Some(cp);
    }
  }

  lemma RebuiltTables(s: State, c: int)
    requires s.rebuild.None? && !Pending(s, c)
    ensures var cp := FromEntries(s.entries, c);
            Rebuilt(s, c) == s.(cps := s.cps[c := cp],
                                audits := s.audits + [Audit(c, Stored(s, c), cp, Stored(s, c).balance - cp.balance)])
  {
    var a := Next(s, Lock(c));
    assert a == s.(rebuild := Some(Locked(c)));
    var b := Next(a, Recomputed);
    assert b == s.(rebuild := Some(Ready(c, Stored(s, c), FromEntries(s.entries, c))));
  }

  ghost function Rebuilt(s: State, c: int): State
    requires s.rebuild.None? && !Pending(s, c)
  {
    Next(Next(Next(s, Lock(c)), Recomputed), Overwrite)
  }
}
