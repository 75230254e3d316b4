/** What the rows and events of a run say, read off the calls that made them. */
module BookingEvents {
  import opened Decimals
  import opened Bookings
  import opened BookingRuns
  import opened BookingReturns
  import opened BookingRetries

  /** The last channel reference given for a booking. */
  function LastRef(log: seq<TransitionInput>, u: string): string {
    if |log| == 0 then ""
    else
      var last := log[|log| - 1];
      if last.booking == u && last.channelRef != "" then last.channelRef else LastRef(log[..|log| - 1], u)
  }

  lemma LastRefAppend(log: seq<TransitionInput>, input: TransitionInput, u: string)
    ensures LastRef(log + [input], u)
         == if input.booking == u && input.channelRef != "" then input.channelRef else LastRef(log, u)
  {
    assert (log + [input])[..|log|] == log;
  }

  lemma {:induction false} NoRef(log: seq<TransitionInput>, u: string)
    requires forall i :: 0 <= i < |log| ==> log[i].booking != u
    ensures LastRef(log, u) == ""
  {
    if |log| > 0 { NoRef(log[..|log| - 1], u); }
  }

  /** A key some call for the booking carried was merged, with the value of the last such call. */
  lemma {:induction false} MergedIsLatest(log: seq<TransitionInput>, u: string, k: string, i: nat)
    requires i < |log| && Carries(log[i], u, k) && forall j :: i < j < |log| ==> !Carries(log[j], u, k)
    ensures k in Merged(log, u) && Merged(log, u)[k] == log[i].metadata[k]
    decreases |log|
  {
    var n := |log| - 1;
    if i < n { MergedIsLatest(log[..n], u, k, i); }
  }

  /** And no other key was. */
  lemma {:induction false} MergedIsCarried(log: seq<TransitionInput>, u: string, k: string)
    requires forall j :: 0 <= j < |log| ==> !Carries(log[j], u, k)
    ensures k !in Merged(log, u)
  {
    if |log| > 0 { MergedIsCarried(log[..|log| - 1], u, k); }
  }

  predicate Carries(input: TransitionInput, u: string, k: string) {
    input.booking == u && k in input.metadata
  }

  /** The booking row: the creation's columns, its expiry cut to microseconds, its metadata with everything
      merged since, and the last amount and reference given. */
  ghost predicate RowTells(s: Store, u: string, c: CreateInput) {
    && u in s.bookings
    && var b := s.bookings[u];
       && b.classCode == c.classCode && b.holder == c.holder && b.currency == c.currency && b.amount == Value(c.amount)
       && b.channelName == c.channelName && b.key == c.key && b.expiresAt == c.expiresAt - c.expiresAt % 1000
       && b.metadata == c.metadata + Merged(s.log, u)
       && b.settled == LastAmount(s.log, u) && b.channelRef == LastRef(s.log, u)
  }

  /** Event i of a booking: the booking's amount, what had been settled and merged by then, and who caused it. */
  ghost predicate EventTells(s: Store, i: nat, c: CreateInput) {
    && i < |s.events| && i < |s.log|
    && var e, call := s.events[i], s.log[i];
       && e.booking == call.booking && e.to == call.to && e.actor == call.actor && e.source == call.source
       && e.amount == Value(c.amount) && e.settled == LastAmount(s.log[..i + 1], e.booking)
       && e.metadata == c.metadata + Merged(s.log[..i + 1], e.booking)
  }

  ghost predicate AllTell(s: Store, u: string, c: CreateInput) {
    && |s.events| == |s.log| && RowTells(s, u, c)
    && forall i {:trigger EventTells(s, i, c)} :: 0 <= i < |s.events| && s.events[i].booking == u ==> EventTells(s, i, c)
  }

  lemma ApplyTellsRow(s: Store, input: TransitionInput, u: string, c: CreateInput)
    requires RowTells(s, u, c) && input.booking in s.bookings
    ensures RowTells(Apply(s, input), u, c)
  {
    MergedAppend(s.log, input, u);
    LastAmountAppend(s.log, input, u);
    LastRefAppend(s.log, input, u);
    if input.booking == u {
      var m := Merged(s.log, u);
      assert (c.metadata + m) + input.metadata == c.metadata + (m + input.metadata);
    }
  }

  lemma OldEventTells(s: Store, t: Store, i: nat, c: CreateInput)
    requires EventTells(s, i, c) && s.events <= t.events && s.log <= t.log
    ensures EventTells(t, i, c)
  {
    assert t.log[..i + 1] == s.log[..i + 1];
  }

  lemma NewEventTells(s: Store, input: TransitionInput, c: CreateInput)
    requires |s.events| == |s.log| && input.booking in s.bookings && RowTells(s, input.booking, c)
    ensures EventTells(Apply(s, input), |s.events|, c)
  {
    var t, u := Apply(s, input), input.booking;
    ApplyTellsRow(s, input, u, c);
    assert t.log[..|s.events| + 1] == t.log;
  }

  lemma ApplyTells(s: Store, input: TransitionInput, u: string, c: CreateInput)
    requires AllTell(s, u, c) && input.booking in s.bookings
    ensures AllTell(Apply(s, input), u, c)
  {
    var t := Apply(s, input);
    ApplyTellsRow(s, input, u, c);
    forall i | 0 <= i < |t.events| && t.events[i].booking == u ensures EventTells(t, i, c) {
      if i < |s.events| {
        assert EventTells(s, i, c);
        OldEventTells(s, t, i, c);
      } else {
        NewEventTells(s, input, c);
      }
    }
  }

  lemma AddTells(s: Store, u: string, c: CreateInput, uid: string, b: Booking)
    requires AllTell(s, u, c) && uid !in s.bookings
    ensures AllTell(s.(bookings := s.bookings[uid := b]), u, c)
  {
    var t := s.(bookings := s.bookings[uid := b]);
    forall i | 0 <= i < |t.events| && t.events[i].booking == u ensures EventTells(t, i, c) {
      assert EventTells(s, i, c);
    }
  }

  lemma CreateTells(cfg: Config, s: Store, other: CreateInput, uid: string, u: string, c: CreateInput)
    requires AllTell(s, u, c)
    ensures AllTell(Create(cfg, s, other, uid).0, u, c)
  {
    if Create(cfg, s, other, uid).0 != s { AddTells(s, u, c, uid, Created(cfg, other)); }
  }

  lemma {:induction false} RunTells(cfg: Config, w: World, steps: seq<Step>, u: string, c: CreateInput)
    requires AllTell(w.store, u, c)
    ensures AllTell(Run(cfg, w, steps).store, u, c)
    decreases |steps|
  {
    if |steps| > 0 {
      var step := steps[0];
      if step.CreateStep? {
        CreateTells(cfg, w.store, step.create, step.uid, u, c);
      } else if step.Commit? && Commits(w, step.booking) {
        ApplyTells(w.store, w.inflight[step.booking], u, c);
      }
      RunTells(cfg, Next(cfg, w, step), steps[1..], u, c);
    }
  }

  lemma NewTells(cfg: Config, s: Store, c: CreateInput, u: string)
    requires ReceiptsHold(s) && EventsKnown(s) && u !in s.bookings && c.classCode in cfg.lifecycles
    ensures AllTell(s.(bookings := s.bookings[u := Created(cfg, c)]), u, c)
  {
    NothingMerged(s.log, u);
    NoAmount(s.log, u);
    NoRef(s.log, u);
  }

  lemma TellsAtOnce(cfg: Config, s: Store, c: CreateInput, u: string)
    requires ReceiptsHold(s) && EventsKnown(s) && Makes(cfg, s, c, u)
    ensures AllTell(Create(cfg, s, c, u).0, u, c)
  {
    Made(cfg, s, c, u);
    NewTells(cfg, s, c, u);
  }

  lemma LastStep(cfg: Config, w: World, steps: seq<Step>, n: nat)
    requires |steps| == n + 1
    ensures Run(cfg, w, steps) == Next(cfg, Run(cfg, w, steps[..n]), steps[n])
  {
    assert steps == steps[..n] + [steps[n]];
    RunConcat(cfg, w, steps[..n], [steps[n]]);
    StepThen(cfg, Run(cfg, w, steps[..n]), steps[n], []);
    assert [steps[n]] + [] == [steps[n]];
  }

  lemma OnlyCreationAdds(cfg: Config, w: World, step: Step, u: string)
    requires u !in w.store.bookings && u in Next(cfg, w, step).store.bookings
    ensures step.CreateStep? && step.uid == u && Makes(cfg, w.store, step.create, u)
  {
  }

  /** Every booking of a run was made by one of its creation steps. */
  lemma {:induction false} FirstMade(cfg: Config, steps: seq<Step>, u: string) returns (n: nat)
    requires u in Run(cfg, EMPTY, steps).store.bookings
    ensures n < |steps| && steps[n].CreateStep? && steps[n].uid == u
    ensures Makes(cfg, Run(cfg, EMPTY, steps[..n]).store, steps[n].create, u)
    decreases |steps|
  {
    var m := |steps| - 1;
    LastStep(cfg, EMPTY, steps, m);
    if u in Run(cfg, EMPTY, steps[..m]).store.bookings {
      n := FirstMade(cfg, steps[..m], u);
      assert steps[..m][..n] == steps[..n];
    } else {
      OnlyCreationAdds(cfg, Run(cfg, EMPTY, steps[..m]), steps[m], u);
      n := m;
    }
  }

  lemma {:induction false} RunFrom(cfg: Config, steps: seq<Step>, n: nat)
    requires n < |steps|
    ensures Run(cfg, EMPTY, steps) == Run(cfg, Next(cfg, Run(cfg, EMPTY, steps[..n]), steps[n]), steps[n + 1..])
  {
    assert steps == steps[..n] + ([steps[n]] + steps[n + 1..]);
    RunConcat(cfg, EMPTY, steps[..n], [steps[n]] + steps[n + 1..]);
    StepThen(cfg, Run(cfg, EMPTY, steps[..n]), steps[n], steps[n + 1..]);
  }

  /** After any run, every booking row and every event of it say exactly what the creation step that made the
      booking and the calls logged for it say: amounts, settled amounts, references, metadata, actor, source. */
  lemma {:induction false} RunTellsAll(cfg: Config, steps: seq<Step>, u: string) returns (n: nat)
    requires u in Run(cfg, EMPTY, steps).store.bookings
    ensures n < |steps| && steps[n].CreateStep? && steps[n].uid == u
    ensures AllTell(Run(cfg, EMPTY, steps).store, u, steps[n].create)
  {
    n := FirstMade(cfg, steps, u);
    MadeTells(cfg, Run(cfg, EMPTY, steps[..n]), steps[n], u) by { RunKeeps(cfg, EMPTY, steps[..n]); }
    RunTells(cfg, Next(cfg, Run(cfg, EMPTY, steps[..n]), steps[n]), steps[n + 1..], u, steps[n].create);
    RunFrom(cfg, steps, n);
  }

  lemma MadeTells(cfg: Config, w: World, step: Step, u: string)
    requires ReceiptsHold(w.store) && EventsKnown(w.store) && step.CreateStep? && step.uid == u
    requires Makes(cfg, w.store, step.create, u)
    ensures AllTell(Next(cfg, w, step).store, u, step.create)
  {
    TellsAtOnce(cfg, w.store, step.create, u);
  }
}
