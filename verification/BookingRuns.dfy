/** Runs of booking calls as interleaved transactions. A transition holds its booking's row lock
    from the decision to the commit; receipts of other bookings may commit in between. */
module BookingRuns {
  import opened Decimals
  import opened Lifecycles
  import opened Bookings

  /** Committed tables, and the transition each locked booking is about to commit. */
  datatype World = World(store: Store, inflight: map<string, TransitionInput>)

  datatype Step =
    | CreateStep(create: CreateInput, uid: string)
    | Begin(input: TransitionInput)
    | Commit(booking: string)
    | Abort(booking: string)

  const EMPTY: World := World(Store(map[], [], map[], []), map[])

  /** One step; a step whose booking is locked, or which ends no transaction, waits. */
  ghost function Next(cfg: Config, w: World, step: Step): World {
    match step
    case CreateStep(input, uid) => w.(store := Create(cfg, w.store, input, uid).0)
    case Begin(input) =>
      if input.booking !in w.inflight && Decide(cfg, w.store, input).Proceed?
      then w.(inflight := w.inflight[input.booking := input]) else w
    case Commit(u) =>
      if u !in w.inflight then w
      else if Commits(w, u) then World(Apply(w.store, w.inflight[u]), w.inflight - {u})
      else w.(inflight := w.inflight - {u})
    case Abort(u) => w.(inflight := w.inflight - {u})
  }

  /** A commit that writes: the key is still unused and the database lets the row through. */
  ghost predicate Commits(w: World, u: string) {
    && u in w.inflight && w.inflight[u].key !in w.store.receipts && w.inflight[u].booking in w.store.bookings
    && !Barred(w.store.bookings, w.inflight[u])
  }

  ghost function Run(cfg: Config, w: World, steps: seq<Step>): World
    decreases |steps|
  {
    if |steps| == 0 then w else Run(cfg, Next(cfg, w, steps[0]), steps[1..])
  }

  // ---------------------------------------------------------------- what every run keeps

  /** The events of one booking, in order. */
  function Trail(events: seq<Event>, u: string): seq<Event> {
    if |events| == 0 then []
    else Trail(events[..|events| - 1], u) + if events[|events| - 1].booking == u then [events[|events| - 1]] else []
  }

  /** Events that follow the lifecycle from its initial status, each from where the last one ended,
      and after the first never in place. */
  ghost predicate IsTrail(l: Lifecycle, t: seq<Event>) {
    && (|t| > 0 ==> t[0].from == l.initial)
    && (forall i :: 0 <= i < |t| ==> Edge(l, t[i].from, t[i].to))
    && (forall i :: 0 < i < |t| ==> Follows(t, i))
  }

  /** An event starts where the one before it ended, and goes somewhere else. */
  ghost predicate Follows(t: seq<Event>, i: nat)
    requires 0 < i < |t|
  {
    t[i].from == t[i - 1].to && t[i].from != t[i].to
  }

  ghost function EndOf(l: Lifecycle, t: seq<Event>): Status {
    if |t| == 0 then l.initial else t[|t| - 1].to
  }

  /** The last non-zero amount among the inputs applied to one booking. */
  ghost function LastAmount(log: seq<TransitionInput>, u: string): real {
    if |log| == 0 then 0.0
    else
      var last, before := log[|log| - 1], LastAmount(log[..|log| - 1], u);
      if last.booking == u && Value(last.amount) != 0.0 then Value(last.amount) else before
  }

  ghost predicate TrailHolds(cfg: Config, b: Booking, t: seq<Event>) {
    && b.classCode in cfg.lifecycles
    && IsTrail(cfg.lifecycles[b.classCode], t)
    && b.status == EndOf(cfg.lifecycles[b.classCode], t)
  }

  ghost predicate BookingHolds(cfg: Config, s: Store, u: string)
    requires u in s.bookings
  {
    && TrailHolds(cfg, s.bookings[u], Trail(s.events, u))
    && s.bookings[u].settled == LastAmount(s.log, u)
  }

  /** Every event was produced by one logged input, and that input's key has the receipt for it. */
  ghost predicate ReceiptsHold(s: Store) {
    && |s.log| == |s.events|
    && (forall i :: 0 <= i < |s.log| ==> s.log[i].booking == s.events[i].booking && s.log[i].to == s.events[i].to)
    && (forall i :: 0 <= i < |s.log| ==> s.log[i].key in s.receipts && s.receipts[s.log[i].key].event == i)
    && (forall k :: k in s.receipts ==>
          var e := s.receipts[k].event;
          && e < |s.log| && s.log[e].key == k
          && s.receipts[k] == Receipt(s.log[e].booking, s.log[e].to, s.log[e].channelRef, Value(s.log[e].amount), e))
  }

  ghost predicate BookingsHold(cfg: Config, s: Store) {
    forall u {:trigger BookingHolds(cfg, s, u)} :: u in s.bookings ==> BookingHolds(cfg, s, u)
  }

  ghost predicate EventsKnown(s: Store) {
    forall i :: 0 <= i < |s.events| ==> s.events[i].booking in s.bookings
  }

  ghost predicate StoreHolds(cfg: Config, s: Store) {
    ReceiptsHold(s) && BookingsHold(cfg, s) && EventsKnown(s)
  }

  /** The move an in-flight transition is about to make is still allowed. */
  ghost predicate MayMove(cfg: Config, b: Booking, t: seq<Event>, to: Status) {
    && b.classCode in cfg.lifecycles
    && Edge(cfg.lifecycles[b.classCode], b.status, to)
    && (b.status == to ==> t == [])
  }

  ghost predicate PendingHolds(cfg: Config, s: Store, u: string, input: TransitionInput) {
    input.booking == u && u in s.bookings && MayMove(cfg, s.bookings[u], Trail(s.events, u), input.to)
  }

  ghost predicate WorldHolds(cfg: Config, w: World) {
    && StoreHolds(cfg, w.store)
    && forall u :: u in w.inflight ==> PendingHolds(cfg, w.store, u, w.inflight[u])
  }

  lemma TrailAppend(events: seq<Event>, e: Event, u: string)
    ensures Trail(events + [e], u) == if e.booking == u then Trail(events, u) + [e] else Trail(events, u)
  {
    assert (events + [e])[..|events|] == events;
  }

  lemma LastAmountAppend(log: seq<TransitionInput>, input: TransitionInput, u: string)
    ensures LastAmount(log + [input], u)
         == if input.booking == u && Value(input.amount) != 0.0 then Value(input.amount) else LastAmount(log, u)
  {
    assert (log + [input])[..|log|] == log;
  }

  lemma {:induction false} TrailEndsAtLatest(events: seq<Event>, u: string)
    ensures LatestEvent(events, u) < 0 <==> Trail(events, u) == []
    ensures LatestEvent(events, u) >= 0 ==> Trail(events, u)[|Trail(events, u)| - 1] == events[LatestEvent(events, u)]
  {
    if |events| > 0 && events[|events| - 1].booking != u {
      TrailEndsAtLatest(events[..|events| - 1], u);
    }
  }

  lemma {:induction false} NoTrail(events: seq<Event>, u: string)
    requires forall i :: 0 <= i < |events| ==> events[i].booking != u
    ensures Trail(events, u) == []
  {
    if |events| > 0 { NoTrail(events[..|events| - 1], u); }
  }

  lemma {:induction false} NoAmount(log: seq<TransitionInput>, u: string)
    requires forall i :: 0 <= i < |log| ==> log[i].booking != u
    ensures LastAmount(log, u) == 0.0
  {
    if |log| > 0 { NoAmount(log[..|log| - 1], u); }
  }

  /** A transition that may proceed keeps its promise until its lock is released. */
  lemma DecisionHolds(cfg: Config, s: Store, input: TransitionInput)
    requires input.booking in s.bookings && BookingHolds(cfg, s, input.booking)
    requires Consider(cfg, s.bookings[input.booking], s.events, input).Proceed?
    ensures PendingHolds(cfg, s, input.booking, input)
  {
    var u := input.booking;
    TrailEndsAtLatest(s.events, u);
    ProceedsOnlyByMove(cfg, s.bookings[u], s.events, Trail(s.events, u), input);
  }

  lemma ProceedingCall(cfg: Config, s: Store, input: TransitionInput)
    requires Decide(cfg, s, input).Proceed?
    ensures input.booking in s.bookings && input.key !in s.receipts && input.to != "" && ValidTransition(input)
    ensures Consider(cfg, s.bookings[input.booking], s.events, input).Proceed?
  {
  }

  lemma ProceedsOnlyByMove(cfg: Config, b: Booking, events: seq<Event>, t: seq<Event>, input: TransitionInput)
    requires Consider(cfg, b, events, input).Proceed? && TrailHolds(cfg, b, t)
    requires LatestEvent(events, input.booking) < 0 <==> t == []
    requires t != [] ==> t[|t| - 1] == events[LatestEvent(events, input.booking)]
    ensures MayMove(cfg, b, t, input.to)
  {
  }

  lemma TrailExtends(cfg: Config, b: Booking, t: seq<Event>, input: TransitionInput, e: Event)
    requires TrailHolds(cfg, b, t) && MayMove(cfg, b, t, input.to) && e.from == b.status && e.to == input.to
    ensures TrailHolds(cfg, Moved(b, input), t + [e])
  {
    var longer := t + [e];
    forall i | 0 < i < |longer| ensures Follows(longer, i) {
      if i < |t| { assert Follows(t, i); }
    }
  }

  function EventOf(s: Store, input: TransitionInput): Event
    requires input.booking in s.bookings
  {
    Apply(s, input).events[|s.events|]
  }

  lemma ApplyKeepsBookings(cfg: Config, s: Store, input: TransitionInput, u: string)
    requires u in s.bookings && BookingHolds(cfg, s, u) && PendingHolds(cfg, s, input.booking, input)
    ensures BookingHolds(cfg, Apply(s, input), u)
  {
    TrailAppend(s.events, EventOf(s, input), u);
    LastAmountAppend(s.log, input, u);
    if u == input.booking {
      TrailExtends(cfg, s.bookings[u], Trail(s.events, u), input, EventOf(s, input));
    }
  }

  lemma ApplyKeepsReceipts(s: Store, input: TransitionInput)
    requires ReceiptsHold(s) && input.booking in s.bookings && input.key !in s.receipts
    ensures ReceiptsHold(Apply(s, input))
  {
    var s' := Apply(s, input);
    forall i | 0 <= i < |s'.log| ensures s'.log[i].key in s'.receipts && s'.receipts[s'.log[i].key].event == i {
      if i < |s.log| { assert s.log[i].key in s.receipts; }
    }
  }

  lemma ApplyKeepsAllBookings(cfg: Config, s: Store, input: TransitionInput)
    requires BookingsHold(cfg, s) && PendingHolds(cfg, s, input.booking, input)
    ensures BookingsHold(cfg, Apply(s, input))
  {
    forall u | u in s.bookings ensures BookingHolds(cfg, Apply(s, input), u) {
      ApplyKeepsBookings(cfg, s, input, u);
    }
  }

  lemma ApplyKeepsKnown(s: Store, input: TransitionInput)
    requires EventsKnown(s) && input.booking in s.bookings
    ensures EventsKnown(Apply(s, input))
  {
  }

  lemma ApplyKeepsStore(cfg: Config, s: Store, input: TransitionInput)
    requires StoreHolds(cfg, s) && PendingHolds(cfg, s, input.booking, input) && input.key !in s.receipts
    ensures StoreHolds(cfg, Apply(s, input))
  {
    ApplyKeepsReceipts(s, input);
    ApplyKeepsAllBookings(cfg, s, input);
    ApplyKeepsKnown(s, input);
  }

  /** Writing one booking leaves the promises about the others alone. */
  lemma ApplyKeepsPending(cfg: Config, s: Store, input: TransitionInput, u: string, other: TransitionInput)
    requires input.booking in s.bookings && u != input.booking && PendingHolds(cfg, s, u, other)
    ensures PendingHolds(cfg, Apply(s, input), u, other)
  {
    TrailAppend(s.events, EventOf(s, input), u);
  }

  lemma Untouched(s: Store, u: string)
    requires ReceiptsHold(s) && u !in s.bookings
    requires forall i :: 0 <= i < |s.events| ==> s.events[i].booking in s.bookings
    ensures Trail(s.events, u) == [] && LastAmount(s.log, u) == 0.0
  {
    NoTrail(s.events, u);
    NoAmount(s.log, u);
  }

  lemma NewBookingHolds(cfg: Config, s: Store, u: string, b: Booking)
    requires Trail(s.events, u) == [] && LastAmount(s.log, u) == 0.0
    requires b.classCode in cfg.lifecycles && b.status == cfg.lifecycles[b.classCode].initial && b.settled == 0.0
    ensures BookingHolds(cfg, s.(bookings := s.bookings[u := b]), u)
  {
  }

  lemma CreateKeepsStore(cfg: Config, s: Store, input: CreateInput, uid: string)
    requires StoreHolds(cfg, s)
    ensures StoreHolds(cfg, Create(cfg, s, input, uid).0)
    ensures Unmoved(s, Create(cfg, s, input, uid).0)
  {
    var s' := Create(cfg, s, input, uid).0;
    if s' != s {
      Untouched(s, uid);
      AddKeepsStore(cfg, s, uid, Created(cfg, input));
    }
  }

  lemma AddKeepsStore(cfg: Config, s: Store, uid: string, b: Booking)
    requires StoreHolds(cfg, s) && uid !in s.bookings && Trail(s.events, uid) == [] && LastAmount(s.log, uid) == 0.0
    requires b.classCode in cfg.lifecycles && b.status == cfg.lifecycles[b.classCode].initial && b.settled == 0.0
    ensures StoreHolds(cfg, s.(bookings := s.bookings[uid := b]))
  {
    AddKeepsBookings(cfg, s, uid, b);
    AddKeepsReceipts(s, s.bookings[uid := b]);
    assert EventsKnown(s.(bookings := s.bookings[uid := b]));
  }

  lemma AddKeepsReceipts(s: Store, bookings: map<string, Booking>)
    requires ReceiptsHold(s)
    ensures ReceiptsHold(s.(bookings := bookings))
  {
  }

  lemma AddKeepsBookings(cfg: Config, s: Store, uid: string, b: Booking)
    requires BookingsHold(cfg, s) && uid !in s.bookings && Trail(s.events, uid) == [] && LastAmount(s.log, uid) == 0.0
    requires b.classCode in cfg.lifecycles && b.status == cfg.lifecycles[b.classCode].initial && b.settled == 0.0
    ensures BookingsHold(cfg, s.(bookings := s.bookings[uid := b]))
  {
    var s' := s.(bookings := s.bookings[uid := b]);
    NewBookingHolds(cfg, s, uid, b);
    forall u | u in s'.bookings ensures BookingHolds(cfg, s', u) {
      if u != uid { OldBookingHolds(cfg, s, s', u); }
    }
  }

  lemma OldBookingHolds(cfg: Config, s: Store, s': Store, u: string)
    requires u in s.bookings && u in s'.bookings && BookingHolds(cfg, s, u)
    requires s'.events == s.events && s'.log == s.log && s'.bookings[u] == s.bookings[u]
    ensures BookingHolds(cfg, s', u)
  {
  }

  /** Nothing that existed has changed. */
  ghost predicate Unmoved(s: Store, s': Store) {
    s'.events == s.events && forall u :: u in s.bookings ==> u in s'.bookings && s'.bookings[u] == s.bookings[u]
  }

  lemma CommitKeeps(cfg: Config, w: World, u: string)
    requires WorldHolds(cfg, w) && u in w.inflight && w.inflight[u].key !in w.store.receipts
    ensures WorldHolds(cfg, World(Apply(w.store, w.inflight[u]), w.inflight - {u}))
  {
    var input := w.inflight[u];
    ApplyKeepsStore(cfg, w.store, input);
    forall v | v in w.inflight && v != u ensures PendingHolds(cfg, Apply(w.store, input), v, w.inflight[v]) {
      ApplyKeepsPending(cfg, w.store, input, v, w.inflight[v]);
    }
  }

  lemma UnmovedKeepsPending(cfg: Config, s: Store, s': Store, u: string, input: TransitionInput)
    requires Unmoved(s, s') && PendingHolds(cfg, s, u, input)
    ensures PendingHolds(cfg, s', u, input)
  {
  }

  lemma CreateKeeps(cfg: Config, w: World, input: CreateInput, uid: string)
    requires WorldHolds(cfg, w)
    ensures WorldHolds(cfg, w.(store := Create(cfg, w.store, input, uid).0))
  {
    var s' := Create(cfg, w.store, input, uid).0;
    CreateKeepsStore(cfg, w.store, input, uid);
    forall u | u in w.inflight ensures PendingHolds(cfg, s', u, w.inflight[u]) {
      UnmovedKeepsPending(cfg, w.store, s', u, w.inflight[u]);
    }
  }

  lemma BeginKeeps(cfg: Config, w: World, input: TransitionInput)
    requires WorldHolds(cfg, w)
    ensures WorldHolds(cfg, Next(cfg, w, Begin(input)))
  {
    if Decide(cfg, w.store, input).Proceed? {
      ProceedingCall(cfg, w.store, input);
      assert BookingHolds(cfg, w.store, input.booking);
      DecisionHolds(cfg, w.store, input);
    }
  }

  lemma StepKeeps(cfg: Config, w: World, step: Step)
    requires WorldHolds(cfg, w)
    ensures WorldHolds(cfg, Next(cfg, w, step))
  {
    match step {
      case CreateStep(input, uid) => CreateKeeps(cfg, w, input, uid);
      case Begin(input) => BeginKeeps(cfg, w, input);
      case Commit(u) =>
        if Commits(w, u) { CommitKeeps(cfg, w, u); }
      case Abort(_) =>
    }
  }

  lemma {:induction false} RunKeeps(cfg: Config, w: World, steps: seq<Step>)
    requires WorldHolds(cfg, w)
    ensures WorldHolds(cfg, Run(cfg, w, steps))
    decreases |steps|
  {
    if |steps| > 0 {
      StepKeeps(cfg, w, steps[0]);
      RunKeeps(cfg, Next(cfg, w, steps[0]), steps[1..]);
    }
  }

  lemma StepKeepsLocked(cfg: Config, w: World, step: Step, u: string)
    requires WorldHolds(cfg, w) && u in w.inflight && step != Commit(u) && step != Abort(u)
    ensures var v := Next(cfg, w, step);
            u in v.inflight && v.inflight[u] == w.inflight[u] && u in v.store.bookings
            && v.store.bookings[u] == w.store.bookings[u]
  {
    assert PendingHolds(cfg, w.store, u, w.inflight[u]);
    match step
    case CreateStep(input, uid) => CreateKeepsStore(cfg, w.store, input, uid);
    case Begin(_) =>
    case Commit(v) => if Commits(w, v) { CommitsElsewhere(cfg, w, u, v); }
    case Abort(_) =>
  }

  lemma CommitsElsewhere(cfg: Config, w: World, u: string, v: string)
    requires WorldHolds(cfg, w) && u in w.inflight && u in w.store.bookings && v != u && Commits(w, v)
    ensures Apply(w.store, w.inflight[v]).bookings[u] == w.store.bookings[u]
  {
    assert PendingHolds(cfg, w.store, v, w.inflight[v]);
  }

  /** The row lock excludes: until the transition that holds a booking's lock commits or aborts, nothing else
      takes its place and nobody changes the booking, whatever runs in between. */
  lemma {:induction false} LockExcludes(cfg: Config, w: World, steps: seq<Step>, u: string)
    requires WorldHolds(cfg, w) && u in w.inflight
    requires forall i :: 0 <= i < |steps| ==> steps[i] != Commit(u) && steps[i] != Abort(u)
    ensures var v := Run(cfg, w, steps);
            u in v.inflight && v.inflight[u] == w.inflight[u] && u in w.store.bookings && u in v.store.bookings
            && v.store.bookings[u] == w.store.bookings[u]
    decreases |steps|
  {
    assert PendingHolds(cfg, w.store, u, w.inflight[u]);
    if |steps| > 0 {
      StepKeepsLocked(cfg, w, steps[0], u);
      StepKeeps(cfg, w, steps[0]);
      LockExcludes(cfg, Next(cfg, w, steps[0]), steps[1..], u);
    }
  }

  /** Every booking was created under a validated lifecycle. */
  ghost predicate Validated(cfg: Config, s: Store) {
    forall u :: u in s.bookings ==> HasLifecycle(cfg, s.bookings[u].classCode)
  }

  lemma {:induction false} RunKeepsValidated(cfg: Config, w: World, steps: seq<Step>)
    requires Validated(cfg, w.store)
    ensures Validated(cfg, Run(cfg, w, steps).store)
    decreases |steps|
  {
    if |steps| > 0 {
      RunKeepsValidated(cfg, Next(cfg, w, steps[0]), steps[1..]);
    }
  }

  // ---------------------------------------------------------------- what that says

  function Statuses(initial: Status, t: seq<Event>): (ss: seq<Status>)
    ensures |ss| == |t| + 1
  {
    [initial] + seq(|t|, i requires 0 <= i < |t| => t[i].to)
  }

  lemma TrailIsWalk(l: Lifecycle, t: seq<Event>)
    requires IsTrail(l, t) && WellFormed(l)
    ensures IsWalk(l, Statuses(l.initial, t)) && EndOf(l, t) == Statuses(l.initial, t)[|t|]
    ensures forall i :: 0 <= i < |t| ==> t[i].from == Statuses(l.initial, t)[i] && t[i].from !in l.terminal
    ensures forall i :: 0 < i < |t| ==> t[i].from != t[i].to
  {
    var ss := Statuses(l.initial, t);
    forall i | 0 <= i < |t| ensures t[i].from == ss[i] && t[i].from !in l.terminal && Edge(l, ss[i], ss[i + 1]) {
      assert Edge(l, t[i].from, t[i].to);
      assert i > 0 ==> Follows(t, i);
    }
    forall i | 0 < i < |t| ensures t[i].from != t[i].to {
      assert Follows(t, i);
    }
  }

  /** After any run, every booking's events are a walk of its lifecycle that ends at its status, each
      event starts where the previous one ended, none leaves a terminal status, none after the first
      stays in place, and the settled amount is the last non-zero one applied. */
  lemma BookingHistory(cfg: Config, steps: seq<Step>, u: string)
    requires u in Run(cfg, EMPTY, steps).store.bookings
    ensures var s := Run(cfg, EMPTY, steps).store;
            var b, t := s.bookings[u], Trail(s.events, u);
            && b.classCode in cfg.lifecycles
            && var l := cfg.lifecycles[b.classCode];
               && IsWalk(l, Statuses(l.initial, t)) && b.status == Statuses(l.initial, t)[|t|]
               && (forall i :: 0 <= i < |t| ==> t[i].from == Statuses(l.initial, t)[i] && t[i].from !in l.terminal)
               && (forall i :: 0 < i < |t| ==> t[i].from != t[i].to)
               && b.settled == LastAmount(s.log, u)
  {
    RunKeeps(cfg, EMPTY, steps);
    RunKeepsValidated(cfg, EMPTY, steps);
    var s := Run(cfg, EMPTY, steps).store;
    assert BookingHolds(cfg, s, u);
    var l := cfg.lifecycles[s.bookings[u].classCode];
    TrailIsWalk(l, Trail(s.events, u));
  }

  /** No idempotency key ever produces two events, on one booking or across bookings. */
  lemma KeysApplyOnce(cfg: Config, steps: seq<Step>, i: nat, j: nat)
    requires i < j < |Run(cfg, EMPTY, steps).store.log|
    ensures |Run(cfg, EMPTY, steps).store.events| == |Run(cfg, EMPTY, steps).store.log|
    ensures Run(cfg, EMPTY, steps).store.log[i].key != Run(cfg, EMPTY, steps).store.log[j].key
  {
    RunKeeps(cfg, EMPTY, steps);
  }

  // ---------------------------------------------------------------- replay safety

  /** Receipts, events and the log are only ever added to. */
  ghost predicate Grows(s: Store, s': Store) {
    && s.events <= s'.events && s.log <= s'.log
    && forall k :: k in s.receipts ==> k in s'.receipts && s'.receipts[k] == s.receipts[k]
  }

  lemma StepGrows(cfg: Config, w: World, step: Step)
    ensures Grows(w.store, Next(cfg, w, step).store)
  {
  }

  lemma {:induction false} RunGrows(cfg: Config, w: World, steps: seq<Step>)
    ensures Grows(w.store, Run(cfg, w, steps).store)
    decreases |steps|
  {
    if |steps| > 0 {
      StepGrows(cfg, w, steps[0]);
      RunGrows(cfg, Next(cfg, w, steps[0]), steps[1..]);
    }
  }

  /** The answer a key with a receipt gets from any later store. */
  lemma AnswerFromReceipt(cfg: Config, s: Store, s': Store, input: TransitionInput)
    requires ReceiptsHold(s) && EventsKnown(s) && Grows(s, s') && KeysStay(s, s') && input.key in s.receipts
    ensures var r, d := s.receipts[input.key], Decide(cfg, s', input);
            && r.event < |s.events| <= |s'.events| && s'.events[r.event] == s.events[r.event]
            && s.events[r.event].booking == r.booking && s.events[r.event].to == r.to
            && d == if ValidTransition(input) && MatchesReceipt(r, input) then Replay(r.event) else Refuse
  {
    assert s.events[s.receipts[input.key].event].booking in s.bookings;
  }

  /** Once a key has applied a transition, whatever happens next: a call with that key, on any
      booking and however often, gets the very event it produced exactly when it is valid, for the same
      booking and status and with channel reference and amount equal or left out, and is refused otherwise.
      It never proceeds, and a racing call with the key that had already passed its check commits nothing. */
  lemma {:induction false} ReplaySafe(cfg: Config, before: seq<Step>, after: seq<Step>, input: TransitionInput)
    requires input.key in Run(cfg, EMPTY, before).store.receipts
    ensures var s, w := Run(cfg, EMPTY, before).store, Run(cfg, Run(cfg, EMPTY, before), after);
            var r, d := s.receipts[input.key], Decide(cfg, w.store, input);
            && r.event < |s.events| <= |w.store.events| && w.store.events[r.event] == s.events[r.event]
            && s.events[r.event].booking == r.booking && s.events[r.event].to == r.to
            && (d == Refuse || d == Replay(r.event))
            && (d.Replay? <==> && ValidTransition(input) && r.booking == input.booking && r.to == input.to
                               && input.channelRef in {"", r.channelRef} && Value(input.amount) in {0.0, r.amount})
            && Next(cfg, w, Begin(input)) == w
            && forall u :: u in w.inflight && w.inflight[u].key == input.key ==>
                 Next(cfg, w, Commit(u)).store == w.store
  {
    var v := Run(cfg, EMPTY, before);
    var w := Run(cfg, v, after);
    RunKeeps(cfg, EMPTY, before);
    RunKeepsCreateKeys(cfg, EMPTY, before);
    RunKeepsCreateKeys(cfg, v, after);
    RunGrows(cfg, v, after);
    AnswerFromReceipt(cfg, v.store, w.store, input);
    KeyIsSpent(cfg, w, input);
  }

  lemma KeyIsSpent(cfg: Config, w: World, input: TransitionInput)
    requires input.key in w.store.receipts
    ensures Next(cfg, w, Begin(input)) == w
    ensures forall u :: u in w.inflight && w.inflight[u].key == input.key ==> Next(cfg, w, Commit(u)).store == w.store
  {
  }

  // ---------------------------------------------------------------- an identical retry

  /** Everything logged or in flight is a valid call. */
  ghost predicate CallsValid(w: World) {
    LogValid(w.store.log) && FlightValid(w.inflight)
  }

  ghost predicate LogValid(log: seq<TransitionInput>) {
    forall i :: 0 <= i < |log| ==> ValidTransition(log[i])
  }

  ghost predicate FlightValid(inflight: map<string, TransitionInput>) {
    forall u :: u in inflight ==> ValidTransition(inflight[u])
  }

  lemma StepKeepsValid(cfg: Config, w: World, step: Step)
    requires CallsValid(w)
    ensures CallsValid(Next(cfg, w, step))
  {
    match step
    case CreateStep(_, _) =>
    case Begin(input) =>
      if input.booking !in w.inflight && Decide(cfg, w.store, input).Proceed? {
        ProceedingCall(cfg, w.store, input);
        ValidWith(w, input);
      }
    case Commit(u) => if Commits(w, u) { ValidAfter(w, u); }
    case Abort(_) =>
  }

  lemma ValidWith(w: World, input: TransitionInput)
    requires CallsValid(w) && ValidTransition(input)
    ensures CallsValid(w.(inflight := w.inflight[input.booking := input]))
  {
  }

  lemma ValidAfter(w: World, u: string)
    requires CallsValid(w) && Commits(w, u)
    ensures CallsValid(World(Apply(w.store, w.inflight[u]), w.inflight - {u}))
  {
    LogValidAppend(w.store.log, w.inflight[u]);
    assert FlightValid(w.inflight - {u});
  }

  lemma LogValidAppend(log: seq<TransitionInput>, input: TransitionInput)
    requires LogValid(log) && ValidTransition(input)
    ensures LogValid(log + [input])
  {
  }

  lemma {:induction false} RunKeepsValid(cfg: Config, w: World, steps: seq<Step>)
    requires CallsValid(w)
    ensures CallsValid(Run(cfg, w, steps))
    decreases |steps|
  {
    if |steps| > 0 {
      StepKeepsValid(cfg, w, steps[0]);
      RunKeepsValid(cfg, Next(cfg, w, steps[0]), steps[1..]);
    }
  }

  lemma RetryFromReceipt(cfg: Config, s: Store, s': Store, i: nat)
    requires ReceiptsHold(s) && EventsKnown(s) && Grows(s, s') && KeysStay(s, s')
    requires i < |s.log| && ValidTransition(s.log[i])
    ensures Decide(cfg, s', s.log[i]) == Replay(i)
  {
    assert s.events[i].booking in s.bookings;
    assert s.log[i].key in s.receipts;
  }

  /** The converse of replay safety: a call that applied a transition, repeated as it was after any later
      run, gets the very event it produced. */
  lemma RetryReturnsEvent(cfg: Config, before: seq<Step>, after: seq<Step>, i: nat)
    requires i < |Run(cfg, EMPTY, before).store.log|
    ensures var s, w := Run(cfg, EMPTY, before).store, Run(cfg, Run(cfg, EMPTY, before), after);
            Decide(cfg, w.store, s.log[i]) == Replay(i)
  {
    var v := Run(cfg, EMPTY, before);
    RunKeeps(cfg, EMPTY, before);
    RunKeepsValid(cfg, EMPTY, before);
    RunKeepsCreateKeys(cfg, EMPTY, before);
    RunKeepsCreateKeys(cfg, v, after);
    RunGrows(cfg, v, after);
    RetryFromReceipt(cfg, v.store, Run(cfg, v, after).store, i);
  }

  // ---------------------------------------------------------------- channel references

  /** No two bookings of one channel share a reference. */
  ghost predicate RefsUnique(s: Store) {
    forall u, v :: u in s.bookings && v in s.bookings && SameRef(s.bookings[u], s.bookings[v]) ==> u == v
  }

  predicate SameRef(a: Booking, b: Booking) {
    a.channelName == b.channelName && a.channelRef == b.channelRef && a.channelRef != ""
  }

  lemma ApplyKeepsRefs(s: Store, input: TransitionInput)
    requires RefsUnique(s) && input.booking in s.bookings && !RefTaken(s.bookings, input)
    ensures RefsUnique(Apply(s, input))
  {
    var t := Apply(s, input);
    forall u, v | u in t.bookings && v in t.bookings && SameRef(t.bookings[u], t.bookings[v]) ensures u == v {
      assert u != input.booking && v != input.booking ==> SameRef(s.bookings[u], s.bookings[v]);
    }
  }

  lemma CreateKeepsRefs(cfg: Config, s: Store, input: CreateInput, uid: string)
    requires RefsUnique(s)
    ensures RefsUnique(Create(cfg, s, input, uid).0)
  {
  }

  /** Through every interleaving no two bookings of one channel come to share a reference. */
  lemma {:induction false} RunKeepsRefs(cfg: Config, w: World, steps: seq<Step>)
    requires RefsUnique(w.store)
    ensures RefsUnique(Run(cfg, w, steps).store)
    decreases |steps|
  {
    if |steps| > 0 {
      var step := steps[0];
      if step.CreateStep? {
        CreateKeepsRefs(cfg, w.store, step.create, step.uid);
      } else if step.Commit? && Commits(w, step.booking) {
        ApplyKeepsRefs(w.store, w.inflight[step.booking]);
      }
      RunKeepsRefs(cfg, Next(cfg, w, step), steps[1..]);
    }
  }

  // ---------------------------------------------------------------- settled amounts

  /** Bookings stay, and what they have settled never falls. */
  ghost predicate SettledGrows(s: Store, s': Store) {
    forall u :: u in s.bookings ==> u in s'.bookings && s.bookings[u].settled <= s'.bookings[u].settled
  }

  lemma StepGrowsSettled(cfg: Config, w: World, step: Step)
    ensures SettledGrows(w.store, Next(cfg, w, step).store)
  {
  }

  /** Through every interleaving no booking's settled amount ever falls. */
  lemma {:induction false} RunGrowsSettled(cfg: Config, w: World, steps: seq<Step>)
    ensures SettledGrows(w.store, Run(cfg, w, steps).store)
    decreases |steps|
  {
    if |steps| > 0 {
      StepGrowsSettled(cfg, w, steps[0]);
      RunGrowsSettled(cfg, Next(cfg, w, steps[0]), steps[1..]);
    }
  }

  // ---------------------------------------------------------------- creation keys

  ghost predicate CreateKeysUnique(s: Store) {
    forall u, v :: u in s.bookings && v in s.bookings && s.bookings[u].key == s.bookings[v].key ==> u == v
  }

  /** Bookings are never removed and never change the key that created them. */
  ghost predicate KeysStay(s: Store, s': Store) {
    forall u :: u in s.bookings ==> u in s'.bookings && s'.bookings[u].key == s.bookings[u].key
  }

  lemma StepKeepsCreateKeys(cfg: Config, w: World, step: Step)
    requires CreateKeysUnique(w.store)
    ensures CreateKeysUnique(Next(cfg, w, step).store) && KeysStay(w.store, Next(cfg, w, step).store)
  {
    match step
    case CreateStep(input, uid) => CreateKeepsCreateKeys(cfg, w.store, input, uid);
    case Begin(_) =>
    case Commit(u) =>
      if u in w.inflight && w.inflight[u].booking in w.store.bookings { ApplyKeepsCreateKeys(w.store, w.inflight[u]); }
    case Abort(_) =>
  }

  lemma CreateKeepsCreateKeys(cfg: Config, s: Store, input: CreateInput, uid: string)
    requires CreateKeysUnique(s)
    ensures CreateKeysUnique(Create(cfg, s, input, uid).0) && KeysStay(s, Create(cfg, s, input, uid).0)
  {
  }

  lemma ApplyKeepsCreateKeys(s: Store, input: TransitionInput)
    requires CreateKeysUnique(s) && input.booking in s.bookings
    ensures CreateKeysUnique(Apply(s, input)) && KeysStay(s, Apply(s, input))
  {
    var t := Apply(s, input);
    forall u, v | u in t.bookings && v in t.bookings && t.bookings[u].key == t.bookings[v].key ensures u == v {
      assert s.bookings[u].key == s.bookings[v].key;
    }
  }

  lemma {:induction false} RunKeepsCreateKeys(cfg: Config, w: World, steps: seq<Step>)
    requires CreateKeysUnique(w.store)
    ensures CreateKeysUnique(Run(cfg, w, steps).store) && KeysStay(w.store, Run(cfg, w, steps).store)
    decreases |steps|
  {
    if |steps| > 0 {
      StepKeepsCreateKeys(cfg, w, steps[0]);
      RunKeepsCreateKeys(cfg, Next(cfg, w, steps[0]), steps[1..]);
    }
  }

  /** One creation key makes one booking, for good: after any run, a call with a key that created `u`
      changes nothing and returns `u` or is refused. */
  lemma CreateReplays(cfg: Config, before: seq<Step>, after: seq<Step>, u: string, input: CreateInput, uid: string)
    requires u in Run(cfg, EMPTY, before).store.bookings && Run(cfg, EMPTY, before).store.bookings[u].key == input.key
    ensures var s := Run(cfg, Run(cfg, EMPTY, before), after).store;
            Create(cfg, s, input, uid).0 == s && Create(cfg, s, input, uid).1 in {Refused, Returned(u)}
  {
    var w := Run(cfg, EMPTY, before);
    RunKeepsCreateKeys(cfg, EMPTY, before);
    RunKeepsCreateKeys(cfg, w, after);
    var s := Run(cfg, w, after).store;
    assert KeyTaken(s, input.key);
    assert HolderOf(s, input.key) == u;
  }
}
