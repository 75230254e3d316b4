/** The second replay path of a transition: a call answered by comparing states leaves no receipt.
    Exactly when the same call can still apply a transition later, and that its key always can. */
module BookingReturns {
  import opened Decimals
  import opened Amounts
  import opened Freeform
  import opened Lifecycles
  import opened Bookings
  import opened BookingRuns

  /** A step between two different statuses that a call may ask for. */
  predicate Move(l: Lifecycle, a: Status, b: Status) {
    Edge(l, a, b) && a != b && b != ""
  }

  ghost predicate IsMoves(l: Lifecycle, path: seq<Status>) {
    |path| > 0 && forall i :: 0 <= i < |path| - 1 ==> Move(l, path[i], path[i + 1])
  }

  /** The lifecycle leads from a status away and back to it. */
  ghost predicate CanReturn(l: Lifecycle, s: Status) {
    exists path :: IsMoves(l, path) && |path| > 1 && path[0] == s && path[|path| - 1] == s
  }

  /** The call is answered from the booking's state, with no receipt for its key. */
  ghost predicate AnsweredByState(cfg: Config, s: Store, input: TransitionInput) {
    input.key !in s.receipts && Decide(cfg, s, input).Replay?
  }

  ghost function LifecycleOf(cfg: Config, s: Store, u: string): Lifecycle
    requires u in s.bookings && s.bookings[u].classCode in cfg.lifecycles
  {
    cfg.lifecycles[s.bookings[u].classCode]
  }

  lemma AnsweredInPlace(cfg: Config, s: Store, input: TransitionInput)
    requires AnsweredByState(cfg, s, input)
    ensures input.booking in s.bookings && input.booking != "" && ValidTransition(input)
    ensures HasLifecycle(cfg, s.bookings[input.booking].classCode)
    ensures IsZero(input.amount) || PrecisionOk(cfg, s.bookings[input.booking].currency, input.amount)
    ensures s.bookings[input.booking].status == input.to && LatestEvent(s.events, input.booking) >= 0
    ensures input.channelRef in {"", s.bookings[input.booking].channelRef}
    ensures Settle(input, s.bookings[input.booking].settled) == s.bookings[input.booking].settled
  {
  }

  // ---------------------------------------------------------------- what runs keep besides

  /** Nobody moves to the empty status. */
  ghost predicate Named(w: World) {
    && (forall i :: 0 <= i < |w.store.events| ==> w.store.events[i].to != "")
    && (forall u :: u in w.inflight ==> w.inflight[u].to != "")
  }

  lemma StepKeepsNamed(cfg: Config, w: World, step: Step)
    requires Named(w)
    ensures Named(Next(cfg, w, step))
  {
    if step.Begin? && Decide(cfg, w.store, step.input).Proceed? {
      ProceedingCall(cfg, w.store, step.input);
    }
  }

  lemma {:induction false} RunKeepsNamed(cfg: Config, w: World, steps: seq<Step>)
    requires Named(w)
    ensures Named(Run(cfg, w, steps))
    decreases |steps|
  {
    if |steps| > 0 {
      StepKeepsNamed(cfg, w, steps[0]);
      RunKeepsNamed(cfg, Next(cfg, w, steps[0]), steps[1..]);
    }
  }

  /** Bookings stay, with their classification and currency. */
  ghost predicate ClassesStay(s: Store, s': Store) {
    forall u :: u in s.bookings ==>
      u in s'.bookings && s'.bookings[u].classCode == s.bookings[u].classCode && s'.bookings[u].currency == s.bookings[u].currency
  }

  lemma StepKeepsClasses(cfg: Config, w: World, step: Step)
    ensures ClassesStay(w.store, Next(cfg, w, step).store)
  {
  }

  lemma {:induction false} RunKeepsClasses(cfg: Config, w: World, steps: seq<Step>)
    ensures ClassesStay(w.store, Run(cfg, w, steps).store)
    decreases |steps|
  {
    if |steps| > 0 {
      StepKeepsClasses(cfg, w, steps[0]);
      RunKeepsClasses(cfg, Next(cfg, w, steps[0]), steps[1..]);
    }
  }

  // ---------------------------------------------------------------- applied later means the lifecycle leads back

  lemma {:induction false} TrailOfConcat(a: seq<Event>, b: seq<Event>, u: string)
    ensures Trail(a + b, u) == Trail(a, u) + Trail(b, u)
  {
    if |b| == 0 {
      assert a + b == a;
    } else {
      assert (a + b)[..|a + b| - 1] == a + b[..|b| - 1];
      TrailOfConcat(a, b[..|b| - 1], u);
    }
  }

  lemma {:induction false} TrailNamed(events: seq<Event>, u: string, k: nat)
    requires forall i :: 0 <= i < |events| ==> events[i].to != ""
    requires k < |Trail(events, u)|
    ensures Trail(events, u)[k].to != ""
  {
    var n := |events| - 1;
    if k < |Trail(events[..n], u)| { TrailNamed(events[..n], u, k); }
  }

  /** Where the trail of a booking continues: everything logged after an earlier store comes after it. */
  lemma {:induction false} TrailContinues(early: seq<Event>, late: seq<Event>, i: nat, u: string)
    requires early <= late && |early| <= i < |late| && late[i].booking == u
    ensures Trail(early, u) <= Trail(late, u)
    ensures exists p :: |Trail(early, u)| <= p < |Trail(late, u)| && Trail(late, u)[p] == late[i]
  {
    var mid, tail := late[|early|..i], late[i + 1..];
    assert late == early + (mid + ([late[i]] + tail));
    TrailOfConcat(early, mid + ([late[i]] + tail), u);
    TrailOfConcat(mid, [late[i]] + tail, u);
    TrailOfConcat([late[i]], tail, u);
    assert Trail([late[i]], u) == [late[i]];
    var p := |Trail(early, u)| + |Trail(mid, u)|;
    assert Trail(late, u)[p] == late[i];
  }

  lemma TrailStep(l: Lifecycle, t: seq<Event>, m: nat)
    requires IsTrail(l, t) && 0 < m < |t| && t[m].to != ""
    ensures Move(l, t[m - 1].to, t[m].to)
  {
    assert Follows(t, m);
  }

  /** The statuses of a trail between two of its events are a path of moves. */
  lemma {:induction false} TrailPath(l: Lifecycle, t: seq<Event>, j: nat, p: nat) returns (path: seq<Status>)
    requires IsTrail(l, t) && j <= p < |t|
    requires forall k :: 0 <= k < |t| ==> t[k].to != ""
    ensures IsMoves(l, path) && |path| == p - j + 1 && path[0] == t[j].to && path[p - j] == t[p].to
    decreases p
  {
    if j == p {
      path := [t[j].to];
    } else {
      var before := TrailPath(l, t, j, p - 1);
      TrailStep(l, t, p);
      path := before + [t[p].to];
    }
  }

  /** An input without a receipt that is logged later produced one of the later events. */
  lemma LoggedLater(s: Store, v: Store, input: TransitionInput) returns (i: nat)
    requires ReceiptsHold(s) && ReceiptsHold(v) && Grows(s, v) && input.key !in s.receipts && input in v.log
    ensures |s.events| <= i < |v.events| && v.events[i].booking == input.booking && v.events[i].to == input.to
  {
    i :| 0 <= i < |v.log| && v.log[i] == input;
  }

  lemma ReturnInTrail(l: Lifecycle, early: seq<Event>, late: seq<Event>, p: nat, s: Status)
    requires early != [] && early <= late && |early| <= p < |late| && early[|early| - 1].to == s && late[p].to == s
    requires IsTrail(l, late) && forall k :: 0 <= k < |late| ==> late[k].to != ""
    ensures CanReturn(l, s)
  {
    var j := |early| - 1;
    assert late[j] == early[j];
    var path := TrailPath(l, late, j, p);
  }

  lemma AllNamed(events: seq<Event>, u: string)
    requires forall i :: 0 <= i < |events| ==> events[i].to != ""
    ensures forall k :: 0 <= k < |Trail(events, u)| ==> Trail(events, u)[k].to != ""
  {
    forall k | 0 <= k < |Trail(events, u)| ensures Trail(events, u)[k].to != "" { TrailNamed(events, u, k); }
  }

  lemma AppliedMeansReturn(cfg: Config, w: World, after: seq<Step>, input: TransitionInput)
    requires WorldHolds(cfg, w) && Named(w) && AnsweredByState(cfg, w.store, input)
    requires input in Run(cfg, w, after).store.log
    ensures var u := input.booking;
            u in w.store.bookings && HasLifecycle(cfg, w.store.bookings[u].classCode)
            && CanReturn(LifecycleOf(cfg, w.store, u), input.to)
  {
    var s, v, u := w.store, Run(cfg, w, after).store, input.booking;
    AnsweredInPlace(cfg, s, input);
    RunKeeps(cfg, w, after);
    RunKeepsNamed(cfg, w, after);
    RunKeepsClasses(cfg, w, after);
    RunGrows(cfg, w, after);
    var i := LoggedLater(s, v, input);
    assert BookingHolds(cfg, s, u) && BookingHolds(cfg, v, u);
    ReturnBetween(cfg, s, v, u, i, input.to);
  }

  lemma {:induction false} ReturnBetween(cfg: Config, s: Store, v: Store, u: string, i: nat, to: Status)
    requires u in s.bookings && BookingHolds(cfg, s, u) && s.bookings[u].status == to && LatestEvent(s.events, u) >= 0
    requires u in v.bookings && BookingHolds(cfg, v, u) && v.bookings[u].classCode == s.bookings[u].classCode
    requires s.events <= v.events && |s.events| <= i < |v.events| && v.events[i].booking == u && v.events[i].to == to
    requires forall k :: 0 <= k < |v.events| ==> v.events[k].to != ""
    ensures CanReturn(LifecycleOf(cfg, s, u), to)
  {
    AllNamed(v.events, u);
    EndsInPlace(cfg, s, u);
    TrailContinues(s.events, v.events, i, u);
    var p :| |Trail(s.events, u)| <= p < |Trail(v.events, u)| && Trail(v.events, u)[p] == v.events[i];
    ReturnInTrail(LifecycleOf(cfg, s, u), Trail(s.events, u), Trail(v.events, u), p, to);
  }

  /** A booking with events is where its last one went. */
  lemma EndsInPlace(cfg: Config, s: Store, u: string)
    requires u in s.bookings && BookingHolds(cfg, s, u) && LatestEvent(s.events, u) >= 0
    ensures var t := Trail(s.events, u);
            t != [] && t[|t| - 1].to == s.bookings[u].status
  {
    TrailEndsAtLatest(s.events, u);
  }

  // ---------------------------------------------------------------- and leading back lets it apply

  lemma {:induction false} LengthBound(keys: set<string>) returns (n: nat)
    ensures forall k :: k in keys ==> |k| < n
    decreases |keys|
  {
    n := 0;
    if k :| k in keys {
      n := LengthBound(keys - {k});
      if n <= |k| { n := |k| + 1; }
    }
  }

  lemma FreshKey(keys: set<string>) returns (key: string)
    ensures key !in keys && key != ""
  {
    var n := LengthBound(keys);
    key := seq(n + 1, _ => 'k');
  }

  /** A booking that is free to be moved along its lifecycle, with a key still unused. */
  ghost predicate Movable(cfg: Config, w: World, u: string, key: string) {
    && u != "" && u in w.store.bookings && u !in w.inflight && key !in w.store.receipts
    && HasLifecycle(cfg, w.store.bookings[u].classCode) && RefsUnique(w.store)
  }

  /** A call that neither changes the channel reference nor the settled amount. */
  ghost predicate Repeats(b: Booking, input: TransitionInput) {
    input.channelRef in {"", b.channelRef} && Settle(input, b.settled) == b.settled
  }

  /** A booking never clashes with its own channel reference and settled amount. */
  lemma OwnValuesPass(s: Store, input: TransitionInput)
    requires RefsUnique(s) && input.booking in s.bookings && Repeats(s.bookings[input.booking], input)
    ensures !Barred(s.bookings, input)
  {
    forall v | v in s.bookings && v != input.booking ensures !SameRef(s.bookings[v], s.bookings[input.booking]) {
    }
  }

  lemma MoveDecides(cfg: Config, w: World, input: TransitionInput)
    requires Movable(cfg, w, input.booking, input.key) && ValidTransition(input)
    requires var b := w.store.bookings[input.booking];
             && Move(cfg.lifecycles[b.classCode], b.status, input.to) && Repeats(b, input)
             && (IsZero(input.amount) || PrecisionOk(cfg, b.currency, input.amount))
    ensures Decide(cfg, w.store, input).Proceed?
  {
    OwnValuesPass(w.store, input);
  }

  lemma {:induction false} BeginAndCommit(cfg: Config, w: World, input: TransitionInput)
    requires input.booking in w.store.bookings && input.booking !in w.inflight && input.key !in w.store.receipts
    requires Decide(cfg, w.store, input).Proceed?
    ensures !Barred(w.store.bookings, input)
    ensures Run(cfg, w, [Begin(input), Commit(input.booking)]) == World(Apply(w.store, input), w.inflight)
  {
    var u := input.booking;
    var v := w.(inflight := w.inflight[u := input]);
    BeginAlone(cfg, w, input);
    CommitAlone(cfg, v, u);
    assert v.inflight - {u} == w.inflight;
    assert [Begin(input), Commit(u)][1..] == [Commit(u)];
  }

  lemma BeginAlone(cfg: Config, w: World, input: TransitionInput)
    requires input.booking !in w.inflight && Decide(cfg, w.store, input).Proceed?
    ensures Next(cfg, w, Begin(input)) == w.(inflight := w.inflight[input.booking := input])
  {
  }

  lemma CommitAlone(cfg: Config, v: World, u: string)
    requires Commits(v, u)
    ensures Run(cfg, v, [Commit(u)]) == World(Apply(v.store, v.inflight[u]), v.inflight - {u})
  {
    var x := Next(cfg, v, Commit(u));
    assert Run(cfg, v, [Commit(u)]) == Run(cfg, x, [Commit(u)][1..]) == x;
  }

  lemma {:induction false} RunConcat(cfg: Config, w: World, a: seq<Step>, b: seq<Step>)
    ensures Run(cfg, w, a + b) == Run(cfg, Run(cfg, w, a), b)
    decreases |a|
  {
    if |a| == 0 {
      assert a + b == b;
    } else {
      assert (a + b)[1..] == a[1..] + b;
      RunConcat(cfg, Next(cfg, w, a[0]), a[1..], b);
    }
  }

  lemma OneMove(cfg: Config, w: World, u: string, key: string, to: Status) returns (steps: seq<Step>)
    requires Movable(cfg, w, u, key) && Move(cfg.lifecycles[w.store.bookings[u].classCode], w.store.bookings[u].status, to)
    ensures Arrived(cfg, w, Run(cfg, w, steps), u, key, to)
  {
    var unused := FreshKey(w.store.receipts.Keys + {key});
    var input := TransitionInput(u, to, "", ZERO, map[], 0, "", unused);
    NothingIsFine();
    MoveDecides(cfg, w, input);
    BeginAndCommit(cfg, w, input);
    OwnValuesPass(w.store, input);
    ApplyKeepsRefs(w.store, input);
    steps := [Begin(input), Commit(u)];
  }

  /** The booking has got to a status and is still free to move on. */
  ghost predicate Arrived(cfg: Config, w: World, v: World, u: string, key: string, to: Status)
    requires u in w.store.bookings
  {
    && Movable(cfg, v, u, key) && v.store.bookings[u].status == to
    && v.store.bookings[u].classCode == w.store.bookings[u].classCode
    && v.store.bookings[u].currency == w.store.bookings[u].currency
    && v.store.bookings[u].channelRef == w.store.bookings[u].channelRef
    && v.store.bookings[u].settled == w.store.bookings[u].settled
  }

  lemma MovesTail(l: Lifecycle, path: seq<Status>)
    requires IsMoves(l, path) && |path| > 1
    ensures IsMoves(l, path[1..]) && IsMoves(l, path[..|path| - 1])
  {
    var tail := path[1..];
    forall i | 0 <= i < |tail| - 1 ensures Move(l, tail[i], tail[i + 1]) {
      assert Move(l, path[i + 1], path[i + 2]);
    }
  }

  /** Along every path of moves some run takes the booking, without using up the key. */
  lemma {:induction false} WalkAlong(cfg: Config, w: World, u: string, key: string, path: seq<Status>) returns (steps: seq<Step>)
    requires Movable(cfg, w, u, key)
    requires IsMoves(cfg.lifecycles[w.store.bookings[u].classCode], path) && path[0] == w.store.bookings[u].status
    ensures Arrived(cfg, w, Run(cfg, w, steps), u, key, path[|path| - 1])
    decreases |path|
  {
    if |path| == 1 {
      steps := [];
    } else {
      MovesTail(cfg.lifecycles[w.store.bookings[u].classCode], path);
      assert Move(cfg.lifecycles[w.store.bookings[u].classCode], path[0], path[1]);
      var first := OneMove(cfg, w, u, key, path[1]);
      var rest := WalkAlong(cfg, Run(cfg, w, first), u, key, path[1..]);
      RunConcat(cfg, w, first, rest);
      steps := first + rest;
    }
  }

  lemma ApplyAfter(cfg: Config, w: World, input: TransitionInput, path: seq<Status>) returns (steps: seq<Step>)
    requires Movable(cfg, w, input.booking, input.key) && ValidTransition(input)
    requires var b := w.store.bookings[input.booking];
             && Repeats(b, input) && (IsZero(input.amount) || PrecisionOk(cfg, b.currency, input.amount))
             && IsMoves(cfg.lifecycles[b.classCode], path) && |path| > 1 && path[0] == b.status && path[|path| - 1] == input.to
    ensures input in Run(cfg, w, steps).store.log
  {
    var u, n := input.booking, |path| - 1;
    var l := cfg.lifecycles[w.store.bookings[u].classCode];
    MovesTail(l, path);
    assert Move(l, path[n - 1], path[n]);
    var away := WalkAlong(cfg, w, u, input.key, path[..n]);
    ApplyAt(cfg, Run(cfg, w, away), input);
    steps := away + [Begin(input), Commit(u)];
    RunConcat(cfg, w, away, [Begin(input), Commit(u)]);
  }

  lemma ReturnLetsApply(cfg: Config, w: World, input: TransitionInput)
    requires AnsweredByState(cfg, w.store, input) && RefsUnique(w.store)
    requires var u := input.booking;
             u in w.store.bookings && HasLifecycle(cfg, w.store.bookings[u].classCode)
             && CanReturn(LifecycleOf(cfg, w.store, u), input.to)
    ensures exists after: seq<Step> :: input in Run(cfg, w, after).store.log
  {
    var u := input.booking;
    AnsweredInPlace(cfg, w.store, input);
    var path :| IsMoves(LifecycleOf(cfg, w.store, u), path) && |path| > 1 && path[0] == input.to && path[|path| - 1] == input.to;
    ReturnAlong(cfg, w, input, path);
  }

  lemma ReturnAlong(cfg: Config, w: World, input: TransitionInput, path: seq<Status>)
    requires input.booking in w.store.bookings && input.key !in w.store.receipts && ValidTransition(input)
    requires HasLifecycle(cfg, w.store.bookings[input.booking].classCode) && RefsUnique(w.store)
    requires var b := w.store.bookings[input.booking];
             && Repeats(b, input) && (IsZero(input.amount) || PrecisionOk(cfg, b.currency, input.amount))
             && IsMoves(cfg.lifecycles[b.classCode], path) && |path| > 1 && path[0] == b.status && path[|path| - 1] == input.to
    ensures exists after: seq<Step> :: input in Run(cfg, w, after).store.log
  {
    var u := input.booking;
    var free := w.(inflight := w.inflight - {u});
    var rest := ApplyAfter(cfg, free, input, path);
    FreedFirst(cfg, w, u, rest);
    assert input in Run(cfg, w, [Abort(u)] + rest).store.log;
  }

  lemma FreedFirst(cfg: Config, w: World, u: string, rest: seq<Step>)
    ensures Run(cfg, w, [Abort(u)] + rest) == Run(cfg, w.(inflight := w.inflight - {u}), rest)
  {
    assert ([Abort(u)] + rest)[1..] == rest;
    assert Next(cfg, w, Abort(u)) == w.(inflight := w.inflight - {u});
  }

  lemma ApplyAt(cfg: Config, v: World, input: TransitionInput)
    requires Movable(cfg, v, input.booking, input.key) && ValidTransition(input)
    requires var b := v.store.bookings[input.booking];
             && Move(cfg.lifecycles[b.classCode], b.status, input.to) && Repeats(b, input)
             && (IsZero(input.amount) || PrecisionOk(cfg, b.currency, input.amount))
    ensures input in Run(cfg, v, [Begin(input), Commit(input.booking)]).store.log
  {
    MoveDecides(cfg, v, input);
    BeginAndCommit(cfg, v, input);
    assert Apply(v.store, input).log[|v.store.log|] == input;
  }

  /** From any reachable world: the same call, once answered by comparing states, may still apply a
      transition of its own in some later run if and only if the booking's lifecycle leads from the
      requested status away and back to it. */
  lemma ComparedCallAppliesIff(cfg: Config, before: seq<Step>, input: TransitionInput)
    requires AnsweredByState(cfg, Run(cfg, EMPTY, before).store, input)
    ensures var w, u := Run(cfg, EMPTY, before), input.booking;
            && u in w.store.bookings && HasLifecycle(cfg, w.store.bookings[u].classCode)
            && ((exists after: seq<Step> :: input in Run(cfg, w, after).store.log)
                <==> CanReturn(LifecycleOf(cfg, w.store, u), input.to))
  {
    var w := Run(cfg, EMPTY, before);
    RunKeeps(cfg, EMPTY, before);
    RunKeepsNamed(cfg, EMPTY, before);
    RunKeepsRefs(cfg, EMPTY, before);
    AnsweredInPlace(cfg, w.store, input);
    if after: seq<Step> :| input in Run(cfg, w, after).store.log {
      AppliedMeansReturn(cfg, w, after, input);
    }
    if CanReturn(LifecycleOf(cfg, w.store, input.booking), input.to) {
      ReturnLetsApply(cfg, w, input);
    }
  }

  // ---------------------------------------------------------------- the key elsewhere

  /** Where bookings come from: a named classification with a lifecycle and a known currency. */
  ghost predicate Sourced(cfg: Config, s: Store) {
    forall u :: u in s.bookings ==> SourcedOne(cfg, s.bookings[u])
  }

  ghost predicate SourcedOne(cfg: Config, b: Booking) {
    b.classCode != "" && HasLifecycle(cfg, b.classCode) && b.currency != "" && b.currency in cfg.exponents
  }

  lemma CreateKeepsSourced(cfg: Config, s: Store, input: CreateInput, uid: string)
    requires Sourced(cfg, s)
    ensures Sourced(cfg, Create(cfg, s, input, uid).0)
  {
  }

  lemma ApplyKeepsSourced(cfg: Config, s: Store, input: TransitionInput)
    requires Sourced(cfg, s) && input.booking in s.bookings
    ensures Sourced(cfg, Apply(s, input))
  {
    assert SourcedOne(cfg, s.bookings[input.booking]);
  }

  lemma {:induction false} RunKeepsSourced(cfg: Config, w: World, steps: seq<Step>)
    requires Sourced(cfg, w.store)
    ensures Sourced(cfg, Run(cfg, w, steps).store)
    decreases |steps|
  {
    if |steps| > 0 {
      var step := steps[0];
      if step.CreateStep? {
        CreateKeepsSourced(cfg, w.store, step.create, step.uid);
      } else if step.Commit? && Commits(w, step.booking) {
        ApplyKeepsSourced(cfg, w.store, w.inflight[step.booking]);
      }
      RunKeepsSourced(cfg, Next(cfg, w, step), steps[1..]);
    }
  }

  /** A sibling can always be created for a booking: same classification, same currency, one unit. */
  lemma SiblingCreated(cfg: Config, w: World, b: Booking) returns (create: CreateInput, uid: string)
    requires SourcedOne(cfg, b)
    ensures create.classCode == b.classCode && uid != "" && uid !in w.store.bookings && uid !in w.inflight
    ensures Next(cfg, w, CreateStep(create, uid))
         == w.(store := w.store.(bookings := w.store.bookings[uid := Created(cfg, create)]))
  {
    var key := FreshKey(set v | v in w.store.bookings :: w.store.bookings[v].key);
    uid := FreshKey(w.store.bookings.Keys + w.inflight.Keys);
    create := CreateInput(b.classCode, 1, b.currency, Decimal(1, 0), key, "", map[], 0);
    OneUnit(cfg, b, create);
    assert !KeyTaken(w.store, key);
    Inserts(cfg, w.store, create, uid);
  }

  lemma OneUnit(cfg: Config, b: Booking, create: CreateInput)
    requires SourcedOne(cfg, b) && create.key != ""
    requires create == CreateInput(b.classCode, 1, b.currency, Decimal(1, 0), create.key, "", map[], 0)
    ensures ValidCreate(create) && PrecisionOk(cfg, create.currency, create.amount)
  {
    NothingIsFine();
    assert Truncate(Decimal(1, 0), cfg.exponents[b.currency]) == Decimal(1, 0);
  }

  lemma Inserts(cfg: Config, s: Store, create: CreateInput, uid: string)
    requires ValidCreate(create) && !KeyTaken(s, create.key) && uid !in s.bookings
    requires HasLifecycle(cfg, create.classCode) && PrecisionOk(cfg, create.currency, create.amount)
    ensures Create(cfg, s, create, uid) == (s.(bookings := s.bookings[uid := Created(cfg, create)]), Returned(uid))
  {
  }

  /** A booking without events may make its first move, in place or not. */
  lemma FirstMoveDecides(cfg: Config, s: Store, input: TransitionInput)
    requires input.booking in s.bookings && input.key !in s.receipts && ValidTransition(input)
    requires LatestEvent(s.events, input.booking) < 0 && input.channelRef == "" && IsZero(input.amount)
    requires var b := s.bookings[input.booking];
             b.channelRef == "" && HasLifecycle(cfg, b.classCode) && Edge(cfg.lifecycles[b.classCode], b.status, input.to)
    ensures Decide(cfg, s, input).Proceed?
  {
  }

  /** The first status a booking with events ever moved to. */
  lemma FirstTarget(cfg: Config, w: World, u: string) returns (to: Status)
    requires u in w.store.bookings && BookingHolds(cfg, w.store, u) && Named(w) && LatestEvent(w.store.events, u) >= 0
    ensures to != "" && w.store.bookings[u].classCode in cfg.lifecycles
    ensures var l := cfg.lifecycles[w.store.bookings[u].classCode];
            Edge(l, l.initial, to)
  {
    TrailEndsAtLatest(w.store.events, u);
    AllNamed(w.store.events, u);
    to := Trail(w.store.events, u)[0].to;
  }

  lemma SpendOn(cfg: Config, v: World, input: TransitionInput)
    requires input == TransitionInput(input.booking, input.to, "", ZERO, map[], 0, "", input.key)
    requires input.booking != "" && input.to != "" && input.key != ""
    requires input.booking in v.store.bookings && input.booking !in v.inflight && input.key !in v.store.receipts
    requires LatestEvent(v.store.events, input.booking) < 0
    requires var b := v.store.bookings[input.booking];
             b.channelRef == "" && HasLifecycle(cfg, b.classCode) && Edge(cfg.lifecycles[b.classCode], b.status, input.to)
    ensures input.key in Run(cfg, v, [Begin(input), Commit(input.booking)]).store.receipts
  {
    NothingIsFine();
    FirstMoveDecides(cfg, v.store, input);
    BeginAndCommit(cfg, v, input);
  }

  lemma NoEventsYet(s: Store, u: string)
    requires EventsKnown(s) && u !in s.bookings
    ensures LatestEvent(s.events, u) < 0
  {
  }

  lemma StepThen(cfg: Config, w: World, step: Step, rest: seq<Step>)
    ensures Run(cfg, w, [step] + rest) == Run(cfg, Next(cfg, w, step), rest)
  {
    assert ([step] + rest)[1..] == rest;
  }

  lemma SpendElsewhere(cfg: Config, w: World, u: string, key: string, to: Status)
    requires u in w.store.bookings && SourcedOne(cfg, w.store.bookings[u]) && EventsKnown(w.store)
    requires key != "" && key !in w.store.receipts && to != ""
    requires var l := cfg.lifecycles[w.store.bookings[u].classCode];
             Edge(l, l.initial, to)
    ensures exists after: seq<Step> :: key in Run(cfg, w, after).store.receipts
  {
    var create, uid := SiblingCreated(cfg, w, w.store.bookings[u]);
    var input := TransitionInput(uid, to, "", ZERO, map[], 0, "", key);
    NoEventsYet(w.store, uid);
    SpendOn(cfg, w.(store := w.store.(bookings := w.store.bookings[uid := Created(cfg, create)])), input);
    StepThen(cfg, w, CreateStep(create, uid), [Begin(input), Commit(uid)]);
    assert key in Run(cfg, w, [CreateStep(create, uid)] + [Begin(input), Commit(uid)]).store.receipts;
  }

  /** Being answered by comparison never spends a key: from any reachable world with such an answer, some
      later run gives the key a receipt, if need be on another booking. */
  lemma ComparedKeyNeverSpent(cfg: Config, before: seq<Step>, input: TransitionInput)
    requires AnsweredByState(cfg, Run(cfg, EMPTY, before).store, input)
    ensures exists after: seq<Step> :: input.key in Run(cfg, Run(cfg, EMPTY, before), after).store.receipts
  {
    var w, u := Run(cfg, EMPTY, before), input.booking;
    RunKeeps(cfg, EMPTY, before);
    RunKeepsNamed(cfg, EMPTY, before);
    RunKeepsSourced(cfg, EMPTY, before);
    AnsweredInPlace(cfg, w.store, input);
    assert BookingHolds(cfg, w.store, u) && SourcedOne(cfg, w.store.bookings[u]);
    var to := FirstTarget(cfg, w, u);
    SpendElsewhere(cfg, w, u, input.key, to);
  }

  // ---------------------------------------------------------------- one call replayed and then applied

  /** Two statuses that lead to each other. */
  const BACK_AND_FORTH: Lifecycle := Lifecycle(1, "a", [], map["a" := ["b"], "b" := ["a"]])

  lemma BackAndForth()
    ensures WellFormed(BACK_AND_FORTH) && CanReturn(BACK_AND_FORTH, "b")
  {
    var l := BACK_AND_FORTH;
    assert IsWalk(l, ["a"]) && IsWalk(l, ["a", "b"]);
    assert ["a"][0] == "a" && ["a", "b"][1] == "b";
    assert Reachable(l, "a") && Reachable(l, "b");
    var path := ["b", "a", "b"];
    assert Move(l, path[0], path[1]) && Move(l, path[1], path[2]);
    assert IsMoves(l, path);
  }

  const SAMPLE: Config := Config(map["c" := BACK_AND_FORTH], map["x" := 0])

  function Call(key: string): TransitionInput {
    TransitionInput("u", "b", "", ZERO, map[], 0, "", key)
  }

  /** A booking created and moved to "b" under one key: the same move under another key is answered by
      comparison. */
  lemma SampleWorld() returns (before: seq<Step>)
    ensures AnsweredByState(SAMPLE, Run(SAMPLE, EMPTY, before).store, Call("k2"))
    ensures Run(SAMPLE, EMPTY, before).store.bookings.Keys == {"u"}
    ensures Run(SAMPLE, EMPTY, before).store.bookings["u"].classCode == "c"
  {
    var create := CreateInput("c", 1, "x", Decimal(1, 0), "k0", "", map[], 0);
    var w := World(EMPTY.store.(bookings := map["u" := Created(SAMPLE, create)]), map[]);
    SampleCreated(create, w);
    SampleMoves(w);
    before := [CreateStep(create, "u")] + [Begin(Call("k1")), Commit("u")];
    assert before[1..] == [Begin(Call("k1")), Commit("u")];
    ComparedHere(Apply(w.store, Call("k1")));
  }

  lemma SampleMoves(w: World)
    requires w.store.bookings.Keys == {"u"} && w.inflight == map[] && w.store.receipts == map[]
    requires w.store.bookings["u"].classCode == "c" && w.store.bookings["u"].status == "a"
    requires w.store.bookings["u"].channelRef == ""
    ensures Run(SAMPLE, w, [Begin(Call("k1")), Commit("u")]) == World(Apply(w.store, Call("k1")), map[])
  {
    NothingIsFine();
    BackAndForth();
    MoveDecides(SAMPLE, w, Call("k1"));
    BeginAndCommit(SAMPLE, w, Call("k1"));
  }

  lemma SampleCreated(create: CreateInput, w: World)
    requires create == CreateInput("c", 1, "x", Decimal(1, 0), "k0", "", map[], 0)
    requires w == World(EMPTY.store.(bookings := map["u" := Created(SAMPLE, create)]), map[])
    ensures Next(SAMPLE, EMPTY, CreateStep(create, "u")) == w
  {
    NothingIsFine();
    BackAndForth();
    assert ValidCreate(create) && !KeyTaken(EMPTY.store, "k0") && PrecisionOk(SAMPLE, "x", Decimal(1, 0));
  }

  lemma ComparedHere(s: Store)
    requires s.bookings.Keys == {"u"} && s.bookings["u"].classCode == "c" && s.bookings["u"].status == "b"
    requires |s.events| == 1 && s.events[0].booking == "u" && s.events[0].to == "b" && s.receipts.Keys == {"k1"}
    ensures AnsweredByState(SAMPLE, s, Call("k2"))
  {
    NothingIsFine();
    BackAndForth();
    assert "k2" != "k1";
    assert LatestEvent(s.events, "u") == 0;
  }

  /** A run in which one call is first answered by comparison and later applies a transition. */
  lemma CallReplayedThenApplied()
    ensures exists cfg: Config, before: seq<Step>, after: seq<Step>, input: TransitionInput ::
              && AnsweredByState(cfg, Run(cfg, EMPTY, before).store, input)
              && input in Run(cfg, Run(cfg, EMPTY, before), after).store.log
  {
    var before := SampleWorld();
    BackAndForth();
    ComparedCallAppliesIff(SAMPLE, before, Call("k2"));
    var after: seq<Step> :| Call("k2") in Run(SAMPLE, Run(SAMPLE, EMPTY, before), after).store.log;
  }
}
