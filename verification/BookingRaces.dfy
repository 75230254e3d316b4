/** Booking calls as the database really interleaves them: a creation whose key check and insert are two
    statements, and transitions joined into a caller's larger transaction. Every such run is a run of
    whole calls, so what holds of those runs holds of these. */
module BookingRaces {
  import opened Bookings
  import opened BookingRuns
  import opened BookingReturns

  /** The world, the creation calls made so far by their drawn uid, those that have passed their checks,
      the answers given, and what each open transaction has written so far. */
  datatype Racing = Racing(world: World, calls: map<string, CreateInput>, checked: map<string, CreateInput>,
                           answers: map<string, Reply<string>>, txs: map<int, seq<TransitionInput>>)

  datatype Move =
    | Plain(step: Step)
    | Check(uid: string, create: CreateInput)
    | Insert(uid: string)
    | Open(tx: int)
    | Join(tx: int, input: TransitionInput)
    | Close(tx: int, commit: bool)

  const IDLE: Racing := Racing(EMPTY, map[], map[], map[], map[])

  // ---------------------------------------------------------------- creation in two statements

  ghost function Lookup(cfg: Config, s: Store, input: CreateInput): Reply<string>
    requires KeyTaken(s, input.key)
  {
    var u := HolderOf(s, input.key);
    if input.currency in cfg.exponents && MatchesCreate(s.bookings[u], input) then Returned(u) else Refused
  }

  /** The checks before the insert, the look for the key among them. */
  ghost predicate Passes(cfg: Config, s: Store, input: CreateInput) {
    && ValidCreate(input) && !KeyTaken(s, input.key)
    && HasLifecycle(cfg, input.classCode) && PrecisionOk(cfg, input.currency, input.amount)
  }

  /** What a creation that fails its checks is told. */
  ghost function CheckReply(cfg: Config, s: Store, input: CreateInput): Reply<string> {
    if ValidCreate(input) && KeyTaken(s, input.key) then Lookup(cfg, s, input) else Refused
  }

  ghost function Checked(cfg: Config, r: Racing, uid: string, input: CreateInput): Racing {
    if Passes(cfg, r.world.store, input)
    then r.(calls := r.calls[uid := input], checked := r.checked[uid := input])
    else r.(calls := r.calls[uid := input], answers := r.answers[uid := CheckReply(cfg, r.world.store, input)])
  }

  /** The insert: when the key has been taken meanwhile it fails and the key is looked up once more. */
  ghost function InsertResult(cfg: Config, s: Store, input: CreateInput, uid: string): (Store, Reply<string>)
    requires input.classCode in cfg.lifecycles
  {
    if KeyTaken(s, input.key) then (s, Lookup(cfg, s, input))
    else if uid in s.bookings then (s, Refused)
    else (s.(bookings := s.bookings[uid := Created(cfg, input)]), Returned(uid))
  }

  ghost function Inserted(cfg: Config, r: Racing, uid: string): Racing
    requires uid in r.checked && r.checked[uid].classCode in cfg.lifecycles
  {
    var (s, reply) := InsertResult(cfg, r.world.store, r.checked[uid], uid);
    r.(world := r.world.(store := s), checked := r.checked - {uid}, answers := r.answers[uid := reply])
  }

  // ---------------------------------------------------------------- joined transitions

  function ApplyAll(s: Store, inputs: seq<TransitionInput>): Store {
    if |inputs| == 0 then s
    else
      var t, last := ApplyAll(s, inputs[..|inputs| - 1]), inputs[|inputs| - 1];
      if last.booking in t.bookings then Apply(t, last) else t
  }

  predicate Touches(inputs: seq<TransitionInput>, u: string) {
    exists i | 0 <= i < |inputs| :: inputs[i].booking == u
  }

  /** Some open transaction other than `but` holds the booking's row lock. */
  ghost predicate Held(r: Racing, u: string, but: set<int>) {
    exists tx :: tx in r.txs && tx !in but && Touches(r.txs[tx], u)
  }

  /** The keys are still unused and the database lets every row through when the transaction commits. */
  ghost predicate Clean(s: Store, inputs: seq<TransitionInput>) {
    |inputs| > 0 ==>
      var t, last := ApplyAll(s, inputs[..|inputs| - 1]), inputs[|inputs| - 1];
      && Clean(s, inputs[..|inputs| - 1])
      && last.booking in t.bookings && last.key !in t.receipts && !Barred(t.bookings, last)
  }

  ghost function Next(cfg: Config, r: Racing, move: Move): Racing {
    match move
    case Plain(step) =>
      if step.Begin? && Held(r, step.input.booking, {}) then r else r.(world := BookingRuns.Next(cfg, r.world, step))
    case Check(uid, input) => if uid in r.calls then r else Checked(cfg, r, uid, input)
    case Insert(uid) => if uid in r.checked && r.checked[uid].classCode in cfg.lifecycles then Inserted(cfg, r, uid) else r
    case Open(tx) => if tx in r.txs then r else r.(txs := r.txs[tx := []])
    case Join(tx, input) =>
      if tx !in r.txs || input.booking in r.world.inflight || Held(r, input.booking, {tx}) then r
      else if Decide(cfg, ApplyAll(r.world.store, r.txs[tx]), input).Proceed? then r.(txs := r.txs[tx := r.txs[tx] + [input]])
      else r
    case Close(tx, commit) =>
      if tx !in r.txs then r
      else if commit && Clean(r.world.store, r.txs[tx])
      then r.(world := r.world.(store := ApplyAll(r.world.store, r.txs[tx])), txs := r.txs - {tx})
      else r.(txs := r.txs - {tx})
  }

  ghost function Race(cfg: Config, moves: seq<Move>): Racing
    decreases |moves|
  {
    if |moves| == 0 then IDLE else Next(cfg, Race(cfg, moves[..|moves| - 1]), moves[|moves| - 1])
  }

  // ---------------------------------------------------------------- what a transaction may rely on

  /** Two stores look alike from one booking. */
  ghost predicate SameView(s: Store, t: Store, u: string) {
    u in s.bookings && u in t.bookings && s.bookings[u] == t.bookings[u] && Trail(s.events, u) == Trail(t.events, u)
  }

  ghost predicate Ready(cfg: Config, s: Store, input: TransitionInput) {
    && ValidTransition(input) && input.booking in s.bookings
    && Consider(cfg, s.bookings[input.booking], s.events, input).Proceed?
  }

  lemma LatestByTrail(s: Store, t: Store, u: string)
    requires SameView(s, t, u)
    ensures LatestEvent(s.events, u) < 0 <==> LatestEvent(t.events, u) < 0
    ensures LatestEvent(s.events, u) >= 0 ==> s.events[LatestEvent(s.events, u)] == t.events[LatestEvent(t.events, u)]
  {
    TrailEndsAtLatest(s.events, u);
    TrailEndsAtLatest(t.events, u);
  }

  lemma ReadyByView(cfg: Config, s: Store, t: Store, input: TransitionInput)
    requires Ready(cfg, s, input) && SameView(s, t, input.booking)
    ensures Ready(cfg, t, input)
  {
    LatestByTrail(s, t, input.booking);
    ComparedAlike(s.bookings[input.booking], s.events, t.events, input);
  }

  lemma ComparedAlike(b: Booking, events: seq<Event>, events': seq<Event>, input: TransitionInput)
    requires LatestEvent(events, input.booking) < 0 <==> LatestEvent(events', input.booking) < 0
    requires LatestEvent(events, input.booking) >= 0 ==>
               events[LatestEvent(events, input.booking)] == events'[LatestEvent(events', input.booking)]
    ensures Compared(b, events, input).Proceed? <==> Compared(b, events', input).Proceed?
  {
  }

  lemma ApplyKeepsView(s: Store, t: Store, input: TransitionInput, u: string)
    requires SameView(s, t, u) && SameView(s, t, input.booking)
    ensures SameView(Apply(s, input), Apply(t, input), u)
  {
    TrailAppend(s.events, EventOf(s, input), u);
    TrailAppend(t.events, EventOf(t, input), u);
  }

  ghost predicate SameViews(s: Store, t: Store, inputs: seq<TransitionInput>) {
    forall i {:trigger SameView(s, t, inputs[i].booking)} :: 0 <= i < |inputs| ==> SameView(s, t, inputs[i].booking)
  }

  lemma {:induction false} ApplyAllKeepsView(s: Store, t: Store, inputs: seq<TransitionInput>, u: string)
    requires SameViews(s, t, inputs) && SameView(s, t, u)
    ensures SameView(ApplyAll(s, inputs), ApplyAll(t, inputs), u)
    decreases |inputs|
  {
    if |inputs| > 0 {
      var n := |inputs| - 1;
      var last := inputs[n];
      ViewsPrefix(s, t, inputs, n);
      ApplyAllKeepsView(s, t, inputs[..n], u);
      ApplyAllKeepsView(s, t, inputs[..n], last.booking);
      ApplyKeepsView(ApplyAll(s, inputs[..n]), ApplyAll(t, inputs[..n]), last, u);
    }
  }

  lemma ViewsPrefix(s: Store, t: Store, inputs: seq<TransitionInput>, n: nat)
    requires SameViews(s, t, inputs) && n <= |inputs|
    ensures SameViews(s, t, inputs[..n])
  {
    forall i | 0 <= i < n ensures SameView(s, t, inputs[..n][i].booking) {
      assert SameView(s, t, inputs[i].booking);
    }
  }

  /** Everything an open transaction has written was allowed when seen from the committed tables. */
  ghost predicate Standing(cfg: Config, s: Store, inputs: seq<TransitionInput>) {
    forall i {:trigger ReadyAt(cfg, s, inputs, i)} :: 0 <= i < |inputs| ==> ReadyAt(cfg, s, inputs, i)
  }

  ghost predicate ReadyAt(cfg: Config, s: Store, inputs: seq<TransitionInput>, i: nat)
    requires i < |inputs|
  {
    Ready(cfg, ApplyAll(s, inputs[..i]), inputs[i])
  }

  lemma StandingPrefix(cfg: Config, s: Store, inputs: seq<TransitionInput>, n: nat)
    requires Standing(cfg, s, inputs) && n <= |inputs|
    ensures Standing(cfg, s, inputs[..n])
  {
    forall i | 0 <= i < n ensures ReadyAt(cfg, s, inputs[..n], i) {
      assert ReadyAt(cfg, s, inputs, i);
      assert inputs[..n][..i] == inputs[..i];
    }
  }

  lemma StandingWith(cfg: Config, s: Store, inputs: seq<TransitionInput>, input: TransitionInput)
    requires Standing(cfg, s, inputs) && Ready(cfg, ApplyAll(s, inputs), input)
    ensures Standing(cfg, s, inputs + [input])
  {
    var longer := inputs + [input];
    forall i | 0 <= i < |longer| ensures ReadyAt(cfg, s, longer, i) {
      if i < |inputs| {
        assert ReadyAt(cfg, s, inputs, i);
        ReadyAlike(cfg, s, inputs, longer, i);
      } else {
        assert longer[..i] == inputs && longer[i] == input;
      }
    }
  }

  lemma ReadyAlike(cfg: Config, s: Store, a: seq<TransitionInput>, b: seq<TransitionInput>, i: nat)
    requires a <= b && i < |a| && ReadyAt(cfg, s, a, i)
    ensures ReadyAt(cfg, s, b, i)
  {
    assert b[..i] == a[..i] && b[i] == a[i];
  }

  /** Others may commit what they like elsewhere. */
  lemma StandingByViews(cfg: Config, s: Store, t: Store, inputs: seq<TransitionInput>)
    requires Standing(cfg, s, inputs) && SameViews(s, t, inputs)
    ensures Standing(cfg, t, inputs)
  {
    forall i | 0 <= i < |inputs| ensures ReadyAt(cfg, t, inputs, i) {
      assert ReadyAt(cfg, s, inputs, i) && SameView(s, t, inputs[i].booking);
      ViewsPrefix(s, t, inputs, i);
      ReadyLater(cfg, s, t, inputs[..i], inputs[i]);
    }
  }

  lemma {:induction false} ReadyLater(cfg: Config, s: Store, t: Store, inputs: seq<TransitionInput>, input: TransitionInput)
    requires SameViews(s, t, inputs) && SameView(s, t, input.booking) && Ready(cfg, ApplyAll(s, inputs), input)
    ensures Ready(cfg, ApplyAll(t, inputs), input)
  {
    ApplyAllKeepsView(s, t, inputs, input.booking);
    ReadyByView(cfg, ApplyAll(s, inputs), ApplyAll(t, inputs), input);
  }

  /** Committing a transaction is a run of its transitions, one after the other. */
  lemma {:induction false} CommitIsRun(cfg: Config, w: World, inputs: seq<TransitionInput>) returns (steps: seq<Step>)
    requires Standing(cfg, w.store, inputs) && Clean(w.store, inputs)
    requires forall i :: 0 <= i < |inputs| ==> inputs[i].booking !in w.inflight
    ensures Run(cfg, w, steps) == w.(store := ApplyAll(w.store, inputs))
    decreases |inputs|
  {
    if |inputs| == 0 {
      steps := [];
    } else {
      var n := |inputs| - 1;
      var last := inputs[n];
      StandingPrefix(cfg, w.store, inputs, n);
      assert ReadyAt(cfg, w.store, inputs, n);
      var first := CommitIsRun(cfg, w, inputs[..n]);
      var v := Run(cfg, w, first);
      ReadyDecides(cfg, v.store, last);
      BeginAndCommit(cfg, v, last);
      steps := first + [Begin(last), Commit(last.booking)];
      RunConcat(cfg, w, first, [Begin(last), Commit(last.booking)]);
    }
  }

  lemma ReadyDecides(cfg: Config, s: Store, input: TransitionInput)
    requires Ready(cfg, s, input) && input.key !in s.receipts && !Barred(s.bookings, input)
    ensures Decide(cfg, s, input).Proceed?
  {
  }

  // ---------------------------------------------------------------- what every race keeps

  ghost predicate InsertReady(cfg: Config, input: CreateInput) {
    ValidCreate(input) && HasLifecycle(cfg, input.classCode) && PrecisionOk(cfg, input.currency, input.amount)
  }

  ghost predicate CallsHold(cfg: Config, r: Racing) {
    && (forall uid {:trigger CheckedOne(cfg, r.calls, r.answers, uid, r.checked[uid])} :: uid in r.checked ==>
          CheckedOne(cfg, r.calls, r.answers, uid, r.checked[uid]))
    && (forall uid :: uid in r.checked || uid in r.answers ==> uid in r.calls)
  }

  ghost predicate CheckedOne(cfg: Config, calls: map<string, CreateInput>, answers: map<string, Reply<string>>,
                             uid: string, input: CreateInput)
  {
    uid in calls && calls[uid] == input && uid !in answers && InsertReady(cfg, input)
  }

  lemma CheckedStays(cfg: Config, r: Racing, t: Racing, uid: string)
    requires uid in r.checked && uid in t.checked && t.checked[uid] == r.checked[uid]
    requires CheckedOne(cfg, r.calls, r.answers, uid, r.checked[uid])
    requires uid in t.calls && t.calls[uid] == r.calls[uid] && uid !in t.answers
    ensures CheckedOne(cfg, t.calls, t.answers, uid, t.checked[uid])
  {
  }

  ghost predicate Unlocked(w: World, inputs: seq<TransitionInput>) {
    forall i :: 0 <= i < |inputs| ==> inputs[i].booking !in w.inflight
  }

  ghost predicate TxHolds(cfg: Config, w: World, inputs: seq<TransitionInput>) {
    Standing(cfg, w.store, inputs) && Unlocked(w, inputs)
  }

  ghost predicate Apart(a: seq<TransitionInput>, b: seq<TransitionInput>) {
    forall i, j :: 0 <= i < |a| && 0 <= j < |b| ==> a[i].booking != b[j].booking
  }

  ghost predicate TxsHold(cfg: Config, r: Racing) {
    && (forall tx :: tx in r.txs ==> TxHolds(cfg, r.world, r.txs[tx]))
    && (forall tx, ty :: tx in r.txs && ty in r.txs && tx != ty ==> Apart(r.txs[tx], r.txs[ty]))
  }

  ghost predicate RaceHolds(cfg: Config, r: Racing) {
    WorldHolds(cfg, r.world) && CallsHold(cfg, r) && TxsHold(cfg, r)
  }

  lemma {:induction false} SameBookings(s: Store, inputs: seq<TransitionInput>)
    ensures ApplyAll(s, inputs).bookings.Keys == s.bookings.Keys
    decreases |inputs|
  {
    if |inputs| > 0 { SameBookings(s, inputs[..|inputs| - 1]); }
  }

  lemma StandingExist(cfg: Config, s: Store, inputs: seq<TransitionInput>, i: nat)
    requires Standing(cfg, s, inputs) && i < |inputs|
    ensures inputs[i].booking in s.bookings
  {
    assert ReadyAt(cfg, s, inputs, i);
    SameBookings(s, inputs[..i]);
  }

  lemma AddElsewhere(cfg: Config, s: Store, uid: string, b: Booking, inputs: seq<TransitionInput>)
    requires Standing(cfg, s, inputs) && uid !in s.bookings
    ensures SameViews(s, s.(bookings := s.bookings[uid := b]), inputs)
  {
    forall i | 0 <= i < |inputs| ensures SameView(s, s.(bookings := s.bookings[uid := b]), inputs[i].booking) {
      StandingExist(cfg, s, inputs, i);
    }
  }

  lemma ApplyElsewhere(s: Store, x: TransitionInput, u: string)
    requires x.booking in s.bookings && u in s.bookings && x.booking != u
    ensures SameView(s, Apply(s, x), u)
  {
    TrailAppend(s.events, EventOf(s, x), u);
  }

  lemma {:induction false} ApplyAllElsewhere(s: Store, xs: seq<TransitionInput>, u: string)
    requires u in s.bookings && forall i :: 0 <= i < |xs| ==> xs[i].booking != u
    ensures SameView(s, ApplyAll(s, xs), u)
    decreases |xs|
  {
    if |xs| > 0 {
      var n := |xs| - 1;
      ApplyAllElsewhere(s, xs[..n], u);
      var t := ApplyAll(s, xs[..n]);
      if xs[n].booking in t.bookings { ApplyElsewhere(t, xs[n], u); }
    }
  }

  // ---------------------------------------------------------------- each move is a run of whole calls

  lemma OneStep(cfg: Config, w: World, step: Step)
    ensures Run(cfg, w, [step]) == BookingRuns.Next(cfg, w, step)
  {
    assert Run(cfg, BookingRuns.Next(cfg, w, step), [step][1..]) == BookingRuns.Next(cfg, w, step);
  }

  /** Steps that do to the world what a move does, and give the answer it gives. */
  ghost predicate Explains(cfg: Config, r: Racing, t: Racing, more: seq<Step>) {
    && Run(cfg, r.world, more) == t.world
    && (forall uid :: uid in r.answers ==> uid in t.answers && t.answers[uid] == r.answers[uid])
    && (forall uid :: uid in r.calls ==> uid in t.calls && t.calls[uid] == r.calls[uid])
    && (forall uid :: uid in t.answers && uid !in r.answers ==>
          && uid in t.calls && more == [CreateStep(t.calls[uid], uid)]
          && t.answers[uid] == Create(cfg, r.world.store, t.calls[uid], uid).1)
  }

  lemma CheckExplained(cfg: Config, r: Racing, uid: string, input: CreateInput) returns (more: seq<Step>)
    requires uid !in r.calls && uid !in r.answers
    ensures Explains(cfg, r, Checked(cfg, r, uid, input), more)
  {
    if Passes(cfg, r.world.store, input) {
      more := [];
    } else {
      more := [CreateStep(input, uid)];
      CheckIsCreate(cfg, r.world.store, input, uid);
      AnswerExplained(cfg, r, Checked(cfg, r, uid, input), uid, input);
    }
  }

  /** A creation that fails its checks answers like a whole one made at that moment, and writes nothing. */
  lemma CheckIsCreate(cfg: Config, s: Store, input: CreateInput, uid: string)
    requires !Passes(cfg, s, input)
    ensures Create(cfg, s, input, uid) == (s, CheckReply(cfg, s, input))
  {
  }

  lemma AnswerExplained(cfg: Config, r: Racing, t: Racing, uid: string, input: CreateInput)
    requires uid !in r.answers && (uid in r.calls ==> r.calls[uid] == input)
    requires t.calls == r.calls[uid := input] && uid in t.answers
    requires t.answers == r.answers[uid := t.answers[uid]]
    requires (t.world.store, t.answers[uid]) == Create(cfg, r.world.store, input, uid) && t.world.inflight == r.world.inflight
    ensures Explains(cfg, r, t, [CreateStep(input, uid)])
  {
    OneStep(cfg, r.world, CreateStep(input, uid));
  }

  lemma InsertExplained(cfg: Config, r: Racing, uid: string) returns (more: seq<Step>)
    requires uid in r.checked && uid in r.calls && r.calls[uid] == r.checked[uid] && uid !in r.answers
    requires InsertReady(cfg, r.checked[uid])
    ensures r.checked[uid].classCode in cfg.lifecycles
    ensures Explains(cfg, r, Inserted(cfg, r, uid), more)
  {
    var input := r.checked[uid];
    more := [CreateStep(input, uid)];
    InsertIsCreate(cfg, r.world.store, input, uid);
    assert r.calls[uid := input] == r.calls;
    AnswerExplained(cfg, r, Inserted(cfg, r, uid), uid, input);
  }

  /** An insert after the checks answers and writes like a whole creation made at its moment. */
  lemma InsertIsCreate(cfg: Config, s: Store, input: CreateInput, uid: string)
    requires InsertReady(cfg, input)
    ensures InsertResult(cfg, s, input, uid) == Create(cfg, s, input, uid)
  {
  }

  lemma CommitExplained(cfg: Config, r: Racing, tx: int) returns (more: seq<Step>)
    requires tx in r.txs && TxHolds(cfg, r.world, r.txs[tx]) && Clean(r.world.store, r.txs[tx])
    ensures Explains(cfg, r, Next(cfg, r, Close(tx, true)), more)
  {
    more := CommitIsRun(cfg, r.world, r.txs[tx]);
  }

  lemma MoveExplained(cfg: Config, r: Racing, move: Move) returns (more: seq<Step>)
    requires RaceHolds(cfg, r)
    ensures Explains(cfg, r, Next(cfg, r, move), more)
  {
    more := [];
    match move {
      case Plain(step) =>
        if !(step.Begin? && Held(r, step.input.booking, {})) {
          more := [step];
          OneStep(cfg, r.world, step);
        }
      case Check(uid, input) => if uid !in r.calls { more := CheckExplained(cfg, r, uid, input); }
      case Insert(uid) =>
        if uid in r.checked {
          assert CheckedOne(cfg, r.calls, r.answers, uid, r.checked[uid]);
          more := InsertExplained(cfg, r, uid);
        }
      case Open(_) =>
      case Join(_, _) =>
      case Close(tx, commit) =>
        if tx in r.txs && commit && Clean(r.world.store, r.txs[tx]) {
          assert TxHolds(cfg, r.world, r.txs[tx]);
          more := CommitExplained(cfg, r, tx);
        }
    }
  }

  // ---------------------------------------------------------------- and keeps the race in order

  lemma Relocated(cfg: Config, r: Racing, w: World)
    requires TxsHold(cfg, r)
    requires forall tx :: tx in r.txs ==> TxHolds(cfg, w, r.txs[tx])
    ensures TxsHold(cfg, r.(world := w))
  {
  }

  lemma HoldsElsewhere(cfg: Config, w: World, v: World, inputs: seq<TransitionInput>)
    requires TxHolds(cfg, w, inputs) && SameViews(w.store, v.store, inputs) && v.inflight.Keys <= w.inflight.Keys
    ensures TxHolds(cfg, v, inputs)
  {
    StandingByViews(cfg, w.store, v.store, inputs);
  }

  lemma AfterCreate(cfg: Config, w: World, input: CreateInput, uid: string, inputs: seq<TransitionInput>)
    requires TxHolds(cfg, w, inputs)
    ensures TxHolds(cfg, w.(store := Create(cfg, w.store, input, uid).0), inputs)
  {
    var s' := Create(cfg, w.store, input, uid).0;
    if s' != w.store {
      assert uid !in w.store.bookings;
      AddElsewhere(cfg, w.store, uid, Created(cfg, input), inputs);
      HoldsElsewhere(cfg, w, w.(store := s'), inputs);
    }
  }

  lemma AfterCommit(cfg: Config, w: World, u: string, inputs: seq<TransitionInput>)
    requires TxHolds(cfg, w, inputs) && Commits(w, u) && w.inflight[u].booking == u
    ensures TxHolds(cfg, World(Apply(w.store, w.inflight[u]), w.inflight - {u}), inputs)
  {
    var s' := Apply(w.store, w.inflight[u]);
    forall i | 0 <= i < |inputs| ensures SameView(w.store, s', inputs[i].booking) {
      StandingExist(cfg, w.store, inputs, i);
      ApplyElsewhere(w.store, w.inflight[u], inputs[i].booking);
    }
    HoldsElsewhere(cfg, w, World(s', w.inflight - {u}), inputs);
  }

  lemma AfterClose(cfg: Config, w: World, xs: seq<TransitionInput>, inputs: seq<TransitionInput>)
    requires TxHolds(cfg, w, inputs) && Apart(xs, inputs)
    ensures TxHolds(cfg, w.(store := ApplyAll(w.store, xs)), inputs)
  {
    var s' := ApplyAll(w.store, xs);
    forall i | 0 <= i < |inputs| ensures SameView(w.store, s', inputs[i].booking) {
      StandingExist(cfg, w.store, inputs, i);
      ApplyAllElsewhere(w.store, xs, inputs[i].booking);
    }
    HoldsElsewhere(cfg, w, w.(store := s'), inputs);
  }

  lemma PlainKeeps(cfg: Config, r: Racing, step: Step)
    requires RaceHolds(cfg, r) && !(step.Begin? && Held(r, step.input.booking, {}))
    ensures TxsHold(cfg, r.(world := BookingRuns.Next(cfg, r.world, step)))
  {
    var w := r.world;
    var v := BookingRuns.Next(cfg, w, step);
    forall tx | tx in r.txs ensures TxHolds(cfg, v, r.txs[tx]) {
      assert TxHolds(cfg, w, r.txs[tx]);
      match step
      case CreateStep(input, uid) => AfterCreate(cfg, w, input, uid, r.txs[tx]);
      case Begin(input) => StillUnlocked(cfg, r, tx, input);
      case Commit(u) =>
        if Commits(w, u) {
          assert PendingHolds(cfg, w.store, u, w.inflight[u]);
          AfterCommit(cfg, w, u, r.txs[tx]);
        }
      case Abort(_) =>
    }
    Relocated(cfg, r, v);
  }

  lemma StillUnlocked(cfg: Config, r: Racing, tx: int, input: TransitionInput)
    requires tx in r.txs && TxHolds(cfg, r.world, r.txs[tx]) && !Held(r, input.booking, {})
    ensures TxHolds(cfg, BookingRuns.Next(cfg, r.world, Begin(input)), r.txs[tx])
  {
    assert !Touches(r.txs[tx], input.booking);
  }

  lemma JoinKeeps(cfg: Config, r: Racing, tx: int, input: TransitionInput)
    requires TxsHold(cfg, r) && tx in r.txs && input.booking !in r.world.inflight && !Held(r, input.booking, {tx})
    requires Ready(cfg, ApplyAll(r.world.store, r.txs[tx]), input)
    ensures TxsHold(cfg, r.(txs := r.txs[tx := r.txs[tx] + [input]]))
  {
    assert TxHolds(cfg, r.world, r.txs[tx]);
    JoinStands(cfg, r.world, r.txs[tx], input);
    forall other | other in r.txs && other != tx
      ensures Apart(r.txs[tx] + [input], r.txs[other]) && Apart(r.txs[other], r.txs[tx] + [input])
    {
      JoinApart(cfg, r, tx, input, other);
    }
    TxReplaced(cfg, r, tx, r.txs[tx] + [input]);
  }

  lemma JoinStands(cfg: Config, w: World, inputs: seq<TransitionInput>, input: TransitionInput)
    requires TxHolds(cfg, w, inputs) && input.booking !in w.inflight && Ready(cfg, ApplyAll(w.store, inputs), input)
    ensures TxHolds(cfg, w, inputs + [input])
  {
    StandingWith(cfg, w.store, inputs, input);
  }

  lemma TxReplaced(cfg: Config, r: Racing, tx: int, inputs: seq<TransitionInput>)
    requires TxsHold(cfg, r) && tx in r.txs && TxHolds(cfg, r.world, inputs)
    requires forall other :: other in r.txs && other != tx ==> Apart(inputs, r.txs[other]) && Apart(r.txs[other], inputs)
    ensures TxsHold(cfg, r.(txs := r.txs[tx := inputs]))
  {
  }

  lemma JoinApart(cfg: Config, r: Racing, tx: int, input: TransitionInput, other: int)
    requires TxsHold(cfg, r) && tx in r.txs && other in r.txs && other != tx && !Held(r, input.booking, {tx})
    ensures Apart(r.txs[tx] + [input], r.txs[other]) && Apart(r.txs[other], r.txs[tx] + [input])
  {
    assert Apart(r.txs[tx], r.txs[other]);
    assert !Touches(r.txs[other], input.booking);
    ApartWith(r.txs[tx], input, r.txs[other]);
  }

  lemma ApartWith(a: seq<TransitionInput>, input: TransitionInput, b: seq<TransitionInput>)
    requires Apart(a, b) && !Touches(b, input.booking)
    ensures Apart(a + [input], b) && Apart(b, a + [input])
  {
  }

  lemma CloseKeeps(cfg: Config, r: Racing, tx: int)
    requires TxsHold(cfg, r) && tx in r.txs
    ensures TxsHold(cfg, r.(world := r.world.(store := ApplyAll(r.world.store, r.txs[tx])), txs := r.txs - {tx}))
    ensures TxsHold(cfg, r.(txs := r.txs - {tx}))
  {
    forall ty | ty in r.txs && ty != tx
      ensures TxHolds(cfg, r.world.(store := ApplyAll(r.world.store, r.txs[tx])), r.txs[ty])
    {
      assert TxHolds(cfg, r.world, r.txs[ty]) && Apart(r.txs[tx], r.txs[ty]);
      AfterClose(cfg, r.world, r.txs[tx], r.txs[ty]);
    }
  }

  lemma MoveKeepsCalls(cfg: Config, r: Racing, move: Move)
    requires CallsHold(cfg, r)
    ensures CallsHold(cfg, Next(cfg, r, move))
  {
    match move
    case Check(uid, input) => if uid !in r.calls { CheckKeepsCalls(cfg, r, uid, input); }
    case Insert(uid) =>
      if uid in r.checked && r.checked[uid].classCode in cfg.lifecycles { InsertKeepsCalls(cfg, r, uid); }
    case _ => SameCalls(cfg, r, Next(cfg, r, move));
  }

  lemma SameCalls(cfg: Config, r: Racing, t: Racing)
    requires CallsHold(cfg, r) && t.calls == r.calls && t.checked == r.checked && t.answers == r.answers
    ensures CallsHold(cfg, t)
  {
    forall x | x in t.checked ensures CheckedOne(cfg, t.calls, t.answers, x, t.checked[x]) {
      assert CheckedOne(cfg, r.calls, r.answers, x, r.checked[x]);
    }
  }

  /** A call is answered: it is no longer checked, and nothing else changes among the calls. */
  lemma CallAnswered(cfg: Config, r: Racing, t: Racing, uid: string, input: CreateInput, reply: Reply<string>)
    requires CallsHold(cfg, r) && (uid in r.calls ==> r.calls[uid] == input)
    requires t.calls == r.calls[uid := input] && t.checked == r.checked - {uid} && t.answers == r.answers[uid := reply]
    ensures CallsHold(cfg, t)
  {
    forall x | x in t.checked ensures CheckedOne(cfg, t.calls, t.answers, x, t.checked[x]) {
      assert CheckedOne(cfg, r.calls, r.answers, x, r.checked[x]);
      CheckedStays(cfg, r, t, x);
    }
  }

  lemma CallChecked(cfg: Config, r: Racing, uid: string, input: CreateInput)
    requires CallsHold(cfg, r) && uid !in r.calls && InsertReady(cfg, input)
    ensures CallsHold(cfg, r.(calls := r.calls[uid := input], checked := r.checked[uid := input]))
  {
    var t := r.(calls := r.calls[uid := input], checked := r.checked[uid := input]);
    forall x | x in t.checked ensures CheckedOne(cfg, t.calls, t.answers, x, t.checked[x]) {
      if x != uid {
        assert CheckedOne(cfg, r.calls, r.answers, x, r.checked[x]);
        CheckedStays(cfg, r, t, x);
      }
    }
  }

  lemma CheckKeepsCalls(cfg: Config, r: Racing, uid: string, input: CreateInput)
    requires CallsHold(cfg, r) && uid !in r.calls
    ensures CallsHold(cfg, Checked(cfg, r, uid, input))
  {
    if Passes(cfg, r.world.store, input) {
      CallChecked(cfg, r, uid, input);
    } else {
      assert r.checked - {uid} == r.checked;
      CallAnswered(cfg, r, Checked(cfg, r, uid, input), uid, input, CheckReply(cfg, r.world.store, input));
    }
  }

  lemma InsertKeepsCalls(cfg: Config, r: Racing, uid: string)
    requires CallsHold(cfg, r) && uid in r.checked && r.checked[uid].classCode in cfg.lifecycles
    ensures CallsHold(cfg, Inserted(cfg, r, uid))
  {
    var input := r.checked[uid];
    assert CheckedOne(cfg, r.calls, r.answers, uid, input);
    assert r.calls[uid := input] == r.calls;
    CallAnswered(cfg, r, Inserted(cfg, r, uid), uid, input, InsertResult(cfg, r.world.store, input, uid).1);
  }

  lemma InsertKeepsTxs(cfg: Config, r: Racing, uid: string)
    requires CallsHold(cfg, r) && TxsHold(cfg, r) && uid in r.checked && r.checked[uid].classCode in cfg.lifecycles
    ensures TxsHold(cfg, Inserted(cfg, r, uid))
  {
    var input, t := r.checked[uid], Inserted(cfg, r, uid);
    assert CheckedOne(cfg, r.calls, r.answers, uid, input);
    InsertIsCreate(cfg, r.world.store, input, uid);
    forall tx | tx in r.txs ensures TxHolds(cfg, t.world, r.txs[tx]) {
      assert TxHolds(cfg, r.world, r.txs[tx]);
      AfterCreate(cfg, r.world, input, uid, r.txs[tx]);
    }
    Relocated(cfg, r, t.world);
  }

  lemma SameTxs(cfg: Config, r: Racing, t: Racing)
    requires TxsHold(cfg, r) && t.world == r.world && t.txs == r.txs
    ensures TxsHold(cfg, t)
  {
  }

  lemma OpenKeeps(cfg: Config, r: Racing, tx: int)
    requires TxsHold(cfg, r)
    ensures TxsHold(cfg, Next(cfg, r, Open(tx)))
  {
  }

  lemma JoinMoveKeeps(cfg: Config, r: Racing, tx: int, input: TransitionInput)
    requires TxsHold(cfg, r)
    ensures TxsHold(cfg, Next(cfg, r, Join(tx, input)))
  {
    if tx in r.txs && input.booking !in r.world.inflight && !Held(r, input.booking, {tx}) {
      var view := ApplyAll(r.world.store, r.txs[tx]);
      if Decide(cfg, view, input).Proceed? {
        ProceedingCall(cfg, view, input);
        JoinKeeps(cfg, r, tx, input);
      }
    }
  }

  lemma MoveKeepsTxs(cfg: Config, r: Racing, move: Move)
    requires RaceHolds(cfg, r)
    ensures TxsHold(cfg, Next(cfg, r, move))
  {
    match move
    case Plain(step) => PlainMoveKeeps(cfg, r, step);
    case Check(uid, input) => SameTxs(cfg, r, Next(cfg, r, move));
    case Insert(uid) => InsertMoveKeeps(cfg, r, uid);
    case Open(tx) => OpenKeeps(cfg, r, tx);
    case Join(tx, input) => JoinMoveKeeps(cfg, r, tx, input);
    case Close(tx, commit) => CloseMoveKeeps(cfg, r, tx, commit);
  }

  lemma PlainMoveKeeps(cfg: Config, r: Racing, step: Step)
    requires RaceHolds(cfg, r)
    ensures TxsHold(cfg, Next(cfg, r, Plain(step)))
  {
    if !(step.Begin? && Held(r, step.input.booking, {})) { PlainKeeps(cfg, r, step); }
  }

  lemma InsertMoveKeeps(cfg: Config, r: Racing, uid: string)
    requires RaceHolds(cfg, r)
    ensures TxsHold(cfg, Next(cfg, r, Insert(uid)))
  {
    if uid in r.checked && r.checked[uid].classCode in cfg.lifecycles { InsertKeepsTxs(cfg, r, uid); }
  }

  lemma CloseMoveKeeps(cfg: Config, r: Racing, tx: int, commit: bool)
    requires TxsHold(cfg, r)
    ensures TxsHold(cfg, Next(cfg, r, Close(tx, commit)))
  {
    if tx in r.txs { CloseKeeps(cfg, r, tx); }
  }

  // ---------------------------------------------------------------- races are runs

  /** The call was answered by the creation step at one place of a run. */
  ghost predicate AnsweredAt(cfg: Config, r: Racing, run: seq<Step>, uid: string, i: nat)
    requires uid in r.answers
  {
    && i < |run| && uid in r.calls && run[i] == CreateStep(r.calls[uid], uid)
    && r.answers[uid] == Create(cfg, Run(cfg, EMPTY, run[..i]).store, r.calls[uid], uid).1
  }

  ghost predicate Mirrors(cfg: Config, r: Racing, run: seq<Step>) {
    && r.world == Run(cfg, EMPTY, run)
    && forall uid :: uid in r.answers ==> exists i: nat :: AnsweredAt(cfg, r, run, uid, i)
  }

  lemma MirrorsOn(cfg: Config, r: Racing, t: Racing, run: seq<Step>, more: seq<Step>)
    requires Mirrors(cfg, r, run) && Explains(cfg, r, t, more)
    requires forall uid :: uid in r.answers ==> uid in r.calls
    ensures Mirrors(cfg, t, run + more)
  {
    RunConcat(cfg, EMPTY, run, more);
    var longer := run + more;
    forall uid | uid in t.answers ensures exists i: nat :: AnsweredAt(cfg, t, longer, uid, i) {
      if uid in r.answers {
        var i: nat :| AnsweredAt(cfg, r, run, uid, i);
        assert longer[..i] == run[..i];
        assert AnsweredAt(cfg, t, longer, uid, i);
      } else {
        assert longer[..|run|] == run;
        assert AnsweredAt(cfg, t, longer, uid, |run|);
      }
    }
  }

  /** Every race has a run of whole calls that leaves the same tables and locks and gives every creation
      its answer; so whatever is proved of runs holds of races. */
  lemma {:induction false} RacesAreRuns(cfg: Config, moves: seq<Move>) returns (run: seq<Step>)
    ensures RaceHolds(cfg, Race(cfg, moves)) && Mirrors(cfg, Race(cfg, moves), run)
    decreases |moves|
  {
    if |moves| == 0 {
      run := [];
    } else {
      var n := |moves| - 1;
      var before := RacesAreRuns(cfg, moves[..n]);
      var r, move := Race(cfg, moves[..n]), moves[n];
      var more := MoveExplained(cfg, r, move);
      MirrorsOn(cfg, r, Next(cfg, r, move), before, more);
      RunKeeps(cfg, r.world, more);
      MoveKeepsCalls(cfg, r, move);
      MoveKeepsTxs(cfg, r, move);
      run := before + more;
    }
  }
}
