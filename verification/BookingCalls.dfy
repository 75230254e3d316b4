/** What a booking call is answered, spelled out on the values themselves, from every reachable world. */
module BookingCalls {
  import opened Decimals
  import opened Amounts
  import opened Freeform
  import opened Lifecycles
  import opened Bookings
  import opened BookingRuns
  import opened BookingReturns
  import opened BookingRetries
  import opened BookingEvents

  // ---------------------------------------------------------------- inputs

  lemma ValidCreateExact(input: CreateInput)
    ensures ValidCreate(input)
       <==> && 0.0 < Value(input.amount) < 1_000_000_000_000.0 && -18 <= input.amount.exp <= 12
            && input.classCode != "" && input.holder != 0 && input.currency != "" && input.key != ""
            && FreeformOk("", input.metadata)
  {
    MagnitudeExact(input.amount);
    if input.amount.coeff == 0 { assert IsZero(input.amount); }
  }

  lemma ValidTransitionExact(input: TransitionInput)
    ensures ValidTransition(input)
       <==> && 0.0 <= Value(input.amount) < 1_000_000_000_000.0 && -18 <= input.amount.exp
            && input.amount.exp <= (if Value(input.amount) == 0.0 then 11 else 12)
            && input.booking != "" && input.to != "" && input.key != "" && FreeformOk(input.source, input.metadata)
  {
    MagnitudeExact(input.amount);
    assert input.amount.coeff == 0 <==> IsZero(input.amount);
  }

  /** The precision check passes exactly for a known currency and a whole number of its smallest units. */
  lemma PrecisionOkExact(cfg: Config, currency: string, amount: Decimal)
    requires currency in cfg.exponents ==> cfg.exponents[currency] >= 0
    ensures PrecisionOk(cfg, currency, amount)
       <==> currency in cfg.exponents && exists n :: InPlaces(amount, cfg.exponents[currency], n)
  {
    if currency in cfg.exponents { PrecisionExact(amount, cfg.exponents[currency]); }
  }

  // ---------------------------------------------------------------- creations

  /** The two agree on every key but those the observer may change. */
  ghost predicate SameBut(a: map<string, string>, b: map<string, string>) {
    forall k :: k !in {"block_number", "review_reason", "reject_reason", "approved_by", "rejected_by"} ==>
      (k in a <==> k in b) && (k in a && k in b ==> a[k] == b[k])
  }

  lemma StrippedAlike(a: map<string, string>, b: map<string, string>)
    ensures a - OBSERVATION_KEYS == b - OBSERVATION_KEYS <==> SameBut(a, b)
  {
    var x, y := a - OBSERVATION_KEYS, b - OBSERVATION_KEYS;
    if x == y {
      forall k | k !in OBSERVATION_KEYS ensures (k in a <==> k in b) && (k in a && k in b ==> a[k] == b[k]) {
        assert k in a <==> k in x;
        assert k in b <==> k in y;
      }
    }
  }

  /** After any run, a valid creation with a key that made `u` from the creation step c: it changes nothing, and
      it returns `u` exactly when it asks for what c asked for, its expiry being what was stored and its
      metadata, but for the observer's keys, what c's have become. A diverging one is refused. */
  lemma CreateAnswer(cfg: Config, steps: seq<Step>, u: string, input: CreateInput, uid: string) returns (n: nat)
    requires u in Run(cfg, EMPTY, steps).store.bookings && Run(cfg, EMPTY, steps).store.bookings[u].key == input.key
    ensures n < |steps| && steps[n].CreateStep? && steps[n].uid == u
    ensures var s, c := Run(cfg, EMPTY, steps).store, steps[n].create;
            Create(cfg, s, input, uid)
            == (s, if ValidCreate(input) && input.currency in cfg.exponents && input.classCode == c.classCode
                      && input.holder == c.holder && input.currency == c.currency && input.channelName == c.channelName
                      && Value(input.amount) == Value(c.amount) && input.expiresAt == c.expiresAt - c.expiresAt % 1000
                      && SameBut(c.metadata + Merged(s.log, u), input.metadata)
                   then Returned(u) else Refused)
  {
    n := RunTellsAll(cfg, steps, u);
    RunKeepsCreateKeys(cfg, EMPTY, steps);
    AnswerFromRow(cfg, Run(cfg, EMPTY, steps).store, u, steps[n].create, input, uid);
  }

  lemma AnswerFromRow(cfg: Config, s: Store, u: string, c: CreateInput, input: CreateInput, uid: string)
    requires RowTells(s, u, c) && CreateKeysUnique(s) && s.bookings[u].key == input.key
    ensures Create(cfg, s, input, uid)
         == (s, if ValidCreate(input) && input.currency in cfg.exponents && input.classCode == c.classCode
                   && input.holder == c.holder && input.currency == c.currency && input.channelName == c.channelName
                   && Value(input.amount) == Value(c.amount) && input.expiresAt == c.expiresAt - c.expiresAt % 1000
                   && SameBut(c.metadata + Merged(s.log, u), input.metadata)
                then Returned(u) else Refused)
  {
    assert KeyTaken(s, input.key);
    assert HolderOf(s, input.key) == u;
    StrippedAlike(c.metadata + Merged(s.log, u), input.metadata);
  }

  /** A creation with a key nobody used makes a booking exactly when it is valid, its classification has a
      well-formed lifecycle, its amount is a whole number of units and the drawn uid is free. */
  lemma FreshCreation(cfg: Config, s: Store, input: CreateInput, uid: string)
    requires forall u :: u in s.bookings ==> s.bookings[u].key != input.key
    ensures Create(cfg, s, input, uid)
         == if ValidCreate(input) && input.classCode in cfg.lifecycles && WellFormed(cfg.lifecycles[input.classCode])
               && PrecisionOk(cfg, input.currency, input.amount) && uid !in s.bookings
            then (s.(bookings := s.bookings[uid := Created(cfg, input)]), Returned(uid))
            else (s, Refused)
  {
    assert !KeyTaken(s, input.key);
  }

  // ---------------------------------------------------------------- transitions

  /** The booking has moved already. */
  ghost predicate HasMoved(s: Store, u: string) {
    exists i :: 0 <= i < |s.events| && s.events[i].booking == u
  }

  ghost predicate IsLatest(s: Store, u: string, i: nat) {
    i < |s.events| && s.events[i].booking == u && forall j :: i < j < |s.events| ==> s.events[j].booking != u
  }

  /** Nobody else on the booking's channel has the reference it would get. */
  ghost predicate RefFree(s: Store, input: TransitionInput)
    requires input.booking in s.bookings
  {
    var b := s.bookings[input.booking];
    var ref := if input.channelRef == "" then b.channelRef else input.channelRef;
    ref == "" || forall v :: v in s.bookings && v != input.booking ==>
      s.bookings[v].channelName != b.channelName || s.bookings[v].channelRef != ref
  }

  /** The checks every transition without a receipt passes first. */
  ghost predicate Considered(cfg: Config, s: Store, input: TransitionInput) {
    && ValidTransition(input) && input.booking in s.bookings && input.key !in s.receipts
    && (Value(input.amount) != 0.0 ==> PrecisionOk(cfg, s.bookings[input.booking].currency, input.amount))
  }

  /** Without a receipt, a call that fails them is refused. */
  lemma {:induction false} UnconsideredRefused(cfg: Config, s: Store, input: TransitionInput)
    requires input.key !in s.receipts && !Considered(cfg, s, input)
    ensures Decide(cfg, s, input) == Refuse
  {
  }

  /** From every reachable world, a call without a receipt that passes those checks: on a booking that is
      already where the call wants it and has moved before, it is answered with the booking's last event
      exactly when reference and amount are left out or equal, and refused otherwise. */
  lemma {:induction false} AnsweredInPlaceExact(cfg: Config, steps: seq<Step>, input: TransitionInput)
    requires Considered(cfg, Run(cfg, EMPTY, steps).store, input)
    requires HasMoved(Run(cfg, EMPTY, steps).store, input.booking)
    requires Run(cfg, EMPTY, steps).store.bookings[input.booking].status == input.to
    ensures var s := Run(cfg, EMPTY, steps).store;
            var b, d := s.bookings[input.booking], Decide(cfg, s, input);
            && (d.Replay? <==> input.channelRef in {"", b.channelRef} && Value(input.amount) in {0.0, b.settled})
            && (d.Replay? ==> IsLatest(s, input.booking, d.event))
            && (!d.Replay? ==> d == Refuse)
  {
    var s := Run(cfg, EMPTY, steps).store;
    RunKeeps(cfg, EMPTY, steps);
    RunKeepsValidated(cfg, EMPTY, steps);
    assert BookingHolds(cfg, s, input.booking);
    LatestIsHere(cfg, s, input.booking);
    InPlace(cfg, s, input, LatestEvent(s.events, input.booking));
  }

  lemma {:induction false} LatestIsHere(cfg: Config, s: Store, u: string)
    requires u in s.bookings && BookingHolds(cfg, s, u) && HasMoved(s, u)
    ensures var i := LatestEvent(s.events, u);
            i >= 0 && IsLatest(s, u, i) && s.events[i].to == s.bookings[u].status
  {
    assert LatestEvent(s.events, u) >= 0;
    TrailEndsAtLatest(s.events, u);
    EndsInPlace(cfg, s, u);
  }

  lemma {:induction false} InPlace(cfg: Config, s: Store, input: TransitionInput, i: nat)
    requires Considered(cfg, s, input) && s.bookings[input.booking].status == input.to
    requires HasLifecycle(cfg, s.bookings[input.booking].classCode)
    requires i == LatestEvent(s.events, input.booking) && s.events[i].to == input.to
    ensures var b, d := s.bookings[input.booking], Decide(cfg, s, input);
            && (d.Replay? <==> input.channelRef in {"", b.channelRef} && Value(input.amount) in {0.0, b.settled})
            && (d.Replay? ==> d.event == i) && (!d.Replay? ==> d == Refuse)
  {
    assert Compared(s.bookings[input.booking], s.events, input) == CompareState(s.bookings[input.booking], i, input.to, input);
  }

  /** And otherwise it proceeds exactly when the lifecycle lists the move, the reference is free and the settled
      amount does not fall. */
  lemma {:induction false} ProceedsExact(cfg: Config, steps: seq<Step>, input: TransitionInput)
    requires Considered(cfg, Run(cfg, EMPTY, steps).store, input)
    requires var s := Run(cfg, EMPTY, steps).store;
             !(HasMoved(s, input.booking) && s.bookings[input.booking].status == input.to)
    ensures var s := Run(cfg, EMPTY, steps).store;
            var b, d := s.bookings[input.booking], Decide(cfg, s, input);
            && b.classCode in cfg.lifecycles
            && var moves := cfg.lifecycles[b.classCode].transitions;
               && (d == Proceed <==>
                     && b.status in moves && input.to in moves[b.status] && RefFree(s, input)
                     && (Value(input.amount) == 0.0 || Value(input.amount) >= b.settled))
               && (d != Proceed ==> d == Refuse)
  {
    var s := Run(cfg, EMPTY, steps).store;
    RunKeeps(cfg, EMPTY, steps);
    RunKeepsValidated(cfg, EMPTY, steps);
    assert BookingHolds(cfg, s, input.booking);
    NotInPlace(cfg, s, input);
  }

  lemma {:induction false} NotInPlace(cfg: Config, s: Store, input: TransitionInput)
    requires Considered(cfg, s, input) && HasLifecycle(cfg, s.bookings[input.booking].classCode)
    requires !(HasMoved(s, input.booking) && s.bookings[input.booking].status == input.to)
    ensures var b, d := s.bookings[input.booking], Decide(cfg, s, input);
            var moves := cfg.lifecycles[b.classCode].transitions;
            && (d == Proceed <==>
                  && b.status in moves && input.to in moves[b.status] && RefFree(s, input)
                  && (Value(input.amount) == 0.0 || Value(input.amount) >= b.settled))
            && (d != Proceed ==> d == Refuse)
  {
    var u := input.booking;
    assert s.bookings[u].status == input.to ==> LatestEvent(s.events, u) < 0;
    assert RefTaken(s.bookings, input) <==> !RefFree(s, input);
  }
}
