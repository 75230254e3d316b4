/** Bookings: creation by idempotency key and transitions with durable receipts, as decisions on the
    committed tables and as a store that takes them. */
module Bookings {
  import opened Decimals
  import opened Amounts
  import opened Freeform
  import opened Lifecycles

  datatype Booking = Booking(classCode: string, holder: int, currency: string, amount: real, settled: real,
                             status: Status, channelName: string, channelRef: string, key: string,
                             metadata: map<string, string>, expiresAt: int)

  datatype Event = Event(booking: string, from: Status, to: Status, amount: real, settled: real,
                         metadata: map<string, string>, actor: int, source: string)

  datatype Receipt = Receipt(booking: string, to: Status, channelRef: string, amount: real, event: nat)

  datatype CreateInput = CreateInput(classCode: string, holder: int, currency: string, amount: Decimal, key: string,
                                     channelName: string, metadata: map<string, string>, expiresAt: int)

  datatype TransitionInput = TransitionInput(booking: string, to: Status, channelRef: string, amount: Decimal,
                                             metadata: map<string, string>, actor: int, source: string, key: string)

  /** Configuration that stays fixed: lifecycles by classification code, exponents by currency. */
  datatype Config = Config(lifecycles: map<string, Lifecycle>, exponents: map<string, int>)

  /** The committed tables. `log` is history only: the input that produced each event. */
  datatype Store = Store(bookings: map<string, Booking>, events: seq<Event>, receipts: map<string, Receipt>,
                         log: seq<TransitionInput>)

  datatype Reply<+T> = Refused | Returned(value: T)

  // ---------------------------------------------------------------- creation

  const OBSERVATION_KEYS: set<string> := {"block_number", "review_reason", "reject_reason", "approved_by", "rejected_by"}

  predicate CompleteCreate(input: CreateInput) {
    && Storable(input.amount) && input.classCode != "" && input.holder != 0 && input.currency != ""
    && IsPositive(input.amount) && input.key != ""
  }

  ghost predicate ValidCreate(input: CreateInput) {
    CompleteCreate(input) && FreeformOk("", input.metadata)
  }

  /** The existing booking is what this input would have created, up to observation metadata. */
  predicate MatchesCreate(b: Booking, input: CreateInput) {
    && b.classCode == input.classCode && b.holder == input.holder && b.currency == input.currency
    && b.channelName == input.channelName && b.amount == Value(input.amount) && b.expiresAt == input.expiresAt
    && b.metadata - OBSERVATION_KEYS == input.metadata - OBSERVATION_KEYS
  }

  predicate PrecisionOk(cfg: Config, currency: string, amount: Decimal) {
    currency in cfg.exponents && Equal(amount, Truncate(amount, cfg.exponents[currency]))
  }

  ghost predicate HasLifecycle(cfg: Config, code: string) {
    code in cfg.lifecycles && WellFormed(cfg.lifecycles[code])
  }

  /** What a timestamp column keeps of a time in nanoseconds: whole microseconds. */
  function StoredTime(nanos: int): (t: int)
    ensures t <= nanos < t + 1000 && t % 1000 == 0
  {
    nanos - nanos % 1000
  }

  function Created(cfg: Config, input: CreateInput): Booking
    requires input.classCode in cfg.lifecycles
  {
    Booking(input.classCode, input.holder, input.currency, Value(input.amount), 0.0,
            cfg.lifecycles[input.classCode].initial, input.channelName, "", input.key, input.metadata,
            StoredTime(input.expiresAt))
  }

  ghost predicate KeyTaken(s: Store, key: string) {
    exists u :: u in s.bookings && s.bookings[u].key == key
  }

  /** The booking an idempotency key created. */
  ghost function HolderOf(s: Store, key: string): (u: string)
    requires KeyTaken(s, key)
    ensures u in s.bookings && s.bookings[u].key == key
  {
    var u :| u in s.bookings && s.bookings[u].key == key;
    u
  }

  /** CreateBooking under a fresh uid: the uid it returns and the store it leaves. */
  ghost function Create(cfg: Config, s: Store, input: CreateInput, uid: string): (Store, Reply<string>) {
    if !ValidCreate(input) then (s, Refused)
    else if KeyTaken(s, input.key) then
      var u := HolderOf(s, input.key);
      (s, if input.currency in cfg.exponents && MatchesCreate(s.bookings[u], input) then Returned(u) else Refused)
    else if !HasLifecycle(cfg, input.classCode) || !PrecisionOk(cfg, input.currency, input.amount) || uid in s.bookings
    then (s, Refused)
    else (s.(bookings := s.bookings[uid := Created(cfg, input)]), Returned(uid))
  }

  // ---------------------------------------------------------------- transitions

  predicate CompleteTransition(input: TransitionInput) {
    && Storable(input.amount) && input.booking != "" && input.to != "" && !IsNegative(input.amount) && input.key != ""
  }

  ghost predicate ValidTransition(input: TransitionInput) {
    CompleteTransition(input) && FreeformOk(input.source, input.metadata)
  }

  datatype Decision = Refuse | Replay(event: nat) | Proceed

  /** ensureBookingTransitionReceiptMatches. */
  predicate MatchesReceipt(r: Receipt, input: TransitionInput) {
    && r.booking == input.booking && r.to == input.to
    && (input.channelRef == "" || r.channelRef == input.channelRef)
    && (IsZero(input.amount) || r.amount == Value(input.amount))
  }

  /** Index of the booking's latest event, if any. */
  function LatestEvent(events: seq<Event>, uid: string): (n: int)
    ensures -1 <= n < |events|
    ensures n >= 0 ==> events[n].booking == uid
    ensures forall i :: n < i < |events| ==> events[i].booking != uid
  {
    if |events| == 0 then -1
    else if events[|events| - 1].booking == uid then |events| - 1
    else LatestEvent(events[..|events| - 1], uid)
  }

  /** idempotentTransitionEvent on a booking that already is where the input wants it. */
  function CompareState(b: Booking, latest: nat, latestTo: Status, input: TransitionInput): Decision {
    if latestTo != input.to then Proceed
    else if input.channelRef != "" && input.channelRef != b.channelRef then Refuse
    else if !IsZero(input.amount) && Value(input.amount) != b.settled then Refuse
    else Replay(latest)
  }

  /** What a call without a receipt decides, from the booking and its events. */
  ghost function Consider(cfg: Config, b: Booking, events: seq<Event>, input: TransitionInput): Decision {
    if !HasLifecycle(cfg, b.classCode) then Refuse
    else if !IsZero(input.amount) && !PrecisionOk(cfg, b.currency, input.amount) then Refuse
    else if Compared(b, events, input) != Proceed then Compared(b, events, input)
    else if Edge(cfg.lifecycles[b.classCode], b.status, input.to) then Proceed
    else Refuse
  }

  function Compared(b: Booking, events: seq<Event>, input: TransitionInput): Decision {
    var latest := LatestEvent(events, input.booking);
    if b.status == input.to && latest >= 0 then CompareState(b, latest, events[latest].to, input) else Proceed
  }

  /** Everything a transition decides before it writes, under the booking's row lock. */
  ghost function Decide(cfg: Config, s: Store, input: TransitionInput): Decision {
    if !ValidTransition(input) || input.booking !in s.bookings then Refuse
    else if input.key in s.receipts then
      if MatchesReceipt(s.receipts[input.key], input) then Replay(s.receipts[input.key].event) else Refuse
    else if Consider(cfg, s.bookings[input.booking], s.events, input).Proceed? && Barred(s.bookings, input) then Refuse
    else Consider(cfg, s.bookings[input.booking], s.events, input)
  }

  /** The channel reference a booking has after a transition. */
  function NextRef(b: Booking, input: TransitionInput): string {
    if input.channelRef != "" then input.channelRef else b.channelRef
  }

  /** Another booking of the channel has that reference already, so the unique index refuses the write. */
  predicate RefTaken(bookings: map<string, Booking>, input: TransitionInput)
    requires input.booking in bookings
  {
    var b := bookings[input.booking];
    NextRef(b, input) != "" && exists v | v in bookings ::
      v != input.booking && bookings[v].channelName == b.channelName && bookings[v].channelRef == NextRef(b, input)
  }

  /** What the database itself refuses: a reference taken already, or a settled amount that falls. */
  predicate Barred(bookings: map<string, Booking>, input: TransitionInput)
    requires input.booking in bookings
  {
    RefTaken(bookings, input) || Settle(input, bookings[input.booking].settled) < bookings[input.booking].settled
  }

  /** A non-zero amount settles the booking; a zero one keeps what was settled. */
  function Settle(input: TransitionInput, settled: real): real {
    if !IsZero(input.amount) then Value(input.amount) else settled
  }

  function Moved(b: Booking, input: TransitionInput): Booking {
    b.(status := input.to,
       channelRef := NextRef(b, input),
       settled := Settle(input, b.settled),
       metadata := b.metadata + input.metadata)
  }

  /** The writes of an applied transition: row, event and receipt together. */
  function Apply(s: Store, input: TransitionInput): Store
    requires input.booking in s.bookings
  {
    var b := s.bookings[input.booking];
    var b' := Moved(b, input);
    Store(s.bookings[input.booking := b'],
          s.events + [Event(input.booking, b.status, input.to, b.amount, b'.settled, b'.metadata, input.actor, input.source)],
          s.receipts[input.key := Receipt(input.booking, input.to, input.channelRef, Value(input.amount), |s.events|)],
          s.log + [input])
  }

  // ---------------------------------------------------------------- the store as an object

  class BookingStore {
    const cfg: Config
    var bookings: map<string, Booking>
    var events: seq<Event>
    var receipts: map<string, Receipt>
    ghost var log: seq<TransitionInput>

    ghost function Tables(): Store
      reads this
    {
      Store(bookings, events, receipts, log)
    }

    constructor (cfg: Config)
      ensures this.cfg == cfg && Tables() == Store(map[], [], map[], [])
    {
      this.cfg := cfg;
      bookings, events, receipts, log := map[], [], map[], [];
    }

    /** Transition in one transaction: the decision, then the writes. */
    method Transition(input: TransitionInput) returns (r: Reply<Event>)
      requires forall k :: k in receipts ==> receipts[k].event < |events|
      modifies this
      ensures var was, d := old(Tables()), Decide(cfg, old(Tables()), input);
              && (d.Proceed? ==> Tables() == Apply(was, input) && r == Returned(events[|events| - 1]))
              && (d.Replay? ==> Tables() == was && d.event < |events| && r == Returned(events[d.event]))
              && (d.Refuse? ==> Tables() == was && r == Refused)
    {
      if !CompleteTransition(input) {
        return Refused;
      }
      var fieldsOk := ValidateFreeformFields(input.source, input.metadata);
      if !fieldsOk {
        return Refused;
      }
      if input.booking !in bookings {
        return Refused;
      }
      var op := bookings[input.booking];
      if input.key in receipts {
        var receipt := receipts[input.key];
        if !MatchesReceipt(receipt, input) {
          return Refused;
        }
        return Returned(events[receipt.event]);
      }
      var decision := Judge(op, input);
      match decision {
        case Refuse => return Refused;
        case Replay(e) => return Returned(events[e]);
        case Proceed =>
      }
      if Barred(bookings, input) {
        return Refused;
      }
      r := Write(op, input);
    }

    /** The writes of an applied transition: the booking row, its event and the key's receipt. */
    method Write(op: Booking, input: TransitionInput) returns (r: Reply<Event>)
      requires input.booking in bookings && bookings[input.booking] == op
      modifies this
      ensures Tables() == Apply(old(Tables()), input) && r == Returned(events[|events| - 1])
    {
      var metadata := op.metadata + input.metadata;
      var settled := op.settled;
      if !IsZero(input.amount) {
        settled := Value(input.amount);
      }
      var channelRef := op.channelRef;
      if input.channelRef != "" {
        channelRef := input.channelRef;
      }
      bookings := bookings[input.booking := op.(status := input.to, channelRef := channelRef, settled := settled,
                                                metadata := metadata)];
      var event := Event(input.booking, op.status, input.to, op.amount, settled, metadata, input.actor, input.source);
      receipts := receipts[input.key := Receipt(input.booking, input.to, input.channelRef, Value(input.amount), |events|)];
      events := events + [event];
      log := log + [input];
      return Returned(event);
    }

    /** The lifecycle, precision, replay and edge checks, in that order. */
    method Judge(op: Booking, input: TransitionInput) returns (d: Decision)
      ensures d == Consider(cfg, op, events, input)
      ensures d.Replay? ==> d.event < |events|
    {
      if op.classCode !in cfg.lifecycles {
        return Refuse;
      }
      var lifecycle := cfg.lifecycles[op.classCode];
      var ok := Validate(lifecycle);
      if !ok {
        return Refuse;
      }
      if !IsZero(input.amount) && !PrecisionOk(cfg, op.currency, input.amount) {
        return Refuse;
      }
      if op.status == input.to {
        var latest := LatestEvent(events, input.booking);
        if latest >= 0 {
          d := CompareState(op, latest, events[latest].to, input);
          if d != Proceed {
            return;
          }
        }
      }
      var allowed := CanTransition(lifecycle, op.status, input.to);
      return if allowed then Proceed else Refuse;
    }

    /** CreateBooking; `uid` is the freshly drawn identifier. */
    method CreateBooking(input: CreateInput, uid: string) returns (r: Reply<string>)
      requires forall u, v :: u in bookings && v in bookings && bookings[u].key == bookings[v].key ==> u == v
      modifies this
      ensures (Tables(), r) == Create(cfg, old(Tables()), input, uid)
    {
      if !CompleteCreate(input) {
        return Refused;
      }
      var fieldsOk := ValidateFreeformFields("", input.metadata);
      if !fieldsOk {
        return Refused;
      }
      var holders := set u | u in bookings && bookings[u].key == input.key;
      if holders != {} {
        var u :| u in holders;
        assert HolderOf(Tables(), input.key) == u;
        if input.currency in cfg.exponents && MatchesCreate(bookings[u], input) {
          return Returned(u);
        }
        return Refused;
      }
      assert !KeyTaken(Tables(), input.key) by {
        if u :| u in bookings && bookings[u].key == input.key { assert u in holders; }
      }
      if input.classCode !in cfg.lifecycles {
        return Refused;
      }
      var ok := Validate(cfg.lifecycles[input.classCode]);
      if !ok {
        return Refused;
      }
      if !PrecisionOk(cfg, input.currency, input.amount) {
        return Refused;
      }
      if uid in bookings {
        return Refused;
      }
      bookings := bookings[uid := Created(cfg, input)];
      return Returned(uid);
    }
  }
}
