/** A creation repeated as it was: exactly when it still gets its booking back. */
module BookingRetries {
  import opened Decimals
  import opened Freeform
  import opened Bookings
  import opened BookingRuns
  import opened BookingReturns

  /** The metadata the transitions logged for a booking have merged into it, later ones winning. */
  function Merged(log: seq<TransitionInput>, u: string): map<string, string> {
    if |log| == 0 then map[]
    else
      var last, before := log[|log| - 1], Merged(log[..|log| - 1], u);
      if last.booking == u then before + last.metadata else before
  }

  lemma MergedAppend(log: seq<TransitionInput>, input: TransitionInput, u: string)
    ensures Merged(log + [input], u) == if input.booking == u then Merged(log, u) + input.metadata else Merged(log, u)
  {
    assert (log + [input])[..|log|] == log;
  }

  lemma {:induction false} NothingMerged(log: seq<TransitionInput>, u: string)
    requires forall i :: 0 <= i < |log| ==> log[i].booking != u
    ensures Merged(log, u) == map[]
  {
    if |log| > 0 { NothingMerged(log[..|log| - 1], u); }
  }

  /** A booking is what a creation made of it, with what its transitions have merged. */
  ghost predicate Originates(s: Store, u: string, input: CreateInput) {
    && u in s.bookings
    && var b := s.bookings[u];
       && b.classCode == input.classCode && b.holder == input.holder && b.currency == input.currency
       && b.channelName == input.channelName && b.amount == Value(input.amount) && b.key == input.key
       && b.expiresAt == StoredTime(input.expiresAt) && b.metadata == input.metadata + Merged(s.log, u)
  }

  lemma ApplyKeepsOrigin(s: Store, applied: TransitionInput, u: string, input: CreateInput)
    requires Originates(s, u, input) && applied.booking in s.bookings
    ensures Originates(Apply(s, applied), u, input)
  {
    MergedAppend(s.log, applied, u);
    if applied.booking == u {
      var m := Merged(s.log, u);
      assert (input.metadata + m) + applied.metadata == input.metadata + (m + applied.metadata);
    }
  }

  lemma CreateKeepsOrigin(cfg: Config, s: Store, other: CreateInput, uid: string, u: string, input: CreateInput)
    requires Originates(s, u, input)
    ensures Originates(Create(cfg, s, other, uid).0, u, input)
  {
  }

  lemma {:induction false} RunKeepsOrigin(cfg: Config, w: World, steps: seq<Step>, u: string, input: CreateInput)
    requires Originates(w.store, u, input)
    ensures Originates(Run(cfg, w, steps).store, u, input)
    decreases |steps|
  {
    if |steps| > 0 {
      var step := steps[0];
      if step.CreateStep? {
        CreateKeepsOrigin(cfg, w.store, step.create, step.uid, u, input);
      } else if step.Commit? && Commits(w, step.booking) {
        ApplyKeepsOrigin(w.store, w.inflight[step.booking], u, input);
      }
      RunKeepsOrigin(cfg, Next(cfg, w, step), steps[1..], u, input);
    }
  }

  /** Outside the observation keys, nothing was merged that the creation did not say already. */
  predicate Agrees(base: map<string, string>, merged: map<string, string>) {
    forall k | k in merged :: k !in OBSERVATION_KEYS ==> k in base && base[k] == merged[k]
  }

  lemma AgreesIff(base: map<string, string>, merged: map<string, string>)
    ensures (base + merged) - OBSERVATION_KEYS == base - OBSERVATION_KEYS <==> Agrees(base, merged)
  {
    var a, b := (base + merged) - OBSERVATION_KEYS, base - OBSERVATION_KEYS;
    if a == b {
      forall k | k in merged && k !in OBSERVATION_KEYS ensures k in base && base[k] == merged[k] {
        assert k in a;
        assert k in b && a[k] == merged[k];
      }
    }
  }

  /** The creation went in as a new booking. */
  ghost predicate Makes(cfg: Config, s: Store, input: CreateInput, u: string) {
    u !in s.bookings && Create(cfg, s, input, u).1 == Returned(u)
  }

  lemma Made(cfg: Config, s: Store, input: CreateInput, u: string)
    requires Makes(cfg, s, input, u)
    ensures ValidCreate(input) && input.classCode in cfg.lifecycles && input.currency in cfg.exponents
    ensures Create(cfg, s, input, u).0 == s.(bookings := s.bookings[u := Created(cfg, input)])
  {
  }

  lemma OriginatesAtOnce(cfg: Config, s: Store, input: CreateInput, u: string)
    requires ReceiptsHold(s) && EventsKnown(s) && Makes(cfg, s, input, u)
    ensures Originates(Create(cfg, s, input, u).0, u, input)
  {
    Made(cfg, s, input, u);
    NothingMerged(s.log, u);
  }

  lemma AnswerToRetry(cfg: Config, s: Store, input: CreateInput, u: string, uid: string)
    requires Originates(s, u, input) && CreateKeysUnique(s) && ValidCreate(input) && input.currency in cfg.exponents
    ensures Create(cfg, s, input, uid)
         == (s, if Agrees(input.metadata, Merged(s.log, u)) && input.expiresAt % 1000 == 0 then Returned(u) else Refused)
  {
    assert KeyTaken(s, input.key);
    assert HolderOf(s, input.key) == u;
    AgreesIff(input.metadata, Merged(s.log, u));
  }

  /** A creation that made `u`, repeated as it was after any run: it changes nothing, and it returns `u`
      if and only if the metadata merged by the transitions logged for `u` agrees with it outside the
      observation keys and its expiry is a whole number of microseconds. Otherwise it is refused. */
  lemma CreateRetryExact(cfg: Config, before: seq<Step>, input: CreateInput, u: string, after: seq<Step>, uid: string)
    requires Makes(cfg, Run(cfg, EMPTY, before).store, input, u)
    ensures var s := Run(cfg, Next(cfg, Run(cfg, EMPTY, before), CreateStep(input, u)), after).store;
            Create(cfg, s, input, uid)
            == (s, if Agrees(input.metadata, Merged(s.log, u)) && input.expiresAt % 1000 == 0 then Returned(u) else Refused)
  {
    var w := Run(cfg, EMPTY, before);
    var v := Next(cfg, w, CreateStep(input, u));
    RunKeeps(cfg, EMPTY, before);
    RunKeepsCreateKeys(cfg, EMPTY, before);
    Made(cfg, w.store, input, u);
    OriginatesAtOnce(cfg, w.store, input, u);
    CreateKeepsCreateKeys(cfg, w.store, input, u);
    RunKeepsOrigin(cfg, v, after, u, input);
    RunKeepsCreateKeys(cfg, v, after);
    AnswerToRetry(cfg, Run(cfg, v, after).store, input, u, uid);
  }

  // ---------------------------------------------------------------- refused retries

  function SampleCreate(expiresAt: int): CreateInput {
    CreateInput("c", 1, "x", Decimal(1, 0), "k0", "", map[], expiresAt)
  }

  lemma SampleMade(expiresAt: int)
    ensures Makes(SAMPLE, EMPTY.store, SampleCreate(expiresAt), "u")
    ensures Next(SAMPLE, EMPTY, CreateStep(SampleCreate(expiresAt), "u"))
         == World(EMPTY.store.(bookings := map["u" := Created(SAMPLE, SampleCreate(expiresAt))]), map[])
  {
    NothingIsFine();
    BackAndForth();
    var create := SampleCreate(expiresAt);
    assert ValidCreate(create) && !KeyTaken(EMPTY.store, "k0") && PrecisionOk(SAMPLE, "x", Decimal(1, 0));
    Inserts(SAMPLE, EMPTY.store, create, "u");
  }

  const NOTED: TransitionInput := TransitionInput("u", "b", "", ZERO, map["note" := "x"], 0, "", "k1")

  lemma NoteIsFine()
    ensures FreeformOk("", map["note" := "x"])
  {
    OneField("note", "x");
  }

  /** A run of one creation and one transition that carries a note: the creation repeated is refused. */
  lemma NoteRefusesRetry()
    ensures var input, noted := SampleCreate(0), [Begin(NOTED), Commit("u")];
            && Makes(SAMPLE, EMPTY.store, input, "u") && input.expiresAt % 1000 == 0
            && Create(SAMPLE, Run(SAMPLE, Next(SAMPLE, EMPTY, CreateStep(input, "u")), noted).store, input, "v").1 == Refused
  {
    var input, after := SampleCreate(0), [Begin(NOTED), Commit("u")];
    SampleMade(0);
    NotedRun(Next(SAMPLE, EMPTY, CreateStep(input, "u")));
    assert Run(SAMPLE, EMPTY, []) == EMPTY;
    CreateRetryExact(SAMPLE, [], input, "u", after, "v");
  }

  lemma NotedRun(w: World)
    requires w == World(EMPTY.store.(bookings := map["u" := Created(SAMPLE, SampleCreate(0))]), map[])
    ensures !Agrees(map[], Merged(Run(SAMPLE, w, [Begin(NOTED), Commit("u")]).store.log, "u"))
  {
    NotedProceeds(w.store);
    BeginAndCommit(SAMPLE, w, NOTED);
    NoteMerged(Apply(w.store, NOTED).log);
  }

  lemma NotedProceeds(s: Store)
    requires s.bookings.Keys == {"u"} && s.bookings["u"].classCode == "c" && s.bookings["u"].status == "a"
    requires s.bookings["u"].channelRef == "" && s.events == [] && s.receipts == map[]
    ensures Decide(SAMPLE, s, NOTED).Proceed?
  {
    NoteIsFine();
    BackAndForth();
    FirstMoveDecides(SAMPLE, s, NOTED);
  }

  lemma NoteMerged(log: seq<TransitionInput>)
    requires log == [NOTED]
    ensures !Agrees(map[], Merged(log, "u"))
  {
    assert log[..0] == [];
    assert "note" in Merged(log, "u") && "note" !in OBSERVATION_KEYS;
  }

  /** A creation whose expiry has a fraction of a microsecond is refused when it is repeated at once. */
  lemma FractionRefusesRetry(cfg: Config, before: seq<Step>, input: CreateInput, u: string, uid: string)
    requires Makes(cfg, Run(cfg, EMPTY, before).store, input, u) && input.expiresAt % 1000 != 0
    ensures Create(cfg, Create(cfg, Run(cfg, EMPTY, before).store, input, u).0, input, uid).1 == Refused
  {
    var v := Next(cfg, Run(cfg, EMPTY, before), CreateStep(input, u));
    CreateRetryExact(cfg, before, input, u, [], uid);
    assert Run(cfg, v, []) == v;
  }
}
