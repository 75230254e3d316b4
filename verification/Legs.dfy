/** What Exchange and Capture verify about the entries a template rendered, before the transaction commits. */
module Legs {
  import opened Options
  import opened Decimals
  import opened Sequences
  import opened Journals

  datatype Class = Class(normal: Side, available: bool)

  /** The classification catalogue, by uid. */
  type Classes = map<string, Class>

  function SidesOf(classes: Classes): Sides {
    map u | u in classes :: classes[u].normal
  }

  const MIN_INT64: int := -0x8000_0000_0000_0000

  /** SystemAccountHolder: negation of a 64-bit holder. */
  function Mirror(holder: int): int {
    if holder == MIN_INT64 then holder else -holder
  }

  /** The counterpart of an int64 holder is an int64, adds up with it to zero modulo 2^64, and has the holder
      for its own counterpart; only 0 and the smallest int64 are their own. */
  lemma MirrorOfInt64(holder: int)
    requires -0x8000_0000_0000_0000 <= holder < 0x8000_0000_0000_0000
    ensures -0x8000_0000_0000_0000 <= Mirror(holder) < 0x8000_0000_0000_0000
    ensures (holder + Mirror(holder)) % 0x1_0000_0000_0000_0000 == 0
    ensures Mirror(Mirror(holder)) == holder
    ensures Mirror(holder) == holder <==> holder == 0 || holder == -0x8000_0000_0000_0000
  {
  }

  // ---------------------------------------------------------------- the holder's totals

  /** The balance of each classification of one holder in one currency. */
  ghost function HeldBy(classes: Classes, entries: seq<Entry>, holder: int, currency: string): string -> real {
    (u: string) => Balance(SidesOf(classes), entries, Dim(holder, currency, u))
  }

  ghost function Spendable(classes: Classes): set<string> {
    set u | u in classes && classes[u].available
  }

  /** The holder's available total: its available classifications taken together. */
  ghost function Available(classes: Classes, entries: seq<Entry>, holder: int, currency: string): real {
    SumOver(HeldBy(classes, entries, holder, currency), Spendable(classes))
  }

  lemma {:induction false} SumOverAdds<A(!new)>(f: A -> real, g: A -> real, h: A -> real, d: set<A>)
    requires forall x :: x in d ==> h(x) == f(x) + g(x)
    ensures SumOver(h, d) == SumOver(f, d) + SumOver(g, d)
  {
    if d != {} {
      var x :| x in d;
      SumOverTakes(f, d, x);
      SumOverTakes(g, d, x);
      SumOverTakes(h, d, x);
      SumOverAdds(f, g, h, d - {x});
    }
  }

  lemma AvailableOfConcat(classes: Classes, a: seq<Entry>, b: seq<Entry>, holder: int, currency: string)
    ensures Available(classes, a + b, holder, currency)
         == Available(classes, a, holder, currency) + Available(classes, b, holder, currency)
  {
    var f, g := HeldBy(classes, a, holder, currency), HeldBy(classes, b, holder, currency);
    var h := HeldBy(classes, a + b, holder, currency);
    forall u | u in Spendable(classes) ensures h(u) == f(u) + g(u) {
      BalanceOfConcat(SidesOf(classes), a, b, Dim(holder, currency, u));
    }
    SumOverAdds(f, g, h, Spendable(classes));
  }

  lemma {:induction false} UntouchedBalance(sides: Sides, entries: seq<Entry>, d: Dim)
    requires forall i :: 0 <= i < |entries| ==> DimOf(entries[i]) != d
    ensures Balance(sides, entries, d) == 0.0
  {
    if |entries| > 0 { UntouchedBalance(sides, entries[..|entries| - 1], d); }
  }

  lemma BalanceAppend(sides: Sides, entries: seq<Entry>, e: Entry, d: Dim)
    ensures Balance(sides, entries + [e], d) == Balance(sides, entries, d)
            + if DimOf(e) == d then SignedValue(SideOf(sides, e.classUid), e.kind, Value(e.amount)) else 0.0
  {
    assert (entries + [e])[..|entries|] == entries;
  }

  lemma AvailableAppend(classes: Classes, entries: seq<Entry>, e: Entry, holder: int, currency: string)
    requires e.holder == holder && e.currency == currency ==> e.classUid in classes
    ensures Available(classes, entries + [e], holder, currency) == Available(classes, entries, holder, currency)
            + if e.holder == holder && e.currency == currency && classes[e.classUid].available
              then SignedValue(classes[e.classUid].normal, e.kind, Value(e.amount)) else 0.0
  {
    var f, g := HeldBy(classes, entries, holder, currency), HeldBy(classes, entries + [e], holder, currency);
    forall u | u in Spendable(classes)
      ensures g(u) == f(u) + if DimOf(e) == Dim(holder, currency, u)
                             then SignedValue(classes[u].normal, e.kind, Value(e.amount)) else 0.0
    {
      BalanceAppend(SidesOf(classes), entries, e, Dim(holder, currency, u));
    }
    if e.holder == holder && e.currency == currency && classes[e.classUid].available {
      SumOverBump(f, g, Spendable(classes), e.classUid, SignedValue(classes[e.classUid].normal, e.kind, Value(e.amount)));
    } else {
      SumOverEqual(f, g, Spendable(classes));
    }
  }

  // ---------------------------------------------------------------- one leg

  predicate InPair(e: Entry, holder: int, currency: string) {
    e.currency == currency && (e.holder == holder || e.holder == Mirror(holder))
  }

  /** An entry of the holder whose effect can be computed. */
  predicate Readable(classes: Classes, e: Entry) {
    e.classUid in classes && IsValid(classes[e.classUid].normal) && IsValid(e.kind)
  }

  ghost predicate Confined(classes: Classes, entries: seq<Entry>, holder: int, currency: string) {
    forall i :: 0 <= i < |entries| ==>
      var e := entries[i];
      && e.currency == currency && e.holder in {holder, Mirror(holder)}
      && (e.holder == holder ==>
            e.classUid in classes && classes[e.classUid].normal in {Debit, Credit} && e.kind in {Debit, Credit})
  }

  /** Every non-available classification of the holder is left where it was. */
  ghost predicate OthersStill(classes: Classes, entries: seq<Entry>, holder: int, currency: string) {
    forall u :: u in classes && !classes[u].available ==> HeldBy(classes, entries, holder, currency)(u) == 0.0
  }

  /** An entry of the holder that cannot be read, reached before any entry outside the pair. */
  ghost predicate Unreadable(classes: Classes, entries: seq<Entry>, holder: int, currency: string) {
    exists i :: 0 <= i < |entries| && entries[i].holder == holder && !Readable(classes, entries[i])
                && forall j :: 0 <= j <= i ==> InPair(entries[j], holder, currency)
  }

  /** What the loop has gathered: the net of the available classifications and one sum for each other. */
  ghost predicate Tracked(classes: Classes, entries: seq<Entry>, holder: int, currency: string, net: Decimal,
                          others: map<string, Decimal>)
  {
    && Value(net) == Available(classes, entries, holder, currency)
    && (forall u :: u in others ==>
          u in classes && !classes[u].available && Value(others[u]) == HeldBy(classes, entries, holder, currency)(u))
    && (forall u :: u in classes && !classes[u].available && u !in others ==>
          HeldBy(classes, entries, holder, currency)(u) == 0.0)
  }

  lemma TrackedStart(classes: Classes, holder: int, currency: string)
    ensures Tracked(classes, [], holder, currency, ZERO, map[])
  {
    assert Value(ZERO) == 0.0;
    SumOverZero(HeldBy(classes, [], holder, currency), Spendable(classes));
  }

  lemma TrackedSkip(classes: Classes, entries: seq<Entry>, e: Entry, holder: int, currency: string, net: Decimal,
                    others: map<string, Decimal>)
    requires Tracked(classes, entries, holder, currency, net, others) && e.holder != holder
    ensures Tracked(classes, entries + [e], holder, currency, net, others)
  {
    AvailableAppend(classes, entries, e, holder, currency);
    forall u ensures HeldBy(classes, entries + [e], holder, currency)(u) == HeldBy(classes, entries, holder, currency)(u) {
      BalanceAppend(SidesOf(classes), entries, e, Dim(holder, currency, u));
    }
  }

  function AddTo(others: map<string, Decimal>, u: string, v: Decimal): map<string, Decimal> {
    others[u := Add(if u in others then others[u] else ZERO, v)]
  }

  lemma TrackedTake(classes: Classes, entries: seq<Entry>, e: Entry, holder: int, currency: string, net: Decimal,
                    others: map<string, Decimal>, signed: Decimal)
    requires Tracked(classes, entries, holder, currency, net, others)
    requires e.holder == holder && e.currency == currency && e.classUid in classes
    requires Value(signed) == SignedValue(classes[e.classUid].normal, e.kind, Value(e.amount))
    ensures classes[e.classUid].available ==> Tracked(classes, entries + [e], holder, currency, Add(net, signed), others)
    ensures !classes[e.classUid].available ==>
              Tracked(classes, entries + [e], holder, currency, net, AddTo(others, e.classUid, signed))
  {
    assert Value(ZERO) == 0.0;
    AvailableAppend(classes, entries, e, holder, currency);
    forall u
      ensures HeldBy(classes, entries + [e], holder, currency)(u)
           == HeldBy(classes, entries, holder, currency)(u) + if u == e.classUid then Value(signed) else 0.0
    {
      BalanceAppend(SidesOf(classes), entries, e, Dim(holder, currency, u));
    }
  }

  /** holderLegNet. Err for an unreadable entry; otherwise the holder's net in its available
      classifications and whether the leg did anything else. */
  method HolderLegNet(entries: seq<Entry>, holder: int, currency: string, classes: Classes)
    returns (r: Result<(Decimal, bool)>)
    ensures r.Err? <==> Unreadable(classes, entries, holder, currency)
    ensures r.Ok? && !r.value.1
       <==> Confined(classes, entries, holder, currency) && OthersStill(classes, entries, holder, currency)
    ensures r.Ok? && !r.value.1 ==> Value(r.value.0) == Available(classes, entries, holder, currency)
  {
    var net := ZERO;
    var nonAvailable: map<string, Decimal> := map[];
    TrackedStart(classes, holder, currency);
    for i := 0 to |entries|
      invariant Confined(classes, entries[..i], holder, currency)
      invariant Tracked(classes, entries[..i], holder, currency, net, nonAvailable)
    {
      var e := entries[i];
      assert forall j :: 0 <= j < i ==> entries[..i][j] == entries[j];
      if !InPair(e, holder, currency) {
        return Ok((ZERO, true));
      }
      assert entries[..i + 1] == entries[..i] + [e];
      if e.holder != holder {
        TrackedSkip(classes, entries[..i], e, holder, currency, net, nonAvailable);
        continue;
      }
      if e.classUid !in classes {
        return Err;
      }
      var c := classes[e.classUid];
      var signed := SignedAmount(c.normal, e.kind, e.amount);
      if signed.Err? {
        return Err;
      }
      TrackedTake(classes, entries[..i], e, holder, currency, net, nonAvailable, signed.value);
      if c.available {
        net := Add(net, signed.value);
      } else {
        nonAvailable := AddTo(nonAvailable, e.classUid, signed.value);
      }
    }
    assert entries[..|entries|] == entries;
    if u :| u in nonAvailable && !IsZero(nonAvailable[u]) {
      return Ok((net, true));
    }
    return Ok((net, false));
  }

  // ---------------------------------------------------------------- Exchange

  datatype Leg = Leg(entries: seq<Entry>, currency: string, want: Decimal)

  ghost predicate LegHolds(classes: Classes, leg: Leg, holder: int) {
    && Confined(classes, leg.entries, holder, leg.currency)
    && OthersStill(classes, leg.entries, holder, leg.currency)
    && Available(classes, leg.entries, holder, leg.currency) == Value(leg.want)
  }

  /** The loop of Exchange's body over the sell and the buy leg. */
  method CheckLegs(legs: seq<Leg>, holder: int, classes: Classes) returns (ok: bool)
    ensures ok <==> forall i :: 0 <= i < |legs| ==> LegHolds(classes, legs[i], holder)
  {
    for i := 0 to |legs|
      invariant forall j :: 0 <= j < i ==> LegHolds(classes, legs[j], holder)
    {
      var moved := HolderLegNet(legs[i].entries, holder, legs[i].currency, classes);
      if moved.Err? {
        UnreadableFails(classes, legs[i], holder);
        return false;
      }
      if moved.value.1 || !Equal(moved.value.0, legs[i].want) {
        return false;
      }
    }
    return true;
  }

  lemma UnreadableFails(classes: Classes, leg: Leg, holder: int)
    requires Unreadable(classes, leg.entries, holder, leg.currency)
    ensures !LegHolds(classes, leg, holder)
  {
  }

  /** A leg that holds moves nothing outside the holder and its mirror in its own currency. */
  lemma LegStaysInside(classes: Classes, leg: Leg, holder: int, d: Dim)
    requires LegHolds(classes, leg, holder)
    requires d.currency != leg.currency || (d.holder != holder && d.holder != Mirror(holder))
    ensures Balance(SidesOf(classes), leg.entries, d) == 0.0
  {
    UntouchedBalance(SidesOf(classes), leg.entries, d);
  }

  /** Only the holder's available classifications have a net change. */
  lemma LegSparesOthers(classes: Classes, leg: Leg, holder: int, u: string)
    requires LegHolds(classes, leg, holder) && u !in Spendable(classes)
    ensures HeldBy(classes, leg.entries, holder, leg.currency)(u) == 0.0
  {
    if u !in classes {
      UntouchedBalance(SidesOf(classes), leg.entries, Dim(holder, leg.currency, u));
    }
  }

  /** In a currency other than its own, a leg changes none of the holder's totals. */
  lemma LegElsewhere(classes: Classes, leg: Leg, holder: int, currency: string)
    requires LegHolds(classes, leg, holder) && currency != leg.currency
    ensures Available(classes, leg.entries, holder, currency) == 0.0
  {
    forall u | u in Spendable(classes) ensures HeldBy(classes, leg.entries, holder, currency)(u) == 0.0 {
      LegStaysInside(classes, leg, holder, Dim(holder, currency, u));
    }
    SumOverZero(HeldBy(classes, leg.entries, holder, currency), Spendable(classes));
  }

  /** An exchange whose legs hold, posted on any ledger: the holder's available total falls by exactly
      the quantity sold and rises by exactly the amount bought, every other classification of the
      holder keeps its balance, and nothing outside the pair in the two currencies moves. */
  lemma ExchangeMovesExactly(classes: Classes, ledger: seq<Entry>, sell: Leg, buy: Leg, holder: int, quantity: Decimal,
                             target: Decimal)
    requires sell.currency != buy.currency && sell.want == Neg(quantity) && buy.want == target
    requires LegHolds(classes, sell, holder) && LegHolds(classes, buy, holder)
    ensures var after := ledger + sell.entries + buy.entries;
            && Available(classes, after, holder, sell.currency)
               == Available(classes, ledger, holder, sell.currency) - Value(quantity)
            && Available(classes, after, holder, buy.currency)
               == Available(classes, ledger, holder, buy.currency) + Value(target)
            && (forall d: Dim :: Outside(classes, d, holder, sell.currency, buy.currency) ==>
                  Balance(SidesOf(classes), after, d) == Balance(SidesOf(classes), ledger, d))
  {
    var mid := ledger + sell.entries;
    AvailableOfConcat(classes, ledger, sell.entries, holder, sell.currency);
    AvailableOfConcat(classes, mid, buy.entries, holder, sell.currency);
    AvailableOfConcat(classes, ledger, sell.entries, holder, buy.currency);
    AvailableOfConcat(classes, mid, buy.entries, holder, buy.currency);
    LegElsewhere(classes, buy, holder, sell.currency);
    LegElsewhere(classes, sell, holder, buy.currency);
    forall d: Dim | Outside(classes, d, holder, sell.currency, buy.currency)
      ensures Balance(SidesOf(classes), mid + buy.entries, d) == Balance(SidesOf(classes), ledger, d)
    {
      BalanceOfConcat(SidesOf(classes), ledger, sell.entries, d);
      BalanceOfConcat(SidesOf(classes), mid, buy.entries, d);
      StaysPut(classes, sell, holder, d);
      StaysPut(classes, buy, holder, d);
    }
  }

  /** A dimension an exchange of this holder between two currencies must not change: one of the holder
      that is not available, or one outside the holder, its mirror and the two currencies. */
  predicate Outside(classes: Classes, d: Dim, holder: int, source: string, target: string) {
    if d.holder == holder && d.currency in {source, target} then !(d.classUid in classes && classes[d.classUid].available)
    else d.currency !in {source, target} || d.holder != Mirror(holder)
  }

  lemma StaysPut(classes: Classes, leg: Leg, holder: int, d: Dim)
    requires LegHolds(classes, leg, holder)
    requires Outside(classes, d, holder, leg.currency, leg.currency) || d.currency != leg.currency
    ensures Balance(SidesOf(classes), leg.entries, d) == 0.0
  {
    if d.holder == holder && d.currency == leg.currency {
      LegSparesOthers(classes, leg, holder, d.classUid);
      assert d == Dim(holder, leg.currency, d.classUid);
    } else {
      LegStaysInside(classes, leg, holder, d);
    }
  }

  // ---------------------------------------------------------------- Capture

  ghost predicate OnlyAvailable(classes: Classes, entries: seq<Entry>, holder: int) {
    forall i :: 0 <= i < |entries| && entries[i].holder == holder ==>
      entries[i].classUid in classes && classes[entries[i].classUid].available
  }

  ghost predicate CaptureHolds(classes: Classes, entries: seq<Entry>, holder: int, currency: string, amount: Decimal) {
    && Confined(classes, entries, holder, currency) && OnlyAvailable(classes, entries, holder)
    && Available(classes, entries, holder, currency) == -Value(amount)
  }

  method ValidateCaptureEntries(entries: seq<Entry>, holder: int, currency: string, amount: Decimal, classes: Classes)
    returns (ok: bool)
    ensures ok <==> CaptureHolds(classes, entries, holder, currency, amount)
  {
    var net := ZERO;
    TrackedStart(classes, holder, currency);
    for i := 0 to |entries|
      invariant Confined(classes, entries[..i], holder, currency) && OnlyAvailable(classes, entries[..i], holder)
      invariant Tracked(classes, entries[..i], holder, currency, net, map[])
    {
      var e := entries[i];
      if !InPair(e, holder, currency) {
        return false;
      }
      assert entries[..i + 1] == entries[..i] + [e];
      if e.holder != holder {
        TrackedSkip(classes, entries[..i], e, holder, currency, net, map[]);
        continue;
      }
      if e.classUid !in classes || !classes[e.classUid].available {
        return false;
      }
      var signed := SignedAmount(classes[e.classUid].normal, e.kind, e.amount);
      if signed.Err? {
        return false;
      }
      TrackedTake(classes, entries[..i], e, holder, currency, net, map[], signed.value);
      net := Add(net, signed.value);
    }
    assert entries[..|entries|] == entries;
    return Equal(net, Neg(amount));
  }

  /** Capture accepts exactly the legs of net -amount that touch only available classifications. */
  lemma CaptureIsAvailableOnlyLeg(classes: Classes, entries: seq<Entry>, holder: int, currency: string, amount: Decimal)
    ensures CaptureHolds(classes, entries, holder, currency, amount)
            <==> LegHolds(classes, Leg(entries, currency, Neg(amount)), holder) && OnlyAvailable(classes, entries, holder)
  {
    if Confined(classes, entries, holder, currency) && OnlyAvailable(classes, entries, holder) {
      forall u | u in classes && !classes[u].available ensures HeldBy(classes, entries, holder, currency)(u) == 0.0 {
        UntouchedBalance(SidesOf(classes), entries, Dim(holder, currency, u));
      }
    }
  }
}
