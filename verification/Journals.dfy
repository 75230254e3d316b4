/** Journals: the sign rule, balanced posting, and the accounting equation over every run. */
module Journals {
  import opened Options
  import opened Decimals
  import opened Amounts
  import opened Freeform
  import opened Sequences
  import JournalDigest

  /** An entry type or a normal side; stored text may be neither. */
  datatype Side = Debit | Credit | Other(text: string)

  predicate IsValid(s: Side) {
    !s.Other?
  }

  datatype Entry = Entry(holder: int, currency: string, classUid: string, kind: Side, amount: Decimal)

  // ---------------------------------------------------------------- the sign rule

  function Sign(normal: Side, kind: Side): (r: Result<int>) {
    if !IsValid(normal) then Err
    else if !IsValid(kind) then Err
    else if kind == normal then Ok(1) else Ok(-1)
  }

  /** What an entry of value v adds to a balance kept on the normal side. */
  function SignedValue(normal: Side, kind: Side, v: real): real {
    if kind == normal then v else -v
  }

  function SignedAmount(normal: Side, kind: Side, amount: Decimal): (r: Result<Decimal>)
    ensures r.Ok? <==> normal in {Debit, Credit} && kind in {Debit, Credit}
    ensures r.Ok? && kind == normal ==> Value(r.value) == Value(amount)
    ensures r.Ok? && kind != normal ==> Value(r.value) == -Value(amount)
    ensures r.Ok? ==> Value(r.value) == SignedValue(normal, kind, Value(amount))
  {
    match Sign(normal, kind)
    case Err => Err
    case Ok(sign) => if sign < 0 then Ok(Neg(amount)) else Ok(amount)
  }

  function Delta(normal: Side, debitSum: Decimal, creditSum: Decimal): (r: Result<Decimal>)
    ensures r.Ok? <==> Rescalable(debitSum) && Rescalable(creditSum) && normal in {Debit, Credit}
    ensures r.Ok? && normal == Debit ==> Value(r.value) == Value(debitSum) - Value(creditSum)
    ensures r.Ok? && normal == Credit ==> Value(r.value) == Value(creditSum) - Value(debitSum)
  {
    if !Rescalable(debitSum) then Err
    else if !Rescalable(creditSum) then Err
    else
      match SignedAmount(normal, Debit, debitSum)
      case Err => Err
      case Ok(debitPart) =>
        match SignedAmount(normal, Credit, creditSum)
        case Err => Err
        case Ok(creditPart) => Ok(Add(debitPart, creditPart))
  }

  // ---------------------------------------------------------------- totals

  /** The sum of the amounts that satisfy a test. */
  function Total(entries: seq<Entry>, keep: Entry -> bool): real {
    if |entries| == 0 then 0.0
    else
      var e := entries[|entries| - 1];
      Total(entries[..|entries| - 1], keep) + if keep(e) then Value(e.amount) else 0.0
  }

  lemma TotalAppend(entries: seq<Entry>, e: Entry, keep: Entry -> bool)
    ensures Total(entries + [e], keep) == Total(entries, keep) + if keep(e) then Value(e.amount) else 0.0
  {
    assert (entries + [e])[..|entries|] == entries;
  }

  function OnSide(kind: Side): Entry -> bool {
    (e: Entry) => e.kind == kind
  }

  function InCurrency(currency: string, kind: Side): Entry -> bool {
    (e: Entry) => e.currency == currency && e.kind == kind
  }

  method Totals(entries: seq<Entry>) returns (debit: Decimal, credit: Decimal)
    ensures Value(debit) == Total(entries, OnSide(Debit))
    ensures Value(credit) == Total(entries, OnSide(Credit))
  {
    debit, credit := ZERO, ZERO;
    assert Value(ZERO) == 0.0;
    for i := 0 to |entries|
      invariant Value(debit) == Total(entries[..i], OnSide(Debit))
      invariant Value(credit) == Total(entries[..i], OnSide(Credit))
    {
      var e := entries[i];
      assert entries[..i + 1] == entries[..i] + [e];
      TotalAppend(entries[..i], e, OnSide(Debit));
      TotalAppend(entries[..i], e, OnSide(Credit));
      match e.kind {
        case Debit => debit := Add(debit, e.amount);
        case Credit => credit := Add(credit, e.amount);
        case Other(_) =>
      }
    }
    assert entries[..|entries|] == entries;
  }

  datatype CurrencyTotals = CurrencyTotals(debit: Decimal, credit: Decimal)

  ghost predicate TotalsOf(totals: map<string, CurrencyTotals>, entries: seq<Entry>) {
    && (forall c :: c in totals <==> exists i :: 0 <= i < |entries| && entries[i].currency == c)
    && (forall c :: c in totals ==> Value(totals[c].debit) == Total(entries, InCurrency(c, Debit)))
    && (forall c :: c in totals ==> Value(totals[c].credit) == Total(entries, InCurrency(c, Credit)))
  }

  lemma {:induction false} AbsentCurrency(entries: seq<Entry>, c: string, kind: Side)
    requires forall i :: 0 <= i < |entries| ==> entries[i].currency != c
    ensures Total(entries, InCurrency(c, kind)) == 0.0
  {
    if |entries| > 0 { AbsentCurrency(entries[..|entries| - 1], c, kind); }
  }

  lemma TotalsStep(totals: map<string, CurrencyTotals>, entries: seq<Entry>, e: Entry, totals': map<string, CurrencyTotals>)
    requires TotalsOf(totals, entries)
    requires var t := if e.currency in totals then totals[e.currency] else CurrencyTotals(ZERO, ZERO);
             totals' == totals[e.currency := match e.kind
                                             case Debit => t.(debit := Add(t.debit, e.amount))
                                             case Credit => t.(credit := Add(t.credit, e.amount))
                                             case Other(_) => t]
    ensures TotalsOf(totals', entries + [e])
  {
    var es := entries + [e];
    assert Value(ZERO) == 0.0;
    forall c | c in totals' ensures Value(totals'[c].debit) == Total(es, InCurrency(c, Debit))
                                 && Value(totals'[c].credit) == Total(es, InCurrency(c, Credit))
    {
      TotalAppend(entries, e, InCurrency(c, Debit));
      TotalAppend(entries, e, InCurrency(c, Credit));
      if c !in totals {
        AbsentCurrency(entries, c, Debit);
        AbsentCurrency(entries, c, Credit);
      }
    }
    forall c ensures c in totals' <==> exists i :: 0 <= i < |es| && es[i].currency == c {
      if c == e.currency {
        assert es[|entries|].currency == c;
      } else if c in totals {
        var i :| 0 <= i < |entries| && entries[i].currency == c;
        assert es[i].currency == c;
      }
    }
  }

  method TotalsByCurrency(entries: seq<Entry>) returns (totals: map<string, CurrencyTotals>)
    ensures TotalsOf(totals, entries)
  {
    totals := map[];
    for i := 0 to |entries|
      invariant TotalsOf(totals, entries[..i])
    {
      var e := entries[i];
      assert entries[..i + 1] == entries[..i] + [e];
      var current := if e.currency in totals then totals[e.currency] else CurrencyTotals(ZERO, ZERO);
      match e.kind {
        case Debit => current := current.(debit := Add(current.debit, e.amount));
        case Credit => current := current.(credit := Add(current.credit, e.amount));
        case Other(_) =>
      }
      ghost var before := totals;
      totals := totals[e.currency := current];
      TotalsStep(before, entries[..i], e, totals);
    }
    assert entries[..|entries|] == entries;
  }

  // ---------------------------------------------------------------- validation

  predicate ValidEntry(e: Entry) {
    && Storable(e.amount) && e.holder != 0 && IsValid(e.kind) && e.currency != "" && e.classUid != "" && IsPositive(e.amount)
  }

  /** In every currency, debits and credits add up to the same amount. */
  ghost predicate Balanced(entries: seq<Entry>) {
    forall c :: Total(entries, InCurrency(c, Debit)) == Total(entries, InCurrency(c, Credit))
  }

  const FUTURE_TOLERANCE := 300_000_000_000

  /** A posting up to its entries. `quotesOk` is the verdict on conversion quotes in the metadata, `now`
      the clock, both in the source's hands; times are nanoseconds. */
  datatype Header = Header(key: string, source: string, metadata: map<string, string>, quotesOk: bool,
                           effectiveAt: Option<int>, now: int)

  predicate TimelyHeader(h: Header) {
    h.effectiveAt.Some? ==> h.effectiveAt.value <= h.now + FUTURE_TOLERANCE
  }

  ghost predicate ValidJournal(h: Header, entries: seq<Entry>) {
    && h.key != "" && FreeformOk(h.source, h.metadata) && h.quotesOk && |entries| > 0
    && (h.effectiveAt.Some? ==> h.effectiveAt.value - h.now <= 5 * 60 * 1_000_000_000)
    && (forall i :: 0 <= i < |entries| ==> ValidEntry(entries[i]))
    && Balanced(entries)
  }

  lemma BalancedFromTotals(totals: map<string, CurrencyTotals>, entries: seq<Entry>)
    requires TotalsOf(totals, entries)
    ensures Balanced(entries) <==> forall c :: c in totals ==> Value(totals[c].debit) == Value(totals[c].credit)
  {
    forall c | c !in totals ensures Total(entries, InCurrency(c, Debit)) == Total(entries, InCurrency(c, Credit)) {
      AbsentCurrency(entries, c, Debit);
      AbsentCurrency(entries, c, Credit);
    }
  }

  method Validate(h: Header, entries: seq<Entry>) returns (ok: bool)
    ensures ok <==> ValidJournal(h, entries)
  {
    if h.key == "" {
      return false;
    }
    var fieldsOk := ValidateFreeformFields(h.source, h.metadata);
    if !fieldsOk {
      return false;
    }
    if !h.quotesOk {
      return false;
    }
    if |entries| == 0 {
      return false;
    }
    if !TimelyHeader(h) {
      return false;
    }
    for i := 0 to |entries|
      invariant forall j :: 0 <= j < i ==> ValidEntry(entries[j])
    {
      if !ValidEntry(entries[i]) {
        return false;
      }
    }
    var totals := TotalsByCurrency(entries);
    BalancedFromTotals(totals, entries);
    if exists c | c in totals :: !Equal(totals[c].debit, totals[c].credit) {
      return false;
    }
    return true;
  }

  /** An entry passes exactly with an amount above zero and below 10^12, spelled with at most 18 fractional
      digits, on a known side, and with holder, currency and classification given. */
  lemma ValidEntryExact(e: Entry)
    ensures ValidEntry(e)
       <==> && 0.0 < Value(e.amount) < 1_000_000_000_000.0 && -18 <= e.amount.exp <= 12
            && e.kind in {Debit, Credit} && e.holder != 0 && e.currency != "" && e.classUid != ""
  {
    MagnitudeExact(e.amount);
    if e.amount.coeff == 0 { assert IsZero(e.amount); }
  }

  /** Digesting a posting whose entries passed validation never fails. */
  lemma ValidJournalDigests(h: Header, entries: seq<Entry>, input: JournalDigest.JournalInput)
    requires ValidJournal(h, entries)
    requires |input.entries| == |entries| && forall i :: 0 <= i < |entries| ==> input.entries[i].amount == entries[i].amount
    ensures forall e :: e in input.entries ==> JournalDigest.Encodable(e)
  {
    forall e | e in input.entries ensures JournalDigest.Encodable(e) {
      var i :| 0 <= i < |entries| && input.entries[i] == e;
      StorableEncodes(entries[i].amount);
    }
  }

  // ---------------------------------------------------------------- balances

  /** A balance dimension. */
  datatype Dim = Dim(holder: int, currency: string, classUid: string)

  function DimOf(e: Entry): Dim {
    Dim(e.holder, e.currency, e.classUid)
  }

  /** Normal sides by classification; a classification without a row has no valid side. */
  type Sides = map<string, Side>

  function SideOf(sides: Sides, classUid: string): Side {
    if classUid in sides then sides[classUid] else Other("")
  }

  /** The balance of a dimension recomputed from entry 0. */
  function Balance(sides: Sides, entries: seq<Entry>, d: Dim): real {
    if |entries| == 0 then 0.0
    else
      var e := entries[|entries| - 1];
      Balance(sides, entries[..|entries| - 1], d)
      + if DimOf(e) == d then SignedValue(SideOf(sides, e.classUid), e.kind, Value(e.amount)) else 0.0
  }

  lemma {:induction false} BalanceOfConcat(sides: Sides, a: seq<Entry>, b: seq<Entry>, d: Dim)
    ensures Balance(sides, a + b, d) == Balance(sides, a, d) + Balance(sides, b, d)
  {
    if |b| == 0 {
      assert a + b == a;
    } else {
      assert (a + b)[..|a + b| - 1] == a + b[..|b| - 1];
      BalanceOfConcat(sides, a, b[..|b| - 1], d);
    }
  }

  function OfDim(d: Dim, kind: Side): Entry -> bool {
    (e: Entry) => DimOf(e) == d && e.kind == kind
  }

  /** Delta over bucketed sums is the entry-by-entry sum: the sign rule is linear. */
  lemma {:induction false} DeltaIsEntrySum(sides: Sides, entries: seq<Entry>, d: Dim, debitSum: Decimal, creditSum: Decimal)
    requires IsValid(SideOf(sides, d.classUid))
    requires forall i :: 0 <= i < |entries| ==> IsValid(entries[i].kind)
    requires Value(debitSum) == Total(entries, OfDim(d, Debit)) && Value(creditSum) == Total(entries, OfDim(d, Credit))
    ensures Delta(SideOf(sides, d.classUid), debitSum, creditSum).Ok? ==>
              Value(Delta(SideOf(sides, d.classUid), debitSum, creditSum).value) == Balance(sides, entries, d)
  {
    BucketsAddUp(sides, entries, d);
  }

  lemma {:induction false} BucketsAddUp(sides: Sides, entries: seq<Entry>, d: Dim)
    requires forall i :: 0 <= i < |entries| ==> IsValid(entries[i].kind)
    ensures var n := SideOf(sides, d.classUid);
            SignedValue(n, Debit, Total(entries, OfDim(d, Debit))) + SignedValue(n, Credit, Total(entries, OfDim(d, Credit)))
            == Balance(sides, entries, d)
  {
    if |entries| > 0 { BucketsAddUp(sides, entries[..|entries| - 1], d); }
  }

  /** A debit-normal balance is the dimension's debits less its credits, a credit-normal one the reverse. */
  lemma {:induction false} BalanceBySides(sides: Sides, entries: seq<Entry>, d: Dim)
    requires forall i :: 0 <= i < |entries| ==> IsValid(entries[i].kind)
    ensures d.classUid in sides && sides[d.classUid] == Debit ==>
              Balance(sides, entries, d) == Total(entries, OfDim(d, Debit)) - Total(entries, OfDim(d, Credit))
    ensures d.classUid in sides && sides[d.classUid] == Credit ==>
              Balance(sides, entries, d) == Total(entries, OfDim(d, Credit)) - Total(entries, OfDim(d, Debit))
  {
    BucketsAddUp(sides, entries, d);
  }

  // ---------------------------------------------------------------- the accounting equation

  /** Debit-normal balances count for, credit-normal ones against. */
  ghost function Weighed(sides: Sides, entries: seq<Entry>): Dim -> real {
    (d: Dim) => SignedValue(SideOf(sides, d.classUid), Debit, Balance(sides, entries, d))
  }

  lemma {:induction false} WeighedSum(sides: Sides, entries: seq<Entry>, currency: string, dims: set<Dim>)
    requires forall d :: d in dims ==> d.currency == currency
    requires forall i :: 0 <= i < |entries| && entries[i].currency == currency ==> DimOf(entries[i]) in dims
    requires forall i :: 0 <= i < |entries| ==> IsValid(entries[i].kind)
    requires forall i :: 0 <= i < |entries| ==> IsValid(SideOf(sides, entries[i].classUid))
    ensures SumOver(Weighed(sides, entries), dims)
         == Total(entries, InCurrency(currency, Debit)) - Total(entries, InCurrency(currency, Credit))
  {
    if |entries| == 0 {
      SumOverZero(Weighed(sides, entries), dims);
    } else {
      var n := |entries| - 1;
      var e := entries[n];
      WeighedSum(sides, entries[..n], currency, dims);
      var f, g := Weighed(sides, entries[..n]), Weighed(sides, entries);
      if e.currency == currency {
        SumOverBump(f, g, dims, DimOf(e), if e.kind == Debit then Value(e.amount) else -Value(e.amount));
      } else {
        SumOverEqual(f, g, dims);
      }
    }
  }

  /** Everything posted by a list of journals, in order. */
  function Posted(journals: seq<seq<Entry>>): seq<Entry> {
    if |journals| == 0 then [] else Posted(journals[..|journals| - 1]) + journals[|journals| - 1]
  }

  lemma {:induction false} TotalOfConcat(a: seq<Entry>, b: seq<Entry>, keep: Entry -> bool)
    ensures Total(a + b, keep) == Total(a, keep) + Total(b, keep)
  {
    if |b| == 0 {
      assert a + b == a;
    } else {
      assert (a + b)[..|a + b| - 1] == a + b[..|b| - 1];
      TotalOfConcat(a, b[..|b| - 1], keep);
    }
  }

  ghost predicate AllAccepted(journals: seq<seq<Entry>>) {
    forall k :: 0 <= k < |journals| ==>
      Balanced(journals[k]) && forall i :: 0 <= i < |journals[k]| ==> ValidEntry(journals[k][i])
  }

  lemma {:induction false} PostedBalanced(journals: seq<seq<Entry>>)
    requires AllAccepted(journals)
    ensures Balanced(Posted(journals))
    ensures forall i :: 0 <= i < |Posted(journals)| ==> ValidEntry(Posted(journals)[i])
  {
    if |journals| > 0 {
      var before, last := Posted(journals[..|journals| - 1]), journals[|journals| - 1];
      PostedBalanced(journals[..|journals| - 1]);
      forall c ensures Total(before + last, InCurrency(c, Debit)) == Total(before + last, InCurrency(c, Credit)) {
        TotalOfConcat(before, last, InCurrency(c, Debit));
        TotalOfConcat(before, last, InCurrency(c, Credit));
      }
    }
  }

  /** After any run of accepted journals, in every currency the debit-normal balances and the
      credit-normal balances of all dimensions ever touched add up to the same. */
  lemma AccountingEquation(sides: Sides, journals: seq<seq<Entry>>, currency: string, dims: set<Dim>)
    requires AllAccepted(journals)
    requires forall i :: 0 <= i < |Posted(journals)| ==> IsValid(SideOf(sides, Posted(journals)[i].classUid))
    requires dims == set i | 0 <= i < |Posted(journals)| && Posted(journals)[i].currency == currency :: DimOf(Posted(journals)[i])
    ensures SumOver(Weighed(sides, Posted(journals)), dims) == 0.0
  {
    PostedBalanced(journals);
    WeighedSum(sides, Posted(journals), currency, dims);
  }
}
