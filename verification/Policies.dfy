/** Account policies: freeze, close and floor enforcement on every journal, with its two nettings. */
module Policies {
  import opened Options
  import opened Decimals
  import opened Sequences
  import opened Journals

  /** A balance dimension by internal ids; in a policy row, 0 stands for any. */
  datatype Slot = Slot(holder: int, currencyId: int, classId: int)

  datatype Status = Active | Frozen | Closed

  datatype Policy = Policy(id: int, status: Status, minBalance: real, enforceMinBalance: bool)

  datatype Line = Line(slot: Slot, normal: Side, kind: Side, amount: Decimal)

  /** account_policies, unique per slot. */
  type Policies = map<Slot, Policy>

  /** GetEffectiveAccountPolicy: the most specific row, a currency wildcard before a class one. */
  function Effective(ps: Policies, d: Slot): Option<Policy> {
    if d in ps then Some(ps[d])
    else if d.(classId := 0) in ps then Some(ps[d.(classId := 0)])
    else if d.(currencyId := 0) in ps then Some(ps[d.(currencyId := 0)])
    else if d.(currencyId := 0, classId := 0) in ps then Some(ps[d.(currencyId := 0, classId := 0)])
    else None
  }

  /** The rows the query selects for a slot, and the order it sorts them by. */
  predicate Matches(row: Slot, d: Slot) {
    row.holder == d.holder && row.currencyId in {d.currencyId, 0} && row.classId in {d.classId, 0}
  }

  function Specificity(row: Slot): nat {
    (if row.currencyId != 0 then 1 else 0) + (if row.classId != 0 then 1 else 0)
  }

  predicate SortsBefore(a: Slot, b: Slot) {
    || Specificity(a) > Specificity(b)
    || (Specificity(a) == Specificity(b) && a.currencyId > b.currencyId)
    || (Specificity(a) == Specificity(b) && a.currencyId == b.currencyId && a.classId > b.classId)
  }

  /** The effective policy is the first matching row in the query's order, if any row matches. */
  lemma EffectiveIsFirst(ps: Policies, d: Slot)
    requires d.currencyId > 0 && d.classId > 0
    ensures Effective(ps, d).None? <==> forall row :: row in ps ==> !Matches(row, d)
    ensures Effective(ps, d).Some? ==>
              exists row :: row in ps && Matches(row, d) && ps[row] == Effective(ps, d).value
                            && forall other :: other in ps && Matches(other, d) && other != row ==> SortsBefore(row, other)
  {
    if d in ps {
    } else if d.(classId := 0) in ps {
      assert Matches(d.(classId := 0), d);
    } else if d.(currencyId := 0) in ps {
      assert Matches(d.(currencyId := 0), d);
    } else if d.(currencyId := 0, classId := 0) in ps {
      assert Matches(d.(currencyId := 0, classId := 0), d);
    }
  }

  // ---------------------------------------------------------------- nettings

  function Signed(l: Line): real {
    SignedValue(l.normal, l.kind, Value(l.amount))
  }

  function Kept(keep: Slot -> bool): Line -> real {
    (l: Line) => if keep(l.slot) then Signed(l) else 0.0
  }

  /** The net of the lines whose slot is kept. */
  function Net(lines: seq<Line>, keep: Slot -> bool): real {
    Sum(Map(Kept(keep), lines))
  }

  lemma NetAppend(lines: seq<Line>, l: Line, keep: Slot -> bool)
    ensures Net(lines + [l], keep) == Net(lines, keep) + if keep(l.slot) then Signed(l) else 0.0
  {
    assert Map(Kept(keep), lines + [l]) == Map(Kept(keep), lines) + [Kept(keep)(l)];
    SumAppend(Map(Kept(keep), lines), Kept(keep)(l));
  }

  lemma NetConcat(a: seq<Line>, b: seq<Line>, keep: Slot -> bool)
    ensures Net(a + b, keep) == Net(a, keep) + Net(b, keep)
  {
    assert Map(Kept(keep), a + b) == Map(Kept(keep), a) + Map(Kept(keep), b);
    SumConcat(Map(Kept(keep), a), Map(Kept(keep), b));
  }

  lemma NetPermutation(a: seq<Line>, b: seq<Line>, keep: Slot -> bool)
    requires multiset(a) == multiset(b)
    ensures Net(a, keep) == Net(b, keep)
  {
    MapPermutation(Kept(keep), a, b);
    SumPermutation(Map(Kept(keep), a), Map(Kept(keep), b));
  }

  lemma {:induction false} NetOfNone(lines: seq<Line>, keep: Slot -> bool)
    requires forall i :: 0 <= i < |lines| ==> !keep(lines[i].slot)
    ensures Net(lines, keep) == 0.0
  {
    if |lines| > 0 {
      var n := |lines| - 1;
      NetOfNone(lines[..n], keep);
      NetAppend(lines[..n], lines[n], keep);
      assert lines == lines[..n] + [lines[n]];
    }
  }

  function At(d: Slot): Slot -> bool {
    (x: Slot) => x == d
  }

  /** The slots of one currency that a given frozen policy row governs. */
  function Governed(ps: Policies, id: int, currencyId: int): Slot -> bool {
    (x: Slot) => x.currencyId == currencyId && IsFrozen(ps, x) && Effective(ps, x).value.id == id
  }

  // ---------------------------------------------------------------- acceptance

  predicate KnownSides(l: Line) {
    IsValid(l.normal) && IsValid(l.kind)
  }

  predicate TouchesClosed(ps: Policies, l: Line) {
    Effective(ps, l.slot).Some? && Effective(ps, l.slot).value.status == Closed
  }

  /** The line's frozen row loses money in the line's currency over the whole journal. */
  ghost predicate DrainsFrozen(ps: Policies, lines: seq<Line>, l: Line) {
    && IsFrozen(ps, l.slot)
    && Net(lines, Governed(ps, Effective(ps, l.slot).value.id, l.slot.currencyId)) < 0.0
  }

  /** The line's slot would end below its floor. */
  ghost predicate BreaksFloor(ps: Policies, balance: Slot -> real, lines: seq<Line>, l: Line) {
    && Effective(ps, l.slot).Some? && Effective(ps, l.slot).value.enforceMinBalance
    && balance(l.slot) + Net(lines, At(l.slot)) < Effective(ps, l.slot).value.minBalance
  }

  ghost predicate Accepts(ps: Policies, balance: Slot -> real, lines: seq<Line>) {
    forall l :: l in lines ==>
      && KnownSides(l) && !TouchesClosed(ps, l) && !DrainsFrozen(ps, lines, l) && !BreaksFloor(ps, balance, lines, l)
  }

  /** Acceptance does not depend on the order of the lines. */
  lemma AcceptanceIgnoresOrder(ps: Policies, balance: Slot -> real, a: seq<Line>, b: seq<Line>)
    requires multiset(a) == multiset(b)
    ensures Accepts(ps, balance, a) <==> Accepts(ps, balance, b)
  {
    if Accepts(ps, balance, a) { AcceptedInOtherOrder(ps, balance, a, b); }
    if Accepts(ps, balance, b) { AcceptedInOtherOrder(ps, balance, b, a); }
  }

  lemma AcceptedInOtherOrder(ps: Policies, balance: Slot -> real, a: seq<Line>, b: seq<Line>)
    requires multiset(a) == multiset(b) && Accepts(ps, balance, a)
    ensures Accepts(ps, balance, b)
  {
    forall l | l in b
      ensures KnownSides(l) && !TouchesClosed(ps, l) && !DrainsFrozen(ps, b, l) && !BreaksFloor(ps, balance, b, l)
    {
      assert l in multiset(b);
      assert l in a;
      NetPermutation(a, b, At(l.slot));
      if Effective(ps, l.slot).Some? {
        NetPermutation(a, b, Governed(ps, Effective(ps, l.slot).value.id, l.slot.currencyId));
      }
    }
  }

  // ---------------------------------------------------------------- as computed

  datatype Verdict = Accepted | UnknownSide | AccountClosed | AccountFrozen | InsufficientBalance

  /** What the first loop has gathered from a prefix of the lines. */
  ghost predicate Gathered(ps: Policies, lines: seq<Line>, dims: map<Slot, Decimal>, policies: map<(int, int), Decimal>) {
    && (forall l :: l in lines ==> Covered(ps, l, dims, policies))
    && (forall d :: d in dims ==> DimNetted(lines, d, dims[d]))
    && (forall k :: k in policies ==> PolicyNetted(ps, lines, k, policies[k]))
  }

  ghost predicate Covered(ps: Policies, l: Line, dims: map<Slot, Decimal>, policies: map<(int, int), Decimal>) {
    && KnownSides(l) && !TouchesClosed(ps, l) && l.slot in dims
    && (IsFrozen(ps, l.slot) ==> PolicyKey(ps, l) in policies)
  }

  ghost predicate DimNetted(lines: seq<Line>, d: Slot, v: Decimal) {
    Value(v) == Net(lines, At(d)) && exists l :: l in lines && l.slot == d
  }

  ghost predicate PolicyNetted(ps: Policies, lines: seq<Line>, k: (int, int), v: Decimal) {
    Value(v) == Net(lines, Governed(ps, k.0, k.1)) && exists l :: l in lines && Governed(ps, k.0, k.1)(l.slot)
  }

  function PolicyKey(ps: Policies, l: Line): (int, int)
    requires IsFrozen(ps, l.slot)
  {
    (Effective(ps, l.slot).value.id, l.slot.currencyId)
  }

  predicate IsFrozen(ps: Policies, d: Slot) {
    Effective(ps, d).Some? && Effective(ps, d).value.status == Frozen
  }

  function WithLine(ps: Policies, l: Line, v: Decimal, policies: map<(int, int), Decimal>): map<(int, int), Decimal> {
    if IsFrozen(ps, l.slot) then Bump(policies, PolicyKey(ps, l), v) else policies
  }

  function Bump<K>(m: map<K, Decimal>, k: K, v: Decimal): map<K, Decimal> {
    m[k := Add(if k in m then m[k] else ZERO, v)]
  }

  lemma GatherDim(lines: seq<Line>, l: Line, v: Decimal, dims: map<Slot, Decimal>, d: Slot)
    requires Value(v) == Signed(l)
    requires d in dims ==> DimNetted(lines, d, dims[d])
    requires d !in dims ==> forall i :: 0 <= i < |lines| ==> lines[i].slot != d
    requires d in Bump(dims, l.slot, v)
    ensures DimNetted(lines + [l], d, Bump(dims, l.slot, v)[d])
  {
    assert Value(ZERO) == 0.0;
    NetAppend(lines, l, At(d));
    if d == l.slot {
      assert l in lines + [l];
      if d !in dims { NetOfNone(lines, At(d)); }
    } else {
      var x :| x in lines && x.slot == d;
      assert x in lines + [l];
    }
  }

  lemma GatherPolicy(ps: Policies, lines: seq<Line>, l: Line, v: Decimal, policies: map<(int, int), Decimal>, k: (int, int))
    requires Value(v) == Signed(l)
    requires k in policies ==> PolicyNetted(ps, lines, k, policies[k])
    requires k !in policies ==> forall i :: 0 <= i < |lines| ==> !Governed(ps, k.0, k.1)(lines[i].slot)
    requires k in WithLine(ps, l, v, policies)
    ensures PolicyNetted(ps, lines + [l], k, WithLine(ps, l, v, policies)[k])
  {
    assert Value(ZERO) == 0.0;
    var keep := Governed(ps, k.0, k.1);
    NetAppend(lines, l, keep);
    if keep(l.slot) {
      assert l in lines + [l];
      if k !in policies { NetOfNone(lines, keep); }
    } else {
      var x :| x in lines && keep(x.slot);
      assert x in lines + [l];
    }
  }

  lemma GatherLine(ps: Policies, lines: seq<Line>, l: Line, v: Decimal, dims: map<Slot, Decimal>,
                   policies: map<(int, int), Decimal>)
    requires Gathered(ps, lines, dims, policies) && Value(v) == Signed(l) && KnownSides(l) && !TouchesClosed(ps, l)
    ensures Gathered(ps, lines + [l], Bump(dims, l.slot, v), WithLine(ps, l, v, policies))
  {
    var dims', policies' := Bump(dims, l.slot, v), WithLine(ps, l, v, policies);
    forall x | x in lines + [l] ensures Covered(ps, x, dims', policies') {
      if x in lines { assert Covered(ps, x, dims, policies); }
    }
    forall d | d in dims' ensures DimNetted(lines + [l], d, dims'[d]) {
      if d !in dims { NoLineAt(ps, lines, dims, policies, d); }
      GatherDim(lines, l, v, dims, d);
    }
    forall k | k in policies' ensures PolicyNetted(ps, lines + [l], k, policies'[k]) {
      if k !in policies { NoLineUnder(ps, lines, dims, policies, k); }
      GatherPolicy(ps, lines, l, v, policies, k);
    }
  }

  lemma NoLineAt(ps: Policies, lines: seq<Line>, dims: map<Slot, Decimal>, policies: map<(int, int), Decimal>, d: Slot)
    requires Gathered(ps, lines, dims, policies) && d !in dims
    ensures forall i :: 0 <= i < |lines| ==> lines[i].slot != d
  {
    forall i | 0 <= i < |lines| ensures lines[i].slot != d {
      assert Covered(ps, lines[i], dims, policies);
    }
  }

  lemma NoLineUnder(ps: Policies, lines: seq<Line>, dims: map<Slot, Decimal>, policies: map<(int, int), Decimal>, k: (int, int))
    requires Gathered(ps, lines, dims, policies) && k !in policies
    ensures forall i :: 0 <= i < |lines| ==> !Governed(ps, k.0, k.1)(lines[i].slot)
  {
    forall i | 0 <= i < |lines| ensures !Governed(ps, k.0, k.1)(lines[i].slot) {
      assert Covered(ps, lines[i], dims, policies);
    }
  }

  /** The first loop: stops at the first unknown side or closed slot, and otherwise nets everything. */
  method GatherDeltas(ps: Policies, lines: seq<Line>)
    returns (stop: Option<Verdict>, dimensionDelta: map<Slot, Decimal>, policyDelta: map<(int, int), Decimal>)
    ensures stop.None? ==> Gathered(ps, lines, dimensionDelta, policyDelta)
    ensures stop.Some? ==>
              || (stop.value == UnknownSide && exists l :: l in lines && !KnownSides(l))
              || (stop.value == AccountClosed && exists l :: l in lines && TouchesClosed(ps, l))
  {
    stop, dimensionDelta, policyDelta := None, map[], map[];
    for i := 0 to |lines|
      invariant Gathered(ps, lines[..i], dimensionDelta, policyDelta)
    {
      var l := lines[i];
      ghost var done := lines[..i];
      assert l in lines;
      assert lines[..i + 1] == done + [l];
      var delta := SignedAmount(l.normal, l.kind, l.amount);
      if delta.Err? {
        assert !KnownSides(l);
        return Some(UnknownSide), dimensionDelta, policyDelta;
      }
      if TouchesClosed(ps, l) {
        return Some(AccountClosed), dimensionDelta, policyDelta;
      }
      GatherLine(ps, done, l, delta.value, dimensionDelta, policyDelta);
      policyDelta := WithLine(ps, l, delta.value, policyDelta);
      dimensionDelta := Bump(dimensionDelta, l.slot, delta.value);
    }
    assert lines[..|lines|] == lines;
  }

  /** enforceAccountPolicies: accepted exactly when no line closes, drains or breaks anything, and
      every refusal names something that is really there. */
  method EnforceAccountPolicies(ps: Policies, balance: Slot -> real, lines: seq<Line>) returns (v: Verdict)
    ensures v == Accepted <==> Accepts(ps, balance, lines)
    ensures v == UnknownSide ==> exists l :: l in lines && !KnownSides(l)
    ensures v == AccountClosed ==> exists l :: l in lines && TouchesClosed(ps, l)
    ensures v == AccountFrozen ==> exists l :: l in lines && DrainsFrozen(ps, lines, l)
    ensures v == InsufficientBalance ==> exists l :: l in lines && BreaksFloor(ps, balance, lines, l)
  {
    var stop, dimensionDelta, policyDelta := GatherDeltas(ps, lines);
    if stop.Some? {
      return stop.value;
    }
    if k :| k in policyDelta && IsNegative(policyDelta[k]) {
      DrainIsReal(ps, lines, dimensionDelta, policyDelta, k);
      return AccountFrozen;
    }
    if d :| d in dimensionDelta && BelowFloor(ps, balance(d) + Value(dimensionDelta[d]), d) {
      BreachIsReal(ps, balance, lines, dimensionDelta, policyDelta, d);
      return InsufficientBalance;
    }
    NothingWrong(ps, balance, lines, dimensionDelta, policyDelta);
    return Accepted;
  }

  lemma DrainIsReal(ps: Policies, lines: seq<Line>, dims: map<Slot, Decimal>, policies: map<(int, int), Decimal>, k: (int, int))
    requires Gathered(ps, lines, dims, policies) && k in policies && Value(policies[k]) < 0.0
    ensures exists l :: l in lines && DrainsFrozen(ps, lines, l)
  {
    assert PolicyNetted(ps, lines, k, policies[k]);
    var l :| l in lines && Governed(ps, k.0, k.1)(l.slot);
    assert DrainsFrozen(ps, lines, l);
  }

  lemma BreachIsReal(ps: Policies, balance: Slot -> real, lines: seq<Line>, dims: map<Slot, Decimal>,
                     policies: map<(int, int), Decimal>, d: Slot)
    requires Gathered(ps, lines, dims, policies) && d in dims
    requires BelowFloor(ps, balance(d) + Value(dims[d]), d)
    ensures exists l :: l in lines && BreaksFloor(ps, balance, lines, l)
  {
    assert DimNetted(lines, d, dims[d]);
    var l :| l in lines && l.slot == d;
    assert BreaksFloor(ps, balance, lines, l);
  }

  lemma NothingWrong(ps: Policies, balance: Slot -> real, lines: seq<Line>, dims: map<Slot, Decimal>,
                     policies: map<(int, int), Decimal>)
    requires Gathered(ps, lines, dims, policies)
    requires forall k :: k in policies ==> Value(policies[k]) >= 0.0
    requires forall d :: d in dims ==> !BelowFloor(ps, balance(d) + Value(dims[d]), d)
    ensures Accepts(ps, balance, lines)
  {
    forall l | l in lines
      ensures KnownSides(l) && !TouchesClosed(ps, l) && !DrainsFrozen(ps, lines, l) && !BreaksFloor(ps, balance, lines, l)
    {
      assert Covered(ps, l, dims, policies);
      assert DimNetted(lines, l.slot, dims[l.slot]);
      if IsFrozen(ps, l.slot) {
        var k := PolicyKey(ps, l);
        assert PolicyNetted(ps, lines, k, policies[k]);
      }
    }
  }

  predicate BelowFloor(ps: Policies, after: real, d: Slot) {
    Effective(ps, d).Some? && Effective(ps, d).value.enforceMinBalance && after < Effective(ps, d).value.minBalance
  }

  // ---------------------------------------------------------------- over runs

  /** Balances recomputed from everything posted. */
  function Balances(ledger: seq<Line>): Slot -> real {
    (d: Slot) => Net(ledger, At(d))
  }

  ghost function Post(ps: Policies, ledger: seq<Line>, journal: seq<Line>): seq<Line> {
    if Accepts(ps, Balances(ledger), journal) then ledger + journal else ledger
  }

  ghost function Run(ps: Policies, ledger: seq<Line>, journals: seq<seq<Line>>): seq<Line>
    decreases |journals|
  {
    if |journals| == 0 then ledger else Run(ps, Post(ps, ledger, journals[0]), journals[1..])
  }

  /** No closed slot was ever touched, and every touched slot with an enforced floor is at or above it. */
  ghost predicate PoliciesHold(ps: Policies, ledger: seq<Line>) {
    forall l :: l in ledger ==> !TouchesClosed(ps, l) && !BelowFloor(ps, Balances(ledger)(l.slot), l.slot)
  }

  lemma PostKeepsPolicies(ps: Policies, ledger: seq<Line>, journal: seq<Line>)
    requires PoliciesHold(ps, ledger)
    ensures PoliciesHold(ps, Post(ps, ledger, journal))
  {
    if Accepts(ps, Balances(ledger), journal) {
      forall l | l in ledger + journal
        ensures !TouchesClosed(ps, l) && !BelowFloor(ps, Balances(ledger + journal)(l.slot), l.slot)
      {
        NetConcat(ledger, journal, At(l.slot));
        if x :| x in journal && x.slot == l.slot {
          assert !BreaksFloor(ps, Balances(ledger), journal, x);
        } else {
          NetOfNone(journal, At(l.slot));
        }
      }
    }
  }

  /** From an empty ledger, after any sequence of journals: closed slots were never touched and every
      touched slot with an enforced floor is at or above it. */
  lemma {:induction false} RunKeepsPolicies(ps: Policies, ledger: seq<Line>, journals: seq<seq<Line>>)
    requires PoliciesHold(ps, ledger)
    ensures PoliciesHold(ps, Run(ps, ledger, journals))
    decreases |journals|
  {
    if |journals| > 0 {
      PostKeepsPolicies(ps, ledger, journals[0]);
      RunKeepsPolicies(ps, Post(ps, ledger, journals[0]), journals[1..]);
    }
  }

  lemma PostKeepsFrozen(ps: Policies, ledger: seq<Line>, journal: seq<Line>, id: int, currencyId: int)
    ensures Net(Post(ps, ledger, journal), Governed(ps, id, currencyId)) >= Net(ledger, Governed(ps, id, currencyId))
  {
    if Accepts(ps, Balances(ledger), journal) {
      NetConcat(ledger, journal, Governed(ps, id, currencyId));
      if l :| l in journal && Governed(ps, id, currencyId)(l.slot) {
        assert !DrainsFrozen(ps, journal, l);
      } else {
        NetOfNone(journal, Governed(ps, id, currencyId));
      }
    }
  }

  /** What a frozen row governs in one currency never goes down, at any point of any run. */
  lemma {:induction false} RunKeepsFrozen(ps: Policies, ledger: seq<Line>, journals: seq<seq<Line>>, id: int, currencyId: int)
    ensures Net(Run(ps, ledger, journals), Governed(ps, id, currencyId)) >= Net(ledger, Governed(ps, id, currencyId))
    decreases |journals|
  {
    if |journals| > 0 {
      PostKeepsFrozen(ps, ledger, journals[0], id, currencyId);
      RunKeepsFrozen(ps, Post(ps, ledger, journals[0]), journals[1..], id, currencyId);
    }
  }

  /** And it is the sum of the balances of the slots the row governs. */
  lemma {:induction false} NetIsSumOfBalances(ledger: seq<Line>, keep: Slot -> bool, slots: set<Slot>)
    requires forall d :: d in slots ==> keep(d)
    requires forall i :: 0 <= i < |ledger| && keep(ledger[i].slot) ==> ledger[i].slot in slots
    ensures Net(ledger, keep) == SumOver(Balances(ledger), slots)
  {
    if |ledger| == 0 {
      SumOverZero(Balances(ledger), slots);
    } else {
      var n := |ledger| - 1;
      var before, l := ledger[..n], ledger[n];
      assert ledger == before + [l];
      NetIsSumOfBalances(before, keep, slots);
      NetAppend(before, l, keep);
      forall d | d in slots
        ensures Balances(ledger)(d) == Balances(before)(d) + if l.slot == d then Signed(l) else 0.0
      {
        NetAppend(before, l, At(d));
      }
      if keep(l.slot) {
        SumOverBump(Balances(before), Balances(ledger), slots, l.slot, Signed(l));
      } else {
        SumOverEqual(Balances(before), Balances(ledger), slots);
      }
    }
  }

  // ---------------------------------------------------------------- row by row

  // The same, told from the policy rows: what each row's own status and floor say about the slots it rules.

  /** The row is the one the query returns for the slot: it matches, and sorts before every other that does. */
  ghost predicate Rules(ps: Policies, row: Slot, d: Slot) {
    && row in ps && Matches(row, d)
    && forall other :: other in ps && Matches(other, d) && other != row ==> SortsBefore(row, other)
  }

  ghost predicate DistinctIds(ps: Policies) {
    forall a, b :: a in ps && b in ps && ps[a].id == ps[b].id ==> a == b
  }

  /** Slots of real currencies and classifications; 0 is for wildcards in rows. */
  ghost predicate Concrete(lines: seq<Line>) {
    forall i :: 0 <= i < |lines| ==> lines[i].slot.currencyId > 0 && lines[i].slot.classId > 0
  }

  lemma RulesIsEffective(ps: Policies, row: Slot, d: Slot)
    requires DistinctIds(ps) && row in ps && d.currencyId > 0 && d.classId > 0
    ensures Rules(ps, row, d) <==> Effective(ps, d).Some? && Effective(ps, d).value.id == ps[row].id
    ensures Rules(ps, row, d) ==> Effective(ps, d).value == ps[row]
  {
    EffectiveIsFirst(ps, d);
    if Effective(ps, d).Some? {
      var first :| first in ps && Matches(first, d) && ps[first] == Effective(ps, d).value
                   && forall other :: other in ps && Matches(other, d) && other != first ==> SortsBefore(first, other);
    }
  }

  lemma RuledByEffective(ps: Policies, d: Slot) returns (row: Slot)
    requires Effective(ps, d).Some? && d.currencyId > 0 && d.classId > 0
    ensures Rules(ps, row, d) && ps[row] == Effective(ps, d).value
  {
    EffectiveIsFirst(ps, d);
    row :| row in ps && Matches(row, d) && ps[row] == Effective(ps, d).value
           && forall other :: other in ps && Matches(other, d) && other != row ==> SortsBefore(row, other);
  }

  /** The slots of one currency a row rules. */
  ghost function RuledIn(ps: Policies, row: Slot, currencyId: int): Slot -> bool {
    (x: Slot) => x.currencyId == currencyId && Rules(ps, row, x)
  }

  lemma {:induction false} NetAgrees(lines: seq<Line>, f: Slot -> bool, g: Slot -> bool)
    requires forall i :: 0 <= i < |lines| ==> f(lines[i].slot) == g(lines[i].slot)
    ensures Net(lines, f) == Net(lines, g)
  {
    if |lines| > 0 {
      var n := |lines| - 1;
      NetAgrees(lines[..n], f, g);
      NetAppend(lines[..n], lines[n], f);
      NetAppend(lines[..n], lines[n], g);
      assert lines == lines[..n] + [lines[n]];
    }
  }

  lemma GovernedIsRuled(ps: Policies, lines: seq<Line>, row: Slot, currencyId: int)
    requires DistinctIds(ps) && Concrete(lines) && row in ps && ps[row].status == Frozen
    ensures Net(lines, Governed(ps, ps[row].id, currencyId)) == Net(lines, RuledIn(ps, row, currencyId))
  {
    var f, g := Governed(ps, ps[row].id, currencyId), RuledIn(ps, row, currencyId);
    forall i | 0 <= i < |lines| ensures f(lines[i].slot) == g(lines[i].slot) {
      RulesIsEffective(ps, row, lines[i].slot);
    }
    NetAgrees(lines, f, g);
  }

  ghost predicate NoClosedTouched(ps: Policies, lines: seq<Line>) {
    forall row, l :: l in lines && Rules(ps, row, l.slot) ==> ps[row].status != Closed
  }

  ghost predicate NoFrozenDrained(ps: Policies, lines: seq<Line>) {
    forall row, currencyId {:trigger RuledIn(ps, row, currencyId)} :: row in ps && ps[row].status == Frozen ==>
      Net(lines, RuledIn(ps, row, currencyId)) >= 0.0
  }

  ghost predicate NoFloorBroken(ps: Policies, after: Slot -> real, lines: seq<Line>) {
    forall row, l :: l in lines && Rules(ps, row, l.slot) && ps[row].enforceMinBalance ==> after(l.slot) >= ps[row].minBalance
  }

  /** A journal is accepted exactly when its sides are known, no slot ruled by a closed row is touched, what a
      frozen row rules loses nothing in any currency, and no slot ends below the floor its row enforces. */
  lemma AcceptsByRows(ps: Policies, balance: Slot -> real, lines: seq<Line>)
    requires DistinctIds(ps) && Concrete(lines)
    ensures Accepts(ps, balance, lines)
       <==> && (forall l :: l in lines ==> l.normal in {Debit, Credit} && l.kind in {Debit, Credit})
            && NoClosedTouched(ps, lines) && NoFrozenDrained(ps, lines)
            && NoFloorBroken(ps, (d: Slot) => balance(d) + Net(lines, At(d)), lines)
  {
    if Accepts(ps, balance, lines) { AcceptedByRows(ps, balance, lines); }
    if (forall l :: l in lines ==> l.normal in {Debit, Credit} && l.kind in {Debit, Credit})
       && NoClosedTouched(ps, lines) && NoFrozenDrained(ps, lines)
       && NoFloorBroken(ps, (d: Slot) => balance(d) + Net(lines, At(d)), lines) {
      RowsAccept(ps, balance, lines);
    }
  }

  lemma AcceptedByRows(ps: Policies, balance: Slot -> real, lines: seq<Line>)
    requires DistinctIds(ps) && Concrete(lines) && Accepts(ps, balance, lines)
    ensures NoClosedTouched(ps, lines) && NoFrozenDrained(ps, lines)
    ensures NoFloorBroken(ps, (d: Slot) => balance(d) + Net(lines, At(d)), lines)
  {
    forall row, l | l in lines && Rules(ps, row, l.slot)
      ensures ps[row].status != Closed
      ensures ps[row].enforceMinBalance ==> balance(l.slot) + Net(lines, At(l.slot)) >= ps[row].minBalance
    {
      RulesIsEffective(ps, row, l.slot);
    }
    forall row, currencyId | row in ps && ps[row].status == Frozen ensures Net(lines, RuledIn(ps, row, currencyId)) >= 0.0 {
      GovernedIsRuled(ps, lines, row, currencyId);
      if l :| l in lines && Governed(ps, ps[row].id, currencyId)(l.slot) {
        assert !DrainsFrozen(ps, lines, l);
      } else {
        NetOfNone(lines, Governed(ps, ps[row].id, currencyId));
      }
    }
  }

  lemma RowsAccept(ps: Policies, balance: Slot -> real, lines: seq<Line>)
    requires DistinctIds(ps) && Concrete(lines)
    requires forall l :: l in lines ==> l.normal in {Debit, Credit} && l.kind in {Debit, Credit}
    requires NoClosedTouched(ps, lines) && NoFrozenDrained(ps, lines)
    requires NoFloorBroken(ps, (d: Slot) => balance(d) + Net(lines, At(d)), lines)
    ensures Accepts(ps, balance, lines)
  {
    forall l | l in lines
      ensures KnownSides(l) && !TouchesClosed(ps, l) && !DrainsFrozen(ps, lines, l) && !BreaksFloor(ps, balance, lines, l)
    {
      if Effective(ps, l.slot).Some? {
        var row := RuledByEffective(ps, l.slot);
        if ps[row].status == Frozen {
          GovernedIsRuled(ps, lines, row, l.slot.currencyId);
          assert Net(lines, RuledIn(ps, row, l.slot.currencyId)) >= 0.0;
        }
      }
    }
  }

  lemma {:induction false} RunConcrete(ps: Policies, ledger: seq<Line>, journals: seq<seq<Line>>)
    requires Concrete(ledger) && forall k :: 0 <= k < |journals| ==> Concrete(journals[k])
    ensures Concrete(Run(ps, ledger, journals))
    decreases |journals|
  {
    if |journals| > 0 { RunConcrete(ps, Post(ps, ledger, journals[0]), journals[1..]); }
  }

  /** Through any run: a slot ruled by a closed row is never touched, a slot with an enforced floor that was
      touched is at or above it, and what a frozen row rules in a currency never goes down. */
  lemma RowsHoldOverRuns(ps: Policies, journals: seq<seq<Line>>, more: seq<seq<Line>>)
    requires DistinctIds(ps) && forall k :: 0 <= k < |journals| ==> Concrete(journals[k])
    requires forall k :: 0 <= k < |more| ==> Concrete(more[k])
    ensures var ledger := Run(ps, [], journals);
            var later := Run(ps, ledger, more);
            && NoClosedTouched(ps, ledger) && NoFloorBroken(ps, Balances(ledger), ledger)
            && forall row, currencyId {:trigger RuledIn(ps, row, currencyId)} :: row in ps && ps[row].status == Frozen ==>
                 Net(later, RuledIn(ps, row, currencyId)) >= Net(ledger, RuledIn(ps, row, currencyId))
  {
    var ledger := Run(ps, [], journals);
    var later := Run(ps, ledger, more);
    RunKeepsPolicies(ps, [], journals);
    RunConcrete(ps, [], journals);
    RunConcrete(ps, ledger, more);
    forall row, l | l in ledger && Rules(ps, row, l.slot)
      ensures ps[row].status != Closed
      ensures ps[row].enforceMinBalance ==> Balances(ledger)(l.slot) >= ps[row].minBalance
    {
      RulesIsEffective(ps, row, l.slot);
    }
    forall row, currencyId | row in ps && ps[row].status == Frozen
      ensures Net(later, RuledIn(ps, row, currencyId)) >= Net(ledger, RuledIn(ps, row, currencyId))
    {
      RunKeepsFrozen(ps, ledger, more, ps[row].id, currencyId);
      GovernedIsRuled(ps, ledger, row, currencyId);
      GovernedIsRuled(ps, later, row, currencyId);
    }
  }
}
