/** The config-dimension cache: a pool-wide cache, transaction-scoped views over it, and lookups that
    refresh on a miss, interleaved at every lock and query. */
module DimCache {
  import opened Options

  datatype Table = Currency | Classification | JournalType

  /** A config row; the cached columns are immutable. */
  datatype Row = Row(table: Table, id: int, uid: string, attributes: string)

  datatype Key = ByUid(table: Table, uid: string) | ById(table: Table, id: int)

  predicate Matches(r: Row, k: Key) {
    r.table == k.table && match k case ByUid(_, uid) => r.uid == uid case ById(_, id) => r.id == id
  }

  /** The order in which a refresh lists the tables. */
  function Index(t: Table): nat {
    match t case Currency => 0 case Classification => 1 case JournalType => 2
  }

  predicate Clash(a: Row, b: Row) {
    a.table == b.table && (a.id == b.id || a.uid == b.uid)
  }

  ghost predicate HasKey(rows: set<Row>, k: Key) {
    exists r :: r in rows && Matches(r, k)
  }

  ghost function Find(rows: set<Row>, k: Key): Option<Row> {
    if HasKey(rows, k) then var r :| r in rows && Matches(r, k); Some(r) else None
  }

  // ---------------------------------------------------------------- the cache object

  function RowsOf(listing: seq<Row>): set<Row> {
    set r | r in listing
  }

  ghost predicate Distinct(rows: seq<Row>) {
    forall i, j :: 0 <= i < |rows| && 0 <= j < |rows| && Clash(rows[i], rows[j]) ==> rows[i] == rows[j]
  }

  /** A cache with its six maps held as two, keyed by table; a view has a parent. */
  class Cache {
    const parent: Cache?
    var byUid: map<(Table, string), Row>
    var byId: map<(Table, int), Row>

    constructor (parent: Cache?)
      ensures this.parent == parent && byUid == map[] && byId == map[]
    {
      this.parent := parent;
      byUid, byId := map[], map[];
    }

    /** A key read in this cache alone. */
    function Own(k: Key): (r: Option<Row>)
      reads this
    {
      match k
      case ByUid(t, uid) => if (t, uid) in byUid then Some(byUid[(t, uid)]) else None
      case ById(t, id) => if (t, id) in byId then Some(byId[(t, id)]) else None
    }

    /** dimRead: this cache, then the pool-wide one a view reads through. */
    function Read(k: Key): (r: Option<Row>)
      reads this, if parent == null then {} else {parent}
    {
      if Own(k).Some? || parent == null then Own(k) else parent.Own(k)
    }

    /** Both maps hold exactly the listed rows. */
    ghost predicate Holds(rows: set<Row>)
      reads this
    {
      forall k: Key, r: Row :: Own(k) == Some(r) <==> r in rows && Matches(r, k)
    }

    /** refresh: whatever the cache held is replaced by the listing; the parent is not written. */
    method Refresh(listing: seq<Row>)
      requires Distinct(listing)
      modifies this
      ensures Holds(RowsOf(listing))
    {
      byUid, byId := map[], map[];
      for i := 0 to |listing|
        invariant Holds(RowsOf(listing[..i]))
      {
        label before:
        var d := listing[i];
        byUid := byUid[(d.table, d.uid) := d];
        byId := byId[(d.table, d.id) := d];
        forall k: Key, r: Row
          ensures Own(k) == Some(r) <==> r in RowsOf(listing[..i + 1]) && Matches(r, k)
        {
          assert old@before(Own(k)) == Some(r) <==> r in RowsOf(listing[..i]) && Matches(r, k);
          assert listing[..i + 1] == listing[..i] + [d];
          assert r in listing[..i] ==> (Clash(r, d) ==> r == d);
        }
      }
      assert listing[..|listing|] == listing;
    }

    /** dimLookup with no other lookup in between: a hit changes nothing, a miss refreshes once, and
        after a miss the answer is found exactly when the listing has the key. */
    method Lookup(listing: seq<Row>, k: Key) returns (r: Option<Row>)
      requires Distinct(listing) && parent != this
      modifies this
      ensures old(Read(k)).Some? ==> r == old(Read(k)) && byUid == old(byUid) && byId == old(byId)
      ensures old(Own(k)).Some? ==> r == old(Own(k))
      ensures parent != null && old(Own(k)).None? && old(parent.Own(k)).Some? ==> r == old(parent.Own(k))
      ensures old(Read(k)).None? ==> Holds(RowsOf(listing))
      ensures old(Read(k)).None? ==> (r.Some? <==> HasKey(RowsOf(listing), k))
      ensures old(Read(k)).None? && r.Some? ==> r.value in listing && Matches(r.value, k)
    {
      r := Read(k);
      if r.Some? {
        return;
      }
      Refresh(listing);
      OwnIsHeld(RowsOf(listing), k);
      r := Read(k);
    }

    lemma OwnIsHeld(rows: set<Row>, k: Key)
      requires Holds(rows)
      ensures Own(k).Some? <==> HasKey(rows, k)
      ensures Own(k).Some? ==> Own(k).value in rows && Matches(Own(k).value, k)
    {
      if HasKey(rows, k) {
        var r :| r in rows && Matches(r, k);
        assert Own(k) == Some(r);
      }
      if Own(k).Some? { assert Own(k) == Some(Own(k).value); }
    }
  }

  // ---------------------------------------------------------------- the interleaved system

  datatype At = Pool | View(v: int)

  /** Where a lookup stands: each constructor is a point between two locked reads, queries or writes. */
  datatype Phase =
    | FirstOwn
    | FirstParent
    | Listing(n: nat, got: set<Row>)
    | SecondOwn(listed: set<Row>)
    | SecondParent(listed: set<Row>)
    | Done(result: Option<Row>)
    | Failed

  datatype Seeker = Seeker(at: At, key: Key, phase: Phase)

  datatype Scoped = Scoped(tx: int, rows: set<Row>)

  /** Committed rows, the rows each open transaction has inserted, the pool-wide cache, the views of
      open transactions, and the lookups under way. */
  datatype State = State(committed: set<Row>, own: map<int, set<Row>>, pool: set<Row>,
                         views: map<int, Scoped>, lookups: map<int, Seeker>)

  const START: State := State({}, map[], {}, map[], map[])

  datatype Step =
    | Begin(tx: int)
    | Clone(v: int, tx: int)
    | Insert(tx: int, row: Row)
    | End(tx: int, commit: bool)
    | Look(l: int, at: At, key: Key)
    | Advance(l: int)

  predicate Live(s: State, at: At) {
    at.Pool? || (at.v in s.views && s.views[at.v].tx in s.own)
  }

  function Content(s: State, at: At): set<Row>
    requires Live(s, at)
  {
    if at.Pool? then s.pool else s.views[at.v].rows
  }

  /** What a query on the caller's connection sees now: a transaction also sees its own rows. */
  function Visible(s: State, at: At): set<Row>
    requires Live(s, at)
  {
    if at.Pool? then s.committed else s.committed + s.own[s.views[at.v].tx]
  }

  function Installed(s: State, at: At, rows: set<Row>): State
    requires Live(s, at)
  {
    if at.Pool? then s.(pool := rows) else s.(views := s.views[at.v := s.views[at.v].(rows := rows)])
  }

  function Moved(s: State, l: int, p: Phase): State
    requires l in s.lookups
  {
    s.(lookups := s.lookups[l := s.lookups[l].(phase := p)])
  }

  function OfTable(rows: set<Row>, n: nat): set<Row> {
    set r | r in rows && Index(r.table) == n
  }

  /** The next atomic action of a lookup. */
  ghost function Advanced(s: State, l: int): State
    requires l in s.lookups && (s.lookups[l].phase.Done? || s.lookups[l].phase.Failed? || Live(s, s.lookups[l].at))
  {
    var Seeker(at, k, phase) := s.lookups[l];
    match phase
    case FirstOwn =>
      if HasKey(Content(s, at), k) then Moved(s, l, Done(Find(Content(s, at), k)))
      else Moved(s, l, if at.View? then FirstParent else Listing(0, {}))
    case FirstParent =>
      if HasKey(s.pool, k) then Moved(s, l, Done(Find(s.pool, k))) else Moved(s, l, Listing(0, {}))
    case Listing(n, got) =>
      if n < 3 then Moved(s, l, Listing(n + 1, got + OfTable(Visible(s, at), n)))
      else Moved(Installed(s, at, got), l, SecondOwn(got))
    case SecondOwn(got) =>
      if HasKey(Content(s, at), k) then Moved(s, l, Done(Find(Content(s, at), k)))
      else Moved(s, l, if at.View? then SecondParent(got) else Done(None))
    case SecondParent(got) =>
      Moved(s, l, Done(Find(s.pool, k)))
    case Done(_) => s
    case Failed => s
  }

  predicate Ends(s: State, tx: int, at: At) {
    at.View? && at.v in s.views && s.views[at.v].tx == tx
  }

  /** Commit publishes the transaction's rows; either way its views are gone and their lookups fail. */
  function Ended(s: State, tx: int, commit: bool): State
    requires tx in s.own
  {
    s.(committed := if commit then s.committed + s.own[tx] else s.committed,
    own := s.own - {tx},
    views := map v | v in s.views && s.views[v].tx != tx :: s.views[v],
    lookups := map l | l in s.lookups ::
      if Ends(s, tx, s.lookups[l].at) && !s.lookups[l].phase.Done? then s.lookups[l].(phase := Failed) else s.lookups[l])
  }

  /** Primary keys and unique uids, against committed rows and every open transaction. */
  ghost predicate Insertable(s: State, row: Row) {
    && (forall r :: r in s.committed ==> !Clash(r, row))
    && (forall tx, r :: tx in s.own && r in s.own[tx] ==> !Clash(r, row))
  }

  ghost predicate Enabled(s: State, step: Step) {
    match step
    case Begin(tx) => tx !in s.own
    case Clone(v, tx) => v !in s.views && tx in s.own
    case Insert(tx, row) => tx in s.own && Insertable(s, row)
    case End(tx, _) => tx in s.own
    case Look(l, at, _) => l !in s.lookups && Live(s, at)
    case Advance(l) =>
      l in s.lookups && (s.lookups[l].phase.Done? || s.lookups[l].phase.Failed? || Live(s, s.lookups[l].at))
  }

  ghost function Next(s: State, step: Step): State {
    if !Enabled(s, step) then s
    else
      match step
      case Begin(tx) => s.(own := s.own[tx := {}])
      case Clone(v, tx) => s.(views := s.views[v := Scoped(tx, {})])
      case Insert(tx, row) => s.(own := s.own[tx := s.own[tx] + {row}])
      case End(tx, commit) => Ended(s, tx, commit)
      case Look(l, at, key) => s.(lookups := s.lookups[l := Seeker(at, key, FirstOwn)])
      case Advance(l) => Advanced(s, l)
  }

  ghost function Run(s: State, steps: seq<Step>): State
    decreases |steps|
  {
    if |steps| == 0 then s else Run(Next(s, steps[0]), steps[1..])
  }

  // ---------------------------------------------------------------- what every run keeps

  /** Rows a lookup has in hand. */
  function Held(p: Phase): set<Row> {
    match p
    case Listing(_, got) => got
    case SecondOwn(got) => got
    case SecondParent(got) => got
    case _ => {}
  }

  ghost predicate SeekerHolds(s: State, q: Seeker) {
    if q.phase.Failed? then true
    else if q.phase.Done? then q.phase.result.Some? ==> Matches(q.phase.result.value, q.key)
    else Live(s, q.at) && Held(q.phase) <= Visible(s, q.at)
  }

  ghost predicate Caches(s: State) {
    && s.pool <= s.committed
    && (forall v :: v in s.views ==> Live(s, View(v)) && s.views[v].rows <= Visible(s, View(v)))
    && (forall l :: l in s.lookups ==> SeekerHolds(s, s.lookups[l]))
  }

  /** A row some connection can see. */
  ghost predicate Exists(s: State, r: Row) {
    r in s.committed || exists tx :: tx in s.own && r in s.own[tx]
  }

  /** No two rows anywhere share a table and an id or a uid. */
  ghost predicate Unclashing(s: State) {
    forall a, b :: Exists(s, a) && Exists(s, b) && Clash(a, b) ==> a == b
  }

  lemma MovedKeeps(s: State, l: int, p: Phase)
    requires Caches(s) && l in s.lookups && SeekerHolds(s, s.lookups[l].(phase := p))
    ensures Caches(Moved(s, l, p))
  {
    var t := Moved(s, l, p);
    forall m | m in t.lookups ensures SeekerHolds(t, t.lookups[m]) {
      assert m != l ==> SeekerHolds(s, s.lookups[m]);
    }
  }

  lemma InstalledKeeps(s: State, at: At, rows: set<Row>)
    requires Caches(s) && Live(s, at) && rows <= Visible(s, at)
    ensures Caches(Installed(s, at, rows))
  {
    var t := Installed(s, at, rows);
    forall m | m in t.lookups ensures SeekerHolds(t, t.lookups[m]) {
      assert SeekerHolds(s, s.lookups[m]);
    }
  }

  lemma AdvanceKeeps(s: State, l: int)
    requires Caches(s) && Enabled(s, Advance(l))
    ensures Caches(Next(s, Advance(l)))
  {
    var Seeker(at, k, phase) := s.lookups[l];
    assert SeekerHolds(s, s.lookups[l]);
    if phase.Listing? && phase.n >= 3 {
      InstalledKeeps(s, at, phase.got);
      MovedKeeps(Installed(s, at, phase.got), l, SecondOwn(phase.got));
    } else if phase.Listing? {
      MovedKeeps(s, l, Listing(phase.n + 1, phase.got + OfTable(Visible(s, at), phase.n)));
    } else {
      MovedKeeps(s, l, Advanced(s, l).lookups[l].phase);
    }
  }

  lemma EndKeeps(s: State, tx: int, commit: bool)
    requires Caches(s) && tx in s.own
    ensures Caches(Next(s, End(tx, commit)))
  {
    var t := Ended(s, tx, commit);
    forall l | l in t.lookups ensures SeekerHolds(t, t.lookups[l]) {
      assert SeekerHolds(s, s.lookups[l]);
    }
    forall v | v in t.views ensures Live(t, View(v)) && t.views[v].rows <= Visible(t, View(v)) {
      assert Live(s, View(v));
    }
  }

  lemma StepKeeps(s: State, step: Step)
    requires Caches(s)
    ensures Caches(Next(s, step))
  {
    if Enabled(s, step) {
      match step
      case Begin(_) =>
      case Clone(_, _) =>
      case Insert(_, _) =>
      case End(tx, commit) => EndKeeps(s, tx, commit);
      case Look(_, _, _) =>
      case Advance(l) => AdvanceKeeps(s, l);
    }
  }

  lemma NoClash(s: State, row: Row, r: Row)
    requires Insertable(s, row) && Exists(s, r)
    ensures !Clash(r, row) && !Clash(row, r)
  {
    if r !in s.committed {
      var tx :| tx in s.own && r in s.own[tx];
      assert !Clash(r, row);
    }
  }

  lemma StepKeepsUnclashing(s: State, step: Step)
    requires Unclashing(s)
    ensures Unclashing(Next(s, step))
  {
    var t := Next(s, step);
    forall r | Exists(t, r)
      ensures Exists(s, r) || (step.Insert? && Enabled(s, step) && r == step.row)
    {
      if r !in t.committed {
        var tx :| tx in t.own && r in t.own[tx];
        if tx in s.own { assert r in s.own[tx] || step.Insert?; }
      }
    }
    forall a, b | Exists(t, a) && Exists(t, b) && Clash(a, b) ensures a == b {
      if Exists(s, a) && !Exists(s, b) { NoClash(s, step.row, a); }
      if Exists(s, b) && !Exists(s, a) { NoClash(s, step.row, b); }
    }
  }

  /** Over every interleaving, the pool-wide cache holds only committed rows and a view only committed
      rows and its own transaction's inserts. */
  lemma {:induction false} RunKeepsCaches(s: State, steps: seq<Step>)
    requires Caches(s) && Unclashing(s)
    ensures Caches(Run(s, steps)) && Unclashing(Run(s, steps))
    decreases |steps|
  {
    if |steps| > 0 {
      StepKeeps(s, steps[0]);
      StepKeepsUnclashing(s, steps[0]);
      RunKeepsCaches(Next(s, steps[0]), steps[1..]);
    }
  }

  /** From an empty database, after any run, whatever the pool-wide cache holds is committed. */
  lemma {:induction false} RunFromStart(steps: seq<Step>)
    ensures Caches(Run(START, steps)) && Unclashing(Run(START, steps)) && Run(START, steps).pool <= Run(START, steps).committed
  {
    RunKeepsCaches(START, steps);
  }

  /** A lookup that ends with a hit answers with the one row of that key, and that row is committed or
      an insert of the lookup's own transaction. */
  lemma HitIsTheRow(s: State, l: int, r: Row)
    requires Caches(s) && Unclashing(s) && Enabled(s, Advance(l)) && !s.lookups[l].phase.Done?
    requires Next(s, Advance(l)).lookups[l].phase == Done(Some(r))
    ensures r in Visible(s, s.lookups[l].at) && Matches(r, s.lookups[l].key)
    ensures forall x :: x in Visible(s, s.lookups[l].at) && Matches(x, s.lookups[l].key) ==> x == r
  {
    var Seeker(at, k, phase) := s.lookups[l];
    assert SeekerHolds(s, s.lookups[l]);
    assert r in Visible(s, at) && Matches(r, k);
    forall x | x in Visible(s, at) && Matches(x, k) ensures x == r {
      assert Exists(s, x) && Exists(s, r) && Clash(x, r);
    }
  }

  // ---------------------------------------------------------------- when a second miss is possible

  /** A lookup that has listed the key's table without finding the key and has yet to install. */
  ghost predicate Stale(s: State, at: At, k: Key, m: int) {
    && m in s.lookups && s.lookups[m].at == at && s.lookups[m].phase.Listing?
    && s.lookups[m].phase.n > Index(k.table) && !HasKey(s.lookups[m].phase.got, k)
  }

  /** The cache has the key and nobody is about to install a listing that lacks it. */
  ghost predicate Kept(s: State, at: At, k: Key) {
    Live(s, at) && HasKey(Content(s, at), k) && forall m :: m in s.lookups ==> !Stale(s, at, k, m)
  }

  lemma ContentIsVisible(s: State, at: At, k: Key)
    requires Caches(s) && Live(s, at) && HasKey(Content(s, at), k)
    ensures HasKey(Visible(s, at), k)
  {
    var r :| r in Content(s, at) && Matches(r, k);
    assert r in Visible(s, at);
  }

  /** A listing of the key's table finds a visible key, and a longer listing keeps it. */
  lemma ListingFinds(s: State, at: At, k: Key, n: nat, got: set<Row>)
    requires Live(s, at) && HasKey(Visible(s, at), k) && n >= Index(k.table)
    requires n > Index(k.table) ==> HasKey(got, k)
    ensures HasKey(got + OfTable(Visible(s, at), n), k)
  {
    if n == Index(k.table) {
      var r :| r in Visible(s, at) && Matches(r, k);
      assert r in OfTable(Visible(s, at), n);
    } else {
      var r :| r in got && Matches(r, k);
      assert r in got + OfTable(Visible(s, at), n);
    }
  }

  lemma KeptByMove(s: State, l: int, p: Phase, at: At, k: Key)
    requires Kept(s, at, k) && l in s.lookups && !Stale(Moved(s, l, p), at, k, l)
    ensures Kept(Moved(s, l, p), at, k)
  {
    var t := Moved(s, l, p);
    forall m | m in t.lookups ensures !Stale(t, at, k, m) {
      assert !Stale(s, at, k, m);
    }
  }

  lemma KeptByInstall(s: State, l: int, at: At, k: Key)
    requires Kept(s, at, k) && l in s.lookups && s.lookups[l].phase.Listing? && s.lookups[l].phase.n >= 3
    requires Live(s, s.lookups[l].at)
    ensures Kept(Installed(s, s.lookups[l].at, s.lookups[l].phase.got), at, k)
  {
    var q := s.lookups[l];
    var t := Installed(s, q.at, q.phase.got);
    assert !Stale(s, at, k, l);
    assert Content(t, at) == if q.at == at then q.phase.got else Content(s, at);
    forall m | m in t.lookups ensures !Stale(t, at, k, m) {
      assert !Stale(s, at, k, m);
    }
  }

  lemma KeptByListing(s: State, l: int, at: At, k: Key)
    requires Caches(s) && Kept(s, at, k) && l in s.lookups && s.lookups[l].phase.Listing? && s.lookups[l].phase.n < 3
    requires Live(s, s.lookups[l].at)
    ensures var q := s.lookups[l];
            Kept(Moved(s, l, Listing(q.phase.n + 1, q.phase.got + OfTable(Visible(s, q.at), q.phase.n))), at, k)
  {
    var q := s.lookups[l];
    var got := q.phase.got + OfTable(Visible(s, q.at), q.phase.n);
    if q.at == at && q.phase.n >= Index(k.table) {
      assert !Stale(s, at, k, l);
      ContentIsVisible(s, at, k);
      ListingFinds(s, at, k, q.phase.n, q.phase.got);
    }
    KeptByMove(s, l, Listing(q.phase.n + 1, got), at, k);
  }

  lemma KeptByAdvance(s: State, l: int, at: At, k: Key)
    requires Caches(s) && Enabled(s, Advance(l)) && Kept(s, at, k)
    ensures Kept(Next(s, Advance(l)), at, k)
  {
    var q := s.lookups[l];
    if q.phase.Listing? && q.phase.n >= 3 {
      KeptByInstall(s, l, at, k);
      KeptByMove(Installed(s, q.at, q.phase.got), l, SecondOwn(q.phase.got), at, k);
    } else if q.phase.Listing? {
      KeptByListing(s, l, at, k);
    } else if !q.phase.Done? && !q.phase.Failed? {
      KeptByMove(s, l, Advanced(s, l).lookups[l].phase, at, k);
    }
  }

  lemma KeptByStep(s: State, step: Step, at: At, k: Key)
    requires Caches(s) && Kept(s, at, k) && Live(Next(s, step), at)
    ensures Kept(Next(s, step), at, k)
  {
    if Enabled(s, step) {
      if step.Advance? {
        KeptByAdvance(s, step.l, at, k);
      } else {
        var t := Next(s, step);
        assert Content(t, at) == Content(s, at);
        forall m | m in t.lookups ensures !Stale(t, at, k, m) {
          if m in s.lookups { assert !Stale(s, at, k, m); }
        }
      }
    }
  }

  /** A lookup that has installed and can no longer miss. */
  ghost predicate Protected(s: State, l: int) {
    && l in s.lookups
    && var Seeker(at, k, phase) := s.lookups[l];
       match phase
       case SecondOwn(_) => Kept(s, at, k) || (at.View? && Kept(s, Pool, k))
       case SecondParent(_) => Kept(s, Pool, k)
       case Done(r) => r.Some?
       case Failed => true
       case _ => false
  }

  lemma ProtectedByOthers(s: State, step: Step, l: int)
    requires Caches(s) && Protected(s, l) && step != Advance(l)
    ensures Protected(Next(s, step), l)
  {
    var t := Next(s, step);
    var Seeker(at, k, phase) := s.lookups[l];
    StepKeeps(s, step);
    assert t.lookups[l] == s.lookups[l] || t.lookups[l].phase.Failed?;
    if t.lookups[l] == s.lookups[l] && !phase.Done? && !phase.Failed? {
      assert SeekerHolds(t, t.lookups[l]);
      if Kept(s, at, k) { KeptByStep(s, step, at, k); }
      if Kept(s, Pool, k) { KeptByStep(s, step, Pool, k); }
    }
  }

  lemma ProtectedByItself(s: State, l: int)
    requires Caches(s) && Protected(s, l)
    ensures Protected(Next(s, Advance(l)), l)
  {
    var Seeker(at, k, phase) := s.lookups[l];
    assert SeekerHolds(s, s.lookups[l]);
    if (phase.SecondOwn? || phase.SecondParent?) && Kept(s, Pool, k) {
      KeptByAdvance(s, l, Pool, k);
    }
  }

  lemma {:induction false} ProtectedRun(s: State, steps: seq<Step>, l: int)
    requires Caches(s) && Protected(s, l)
    ensures Protected(Run(s, steps), l)
    decreases |steps|
  {
    if |steps| > 0 {
      StepKeeps(s, steps[0]);
      if steps[0] == Advance(l) { ProtectedByItself(s, l); } else { ProtectedByOthers(s, steps[0], l); }
      ProtectedRun(Next(s, steps[0]), steps[1..], l);
    }
  }

  /** A run that lets a stale lookup install leaves the cache without the key and touches nothing else. */
  lemma {:induction false} LetInstall(s: State, at: At, k: Key, m: int) returns (steps: seq<Step>)
    requires Caches(s) && Stale(s, at, k, m)
    ensures var t := Run(s, steps);
            && Caches(t) && Live(t, at) && !HasKey(Content(t, at), k)
            && t.views.Keys == s.views.Keys && t.own == s.own
            && (forall b: At :: b != at && Live(s, b) ==> Live(t, b) && Content(t, b) == Content(s, b))
            && t.lookups.Keys == s.lookups.Keys
            && (forall x :: x in s.lookups && x != m ==> t.lookups[x] == s.lookups[x])
            && t.lookups[m].at == at && t.lookups[m].phase.SecondOwn?
    decreases 3 - s.lookups[m].phase.n
  {
    var phase := s.lookups[m].phase;
    assert SeekerHolds(s, s.lookups[m]);
    var t := Next(s, Advance(m));
    AdvanceKeeps(s, m);
    if phase.n < 3 {
      var got := OfTable(Visible(s, at), phase.n);
      assert !HasKey(phase.got + got, k);
      var rest := LetInstall(t, at, k, m);
      steps := [Advance(m)] + rest;
      assert steps[1..] == rest;
    } else {
      steps := [Advance(m)];
      assert Run(s, steps) == Run(t, steps[1..]) == t;
    }
  }

  lemma {:induction false} RunConcat(s: State, a: seq<Step>, b: seq<Step>)
    ensures Run(s, a + b) == Run(Run(s, a), b)
    decreases |a|
  {
    if |a| == 0 {
      assert a + b == b;
    } else {
      assert (a + b)[1..] == a[1..] + b;
      RunConcat(Next(s, a[0]), a[1..], b);
    }
  }

  /** Unless the key is kept, some run takes it out of the cache while leaving the lookup where it is. */
  lemma LoseKey(s: State, at: At, k: Key, l: int) returns (steps: seq<Step>)
    requires Caches(s) && Live(s, at) && !Kept(s, at, k) && l in s.lookups && !s.lookups[l].phase.Listing?
    ensures var t := Run(s, steps);
            && Caches(t) && Live(t, at) && !HasKey(Content(t, at), k)
            && t.views.Keys == s.views.Keys && t.own == s.own
            && (forall b: At :: b != at && Live(s, b) ==> Live(t, b) && Content(t, b) == Content(s, b))
            && l in t.lookups && t.lookups[l] == s.lookups[l]
            && (forall b: At, m :: b != at && Stale(s, b, k, m) ==> Stale(t, b, k, m))
  {
    if HasKey(Content(s, at), k) {
      var m :| m in s.lookups && Stale(s, at, k, m);
      steps := LetInstall(s, at, k, m);
    } else {
      steps := [];
    }
  }

  lemma MissAt(s: State, l: int)
    requires Caches(s) && l in s.lookups && s.lookups[l].phase.SecondOwn?
    requires Live(s, s.lookups[l].at) && !HasKey(Content(s, s.lookups[l].at), s.lookups[l].key)
    requires !HasKey(s.pool, s.lookups[l].key)
    ensures exists steps: seq<Step> :: Missed(Run(s, steps), l)
  {
    var t := Next(s, Advance(l));
    if s.lookups[l].at.Pool? {
      assert Run(s, [Advance(l)]) == Run(t, [Advance(l)][1..]) == t;
      assert Missed(Run(s, [Advance(l)]), l);
    } else {
      var steps := [Advance(l), Advance(l)];
      assert steps[1..] == [Advance(l)];
      var u := Next(t, Advance(l));
      assert Run(t, [Advance(l)]) == Run(u, [Advance(l)][1..]) == u;
      assert Run(s, steps) == u;
      assert Missed(u, l);
    }
  }

  ghost predicate Missed(s: State, l: int) {
    l in s.lookups && s.lookups[l].phase == Done(None)
  }

  lemma MissPossible(s: State, l: int)
    requires Caches(s) && l in s.lookups && s.lookups[l].phase.SecondOwn? && !Protected(s, l)
    ensures exists steps: seq<Step> :: Missed(Run(s, steps), l)
  {
    var Seeker(at, k, phase) := s.lookups[l];
    assert SeekerHolds(s, s.lookups[l]);
    var first := LoseKey(s, at, k, l);
    var t := Run(s, first);
    if at.Pool? {
      MissAt(t, l);
      var rest :| Missed(Run(t, rest), l);
      RunConcat(s, first, rest);
    } else {
      PoolStillUnkept(s, t, k, at);
      var second := LoseKey(t, Pool, k, l);
      var u := Run(t, second);
      MissAt(u, l);
      var rest :| Missed(Run(u, rest), l);
      RunConcat(t, second, rest);
      RunConcat(s, first, second + rest);
    }
  }

  lemma PoolStillUnkept(s: State, t: State, k: Key, at: At)
    requires !Kept(s, Pool, k) && at.View?
    requires Content(t, Pool) == Content(s, Pool)
    requires forall b: At, m :: b != at && Stale(s, b, k, m) ==> Stale(t, b, k, m)
    ensures !Kept(t, Pool, k)
  {
    if HasKey(s.pool, k) {
      var m :| m in s.lookups && Stale(s, Pool, k, m);
      assert Stale(t, Pool, k, m);
    }
  }

  /** A lookup that has just installed its listing can never end in a miss, whatever else runs, if and
      only if the key is in its cache, or the pool-wide one behind it, and no other lookup on that
      cache has listed the key's table without it and still has to install. */
  lemma SecondReadExact(s: State, l: int)
    requires Caches(s) && l in s.lookups && s.lookups[l].phase.SecondOwn?
    ensures (forall steps: seq<Step> :: !Missed(Run(s, steps), l))
            <==> Kept(s, s.lookups[l].at, s.lookups[l].key) || (s.lookups[l].at.View? && Kept(s, Pool, s.lookups[l].key))
  {
    if Protected(s, l) {
      forall steps: seq<Step> ensures !Missed(Run(s, steps), l) {
        ProtectedRun(s, steps, l);
      }
    } else {
      MissPossible(s, l);
    }
  }

  /** Used by one lookup at a time, a cache never hides a row: once a listing has the key, the second
      read finds it, through every interleaving with everything else. */
  lemma SequentialMissIsHonest(s: State, l: int, steps: seq<Step>)
    requires Caches(s) && Enabled(s, Advance(l)) && s.lookups[l].phase.Listing? && s.lookups[l].phase.n == 3
    requires forall m :: m in s.lookups && m != l && s.lookups[m].at == s.lookups[l].at ==> !s.lookups[m].phase.Listing?
    requires HasKey(s.lookups[l].phase.got, s.lookups[l].key)
    ensures !Missed(Run(Next(s, Advance(l)), steps), l)
  {
    AdvanceKeeps(s, l);
    ProtectedRun(Next(s, Advance(l)), steps, l);
  }

  // ---------------------------------------------------------------- the same, before the call

  ghost predicate NoneStale(s: State, at: At, k: Key) {
    forall m :: m in s.lookups ==> !Stale(s, at, k, m)
  }

  ghost predicate OneStaleAtMost(s: State, at: At, k: Key) {
    forall m, n :: Stale(s, at, k, m) && Stale(s, at, k, n) ==> m == n
  }

  /** No older listing is outstanding on the cache, or the cache has the key and at most one is. */
  ghost predicate Sure(s: State, at: At, k: Key)
    requires Live(s, at)
  {
    NoneStale(s, at, k) || (HasKey(Content(s, at), k) && OneStaleAtMost(s, at, k))
  }

  lemma VisibleStays(s: State, step: Step, at: At, k: Key)
    requires Live(s, at) && Live(Next(s, step), at) && HasKey(Visible(s, at), k)
    requires step.Clone? ==> at != View(step.v) || !Enabled(s, step)
    ensures HasKey(Visible(Next(s, step), at), k)
  {
    var t := Next(s, step);
    assert Visible(s, at) <= Visible(t, at);
    var r :| r in Visible(s, at) && Matches(r, k);
    assert r in Visible(t, at);
  }

  /** While the key is visible, no further listing comes to lack it. */
  lemma StaleWasStale(s: State, step: Step, at: At, k: Key, m: int)
    requires Live(s, at) && HasKey(Visible(s, at), k) && Stale(Next(s, step), at, k, m)
    ensures Stale(s, at, k, m)
  {
    if step == Advance(m) && Enabled(s, step) && s.lookups[m].phase.Listing? {
      var q := s.lookups[m];
      if q.phase.n < 3 && q.phase.n >= Index(k.table) && (q.phase.n > Index(k.table) ==> HasKey(q.phase.got, k)) {
        ListingFinds(s, at, k, q.phase.n, q.phase.got);
      }
    }
  }

  lemma NoneStaleStays(s: State, step: Step, at: At, k: Key)
    requires Live(s, at) && HasKey(Visible(s, at), k) && NoneStale(s, at, k)
    ensures NoneStale(Next(s, step), at, k)
  {
    var t := Next(s, step);
    forall m | m in t.lookups ensures !Stale(t, at, k, m) {
      if Stale(t, at, k, m) { StaleWasStale(s, step, at, k, m); }
    }
  }

  lemma OneStaleStays(s: State, step: Step, at: At, k: Key)
    requires Live(s, at) && HasKey(Visible(s, at), k) && OneStaleAtMost(s, at, k)
    ensures OneStaleAtMost(Next(s, step), at, k)
  {
    var t := Next(s, step);
    forall m, n | Stale(t, at, k, m) && Stale(t, at, k, n) ensures m == n {
      StaleWasStale(s, step, at, k, m);
      StaleWasStale(s, step, at, k, n);
    }
  }

  predicate Installs(s: State, step: Step, at: At) {
    step.Advance? && step.l in s.lookups && s.lookups[step.l].at == at
    && s.lookups[step.l].phase.Listing? && s.lookups[step.l].phase.n >= 3
  }

  lemma ContentStays(s: State, step: Step, at: At)
    requires Live(s, at) && Live(Next(s, step), at) && !Installs(s, step, at)
    ensures Content(Next(s, step), at) == Content(s, at)
  {
  }

  lemma SureStays(s: State, step: Step, at: At, k: Key)
    requires Live(s, at) && Live(Next(s, step), at) && HasKey(Visible(s, at), k) && Sure(s, at, k)
    ensures Sure(Next(s, step), at, k)
  {
    var t := Next(s, step);
    if NoneStale(s, at, k) {
      NoneStaleStays(s, step, at, k);
    } else {
      OneStaleStays(s, step, at, k);
      if !Installs(s, step, at) {
        ContentStays(s, step, at);
      } else if Stale(s, at, k, step.l) {
        forall m | m in t.lookups ensures !Stale(t, at, k, m) {
          if Stale(t, at, k, m) { StaleWasStale(s, step, at, k, m); }
        }
      } else {
        assert Content(t, at) == s.lookups[step.l].phase.got;
      }
    }
  }

  /** A lookup under way that will not miss. */
  ghost predicate Heading(s: State, l: int) {
    && l in s.lookups
    && var Seeker(at, k, phase) := s.lookups[l];
       if phase.Failed? then true
       else if phase.Done? then phase.result.Some?
       else
         && Live(s, at) && HasKey(Visible(s, at), k)
         && match phase
            case FirstOwn => Sure(s, at, k) || (at.View? && Kept(s, Pool, k))
            case FirstParent => at.View? && (NoneStale(s, at, k) || Kept(s, Pool, k))
            case Listing(_, _) => NoneStale(s, at, k)
            case _ => Protected(s, l)
  }

  lemma HeadingByOthers(s: State, step: Step, l: int)
    requires Caches(s) && Heading(s, l) && step != Advance(l)
    ensures Heading(Next(s, step), l)
  {
    var t := Next(s, step);
    var Seeker(at, k, phase) := s.lookups[l];
    StepKeeps(s, step);
    assert t.lookups[l] == s.lookups[l] || t.lookups[l].phase.Failed?;
    if t.lookups[l] == s.lookups[l] && !phase.Done? && !phase.Failed? {
      assert SeekerHolds(t, t.lookups[l]);
      VisibleStays(s, step, at, k);
      if Kept(s, Pool, k) { KeptByStep(s, step, Pool, k); }
      match phase
      case FirstOwn => if Sure(s, at, k) { SureStays(s, step, at, k); }
      case FirstParent => if NoneStale(s, at, k) { NoneStaleStays(s, step, at, k); }
      case Listing(_, _) => NoneStaleStays(s, step, at, k);
      case _ => ProtectedByOthers(s, step, l);
    }
  }

  lemma HeadingByItself(s: State, l: int)
    requires Caches(s) && Heading(s, l)
    ensures Heading(Next(s, Advance(l)), l)
  {
    var Seeker(at, k, phase) := s.lookups[l];
    if !phase.Done? && !phase.Failed? {
      match phase
      case FirstOwn => FirstReads(s, l);
      case FirstParent => FirstReads(s, l);
      case Listing(n, got) => ListsOn(s, l);
      case _ =>
        ProtectedByItself(s, l);
        if phase.SecondOwn? { VisibleStays(s, Advance(l), at, k); }
    }
  }

  lemma FirstReads(s: State, l: int)
    requires Caches(s) && Heading(s, l) && (s.lookups[l].phase.FirstOwn? || s.lookups[l].phase.FirstParent?)
    ensures Heading(Next(s, Advance(l)), l)
  {
    var Seeker(at, k, phase) := s.lookups[l];
    VisibleStays(s, Advance(l), at, k);
    if NoneStale(s, at, k) { NoneStaleStays(s, Advance(l), at, k); }
    if Kept(s, Pool, k) { KeptByAdvance(s, l, Pool, k); }
  }

  lemma ListsOn(s: State, l: int)
    requires Caches(s) && Heading(s, l) && s.lookups[l].phase.Listing?
    ensures Heading(Next(s, Advance(l)), l)
  {
    var Seeker(at, k, phase) := s.lookups[l];
    var t := Next(s, Advance(l));
    VisibleStays(s, Advance(l), at, k);
    NoneStaleStays(s, Advance(l), at, k);
    if phase.n >= 3 {
      assert !Stale(s, at, k, l);
      assert Content(t, at) == phase.got;
    }
  }

  lemma {:induction false} HeadingRun(s: State, steps: seq<Step>, l: int)
    requires Caches(s) && Heading(s, l)
    ensures Heading(Run(s, steps), l)
    decreases |steps|
  {
    if |steps| > 0 {
      StepKeeps(s, steps[0]);
      if steps[0] == Advance(l) { HeadingByItself(s, l); } else { HeadingByOthers(s, steps[0], l); }
      HeadingRun(Next(s, steps[0]), steps[1..], l);
    }
  }

  ghost predicate CanMiss(s: State, l: int) {
    exists steps: seq<Step> :: Missed(Run(s, steps), l)
  }

  lemma MissLater(s: State, first: seq<Step>, l: int)
    requires CanMiss(Run(s, first), l)
    ensures CanMiss(s, l)
  {
    var rest :| Missed(Run(Run(s, first), rest), l);
    RunConcat(s, first, rest);
  }

  lemma MissNext(s: State, step: Step, l: int)
    requires CanMiss(Next(s, step), l)
    ensures CanMiss(s, l)
  {
    assert Run(s, [step]) == Run(Next(s, step), [step][1..]) == Next(s, step);
    MissLater(s, [step], l);
  }

  /** An older listing outstanding while the lookup lists and installs makes it miss. */
  lemma {:induction false} ListedOver(s: State, l: int, m: int)
    requires Caches(s) && l in s.lookups && s.lookups[l].phase.Listing? && m != l
    requires Stale(s, s.lookups[l].at, s.lookups[l].key, m)
    requires s.lookups[l].at.View? ==> !HasKey(s.pool, s.lookups[l].key)
    ensures CanMiss(s, l)
    decreases 3 - s.lookups[l].phase.n
  {
    var Seeker(at, k, phase) := s.lookups[l];
    assert SeekerHolds(s, s.lookups[l]);
    var t := Next(s, Advance(l));
    AdvanceKeeps(s, l);
    assert t.lookups[m] == s.lookups[m];
    if phase.n < 3 {
      ListedOver(t, l, m);
    } else {
      assert Stale(t, at, k, m);
      MissPossible(t, l);
    }
    MissNext(s, Advance(l), l);
  }

  lemma MissFromAbsence(s: State, l: int, m: int)
    requires Caches(s) && l in s.lookups && s.lookups[l].phase.FirstOwn? && Live(s, s.lookups[l].at)
    requires Stale(s, s.lookups[l].at, s.lookups[l].key, m)
    requires !HasKey(Content(s, s.lookups[l].at), s.lookups[l].key) && !HasKey(s.pool, s.lookups[l].key)
    ensures CanMiss(s, l)
  {
    var t := Next(s, Advance(l));
    AdvanceKeeps(s, l);
    if s.lookups[l].at.View? {
      var u := Next(t, Advance(l));
      AdvanceKeeps(t, l);
      ListedOver(u, l, m);
      MissNext(t, Advance(l), l);
    } else {
      ListedOver(t, l, m);
    }
    MissNext(s, Advance(l), l);
  }

  lemma MissUnlessSure(s: State, l: int)
    requires Caches(s) && l in s.lookups && s.lookups[l].phase.FirstOwn? && Live(s, s.lookups[l].at)
    requires !Sure(s, s.lookups[l].at, s.lookups[l].key)
    requires s.lookups[l].at.View? ==> !HasKey(s.pool, s.lookups[l].key)
    ensures CanMiss(s, l)
  {
    var Seeker(at, k, phase) := s.lookups[l];
    if HasKey(Content(s, at), k) {
      var m, n :| Stale(s, at, k, m) && Stale(s, at, k, n) && m != n;
      var first := LetInstall(s, at, k, m);
      var t := Run(s, first);
      assert t.lookups[n] == s.lookups[n] && t.lookups[l] == s.lookups[l];
      assert at.View? ==> Content(t, Pool) == Content(s, Pool);
      MissFromAbsence(t, l, n);
      MissLater(s, first, l);
    } else {
      var m :| m in s.lookups && Stale(s, at, k, m);
      MissFromAbsence(s, l, m);
    }
  }

  /** Before the call, for every key visible to the caller: the lookup can never end in a miss, whatever
      else runs, if and only if no older listing is outstanding on its cache, or the cache has the key
      and at most one is, or it is a view and the pool-wide cache behind it keeps the key. */
  lemma LookupExact(s: State, l: int, at: At, k: Key)
    requires Caches(s) && l !in s.lookups && Live(s, at) && HasKey(Visible(s, at), k)
    ensures !CanMiss(Next(s, Look(l, at, k)), l) <==> Sure(s, at, k) || (at.View? && Kept(s, Pool, k))
  {
    var t := Next(s, Look(l, at, k));
    StepKeeps(s, Look(l, at, k));
    StartsAlike(s, l, at, k);
    if Sure(t, at, k) || (at.View? && Kept(t, Pool, k)) {
      forall steps: seq<Step> ensures !Missed(Run(t, steps), l) {
        HeadingRun(t, steps, l);
      }
    } else if at.Pool? {
      MissUnlessSure(t, l);
    } else {
      var first := LoseKey(t, Pool, k, l);
      var u := Run(t, first);
      StillUnsure(t, u, at, k);
      MissUnlessSure(u, l);
      MissLater(t, first, l);
    }
  }

  lemma StartsAlike(s: State, l: int, at: At, k: Key)
    requires l !in s.lookups && Live(s, at)
    ensures var t := Next(s, Look(l, at, k));
            && Live(t, at) && Visible(t, at) == Visible(s, at)
            && (Sure(t, at, k) <==> Sure(s, at, k)) && (Kept(t, Pool, k) <==> Kept(s, Pool, k))
  {
    var t := Next(s, Look(l, at, k));
    forall b: At, m: int ensures Stale(t, b, k, m) <==> Stale(s, b, k, m) {
    }
  }

  lemma StillUnsure(s: State, t: State, at: At, k: Key)
    requires Live(s, at) && Live(t, at) && at.View? && !Sure(s, at, k)
    requires Content(t, at) == Content(s, at)
    requires forall b: At, m :: b != Pool && Stale(s, b, k, m) ==> Stale(t, b, k, m)
    ensures !Sure(t, at, k)
  {
    var m :| m in s.lookups && Stale(s, at, k, m);
    assert Stale(t, at, k, m);
    if HasKey(Content(s, at), k) {
      var x, y :| Stale(s, at, k, x) && Stale(s, at, k, y) && x != y;
      assert Stale(t, at, k, x) && Stale(t, at, k, y);
    }
  }

  // ---------------------------------------------------------------- a committed row missed

  /** One lookup on the pool-wide cache that has listed everything of a given set of rows. */
  function Listed(k: Key, rows: set<Row>): Seeker {
    Seeker(Pool, k, Listing(3, rows))
  }

  lemma ListAll(s: State, l: int, k: Key) returns (steps: seq<Step>)
    requires l !in s.lookups && !HasKey(s.pool, k)
    ensures Run(s, steps) == s.(lookups := s.lookups[l := Listed(k, s.committed)])
  {
    steps := [Look(l, Pool, k)] + [Advance(l), Advance(l), Advance(l), Advance(l)];
    var a := Next(s, Look(l, Pool, k));
    var b := Next(a, Advance(l));
    assert b == s.(lookups := s.lookups[l := Seeker(Pool, k, Listing(0, {}))]);
    var c := Next(b, Advance(l));
    var d := Next(c, Advance(l));
    var e := Next(d, Advance(l));
    var all := {} + OfTable(s.committed, 0) + OfTable(s.committed, 1) + OfTable(s.committed, 2);
    assert all == s.committed by {
      forall r | r in s.committed ensures r in all { assert Index(r.table) in {0, 1, 2}; }
    }
    assert e == s.(lookups := s.lookups[l := Listed(k, all)]);
    FiveSteps(s, Look(l, Pool, k), Advance(l), a, b, c, d, e);
  }

  lemma FiveSteps(s: State, first: Step, other: Step, a: State, b: State, c: State, d: State, e: State)
    requires a == Next(s, first) && b == Next(a, other) && c == Next(b, other) && d == Next(c, other) && e == Next(d, other)
    ensures Run(s, [first] + [other, other, other, other]) == e
  {
    assert Run(d, [other]) == Run(e, [other][1..]) == e;
    assert [other, other][1..] == [other];
    assert Run(c, [other, other]) == e;
    assert [other, other, other][1..] == [other, other];
    assert Run(b, [other, other, other]) == e;
    assert [other, other, other, other][1..] == [other, other, other];
    assert Run(a, [other, other, other, other]) == e;
    assert ([first] + [other, other, other, other])[1..] == [other, other, other, other];
  }

  lemma CommitRow(s: State, r: Row) returns (steps: seq<Step>)
    requires s.own == map[] && s.views == map[] && s.committed == {}
    ensures Run(s, steps) == s.(committed := {r})
  {
    steps := [Begin(0), Insert(0, r), End(0, true)];
    var a := Next(s, Begin(0));
    assert a == s.(own := map[0 := {}]);
    assert Insertable(a, r);
    var b := Next(a, Insert(0, r));
    assert {} + {r} == {r};
    assert b == s.(own := map[0 := {r}]);
    var c := Next(b, End(0, true));
    assert c.own == map[];
    assert forall l :: l in s.lookups ==> !Ends(b, 0, s.lookups[l].at);
    assert c.lookups == s.lookups;
    assert c.views == map[];
    assert c == s.(committed := {r});
    assert steps[1..] == [Insert(0, r), End(0, true)];
    assert steps[1..][1..] == [End(0, true)];
    assert Run(b, [End(0, true)]) == Run(c, [End(0, true)][1..]) == c;
  }

  /** Without that condition the promise fails, for every key: a lookup started after a row was
      committed ends in a miss of that row, because an older listing was installed in between. */
  lemma {:induction false} CommittedRowMissed(r: Row, k: Key)
    requires Matches(r, k)
    ensures exists before: seq<Step>, after: seq<Step>, l: int ::
              && r in Run(START, before).committed && l !in Run(START, before).lookups
              && Missed(Run(START, before + after), l)
  {
    var listing := ListAll(START, 1, k);
    var s1 := Run(START, listing);
    var commit := CommitRow(s1, r);
    var s2 := Run(s1, commit);
    RunConcat(START, listing, commit);
    var listing' := ListAll(s2, 2, k);
    var s3 := Run(s2, listing');
    assert Run(s3, [Advance(2)]) == Run(Next(s3, Advance(2)), [Advance(2)][1..]) == Next(s3, Advance(2));
    var s4 := Run(s3, [Advance(2)]);
    assert s4.lookups[1] == Listed(k, {}) && Stale(s4, Pool, k, 1);
    MissPossible(s4, 2);
    var rest :| Missed(Run(s4, rest), 2);
    RunConcat(s3, [Advance(2)], rest);
    RunConcat(s2, listing', [Advance(2)] + rest);
    RunConcat(START, listing + commit, listing' + ([Advance(2)] + rest));
  }
}
