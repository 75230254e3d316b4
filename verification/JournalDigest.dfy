/** CanonicalJournalDigest: the digest of a posting intent, independent of entry order and of how
    amounts are spelled. */
module JournalDigest {
  import opened Options
  import opened ByteCodes
  import opened Decimals
  import opened Amounts
  import opened Digests
  import opened Sequences

  datatype EntryInput = EntryInput(holder: Int64, currency: Bytes, classUid: Bytes, kind: Bytes, amount: Decimal)

  datatype JournalInput = JournalInput(journalType: Bytes, key: Bytes, entries: seq<EntryInput>, actor: Int64,
                                       source: Bytes, reversalOf: Bytes)

  // ---------------------------------------------------------------- the order of entries

  /** An entry with its amount read as a value. */
  datatype Valued = Valued(holder: Int64, currency: Bytes, classUid: Bytes, kind: Bytes, amount: real)

  function Reading(e: EntryInput): Valued {
    Valued(e.holder, e.currency, e.classUid, e.kind, Value(e.amount))
  }

  function Readings(es: seq<EntryInput>): (vs: seq<Valued>)
    ensures |vs| == |es| && forall i :: 0 <= i < |es| ==> vs[i] == Reading(es[i])
  {
    Map(Reading, es)
  }

  predicate EntryDigestLess(a: EntryInput, b: EntryInput) {
    if a.holder != b.holder then a.holder < b.holder
    else if a.currency != b.currency then LexLess(a.currency, b.currency)
    else if a.classUid != b.classUid then LexLess(a.classUid, b.classUid)
    else if a.kind != b.kind then LexLess(a.kind, b.kind)
    else Less(a.amount, b.amount)
  }

  ghost predicate ValuedLess(a: Valued, b: Valued) {
    if a.holder != b.holder then a.holder < b.holder
    else if a.currency != b.currency then LexLess(a.currency, b.currency)
    else if a.classUid != b.classUid then LexLess(a.classUid, b.classUid)
    else if a.kind != b.kind then LexLess(a.kind, b.kind)
    else a.amount < b.amount
  }

  lemma LessReads(a: EntryInput, b: EntryInput)
    ensures EntryDigestLess(a, b) <==> ValuedLess(Reading(a), Reading(b))
  {
  }

  /** The first of holder, currency, classification, type and amount that differs decides: numbers by size,
      texts by the first byte that differs, a text before its extensions. */
  lemma OrderExact(a: EntryInput, b: EntryInput)
    ensures EntryDigestLess(a, b)
       <==> || a.holder < b.holder
            || (a.holder == b.holder && (|| (exists k: nat :: DiffersAt(a.currency, b.currency, k))
                                         || (a.currency == b.currency && LaterFieldsLess(a, b))))
  {
    LexExact(a.currency, b.currency);
    LexExact(a.classUid, b.classUid);
    LexExact(a.kind, b.kind);
    if a.currency == b.currency { LexIrreflexive(a.currency); }
    if a.classUid == b.classUid { LexIrreflexive(a.classUid); }
    if a.kind == b.kind { LexIrreflexive(a.kind); }
  }

  ghost predicate LaterFieldsLess(a: EntryInput, b: EntryInput) {
    || (exists k: nat :: DiffersAt(a.classUid, b.classUid, k))
    || (a.classUid == b.classUid && (exists k: nat :: DiffersAt(a.kind, b.kind, k)))
    || (a.classUid == b.classUid && a.kind == b.kind && Value(a.amount) < Value(b.amount))
  }

  lemma LexIrreflexive(a: Bytes)
    ensures !LexLess(a, a)
  {
    if LexLess(a, a) { LexAsymmetric(a, a); }
  }

  lemma ValuedTotal(a: Valued, b: Valued)
    ensures a == b || ValuedLess(a, b) || ValuedLess(b, a)
  {
    LexTotal(a.currency, b.currency);
    LexTotal(a.classUid, b.classUid);
    LexTotal(a.kind, b.kind);
  }

  lemma ValuedAsymmetric(a: Valued, b: Valued)
    requires ValuedLess(a, b)
    ensures !ValuedLess(b, a) && a != b
  {
    if LexLess(a.currency, b.currency) { LexAsymmetric(a.currency, b.currency); }
    if LexLess(a.classUid, b.classUid) { LexAsymmetric(a.classUid, b.classUid); }
    if LexLess(a.kind, b.kind) { LexAsymmetric(a.kind, b.kind); }
  }

  lemma LexChain(a: Bytes, b: Bytes, c: Bytes)
    requires a == b || LexLess(a, b)
    requires b == c || LexLess(b, c)
    ensures a == c ==> a == b
    ensures a != c ==> LexLess(a, c)
  {
    if LexLess(a, b) && LexLess(b, c) {
      LexTransitive(a, b, c);
      LexAsymmetric(a, c);
    }
  }

  lemma ValuedTransitive(a: Valued, b: Valued, c: Valued)
    requires ValuedLess(a, b) && ValuedLess(b, c)
    ensures ValuedLess(a, c)
  {
    if a.holder == b.holder == c.holder {
      LexChain(a.currency, b.currency, c.currency);
      if a.currency == c.currency {
        LexChain(a.classUid, b.classUid, c.classUid);
        if a.classUid == c.classUid {
          LexChain(a.kind, b.kind, c.kind);
        }
      }
    }
  }

  ghost predicate SortedReadings(vs: seq<Valued>) {
    forall i, j :: 0 <= i < j < |vs| ==> !ValuedLess(vs[j], vs[i])
  }

  lemma SortedReads(es: seq<EntryInput>)
    requires Sorted(EntryDigestLess, es)
    ensures SortedReadings(Readings(es))
  {
    forall i, j | 0 <= i < j < |es| ensures !ValuedLess(Readings(es)[j], Readings(es)[i]) {
      LessReads(es[j], es[i]);
    }
  }

  lemma HeadIsLeast(vs: seq<Valued>, v: Valued)
    requires SortedReadings(vs) && v in vs
    ensures !ValuedLess(v, vs[0])
  {
    var i :| 0 <= i < |vs| && vs[i] == v;
    if ValuedLess(v, vs[0]) && i == 0 {
      ValuedAsymmetric(v, v);
    }
  }

  /** Two sorted orders of one multiset start alike. */
  lemma SameHead(vs: seq<Valued>, ws: seq<Valued>)
    requires SortedReadings(vs) && SortedReadings(ws) && multiset(vs) == multiset(ws) && |vs| > 0
    ensures |ws| > 0 && vs[0] == ws[0]
    ensures multiset(vs[1..]) == multiset(ws[1..])
  {
    assert vs[0] in multiset(vs);
    var i := Occurs(ws, vs[0]);
    assert ws[0] in multiset(ws);
    var j := Occurs(vs, ws[0]);
    HeadIsLeast(vs, ws[0]);
    HeadIsLeast(ws, vs[0]);
    ValuedTotal(vs[0], ws[0]);
    RemoveAtMultiset(vs, 0);
    RemoveAtMultiset(ws, 0);
    assert RemoveAt(vs, 0) == vs[1..] && RemoveAt(ws, 0) == ws[1..];
  }

  /** A multiset of readings has one sorted order. */
  lemma {:induction false} SortedOnce(vs: seq<Valued>, ws: seq<Valued>)
    requires SortedReadings(vs) && SortedReadings(ws) && multiset(vs) == multiset(ws)
    ensures vs == ws
  {
    if |vs| == 0 {
      assert |multiset(ws)| == 0;
    } else {
      SameHead(vs, ws);
      SortedOnce(vs[1..], ws[1..]);
      assert vs == [vs[0]] + vs[1..] && ws == [ws[0]] + ws[1..];
    }
  }

  // ---------------------------------------------------------------- the digest

  predicate Encodable(e: EntryInput) {
    EncodeAmount(e.amount).Ok?
  }

  function KeyOf(e: EntryInput): (k: EntryKey) {
    EntryKey(e.holder, e.currency, e.classUid, e.kind, match Scaled(e.amount) case Ok(n) => n case Err => 0)
  }

  function KeysOf(es: seq<EntryInput>): (ks: seq<EntryKey>)
    ensures |ks| == |es| && forall i :: 0 <= i < |es| ==> ks[i] == KeyOf(es[i])
  {
    seq(|es|, i requires 0 <= i < |es| => KeyOf(es[i]))
  }

  lemma KeyReads(a: EntryInput, b: EntryInput)
    requires Encodable(a) && Encodable(b)
    ensures KeyOf(a) == KeyOf(b) <==> Reading(a) == Reading(b)
    ensures Fits(KeyOf(a).units) && AmountBytes(KeyOf(a).units) == EncodeAmount(a.amount).value
  {
    ScaledSpec(a.amount, KeyOf(a).units);
    ScaledSpec(b.amount, KeyOf(b).units);
    UnitsUnique(a.amount, KeyOf(a).units, b.amount, KeyOf(b).units);
  }

  /** Entries the sort cannot tell apart are encoded alike, so its instability never shows. */
  lemma TiesEncodeAlike(a: EntryInput, b: EntryInput)
    requires Encodable(a) && Encodable(b)
    requires !EntryDigestLess(a, b) && !EntryDigestLess(b, a)
    ensures EncodeEntry(KeyOf(a)) == EncodeEntry(KeyOf(b))
  {
    LessReads(a, b);
    LessReads(b, a);
    ValuedTotal(Reading(a), Reading(b));
    KeyReads(a, b);
  }

  /** The hashed content, given the order the sort left the entries in. */
  function ContentOf(input: JournalInput, nanos: int, sorted: seq<EntryInput>): Content {
    Journal(input.journalType, input.key, input.actor, input.source, Micros(nanos), input.reversalOf, KeysOf(sorted))
  }

  ghost predicate IsSortOf(sorted: seq<EntryInput>, es: seq<EntryInput>) {
    Sorted(EntryDigestLess, sorted) && multiset(sorted) == multiset(es)
  }

  /** Two postings ask for the same thing: equal fields, one microsecond, the same entries in any
      order and any spelling of their amounts. */
  ghost predicate SameIntent(a: JournalInput, nanosA: int, b: JournalInput, nanosB: int) {
    && a.journalType == b.journalType && a.key == b.key && a.actor == b.actor
    && a.source == b.source && a.reversalOf == b.reversalOf
    && Micros(nanosA) == Micros(nanosB)
    && multiset(Readings(a.entries)) == multiset(Readings(b.entries))
  }

  ghost predicate Postable(fmt: Formatter, input: JournalInput, nanos: int) {
    && Short(input.journalType) && Short(input.key) && Short(input.source) && Short(input.reversalOf)
    && Short(fmt(Micros(nanos)))
    && |input.entries| < 0x8000_0000_0000_0000
    && forall e :: e in input.entries ==> Encodable(e) && Short(e.currency) && Short(e.classUid) && Short(e.kind)
  }

  lemma SortedEntriesOf(fmt: Formatter, input: JournalInput, nanos: int, sorted: seq<EntryInput>)
    requires Postable(fmt, input, nanos) && IsSortOf(sorted, input.entries)
    ensures |sorted| == |input.entries|
    ensures forall i :: 0 <= i < |sorted| ==>
              Encodable(sorted[i]) && Short(sorted[i].currency) && Short(sorted[i].classUid) && Short(sorted[i].kind)
  {
    assert |multiset(sorted)| == |multiset(input.entries)|;
    forall i | 0 <= i < |sorted| ensures sorted[i] in input.entries {
      assert sorted[i] in multiset(input.entries);
    }
  }

  lemma ContentFramed(fmt: Formatter, input: JournalInput, nanos: int, sorted: seq<EntryInput>)
    requires Postable(fmt, input, nanos) && IsSortOf(sorted, input.entries)
    ensures Framed(fmt, ContentOf(input, nanos, sorted))
  {
    SortedEntriesOf(fmt, input, nanos, sorted);
    forall i | 0 <= i < |sorted| ensures FramedEntry(KeysOf(sorted)[i]) {
      KeyReads(sorted[i], sorted[i]);
    }
  }

  /** Preimages are equal exactly for equal intents, whatever orders the two sorts produced. */
  lemma JournalPreimageCanonical(fmt: Formatter, a: JournalInput, nanosA: int, sortedA: seq<EntryInput>,
                                 b: JournalInput, nanosB: int, sortedB: seq<EntryInput>)
    requires Faithful(fmt) && Postable(fmt, a, nanosA) && Postable(fmt, b, nanosB)
    requires IsSortOf(sortedA, a.entries) && IsSortOf(sortedB, b.entries)
    ensures Encode(fmt, ContentOf(a, nanosA, sortedA)) == Encode(fmt, ContentOf(b, nanosB, sortedB))
       <==> SameIntent(a, nanosA, b, nanosB)
  {
    var c, d := ContentOf(a, nanosA, sortedA), ContentOf(b, nanosB, sortedB);
    ContentFramed(fmt, a, nanosA, sortedA);
    ContentFramed(fmt, b, nanosB, sortedB);
    MapPermutation(Reading, sortedA, a.entries);
    MapPermutation(Reading, sortedB, b.entries);
    SortedEntriesOf(fmt, a, nanosA, sortedA);
    SortedEntriesOf(fmt, b, nanosB, sortedB);
    if Encode(fmt, c) == Encode(fmt, d) {
      EncodeInjective(fmt, c, d);
      SameKeysSameReadings(sortedA, sortedB);
    }
    if SameIntent(a, nanosA, b, nanosB) {
      SortedReads(sortedA);
      SortedReads(sortedB);
      SortedOnce(Readings(sortedA), Readings(sortedB));
      SameKeysSameReadings(sortedA, sortedB);
    }
  }

  lemma SameKeysSameReadings(es: seq<EntryInput>, fs: seq<EntryInput>)
    requires forall i :: 0 <= i < |es| ==> Encodable(es[i])
    requires forall i :: 0 <= i < |fs| ==> Encodable(fs[i])
    ensures KeysOf(es) == KeysOf(fs) <==> Readings(es) == Readings(fs)
  {
    if |es| == |fs| {
      forall i | 0 <= i < |es| ensures KeyOf(es[i]) == KeyOf(fs[i]) <==> Reading(es[i]) == Reading(fs[i]) {
        KeyReads(es[i], fs[i]);
      }
      if KeysOf(es) == KeysOf(fs) {
        forall i | 0 <= i < |es| ensures Readings(es)[i] == Readings(fs)[i] {
          assert KeysOf(es)[i] == KeysOf(fs)[i];
        }
      }
      if Readings(es) == Readings(fs) {
        forall i | 0 <= i < |es| ensures KeysOf(es)[i] == KeysOf(fs)[i] {
          assert Readings(es)[i] == Readings(fs)[i];
        }
      }
    } else {
      assert |KeysOf(es)| != |KeysOf(fs)| && |Readings(es)| != |Readings(fs)|;
    }
  }

  /** Equal digests mean equal intents, or the two preimages collide. */
  lemma JournalDigestBinds(sha: HashFn, fmt: Formatter, a: JournalInput, nanosA: int, sortedA: seq<EntryInput>,
                           b: JournalInput, nanosB: int, sortedB: seq<EntryInput>)
    requires Faithful(fmt) && Postable(fmt, a, nanosA) && Postable(fmt, b, nanosB)
    requires IsSortOf(sortedA, a.entries) && IsSortOf(sortedB, b.entries)
    ensures var p, q := Encode(fmt, ContentOf(a, nanosA, sortedA)), Encode(fmt, ContentOf(b, nanosB, sortedB));
            sha(p) == sha(q) ==> SameIntent(a, nanosA, b, nanosB) || Collides(sha, {p}, {q})
  {
    JournalPreimageCanonical(fmt, a, nanosA, sortedA, b, nanosB, sortedB);
    var p, q := Encode(fmt, ContentOf(a, nanosA, sortedA)), Encode(fmt, ContentOf(b, nanosB, sortedB));
    if sha(p) == sha(q) && p != q {
      CollidesWith(sha, {p}, {q}, p, q);
    }
  }

  // ---------------------------------------------------------------- as computed

  lemma EntryOrder()
    ensures WeakOrder(EntryDigestLess)
  {
    forall a, b | EntryDigestLess(a, b) ensures !EntryDigestLess(b, a) {
      LessReads(a, b);
      LessReads(b, a);
      ValuedAsymmetric(Reading(a), Reading(b));
    }
    forall a, b, c | !EntryDigestLess(b, a) && !EntryDigestLess(c, b) ensures !EntryDigestLess(c, a) {
      NotLessTransitive(a, b, c);
    }
  }

  lemma NotLessTransitive(a: EntryInput, b: EntryInput, c: EntryInput)
    requires !EntryDigestLess(b, a) && !EntryDigestLess(c, b)
    ensures !EntryDigestLess(c, a)
  {
    LessReads(b, a);
    LessReads(c, b);
    LessReads(c, a);
    var x, y, z := Reading(a), Reading(b), Reading(c);
    ValuedTotal(x, y);
    ValuedTotal(y, z);
    if ValuedLess(z, x) {
      if ValuedLess(x, y) { ValuedTransitive(z, x, y); }
    }
  }

  function EncodeInput(e: EntryInput): (r: Result<Bytes>) {
    match EncodeAmount(e.amount)
    case Err => Err
    case Ok(amount) => Ok(BE64(e.holder) + LP(e.currency) + LP(e.classUid) + LP(e.kind) + amount)
  }

  lemma EncodedInputIsEntry(e: EntryInput)
    ensures EncodeInput(e).Ok? <==> Encodable(e)
    ensures Encodable(e) ==> EncodeInput(e).value == EncodeEntry(KeyOf(e))
  {
    if Encodable(e) { KeyReads(e, e); }
  }

  lemma {:induction false} EntriesConcat(es: seq<EntryInput>)
    requires forall i :: 0 <= i < |es| ==> Encodable(es[i])
    ensures Concat(EncodeInput, es) == EncodeEntries(KeysOf(es))
  {
    if |es| > 0 {
      EncodedInputIsEntry(es[0]);
      EntriesConcat(es[1..]);
      assert KeysOf(es)[1..] == KeysOf(es[1..]);
    }
  }

  function JournalHead(fmt: Formatter, input: JournalInput, nanos: int): Bytes {
    [0x10] + LP(input.journalType) + LP(input.key) + BE64(input.actor) + LP(input.source)
    + LP(fmt(Micros(nanos))) + LP(input.reversalOf)
  }

  /** Fails exactly when some amount does not encode; otherwise hashes the canonical preimage. */
  method CanonicalJournalDigest(sha: HashFn, fmt: Formatter, input: JournalInput, nanos: int)
    returns (r: Result<Digest>, ghost sorted: seq<EntryInput>)
    ensures r.Ok? <==> forall e :: e in input.entries ==> Encodable(e)
    ensures IsSortOf(sorted, input.entries)
    ensures r.Ok? ==> r.value == sha(Encode(fmt, ContentOf(input, nanos, sorted)))
  {
    var buf: Bytes := [0x10];
    buf := buf + LP(input.journalType);
    buf := buf + LP(input.key);
    buf := buf + BE64(input.actor);
    buf := buf + LP(input.source);
    buf := buf + LP(fmt(Micros(nanos)));
    buf := buf + LP(input.reversalOf);

    var entries := new EntryInput[|input.entries|](i requires 0 <= i < |input.entries| => input.entries[i]);
    assert entries[..] == input.entries;
    EntryOrder();
    Sort(entries, EntryDigestLess);
    sorted := entries[..];

    buf := buf + BE64(entries.Length);
    var written := WriteAll(EncodeInput, buf, entries[..]);
    forall i | 0 <= i < |sorted| ensures EncodeInput(sorted[i]).Ok? <==> Encodable(sorted[i]) {
      EncodedInputIsEntry(sorted[i]);
    }
    EncodableInAnyOrder(sorted, input.entries);
    match written {
      case Err => r := Err;
      case Ok(preimage) =>
        EntriesConcat(sorted);
        AssembleJournal(fmt, input, nanos, sorted);
        r := Ok(sha(preimage));
    }
  }

  lemma EncodableInAnyOrder(sorted: seq<EntryInput>, es: seq<EntryInput>)
    requires multiset(sorted) == multiset(es)
    ensures (forall i :: 0 <= i < |sorted| ==> Encodable(sorted[i])) <==> (forall e :: e in es ==> Encodable(e))
    ensures |sorted| == |es|
  {
    assert |multiset(sorted)| == |multiset(es)|;
    assert forall e :: e in sorted <==> e in multiset(sorted);
    assert forall e :: e in es <==> e in multiset(es);
  }

  lemma AssembleJournal(fmt: Formatter, input: JournalInput, nanos: int, sorted: seq<EntryInput>)
    ensures JournalHead(fmt, input, nanos) + BE64(|sorted|) + EncodeEntries(KeysOf(sorted))
         == Encode(fmt, ContentOf(input, nanos, sorted))
  {
    var tag: Bytes := [0x10];
    var f1 := LP(input.journalType);
    var f2 := f1 + LP(input.key);
    var f3 := f2 + BE64(input.actor);
    var f4 := f3 + LP(input.source);
    var f5 := f4 + LP(fmt(Micros(nanos)));
    var f6 := f5 + LP(input.reversalOf);
    var f7 := f6 + BE64(|sorted|);
    Reassoc(tag, f1, LP(input.key));
    Reassoc(tag, f2, BE64(input.actor));
    Reassoc(tag, f3, LP(input.source));
    Reassoc(tag, f4, LP(fmt(Micros(nanos))));
    Reassoc(tag, f5, LP(input.reversalOf));
    Reassoc(tag, f6, BE64(|sorted|));
    Reassoc(tag, f7, EncodeEntries(KeysOf(sorted)));
  }
}
