/** Everything the ledger hashes, as one datatype of canonical contents and one encoding, and the
    proof that the encoding tells every two contents apart. */
module Digests {
  import opened ByteCodes
  import opened Amounts

  /** RFC 3339 rendering of a UTC microsecond instant, kept abstract. */
  type Formatter = int -> Bytes

  /** Different instants render differently; how long a rendering may be is asked of the instants used. */
  ghost predicate Faithful(fmt: Formatter) {
    forall m, n :: fmt(m) == fmt(n) ==> m == n
  }

  /** A rendering that is faithful everywhere and eight bytes long on every int64 instant. */
  function FixedWidth(m: int): Bytes {
    if -0x8000_0000_0000_0000 <= m < 0x8000_0000_0000_0000 then BE64(m)
    else if m > 0 then seq(m, _ => 0)
    else seq(0 - m, _ => 1)
  }

  /** Faithful formatters that render every int64 instant in eight bytes exist, so what is asked of them can
      be met. */
  lemma FormatterExists()
    ensures exists fmt: Formatter :: Faithful(fmt) && forall m: Int64 :: |fmt(m)| == 8 && Short(fmt(m))
  {
    var fmt: Formatter := FixedWidth;
    forall m, n | fmt(m) == fmt(n) ensures m == n {
      FixedWidthFaithful(m, n);
    }
    assert Faithful(fmt) && forall m: Int64 :: |fmt(m)| == 8 && Short(fmt(m));
  }

  lemma FixedWidthFaithful(m: int, n: int)
    requires FixedWidth(m) == FixedWidth(n)
    ensures m == n
  {
    var a, b := FixedWidth(m), FixedWidth(n);
    if |a| == 8 {
      PeelBE64(m, n, [], []);
    } else {
      assert |a| > 8 && |b| > 8;
      assert a[0] == b[0];
    }
  }

  /** canonicalTimestamp: nanoseconds floored to microseconds. */
  function Micros(nanos: int): (m: int)
    ensures m * 1000 <= nanos < (m + 1) * 1000
  {
    nanos / 1000
  }

  /** One journal entry as its digest sees it; `units` counts 10^-18. */
  datatype EntryKey = EntryKey(holder: Int64, currency: Bytes, classUid: Bytes, kind: Bytes, units: int)

  /** One attested row as its digest sees it. */
  datatype RowKey = RowKey(entryId: Int64, journalId: Int64, holder: Int64, currencyId: Int64, classId: Int64,
                           kind: Bytes, units: int, micros: int)

  datatype VerdictKey = VerdictKey(entryId: Int64, verdict: Bytes)

  datatype Content =
    | Journal(journalType: Bytes, key: Bytes, actor: Int64, source: Bytes, micros: int, reversalOf: Bytes,
              entries: seq<EntryKey>)
    | Batch(rows: seq<RowKey>)
    | Verdicts(verdicts: seq<VerdictKey>)
    | RootV1(seqno: Int64, prev: Digest, batch: Digest, count: Int64)
    | RootV2(seqno: Int64, prev: Digest, batch: Digest, merkle: Digest, count: Int64)
    | RootV3(seqno: Int64, prev: Digest, batch: Digest, merkle: Digest, verdict: Digest, count: Int64)
    | Discharge(uid: Bytes, operation: Bytes, key: Bytes, micros: int, units: int)
    | Leaf(payload: Bytes)
    | Interior(left: Digest, right: Digest)

  // ---------------------------------------------------------------- encoding

  ghost predicate Fits(units: int) {
    TwosComplement(units, AMOUNT_WIDTH).Ok?
  }

  function AmountBytes(units: int): (b: Bytes)
    ensures |b| == AMOUNT_WIDTH
  {
    match TwosComplement(units, AMOUNT_WIDTH)
    case Ok(b) => b
    case Err => Zeros(AMOUNT_WIDTH)
  }

  function EncodeEntry(k: EntryKey): Bytes {
    BE64(k.holder) + LP(k.currency) + LP(k.classUid) + LP(k.kind) + AmountBytes(k.units)
  }

  function EncodeRow(fmt: Formatter, k: RowKey): Bytes {
    BE64(k.entryId) + BE64(k.journalId) + BE64(k.holder) + BE64(k.currencyId) + BE64(k.classId)
    + LP(k.kind) + AmountBytes(k.units) + LP(fmt(k.micros))
  }

  function EncodeVerdict(k: VerdictKey): Bytes {
    BE64(k.entryId) + LP(k.verdict)
  }

  function EncodeEntries(ks: seq<EntryKey>): Bytes {
    if |ks| == 0 then [] else EncodeEntry(ks[0]) + EncodeEntries(ks[1..])
  }

  function EncodeRows(fmt: Formatter, ks: seq<RowKey>): Bytes {
    if |ks| == 0 then [] else EncodeRow(fmt, ks[0]) + EncodeRows(fmt, ks[1..])
  }

  function EncodeVerdicts(ks: seq<VerdictKey>): Bytes {
    if |ks| == 0 then [] else EncodeVerdict(ks[0]) + EncodeVerdicts(ks[1..])
  }

  function Tag(c: Content): Byte {
    match c
    case Journal(_, _, _, _, _, _, _) => 0x10
    case Batch(_) => 0x02
    case Verdicts(_) => 0x13
    case RootV1(_, _, _, _) => 0x03
    case RootV2(_, _, _, _, _) => 0x11
    case RootV3(_, _, _, _, _, _) => 0x12
    case Discharge(_, _, _, _, _) => 0x11
    case Leaf(_) => 0x00
    case Interior(_, _) => 0x01
  }

  function Body(fmt: Formatter, c: Content): Bytes {
    match c
    case Journal(typ, key, actor, source, micros, reversalOf, entries) =>
      LP(typ) + LP(key) + BE64(actor) + LP(source) + LP(fmt(micros)) + LP(reversalOf)
      + BE64(|entries|) + EncodeEntries(entries)
    case Batch(rows) => BE64(|rows|) + EncodeRows(fmt, rows)
    case Verdicts(verdicts) => BE64(|verdicts|) + EncodeVerdicts(verdicts)
    case RootV1(n, prev, batch, count) => BE64(n) + prev + batch + BE64(count)
    case RootV2(n, prev, batch, merkle, count) => BE64(n) + prev + batch + merkle + BE64(count)
    case RootV3(n, prev, batch, merkle, verdict, count) => BE64(n) + prev + batch + merkle + verdict + BE64(count)
    case Discharge(uid, op, key, micros, units) =>
      LP(uid) + LP(op) + LP(key) + LP(fmt(micros)) + AmountBytes(units)
    case Leaf(payload) => payload
    case Interior(left, right) => left + right
  }

  /** The preimage handed to SHA-256. */
  function Encode(fmt: Formatter, c: Content): (b: Bytes)
    ensures |b| > 0 && b[0] == Tag(c)
  {
    [Tag(c)] + Body(fmt, c)
  }

  /** Strings short enough not to wrap their prefixes, slices an int can index, amounts that encode. */
  ghost predicate Framed(fmt: Formatter, c: Content) {
    match c
    case Journal(typ, key, _, source, micros, reversalOf, entries) =>
      && Short(typ) && Short(key) && Short(source) && Short(fmt(micros)) && Short(reversalOf)
      && |entries| < 0x8000_0000_0000_0000
      && forall i :: 0 <= i < |entries| ==> FramedEntry(entries[i])
    case Batch(rows) => |rows| < 0x8000_0000_0000_0000 && forall i :: 0 <= i < |rows| ==> FramedRow(fmt, rows[i])
    case Verdicts(verdicts) =>
      && |verdicts| < 0x8000_0000_0000_0000
      && forall i :: 0 <= i < |verdicts| ==> Short(verdicts[i].verdict)
    case Discharge(uid, op, key, micros, units) =>
      Short(uid) && Short(op) && Short(key) && Short(fmt(micros)) && Fits(units)
    case _ => true
  }

  ghost predicate FramedEntry(k: EntryKey) {
    Short(k.currency) && Short(k.classUid) && Short(k.kind) && Fits(k.units)
  }

  ghost predicate FramedRow(fmt: Formatter, k: RowKey) {
    Short(k.kind) && Fits(k.units) && Short(fmt(k.micros))
  }

  // ---------------------------------------------------------------- peeling one record

  lemma Reassoc(a: Bytes, b: Bytes, r: Bytes)
    ensures (a + b) + r == a + (b + r)
  {
  }

  lemma PeelAmount(u: int, v: int, r: Bytes, s: Bytes)
    requires Fits(u) && Fits(v) && AmountBytes(u) + r == AmountBytes(v) + s
    ensures u == v && r == s
  {
    PeelFixed(AmountBytes(u), AmountBytes(v), r, s);
    FromTwosComplementInverts(u, AMOUNT_WIDTH);
    FromTwosComplementInverts(v, AMOUNT_WIDTH);
  }

  lemma EntryNested(k: EntryKey, r: Bytes)
    ensures EncodeEntry(k) + r
         == BE64(k.holder) + (LP(k.currency) + (LP(k.classUid) + (LP(k.kind) + (AmountBytes(k.units) + r))))
  {
  }

  lemma PeelEntry(k: EntryKey, l: EntryKey, r: Bytes, s: Bytes)
    requires FramedEntry(k) && FramedEntry(l) && EncodeEntry(k) + r == EncodeEntry(l) + s
    ensures k == l && r == s
  {
    EntryNested(k, r);
    EntryNested(l, s);
    var r4, s4 := AmountBytes(k.units) + r, AmountBytes(l.units) + s;
    var r3, s3 := LP(k.kind) + r4, LP(l.kind) + s4;
    var r2, s2 := LP(k.classUid) + r3, LP(l.classUid) + s3;
    var r1, s1 := LP(k.currency) + r2, LP(l.currency) + s2;
    PeelBE64(k.holder, l.holder, r1, s1);
    PeelLP(k.currency, l.currency, r2, s2);
    PeelLP(k.classUid, l.classUid, r3, s3);
    PeelLP(k.kind, l.kind, r4, s4);
    PeelAmount(k.units, l.units, r, s);
  }

  lemma RowNested(fmt: Formatter, k: RowKey, r: Bytes)
    ensures EncodeRow(fmt, k) + r
         == BE64(k.entryId) + (BE64(k.journalId) + (BE64(k.holder) + (BE64(k.currencyId) + (BE64(k.classId)
            + (LP(k.kind) + (AmountBytes(k.units) + (LP(fmt(k.micros)) + r)))))))
  {
  }

  lemma PeelRow(fmt: Formatter, k: RowKey, l: RowKey, r: Bytes, s: Bytes)
    requires Faithful(fmt) && FramedRow(fmt, k) && FramedRow(fmt, l)
    requires EncodeRow(fmt, k) + r == EncodeRow(fmt, l) + s
    ensures k == l && r == s
  {
    RowNested(fmt, k, r);
    RowNested(fmt, l, s);
    var r7, s7 := LP(fmt(k.micros)) + r, LP(fmt(l.micros)) + s;
    var r6, s6 := AmountBytes(k.units) + r7, AmountBytes(l.units) + s7;
    var r5, s5 := LP(k.kind) + r6, LP(l.kind) + s6;
    var r4, s4 := BE64(k.classId) + r5, BE64(l.classId) + s5;
    var r3, s3 := BE64(k.currencyId) + r4, BE64(l.currencyId) + s4;
    var r2, s2 := BE64(k.holder) + r3, BE64(l.holder) + s3;
    var r1, s1 := BE64(k.journalId) + r2, BE64(l.journalId) + s2;
    PeelBE64(k.entryId, l.entryId, r1, s1);
    PeelBE64(k.journalId, l.journalId, r2, s2);
    PeelBE64(k.holder, l.holder, r3, s3);
    PeelBE64(k.currencyId, l.currencyId, r4, s4);
    PeelBE64(k.classId, l.classId, r5, s5);
    PeelLP(k.kind, l.kind, r6, s6);
    PeelAmount(k.units, l.units, r7, s7);
    PeelLP(fmt(k.micros), fmt(l.micros), r, s);
  }

  // ---------------------------------------------------------------- peeling lists

  lemma {:induction false} EntriesInjective(ks: seq<EntryKey>, ls: seq<EntryKey>)
    requires |ks| == |ls| && EncodeEntries(ks) == EncodeEntries(ls)
    requires forall i :: 0 <= i < |ks| ==> FramedEntry(ks[i]) && FramedEntry(ls[i])
    ensures ks == ls
  {
    if |ks| > 0 {
      PeelEntry(ks[0], ls[0], EncodeEntries(ks[1..]), EncodeEntries(ls[1..]));
      EntriesInjective(ks[1..], ls[1..]);
      assert ks == [ks[0]] + ks[1..] && ls == [ls[0]] + ls[1..];
    }
  }

  lemma {:induction false} RowsInjective(fmt: Formatter, ks: seq<RowKey>, ls: seq<RowKey>)
    requires Faithful(fmt) && |ks| == |ls| && EncodeRows(fmt, ks) == EncodeRows(fmt, ls)
    requires forall i :: 0 <= i < |ks| ==> FramedRow(fmt, ks[i]) && FramedRow(fmt, ls[i])
    ensures ks == ls
  {
    if |ks| > 0 {
      PeelRow(fmt, ks[0], ls[0], EncodeRows(fmt, ks[1..]), EncodeRows(fmt, ls[1..]));
      RowsInjective(fmt, ks[1..], ls[1..]);
      assert ks == [ks[0]] + ks[1..] && ls == [ls[0]] + ls[1..];
    }
  }

  lemma {:induction false} VerdictsInjective(ks: seq<VerdictKey>, ls: seq<VerdictKey>)
    requires |ks| == |ls| && EncodeVerdicts(ks) == EncodeVerdicts(ls)
    requires forall i :: 0 <= i < |ks| ==> Short(ks[i].verdict) && Short(ls[i].verdict)
    ensures ks == ls
  {
    if |ks| > 0 {
      var r, s := EncodeVerdicts(ks[1..]), EncodeVerdicts(ls[1..]);
      Reassoc(BE64(ks[0].entryId), LP(ks[0].verdict), r);
      Reassoc(BE64(ls[0].entryId), LP(ls[0].verdict), s);
      PeelBE64(ks[0].entryId, ls[0].entryId, LP(ks[0].verdict) + r, LP(ls[0].verdict) + s);
      PeelLP(ks[0].verdict, ls[0].verdict, r, s);
      VerdictsInjective(ks[1..], ls[1..]);
      assert ks == [ks[0]] + ks[1..] && ls == [ls[0]] + ls[1..];
    }
  }

  // ---------------------------------------------------------------- one kind at a time

  lemma JournalInjective(fmt: Formatter, c: Content, d: Content)
    requires Faithful(fmt) && c.Journal? && d.Journal? && Framed(fmt, c) && Framed(fmt, d)
    requires Body(fmt, c) == Body(fmt, d)
    ensures c == d
  {
    JournalNested(fmt, c);
    JournalNested(fmt, d);
    var r7, s7 := EncodeEntries(c.entries), EncodeEntries(d.entries);
    var r6, s6 := BE64(|c.entries|) + r7, BE64(|d.entries|) + s7;
    var r5, s5 := LP(c.reversalOf) + r6, LP(d.reversalOf) + s6;
    var r4, s4 := LP(fmt(c.micros)) + r5, LP(fmt(d.micros)) + s5;
    var r3, s3 := LP(c.source) + r4, LP(d.source) + s4;
    var r2, s2 := BE64(c.actor) + r3, BE64(d.actor) + s3;
    var r1, s1 := LP(c.key) + r2, LP(d.key) + s2;
    PeelLP(c.journalType, d.journalType, r1, s1);
    PeelLP(c.key, d.key, r2, s2);
    PeelBE64(c.actor, d.actor, r3, s3);
    PeelLP(c.source, d.source, r4, s4);
    PeelLP(fmt(c.micros), fmt(d.micros), r5, s5);
    PeelLP(c.reversalOf, d.reversalOf, r6, s6);
    PeelBE64(|c.entries|, |d.entries|, r7, s7);
    EntriesInjective(c.entries, d.entries);
  }

  lemma JournalNested(fmt: Formatter, c: Content)
    requires c.Journal?
    ensures Body(fmt, c)
         == LP(c.journalType) + (LP(c.key) + (BE64(c.actor) + (LP(c.source) + (LP(fmt(c.micros))
            + (LP(c.reversalOf) + (BE64(|c.entries|) + EncodeEntries(c.entries)))))))
  {
  }

  lemma BatchInjective(fmt: Formatter, c: Content, d: Content)
    requires Faithful(fmt) && c.Batch? && d.Batch? && Framed(fmt, c) && Framed(fmt, d)
    requires Body(fmt, c) == Body(fmt, d)
    ensures c == d
  {
    PeelBE64(|c.rows|, |d.rows|, EncodeRows(fmt, c.rows), EncodeRows(fmt, d.rows));
    RowsInjective(fmt, c.rows, d.rows);
  }

  lemma VerdictListInjective(fmt: Formatter, c: Content, d: Content)
    requires c.Verdicts? && d.Verdicts? && Framed(fmt, c) && Framed(fmt, d)
    requires Body(fmt, c) == Body(fmt, d)
    ensures c == d
  {
    PeelBE64(|c.verdicts|, |d.verdicts|, EncodeVerdicts(c.verdicts), EncodeVerdicts(d.verdicts));
    VerdictsInjective(c.verdicts, d.verdicts);
  }

  lemma RootV1Injective(fmt: Formatter, c: Content, d: Content)
    requires c.RootV1? && d.RootV1? && Body(fmt, c) == Body(fmt, d)
    ensures c == d
  {
    var r2, s2 := BE64(c.count), BE64(d.count);
    var r1, s1 := c.batch + r2, d.batch + s2;
    assert Body(fmt, c) == BE64(c.seqno) + (c.prev + r1) && Body(fmt, d) == BE64(d.seqno) + (d.prev + s1);
    PeelBE64(c.seqno, d.seqno, c.prev + r1, d.prev + s1);
    PeelFixed(c.prev, d.prev, r1, s1);
    PeelFixed(c.batch, d.batch, r2, s2);
    PeelBE64(c.count, d.count, [], []);
  }

  lemma RootV2Injective(fmt: Formatter, c: Content, d: Content)
    requires c.RootV2? && d.RootV2? && Body(fmt, c) == Body(fmt, d)
    ensures c == d
  {
    var r3, s3 := BE64(c.count), BE64(d.count);
    var r2, s2 := c.merkle + r3, d.merkle + s3;
    var r1, s1 := c.batch + r2, d.batch + s2;
    assert Body(fmt, c) == BE64(c.seqno) + (c.prev + r1) && Body(fmt, d) == BE64(d.seqno) + (d.prev + s1);
    PeelBE64(c.seqno, d.seqno, c.prev + r1, d.prev + s1);
    PeelFixed(c.prev, d.prev, r1, s1);
    PeelFixed(c.batch, d.batch, r2, s2);
    PeelFixed(c.merkle, d.merkle, r3, s3);
    PeelBE64(c.count, d.count, [], []);
  }

  lemma RootV3Injective(fmt: Formatter, c: Content, d: Content)
    requires c.RootV3? && d.RootV3? && Body(fmt, c) == Body(fmt, d)
    ensures c == d
  {
    var r4, s4 := BE64(c.count), BE64(d.count);
    var r3, s3 := c.verdict + r4, d.verdict + s4;
    var r2, s2 := c.merkle + r3, d.merkle + s3;
    var r1, s1 := c.batch + r2, d.batch + s2;
    assert Body(fmt, c) == BE64(c.seqno) + (c.prev + r1) && Body(fmt, d) == BE64(d.seqno) + (d.prev + s1);
    PeelBE64(c.seqno, d.seqno, c.prev + r1, d.prev + s1);
    PeelFixed(c.prev, d.prev, r1, s1);
    PeelFixed(c.batch, d.batch, r2, s2);
    PeelFixed(c.merkle, d.merkle, r3, s3);
    PeelFixed(c.verdict, d.verdict, r4, s4);
    PeelBE64(c.count, d.count, [], []);
  }

  lemma DischargeInjective(fmt: Formatter, c: Content, d: Content)
    requires Faithful(fmt) && c.Discharge? && d.Discharge? && Framed(fmt, c) && Framed(fmt, d)
    requires Body(fmt, c) == Body(fmt, d)
    ensures c == d
  {
    DischargeNested(fmt, c);
    DischargeNested(fmt, d);
    var r4, s4 := AmountBytes(c.units), AmountBytes(d.units);
    var r3, s3 := LP(fmt(c.micros)) + r4, LP(fmt(d.micros)) + s4;
    var r2, s2 := LP(c.key) + r3, LP(d.key) + s3;
    var r1, s1 := LP(c.operation) + r2, LP(d.operation) + s2;
    PeelLP(c.uid, d.uid, r1, s1);
    PeelLP(c.operation, d.operation, r2, s2);
    PeelLP(c.key, d.key, r3, s3);
    PeelLP(fmt(c.micros), fmt(d.micros), r4, s4);
    PeelAmount(c.units, d.units, [], []);
  }

  lemma DischargeNested(fmt: Formatter, c: Content)
    requires c.Discharge?
    ensures Body(fmt, c)
         == LP(c.uid) + (LP(c.operation) + (LP(c.key) + (LP(fmt(c.micros)) + AmountBytes(c.units))))
  {
  }

  // ---------------------------------------------------------------- the shared tag 0x11

  /** The v2 root and the discharge claim carry the same tag; this keeps them apart. */
  ghost predicate Separated(c: Content) {
    match c
    case RootV2(n, _, _, _, _) => 0 <= n < TWO_32
    case Discharge(uid, _, _, _, _) => uid != []
    case _ => true
  }

  lemma {:induction false} BigEndianZeroTop(n: nat, w: nat, top: nat)
    requires n < Pow256(w)
    ensures BigEndian(n, w + top) == Zeros(top) + BigEndian(n, w)
    decreases w
  {
    if w == 0 {
      BigEndianOfZero(top);
    } else {
      BigEndianZeroTop(n / 256, w - 1, top);
      assert BigEndian(n, w + top) == BigEndian(n / 256, w - 1 + top) + [n % 256];
      Reassoc(Zeros(top), BigEndian(n / 256, w - 1), [n % 256]);
    }
  }

  lemma {:induction false} BigEndianOfZero(w: nat)
    ensures BigEndian(0, w) == Zeros(w)
  {
    if w > 0 {
      BigEndianOfZero(w - 1);
      assert Zeros(w) == Zeros(w - 1) + [0];
    }
  }

  lemma SmallSeqnoBytes(n: int)
    requires 0 <= n < TWO_32
    ensures BE64(n) == Zeros(4) + BE32(n)
  {
    Pow256Values();
    assert n % TWO_64 == n && n % TWO_32 == n;
    BigEndianZeroTop(n, 4, 4);
  }

  lemma RootV2Head(fmt: Formatter, c: Content)
    requires c.RootV2? && 0 <= c.seqno < TWO_32
    ensures |Body(fmt, c)| == 112
    ensures Body(fmt, c)[..4] == BE32(0) && Body(fmt, c)[4..8] == BE32(c.seqno)
  {
    SmallSeqnoBytes(c.seqno);
    BigEndianOfZero(4);
    assert Body(fmt, c)[..8] == BE64(c.seqno);
    assert Body(fmt, c)[..4] == Body(fmt, c)[..8][..4];
    assert Body(fmt, c)[4..8] == Body(fmt, c)[..8][4..];
  }

  lemma DischargeHead(fmt: Formatter, d: Content)
    requires d.Discharge?
    ensures |Body(fmt, d)| >= 8 && Body(fmt, d)[..4] == BE32(|d.uid|)
    ensures d.uid == [] ==> Body(fmt, d)[4..8] == BE32(|d.operation|)
  {
    DischargeNested(fmt, d);
    var rest := LP(d.key) + (LP(fmt(d.micros)) + AmountBytes(d.units));
    var b := LP(d.uid) + (LP(d.operation) + rest);
    assert b[..4] == LP(d.uid)[..4] == BE32(|d.uid|);
    if d.uid == [] {
      assert b[4..8] == LP(d.operation)[..4] == BE32(|d.operation|);
    }
  }

  lemma SharedTagSeparates(fmt: Formatter, c: Content, d: Content)
    requires c.RootV2? && d.Discharge? && Framed(fmt, d) && 0 <= c.seqno < TWO_32
    requires Body(fmt, c) == Body(fmt, d)
    ensures d.uid == [] && c.seqno == |d.operation|
  {
    RootV2Head(fmt, c);
    DischargeHead(fmt, d);
    BE32Injective(0, |d.uid|);
    BE32Injective(c.seqno, |d.operation|);
  }

  /** Contents of all nine kinds have equal preimages only if they are equal. */
  lemma EncodeInjective(fmt: Formatter, c: Content, d: Content)
    requires Faithful(fmt) && Framed(fmt, c) && Framed(fmt, d) && Separated(c) && Separated(d)
    requires Encode(fmt, c) == Encode(fmt, d)
    ensures c == d
  {
    assert Tag(c) == Tag(d);
    PeelFixed([Tag(c)], [Tag(d)], Body(fmt, c), Body(fmt, d));
    match c {
      case Journal(_, _, _, _, _, _, _) => JournalInjective(fmt, c, d);
      case Batch(_) => BatchInjective(fmt, c, d);
      case Verdicts(_) => VerdictListInjective(fmt, c, d);
      case RootV1(_, _, _, _) => RootV1Injective(fmt, c, d);
      case RootV2(_, _, _, _, _) =>
        if d.RootV2? { RootV2Injective(fmt, c, d); } else { SharedTagSeparates(fmt, c, d); }
      case RootV3(_, _, _, _, _, _) => RootV3Injective(fmt, c, d);
      case Discharge(_, _, _, _, _) =>
        if d.Discharge? { DischargeInjective(fmt, c, d); } else { SharedTagSeparates(fmt, d, c); }
      case Leaf(_) =>
      case Interior(l, r) => PeelFixed(l, d.left, r, d.right);
    }
  }

  // ---------------------------------------------------------------- exactly where the shared tag overlaps

  lemma {:induction false} BigEndianInverts(b: Bytes)
    ensures BigEndian(FromBigEndian(b), |b|) == b
  {
    if b != [] {
      BigEndianInverts(b[..|b| - 1]);
      assert b == b[..|b| - 1] + [b[|b| - 1]];
    }
  }

  /** Any eight bytes are the bit pattern of an int64. */
  lemma Int64OfBytes(b: Bytes) returns (x: Int64)
    requires |b| == 8
    ensures BE64(x) == b
  {
    Pow256Values();
    BigEndianInverts(b);
    var n := FromBigEndian(b);
    x := if n < 0x8000_0000_0000_0000 then n else n - TWO_64;
    assert x % TWO_64 == n;
  }

  lemma CutRootV2(b: Bytes)
    requires |b| == 112
    ensures b == b[..8] + b[8..40] + b[40..72] + b[72..104] + b[104..]
  {
  }

  /** Any 112 bytes that start with a sequence number read as a v2 root. */
  lemma ReadRootV2(fmt: Formatter, n: Int64, b: Bytes) returns (c: Content)
    requires |b| == 112 && b[..8] == BE64(n)
    ensures c.RootV2? && c.seqno == n && Body(fmt, c) == b
  {
    var count := Int64OfBytes(b[104..]);
    var prev, batch, merkle: Digest := b[8..40], b[40..72], b[72..104];
    c := RootV2(n, prev, batch, merkle, count);
    CutRootV2(b);
  }

  ghost predicate OverlapsRootV2(fmt: Formatter, d: Content) {
    exists c: Content :: c.RootV2? && 0 <= c.seqno < TWO_32 && Encode(fmt, c) == Encode(fmt, d)
  }

  /** A discharge claim shares its preimage with some v2 root exactly when its reservation uid is
      empty and its length is a v2 root's. */
  lemma SharedTagOverlap(fmt: Formatter, d: Content)
    requires d.Discharge? && Framed(fmt, d)
    ensures OverlapsRootV2(fmt, d) <==> d.uid == [] && |Encode(fmt, d)| == 113
  {
    if OverlapsRootV2(fmt, d) {
      var c: Content :| c.RootV2? && 0 <= c.seqno < TWO_32 && Encode(fmt, c) == Encode(fmt, d);
      PeelFixed([Tag(c)], [Tag(d)], Body(fmt, c), Body(fmt, d));
      SharedTagSeparates(fmt, c, d);
      RootV2Head(fmt, c);
    }
    if d.uid == [] && |Encode(fmt, d)| == 113 {
      var b := Body(fmt, d);
      DischargeHead(fmt, d);
      BigEndianOfZero(4);
      SmallSeqnoBytes(|d.operation|);
      assert b[..8] == b[..4] + b[4..8];
      var c := ReadRootV2(fmt, |d.operation|, b);
      assert Encode(fmt, c) == Encode(fmt, d);
    }
  }

  /** Were the sequence number any int64, every discharge claim of a v2 root's length would read as one. */
  lemma SharedTagOverlapAnySeqno(fmt: Formatter, d: Content)
    requires d.Discharge?
    ensures (exists c: Content :: c.RootV2? && Encode(fmt, c) == Encode(fmt, d)) <==> |Encode(fmt, d)| == 113
  {
    if c: Content :| c.RootV2? && Encode(fmt, c) == Encode(fmt, d) {
      assert |Encode(fmt, c)| == 113;
    }
    if |Encode(fmt, d)| == 113 {
      var b := Body(fmt, d);
      var n := Int64OfBytes(b[..8]);
      var c := ReadRootV2(fmt, n, b);
      assert Encode(fmt, c) == Encode(fmt, d);
    }
  }

  /** Such claims exist: for every operation and instant that leave room for it, the empty reservation
      uid and a key of the right length give a framed claim with the preimage of a v2 root. */
  lemma OverlappingClaimExists(fmt: Formatter, operation: Bytes, micros: int) returns (d: Content)
    requires |operation| + |fmt(micros)| <= 80
    ensures d.Discharge? && d.uid == [] && d.operation == operation && d.micros == micros
    ensures Framed(fmt, d) && OverlapsRootV2(fmt, d)
  {
    var key := Zeros(80 - |operation| - |fmt(micros)|);
    d := Discharge([], operation, key, micros, 0);
    FromTwosComplementInverts(0, AMOUNT_WIDTH);
    assert |Body(fmt, d)| == |LP([])| + |LP(operation)| + |LP(key)| + |LP(fmt(micros))| + AMOUNT_WIDTH;
    SharedTagOverlap(fmt, d);
  }
}
