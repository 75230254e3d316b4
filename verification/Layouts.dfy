/** The byte layouts read back: one reader per kind of hashed content, taking the fields off the preimage in
    the order the wire format lists them. */
module Layouts {
  import opened ByteCodes
  import opened Amounts
  import opened Merkle
  import opened Digests

  // ---------------------------------------------------------------- taking one field off the front

  /** A field and what follows it. */
  datatype Taken<+T> = Taken(value: T, rest: Bytes)

  /** Eight bytes as an int64, the most significant first. */
  function TakeInt(b: Bytes): Taken<int> {
    if |b| < 8 then Taken(0, [])
    else
      var n := FromBigEndian(b[..8]);
      Taken(if n < 0x8000_0000_0000_0000 then n else n - 0x1_0000_0000_0000_0000, b[8..])
  }

  /** Four bytes of length, then as many bytes. */
  function TakeField(b: Bytes): Taken<Bytes> {
    if |b| < 4 || |b| - 4 < FromBigEndian(b[..4]) then Taken([], [])
    else
      var n := FromBigEndian(b[..4]);
      Taken(b[4..4 + n], b[4 + n..])
  }

  /** Sixteen bytes of two's complement. */
  function TakeAmount(b: Bytes): Taken<int> {
    if |b| < 16 then Taken(0, []) else Taken(FromTwosComplement(b[..16]), b[16..])
  }

  /** Items one after the other. */
  function TakeList<T>(take: Bytes -> Taken<T>, b: Bytes, n: nat): Taken<seq<T>>
    decreases n
  {
    if n == 0 then Taken([], b)
    else
      var first := take(b);
      var more := TakeList(take, first.rest, n - 1);
      Taken([first.value] + more.value, more.rest)
  }

  lemma TakesOneMore<T>(take: Bytes -> Taken<T>, b: Bytes, n: nat, x: T, rest: Bytes, xs: seq<T>)
    requires n > 0 && take(b) == Taken(x, rest) && TakeList(take, rest, n - 1) == Taken(xs, [])
    ensures TakeList(take, b, n) == Taken([x] + xs, [])
  {
  }

  lemma TakesInt(x: Int64, rest: Bytes)
    ensures TakeInt(BE64(x) + rest) == Taken(x, rest)
  {
    var b := BE64(x) + rest;
    assert b[..8] == BE64(x) && b[8..] == rest;
    Pow256Values();
    FromBigEndianInverts(x % TWO_64, 8);
  }

  lemma TakesField(s: Bytes, rest: Bytes)
    requires Short(s)
    ensures TakeField(LP(s) + rest) == Taken(s, rest)
  {
    var b := LP(s) + rest;
    Pow256Values();
    FromBigEndianInverts(|s|, 4);
    assert b[..4] == BE32(|s|) == BigEndian(|s|, 4);
    assert b[4..4 + |s|] == s && b[4 + |s|..] == rest;
  }

  lemma TakesAmount(units: int, rest: Bytes)
    requires Fits(units)
    ensures TakeAmount(AmountBytes(units) + rest) == Taken(units, rest)
  {
    var b := AmountBytes(units) + rest;
    assert b[..16] == AmountBytes(units) && b[16..] == rest;
    FromTwosComplementInverts(units, AMOUNT_WIDTH);
  }

  // ---------------------------------------------------------------- the posting intent

  function TakeEntry(b: Bytes): Taken<EntryKey> {
    var holder := TakeInt(b);
    var currency := TakeField(holder.rest);
    var classUid := TakeField(currency.rest);
    var kind := TakeField(classUid.rest);
    var amount := TakeAmount(kind.rest);
    Taken(EntryKey(Clamp(holder.value), currency.value, classUid.value, kind.value, amount.value), amount.rest)
  }

  /** TakeInt stays in range; written out so that the type sees it. */
  function Clamp(x: int): (y: Int64)
    ensures -0x8000_0000_0000_0000 <= x < 0x8000_0000_0000_0000 ==> y == x
  {
    if -0x8000_0000_0000_0000 <= x < 0x8000_0000_0000_0000 then x else 0
  }

  lemma TakesEntry(k: EntryKey, rest: Bytes)
    requires FramedEntry(k)
    ensures TakeEntry(EncodeEntry(k) + rest) == Taken(k, rest)
  {
    EntryNested(k, rest);
    var r4 := AmountBytes(k.units) + rest;
    var r3 := LP(k.kind) + r4;
    var r2 := LP(k.classUid) + r3;
    var r1 := LP(k.currency) + r2;
    TakesInt(k.holder, r1);
    TakesField(k.currency, r2);
    TakesField(k.classUid, r3);
    TakesField(k.kind, r4);
    TakesAmount(k.units, rest);
  }

  lemma {:induction false} TakesEntries(ks: seq<EntryKey>)
    requires forall i :: 0 <= i < |ks| ==> FramedEntry(ks[i])
    ensures TakeList(TakeEntry, EncodeEntries(ks), |ks|) == Taken(ks, [])
  {
    if |ks| > 0 {
      var rest := EncodeEntries(ks[1..]);
      TakesEntry(ks[0], rest);
      TakesEntries(ks[1..]);
      TakesOneMore(TakeEntry, EncodeEntry(ks[0]) + rest, |ks|, ks[0], rest, ks[1..]);
      assert ks == [ks[0]] + ks[1..];
    }
  }

  datatype JournalReading = JournalReading(tag: Byte, journalType: Bytes, key: Bytes, actor: int, source: Bytes,
                                           time: Bytes, reversalOf: Bytes, count: int, entries: seq<EntryKey>, rest: Bytes)

  /** Type, key, actor, source, time, reversal link, count and entries, in this order. */
  function ReadJournal(b: Bytes): JournalReading
    requires |b| > 0
  {
    var journalType := TakeField(b[1..]);
    var key := TakeField(journalType.rest);
    var actor := TakeInt(key.rest);
    var source := TakeField(actor.rest);
    var time := TakeField(source.rest);
    var reversalOf := TakeField(time.rest);
    var count := TakeInt(reversalOf.rest);
    var entries := TakeList(TakeEntry, count.rest, if count.value < 0 then 0 else count.value);
    JournalReading(b[0], journalType.value, key.value, actor.value, source.value, time.value, reversalOf.value,
                   count.value, entries.value, entries.rest)
  }

  lemma JournalReads(fmt: Formatter, c: Content)
    requires c.Journal? && Framed(fmt, c)
    ensures ReadJournal(Encode(fmt, c))
         == JournalReading(0x10, c.journalType, c.key, c.actor, c.source, fmt(c.micros), c.reversalOf, |c.entries|,
                           c.entries, [])
  {
    assert Encode(fmt, c)[1..] == Body(fmt, c);
    JournalNested(fmt, c);
    var r7 := EncodeEntries(c.entries);
    var r6 := BE64(|c.entries|) + r7;
    var r5 := LP(c.reversalOf) + r6;
    var r4 := LP(fmt(c.micros)) + r5;
    var r3 := LP(c.source) + r4;
    var r2 := BE64(c.actor) + r3;
    var r1 := LP(c.key) + r2;
    TakesField(c.journalType, r1);
    TakesField(c.key, r2);
    TakesInt(c.actor, r3);
    TakesField(c.source, r4);
    TakesField(fmt(c.micros), r5);
    TakesField(c.reversalOf, r6);
    TakesInt(|c.entries|, r7);
    TakesEntries(c.entries);
  }

  // ---------------------------------------------------------------- batches and verdicts

  datatype RowReading = RowReading(entryId: int, journalId: int, holder: int, currencyId: int, classId: int,
                                   kind: Bytes, units: int, time: Bytes)

  function TakeRow(b: Bytes): Taken<RowReading> {
    var entryId := TakeInt(b);
    var journalId := TakeInt(entryId.rest);
    var holder := TakeInt(journalId.rest);
    var currencyId := TakeInt(holder.rest);
    var classId := TakeInt(currencyId.rest);
    var kind := TakeField(classId.rest);
    var amount := TakeAmount(kind.rest);
    var time := TakeField(amount.rest);
    Taken(RowReading(entryId.value, journalId.value, holder.value, currencyId.value, classId.value, kind.value,
                     amount.value, time.value), time.rest)
  }

  function Reading(fmt: Formatter, k: RowKey): RowReading {
    RowReading(k.entryId, k.journalId, k.holder, k.currencyId, k.classId, k.kind, k.units, fmt(k.micros))
  }

  function Readings(fmt: Formatter, ks: seq<RowKey>): (rs: seq<RowReading>)
    ensures |rs| == |ks| && forall i :: 0 <= i < |ks| ==> rs[i] == Reading(fmt, ks[i])
  {
    seq(|ks|, i requires 0 <= i < |ks| => Reading(fmt, ks[i]))
  }

  lemma ReadingsHead(fmt: Formatter, ks: seq<RowKey>)
    requires |ks| > 0
    ensures Readings(fmt, ks) == [Reading(fmt, ks[0])] + Readings(fmt, ks[1..])
  {
  }

  lemma TakesRow(fmt: Formatter, k: RowKey, rest: Bytes)
    requires FramedRow(fmt, k)
    ensures TakeRow(EncodeRow(fmt, k) + rest) == Taken(Reading(fmt, k), rest)
  {
    RowNested(fmt, k, rest);
    var r7 := LP(fmt(k.micros)) + rest;
    var r6 := AmountBytes(k.units) + r7;
    var r5 := LP(k.kind) + r6;
    var r4 := BE64(k.classId) + r5;
    var r3 := BE64(k.currencyId) + r4;
    var r2 := BE64(k.holder) + r3;
    var r1 := BE64(k.journalId) + r2;
    TakesInt(k.entryId, r1);
    TakesInt(k.journalId, r2);
    TakesInt(k.holder, r3);
    TakesInt(k.currencyId, r4);
    TakesInt(k.classId, r5);
    TakesField(k.kind, r6);
    TakesAmount(k.units, r7);
    TakesField(fmt(k.micros), rest);
  }

  lemma {:induction false} TakesRows(fmt: Formatter, ks: seq<RowKey>)
    requires forall i :: 0 <= i < |ks| ==> FramedRow(fmt, ks[i])
    ensures TakeList(TakeRow, EncodeRows(fmt, ks), |ks|) == Taken(Readings(fmt, ks), [])
  {
    if |ks| > 0 {
      var rest := EncodeRows(fmt, ks[1..]);
      TakesRow(fmt, ks[0], rest);
      TakesRows(fmt, ks[1..]);
      TakesOneMore(TakeRow, EncodeRow(fmt, ks[0]) + rest, |ks|, Reading(fmt, ks[0]), rest, Readings(fmt, ks[1..]));
      ReadingsHead(fmt, ks);
    }
  }

  /** A count and as many rows, in order, and nothing after them. */
  lemma BatchReads(fmt: Formatter, c: Content)
    requires c.Batch? && Framed(fmt, c)
    ensures var b := Encode(fmt, c);
            var count := TakeInt(b[1..]);
            b[0] == 0x02 && count.value == |c.rows| && TakeList(TakeRow, count.rest, |c.rows|) == Taken(Readings(fmt, c.rows), [])
  {
    assert Encode(fmt, c)[1..] == Body(fmt, c);
    TakesInt(|c.rows|, EncodeRows(fmt, c.rows));
    TakesRows(fmt, c.rows);
  }

  function TakeVerdict(b: Bytes): Taken<VerdictKey> {
    var entryId := TakeInt(b);
    var verdict := TakeField(entryId.rest);
    Taken(VerdictKey(Clamp(entryId.value), verdict.value), verdict.rest)
  }

  lemma TakesVerdict(k: VerdictKey, rest: Bytes)
    requires Short(k.verdict)
    ensures TakeVerdict(EncodeVerdict(k) + rest) == Taken(k, rest)
  {
    Reassoc(BE64(k.entryId), LP(k.verdict), rest);
    TakesInt(k.entryId, LP(k.verdict) + rest);
    TakesField(k.verdict, rest);
  }

  lemma {:induction false} TakesVerdicts(ks: seq<VerdictKey>)
    requires forall i :: 0 <= i < |ks| ==> Short(ks[i].verdict)
    ensures TakeList(TakeVerdict, EncodeVerdicts(ks), |ks|) == Taken(ks, [])
  {
    if |ks| > 0 {
      var rest := EncodeVerdicts(ks[1..]);
      TakesVerdict(ks[0], rest);
      TakesVerdicts(ks[1..]);
      TakesOneMore(TakeVerdict, EncodeVerdict(ks[0]) + rest, |ks|, ks[0], rest, ks[1..]);
      assert ks == [ks[0]] + ks[1..];
    }
  }

  lemma VerdictsRead(fmt: Formatter, c: Content)
    requires c.Verdicts? && Framed(fmt, c)
    ensures var b := Encode(fmt, c);
            var count := TakeInt(b[1..]);
            b[0] == 0x13 && count.value == |c.verdicts| && TakeList(TakeVerdict, count.rest, |c.verdicts|) == Taken(c.verdicts, [])
  {
    assert Encode(fmt, c)[1..] == Body(fmt, c);
    TakesInt(|c.verdicts|, EncodeVerdicts(c.verdicts));
    TakesVerdicts(c.verdicts);
  }

  // ---------------------------------------------------------------- roots

  function TakeDigest(b: Bytes): Taken<Bytes> {
    if |b| < 32 then Taken([], []) else Taken(b[..32], b[32..])
  }

  lemma TakesDigest(d: Digest, rest: Bytes)
    ensures TakeDigest(d + rest) == Taken(d, rest)
  {
    assert (d + rest)[..32] == d && (d + rest)[32..] == rest;
  }

  datatype RootReading = RootReading(tag: Byte, seqno: int, digests: seq<Bytes>, count: int, rest: Bytes)

  /** Sequence number, as many digests as the version has, and the entry count. */
  function ReadRoot(b: Bytes, digests: nat): RootReading
    requires |b| > 0
  {
    var seqno := TakeInt(b[1..]);
    var listed := TakeList(TakeDigest, seqno.rest, digests);
    var count := TakeInt(listed.rest);
    RootReading(b[0], seqno.value, listed.value, count.value, count.rest)
  }

  function Joined(ds: seq<Digest>): Bytes {
    if |ds| == 0 then [] else ds[0] + Joined(ds[1..])
  }

  lemma {:induction false} TakesDigests(ds: seq<Digest>, rest: Bytes)
    ensures TakeList(TakeDigest, Joined(ds) + rest, |ds|) == Taken(ds, rest)
  {
    if |ds| > 0 {
      var more := Joined(ds[1..]);
      Reassoc(ds[0], more, rest);
      TakesDigest(ds[0], more + rest);
      TakesDigests(ds[1..], rest);
      assert ds == [ds[0]] + ds[1..];
    } else {
      assert Joined(ds) + rest == rest;
    }
  }

  lemma {:induction false} RootReads(tag: Byte, seqno: Int64, ds: seq<Digest>, count: Int64)
    ensures ReadRoot([tag] + (BE64(seqno) + (Joined(ds) + BE64(count))), |ds|) == RootReading(tag, seqno, ds, count, [])
  {
    var b := [tag] + (BE64(seqno) + (Joined(ds) + BE64(count)));
    assert b[1..] == BE64(seqno) + (Joined(ds) + BE64(count));
    TakesInt(seqno, Joined(ds) + BE64(count));
    TakesDigests(ds, BE64(count));
    assert BE64(count) + [] == BE64(count);
    TakesInt(count, []);
  }

  lemma {:induction false} JoinedTwo(a: Digest, b: Digest)
    ensures Joined([a, b]) == a + b
  {
    assert [a, b][1..] == [b] && Joined([b]) == b + Joined([b][1..]) == b;
  }

  lemma {:induction false} JoinedThree(a: Digest, b: Digest, c: Digest)
    ensures Joined([a, b, c]) == a + b + c
  {
    assert [a, b, c][1..] == [b, c];
    JoinedTwo(b, c);
  }

  lemma {:induction false} JoinedFour(a: Digest, b: Digest, c: Digest, d: Digest)
    ensures Joined([a, b, c, d]) == a + b + c + d
  {
    assert [a, b, c, d][1..] == [b, c, d];
    JoinedThree(b, c, d);
  }

  /** Version 1: the previous root, then the batch digest. */
  lemma RootV1Reads(fmt: Formatter, c: Content)
    requires c.RootV1?
    ensures ReadRoot(Encode(fmt, c), 2) == RootReading(0x03, c.seqno, [c.prev, c.batch], c.count, [])
  {
    RootReads(0x03, c.seqno, [c.prev, c.batch], c.count);
    JoinedTwo(c.prev, c.batch);
    assert Body(fmt, c) == BE64(c.seqno) + (c.prev + c.batch + BE64(c.count));
  }

  /** Version 2: then the Merkle root. */
  lemma RootV2Reads(fmt: Formatter, c: Content)
    requires c.RootV2?
    ensures ReadRoot(Encode(fmt, c), 3) == RootReading(0x11, c.seqno, [c.prev, c.batch, c.merkle], c.count, [])
  {
    RootReads(0x11, c.seqno, [c.prev, c.batch, c.merkle], c.count);
    JoinedThree(c.prev, c.batch, c.merkle);
    assert Body(fmt, c) == BE64(c.seqno) + (c.prev + c.batch + c.merkle + BE64(c.count));
  }

  /** Version 3: then the verdict digest. */
  lemma RootV3Reads(fmt: Formatter, c: Content)
    requires c.RootV3?
    ensures ReadRoot(Encode(fmt, c), 4) == RootReading(0x12, c.seqno, [c.prev, c.batch, c.merkle, c.verdict], c.count, [])
  {
    RootReads(0x12, c.seqno, [c.prev, c.batch, c.merkle, c.verdict], c.count);
    JoinedFour(c.prev, c.batch, c.merkle, c.verdict);
    assert Body(fmt, c) == BE64(c.seqno) + (c.prev + c.batch + c.merkle + c.verdict + BE64(c.count));
  }

  // ---------------------------------------------------------------- discharge claims

  datatype ClaimReading = ClaimReading(tag: Byte, uid: Bytes, operation: Bytes, key: Bytes, time: Bytes, units: int,
                                       rest: Bytes)

  function ReadClaim(b: Bytes): ClaimReading
    requires |b| > 0
  {
    var uid := TakeField(b[1..]);
    var operation := TakeField(uid.rest);
    var key := TakeField(operation.rest);
    var time := TakeField(key.rest);
    var amount := TakeAmount(time.rest);
    ClaimReading(b[0], uid.value, operation.value, key.value, time.value, amount.value, amount.rest)
  }

  lemma ClaimReads(fmt: Formatter, c: Content)
    requires c.Discharge? && Framed(fmt, c)
    ensures ReadClaim(Encode(fmt, c))
         == ClaimReading(0x11, c.uid, c.operation, c.key, fmt(c.micros), c.units, [])
  {
    assert Encode(fmt, c)[1..] == Body(fmt, c);
    var r4 := AmountBytes(c.units) + [];
    var r3 := LP(fmt(c.micros)) + r4;
    var r2 := LP(c.key) + r3;
    var r1 := LP(c.operation) + r2;
    assert Body(fmt, c) == LP(c.uid) + r1;
    TakesField(c.uid, r1);
    TakesField(c.operation, r2);
    TakesField(c.key, r3);
    TakesField(fmt(c.micros), r4);
    TakesAmount(c.units, []);
  }

  // ---------------------------------------------------------------- tree nodes

  /** The tree hashes exactly the leaf and node contents: a zero byte and the payload, or a one byte, the left
      and the right hash. */
  lemma TreeStringsAreContents(fmt: Formatter, payload: Bytes, left: Digest, right: Digest)
    ensures LeafPreimage(payload) == Encode(fmt, Leaf(payload)) == [0x00] + payload
    ensures NodePreimage(left, right) == Encode(fmt, Interior(left, right)) == [0x01] + left + right
  {
    assert Encode(fmt, Interior(left, right)) == [0x01] + (left + right);
  }
}
