/** What the ledger hashes for its own records, read back field by field: postings, attested entries and
    attestation rows. */
module WireFormats {
  import opened Amounts
  import opened Digests
  import opened Layouts
  import JournalDigest
  import Attestation

  /** The microsecond an instant in nanoseconds falls into. */
  ghost predicate FallsInto(nanos: int, micros: int) {
    micros * 1000 <= nanos < micros * 1000 + 1000
  }

  /** An entry of a posting as the preimage has it. */
  ghost predicate EntryAsKey(e: JournalDigest.EntryInput, k: EntryKey) {
    && k.holder == e.holder && k.currency == e.currency && k.classUid == e.classUid && k.kind == e.kind
    && InUnits(e.amount, k.units)
  }

  /** The string hashed for a posting reads: type, key, actor, source, the microsecond's rendering, the reversal
      link, and every entry in the sorted order with its amount counted in units of 10^-18. */
  lemma PostingReads(fmt: Formatter, input: JournalDigest.JournalInput, nanos: int, sorted: seq<JournalDigest.EntryInput>)
    returns (micros: int, ks: seq<EntryKey>)
    requires JournalDigest.Postable(fmt, input, nanos) && JournalDigest.IsSortOf(sorted, input.entries)
    ensures FallsInto(nanos, micros) && |ks| == |sorted| == |input.entries|
    ensures forall i :: 0 <= i < |ks| ==> EntryAsKey(sorted[i], ks[i])
    ensures ReadJournal(Encode(fmt, JournalDigest.ContentOf(input, nanos, sorted)))
         == JournalReading(0x10, input.journalType, input.key, input.actor, input.source, fmt(micros), input.reversalOf,
                           |input.entries|, ks, [])
  {
    micros, ks := Micros(nanos), JournalDigest.KeysOf(sorted);
    JournalDigest.SortedEntriesOf(fmt, input, nanos, sorted);
    JournalDigest.ContentFramed(fmt, input, nanos, sorted);
    JournalReads(fmt, JournalDigest.ContentOf(input, nanos, sorted));
    forall i | 0 <= i < |ks| ensures EntryAsKey(sorted[i], ks[i]) {
      ScaledSpec(sorted[i].amount, ks[i].units);
    }
  }

  /** An attested entry as the preimage has it. */
  ghost predicate EntryAsRow(fmt: Formatter, e: Attestation.AttestedEntry, r: RowReading) {
    && r.entryId == e.entryId && r.journalId == e.journalId && r.holder == e.holder
    && r.currencyId == e.currencyId && r.classId == e.classId && r.kind == e.kind
    && InUnits(e.amount, r.units) && exists micros :: FallsInto(e.nanos, micros) && r.time == fmt(micros)
  }

  lemma RowAsEntry(fmt: Formatter, e: Attestation.AttestedEntry)
    requires Attestation.EntryFramed(fmt, e)
    ensures FramedRow(fmt, Attestation.RowOf(e)) && EntryAsRow(fmt, e, Reading(fmt, Attestation.RowOf(e)))
  {
    Attestation.RowEncodes(e);
    assert FallsInto(e.nanos, Micros(e.nanos));
  }

  /** The leaf payload of an attested entry reads: its five ids, its type, its amount, its microsecond. */
  lemma AttestedEntryReads(fmt: Formatter, e: Attestation.AttestedEntry) returns (r: RowReading)
    requires Attestation.EntryFramed(fmt, e)
    ensures EntryAsRow(fmt, e, r)
    ensures Attestation.EncodeAttestedEntry(fmt, e).Ok?
    ensures TakeRow(Attestation.EncodeAttestedEntry(fmt, e).value) == Taken(r, [])
  {
    var k := Attestation.RowOf(e);
    r := Reading(fmt, k);
    RowAsEntry(fmt, e);
    Attestation.EncodedEntryIsRow(fmt, e);
    assert EncodeRow(fmt, k) + [] == EncodeRow(fmt, k);
    TakesRow(fmt, k, []);
  }

  /** The string hashed for a batch reads: the count, then every entry in order. */
  lemma BatchOfEntriesReads(fmt: Formatter, entries: seq<Attestation.AttestedEntry>) returns (rs: seq<RowReading>)
    requires |entries| < 0x8000_0000_0000_0000
    requires forall i :: 0 <= i < |entries| ==> Attestation.EntryFramed(fmt, entries[i])
    ensures |rs| == |entries| && forall i :: 0 <= i < |rs| ==> EntryAsRow(fmt, entries[i], rs[i])
    ensures var b := Encode(fmt, Batch(Attestation.RowsOf(entries)));
            var count := TakeInt(b[1..]);
            b[0] == 0x02 && count.value == |entries| && TakeList(TakeRow, count.rest, |entries|) == Taken(rs, [])
  {
    var ks := Attestation.RowsOf(entries);
    rs := Readings(fmt, ks);
    forall i | 0 <= i < |entries| ensures FramedRow(fmt, ks[i]) && EntryAsRow(fmt, entries[i], rs[i]) {
      RowAsEntry(fmt, entries[i]);
    }
    BatchReads(fmt, Batch(ks));
  }

  /** The string an attestation row's hash is taken over reads: by the columns the row has, tag 3, 17 or 18, the
      sequence number, the previous root, the batch digest, the Merkle root, the verdict digest and the count. */
  lemma RootRowReads(fmt: Formatter, row: Attestation.Row)
    requires |row.prevRoot| == |row.batchDigest| == 32
    requires |row.merkleRoot| in {0, 32} && |row.verdictDigest| in {0, 32} && (|row.verdictDigest| > 0 ==> |row.merkleRoot| > 0)
    ensures Attestation.RootContent(row).Ok?
    ensures var b := Encode(fmt, Attestation.RootContent(row).value);
            if |row.verdictDigest| > 0 then
              ReadRoot(b, 4)
              == RootReading(0x12, row.seqno, [row.prevRoot, row.batchDigest, row.merkleRoot, row.verdictDigest], row.count, [])
            else if |row.merkleRoot| > 0 then
              ReadRoot(b, 3) == RootReading(0x11, row.seqno, [row.prevRoot, row.batchDigest, row.merkleRoot], row.count, [])
            else
              ReadRoot(b, 2) == RootReading(0x03, row.seqno, [row.prevRoot, row.batchDigest], row.count, [])
  {
    var c := Attestation.RootContent(row).value;
    if |row.verdictDigest| > 0 {
      RootV3Reads(fmt, c);
    } else if |row.merkleRoot| > 0 {
      RootV2Reads(fmt, c);
    } else {
      RootV1Reads(fmt, c);
    }
  }

  /** And every other row is refused. */
  lemma RootRowRefused(row: Attestation.Row)
    ensures Attestation.RootContent(row).Err?
       <==> || |row.prevRoot| != 32 || |row.batchDigest| != 32
            || (|row.verdictDigest| > 0 && (|row.verdictDigest| != 32 || |row.merkleRoot| != 32))
            || (|row.verdictDigest| == 0 && |row.merkleRoot| !in {0, 32})
  {
  }
}
