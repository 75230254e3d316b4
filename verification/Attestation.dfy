/** The attestation chain: batch digests, three versions of root hash, and what the latest root
    says about the whole history behind it. */
module Attestation {
  import opened Options
  import opened ByteCodes
  import opened Decimals
  import opened Amounts
  import opened Merkle
  import opened MerkleProofs
  import opened Digests
  import opened Sequences

  datatype AttestedEntry = AttestedEntry(entryId: Int64, journalId: Int64, holder: Int64, currencyId: Int64,
                                         classId: Int64, kind: Bytes, amount: Decimal, nanos: int)

  /** A stored attestation row. An empty merkle root marks v1, an empty verdict digest v1 or v2. */
  datatype Row = Row(seqno: Int64, count: Int64, batchDigest: Bytes, merkleRoot: Bytes, verdictDigest: Bytes,
                     prevRoot: Bytes, rootHash: Bytes)

  const GENESIS_ROOT: Digest := Zeros(32)

  // ---------------------------------------------------------------- contents

  function RowOf(e: AttestedEntry): (k: RowKey) {
    RowKey(e.entryId, e.journalId, e.holder, e.currencyId, e.classId, e.kind,
           match Scaled(e.amount) case Ok(n) => n case Err => 0, Micros(e.nanos))
  }

  function RowsOf(es: seq<AttestedEntry>): (ks: seq<RowKey>)
    ensures |ks| == |es| && forall i :: 0 <= i < |es| ==> ks[i] == RowOf(es[i])
  {
    Map(RowOf, es)
  }

  predicate Encodable(e: AttestedEntry) {
    EncodeAmount(e.amount).Ok?
  }

  lemma RowEncodes(e: AttestedEntry)
    requires Encodable(e)
    ensures Fits(RowOf(e).units) && AmountBytes(RowOf(e).units) == EncodeAmount(e.amount).value
    ensures InUnits(e.amount, RowOf(e).units)
  {
    ScaledSpec(e.amount, RowOf(e).units);
  }

  /** Two entries agree on every stored column: amounts by value, times to the microsecond. */
  ghost predicate SameEntry(a: AttestedEntry, b: AttestedEntry) {
    && a.entryId == b.entryId && a.journalId == b.journalId && a.holder == b.holder
    && a.currencyId == b.currencyId && a.classId == b.classId && a.kind == b.kind
    && Value(a.amount) == Value(b.amount) && Micros(a.nanos) == Micros(b.nanos)
  }

  ghost predicate SameEntries(a: seq<AttestedEntry>, b: seq<AttestedEntry>) {
    |a| == |b| && forall i :: 0 <= i < |a| ==> SameEntry(a[i], b[i])
  }

  lemma SameRowsSameEntries(a: seq<AttestedEntry>, b: seq<AttestedEntry>)
    requires RowsOf(a) == RowsOf(b)
    requires forall i :: 0 <= i < |a| ==> Encodable(a[i])
    requires forall i :: 0 <= i < |b| ==> Encodable(b[i])
    ensures SameEntries(a, b)
  {
    assert |a| == |RowsOf(a)| == |RowsOf(b)| == |b|;
    forall i | 0 <= i < |a| ensures SameEntry(a[i], b[i]) {
      assert RowOf(a[i]) == RowsOf(a)[i] == RowsOf(b)[i] == RowOf(b[i]);
      RowEncodes(a[i]);
      RowEncodes(b[i]);
      UnitsUnique(a[i].amount, RowOf(a[i]).units, b[i].amount, RowOf(b[i]).units);
    }
  }

  function VerdictsOf(es: seq<AttestedEntry>, verdicts: seq<Bytes>): (ks: seq<VerdictKey>)
    requires |es| == |verdicts|
    ensures |ks| == |es| && forall i :: 0 <= i < |es| ==> ks[i] == VerdictKey(es[i].entryId, verdicts[i])
  {
    seq(|es|, i requires 0 <= i < |es| => VerdictKey(es[i].entryId, verdicts[i]))
  }

  // ---------------------------------------------------------------- as computed

  function EncodeAttestedEntry(fmt: Formatter, e: AttestedEntry): (r: Result<Bytes>)
  {
    match EncodeAmount(e.amount)
    case Err => Err
    case Ok(amount) =>
      Ok(BE64(e.entryId) + BE64(e.journalId) + BE64(e.holder) + BE64(e.currencyId) + BE64(e.classId)
         + LP(e.kind) + amount + LP(fmt(Micros(e.nanos))))
  }

  lemma EncodedEntryIsRow(fmt: Formatter, e: AttestedEntry)
    ensures EncodeAttestedEntry(fmt, e).Ok? <==> Encodable(e)
    ensures Encodable(e) ==> EncodeAttestedEntry(fmt, e).value == EncodeRow(fmt, RowOf(e))
  {
    if Encodable(e) { RowEncodes(e); }
  }

  lemma {:induction false} RowsConcat(fmt: Formatter, es: seq<AttestedEntry>)
    requires forall i :: 0 <= i < |es| ==> Encodable(es[i])
    ensures Concat((e: AttestedEntry) => EncodeAttestedEntry(fmt, e), es) == EncodeRows(fmt, RowsOf(es))
  {
    if |es| > 0 {
      EncodedEntryIsRow(fmt, es[0]);
      RowsConcat(fmt, es[1..]);
      assert RowsOf(es)[1..] == RowsOf(es[1..]);
    }
  }

  method CanonicalBatchDigest(sha: HashFn, fmt: Formatter, entries: seq<AttestedEntry>) returns (r: Result<Digest>)
    ensures r.Ok? <==> forall i :: 0 <= i < |entries| ==> Encodable(entries[i])
    ensures r.Ok? ==> r.value == sha(Encode(fmt, Batch(RowsOf(entries))))
  {
    var buf: Bytes := [0x02];
    buf := buf + BE64(|entries|);
    var written := WriteAll((e: AttestedEntry) => EncodeAttestedEntry(fmt, e), buf, entries);
    forall i | 0 <= i < |entries| ensures EncodeAttestedEntry(fmt, entries[i]).Ok? <==> Encodable(entries[i]) {
      EncodedEntryIsRow(fmt, entries[i]);
    }
    match written {
      case Err => r := Err;
      case Ok(preimage) =>
        RowsConcat(fmt, entries);
        Reassoc([0x02], BE64(|entries|), EncodeRows(fmt, RowsOf(entries)));
        r := Ok(sha(preimage));
    }
  }

  /** BuildMerkleTree: the tree over the entries' encodings, refused when an amount does not encode. */
  method BuildMerkleTree(sha: HashFn, fmt: Formatter, entries: seq<AttestedEntry>) returns (r: Result<MerkleTree>)
    ensures r.Ok? <==> forall i :: 0 <= i < |entries| ==> Encodable(entries[i])
    ensures r.Ok? ==> r.value == TreeOver(sha, LeafHashes(sha, Payloads(fmt, entries)))
                      && r.value.root.hash == MTH(sha, Payloads(fmt, entries))
  {
    var payloads: seq<Bytes> := [];
    for i := 0 to |entries|
      invariant forall j :: 0 <= j < i ==> Encodable(entries[j])
      invariant |payloads| == i && forall j :: 0 <= j < i ==> payloads[j] == EncodeRow(fmt, RowOf(entries[j]))
    {
      EncodedEntryIsRow(fmt, entries[i]);
      var payload := EncodeAttestedEntry(fmt, entries[i]);
      if payload.Err? {
        return Err;
      }
      payloads := payloads + [payload.value];
    }
    assert payloads == Payloads(fmt, entries);
    var tree := BuildMerkleTreeFromPayloads(sha, payloads);
    return Ok(tree);
  }

  lemma {:induction false} EncodeVerdictsAppend(ks: seq<VerdictKey>, k: VerdictKey)
    ensures EncodeVerdicts(ks + [k]) == EncodeVerdicts(ks) + EncodeVerdict(k)
  {
    if |ks| == 0 {
      assert ks + [k] == [k];
    } else {
      assert (ks + [k])[1..] == ks[1..] + [k];
      EncodeVerdictsAppend(ks[1..], k);
    }
  }

  method AuthVerdictDigest(sha: HashFn, fmt: Formatter, entries: seq<AttestedEntry>, verdicts: seq<Bytes>)
    returns (r: Result<Digest>)
    ensures r.Ok? <==> |entries| == |verdicts|
    ensures r.Ok? ==> r.value == sha(Encode(fmt, Verdicts(VerdictsOf(entries, verdicts))))
  {
    if |entries| != |verdicts| {
      return Err;
    }
    var buf: Bytes := [0x13];
    buf := buf + BE64(|entries|);
    ghost var head := buf;
    ghost var all := VerdictsOf(entries, verdicts);
    for i := 0 to |entries|
      invariant buf == head + EncodeVerdicts(all[..i])
    {
      var key := VerdictKey(entries[i].entryId, verdicts[i]);
      assert all[..i + 1] == all[..i] + [key];
      EncodeVerdictsAppend(all[..i], key);
      Reassoc(head, EncodeVerdicts(all[..i]), EncodeVerdict(key));
      Reassoc(buf, BE64(key.entryId), LP(key.verdict));
      buf := buf + BE64(entries[i].entryId);
      buf := buf + LP(verdicts[i]);
    }
    assert all[..|entries|] == all;
    Reassoc([0x13], BE64(|entries|), EncodeVerdicts(all));
    r := Ok(sha(buf));
  }

  /** The content a row's root hash is taken over, by the version its columns say it is. */
  function RootContent(row: Row): (r: Result<Content>) {
    if |row.prevRoot| != 32 || |row.batchDigest| != 32 then Err
    else if |row.verdictDigest| > 0 then
      if |row.merkleRoot| != 32 || |row.verdictDigest| != 32 then Err
      else Ok(RootV3(row.seqno, row.prevRoot, row.batchDigest, row.merkleRoot, row.verdictDigest, row.count))
    else if |row.merkleRoot| > 0 then
      if |row.merkleRoot| != 32 then Err
      else Ok(RootV2(row.seqno, row.prevRoot, row.batchDigest, row.merkleRoot, row.count))
    else Ok(RootV1(row.seqno, row.prevRoot, row.batchDigest, row.count))
  }

  method AttestationRootHash(sha: HashFn, fmt: Formatter, seqno: Int64, prevRoot: Bytes, batchDigest: Bytes, count: Int64)
    returns (r: Result<Digest>)
    ensures r.Ok? <==> |prevRoot| == 32 && |batchDigest| == 32
    ensures r.Ok? ==> r.value == sha(Encode(fmt, RootV1(seqno, prevRoot, batchDigest, count)))
  {
    if |prevRoot| != 32 { return Err; }
    if |batchDigest| != 32 { return Err; }
    var buf: Bytes := [0x03];
    buf := buf + BE64(seqno);
    buf := buf + prevRoot;
    buf := buf + batchDigest;
    buf := buf + BE64(count);
    assert buf == Encode(fmt, RootV1(seqno, prevRoot, batchDigest, count));
    r := Ok(sha(buf));
  }

  method AttestationRootHashV2(sha: HashFn, fmt: Formatter, seqno: Int64, prevRoot: Bytes, batchDigest: Bytes,
                               merkleRoot: Bytes, count: Int64)
    returns (r: Result<Digest>)
    ensures r.Ok? <==> |prevRoot| == 32 && |batchDigest| == 32 && |merkleRoot| == 32
    ensures r.Ok? ==> r.value == sha(Encode(fmt, RootV2(seqno, prevRoot, batchDigest, merkleRoot, count)))
  {
    if |prevRoot| != 32 { return Err; }
    if |batchDigest| != 32 { return Err; }
    if |merkleRoot| != 32 { return Err; }
    var buf: Bytes := [0x11];
    buf := buf + BE64(seqno);
    buf := buf + prevRoot;
    buf := buf + batchDigest;
    buf := buf + merkleRoot;
    buf := buf + BE64(count);
    assert buf == Encode(fmt, RootV2(seqno, prevRoot, batchDigest, merkleRoot, count));
    r := Ok(sha(buf));
  }

  method AttestationRootHashV3(sha: HashFn, fmt: Formatter, seqno: Int64, prevRoot: Bytes, batchDigest: Bytes,
                               merkleRoot: Bytes, verdictDigest: Bytes, count: Int64)
    returns (r: Result<Digest>)
    ensures r.Ok? <==> |prevRoot| == 32 && |batchDigest| == 32 && |merkleRoot| == 32 && |verdictDigest| == 32
    ensures r.Ok? ==> r.value == sha(Encode(fmt, RootV3(seqno, prevRoot, batchDigest, merkleRoot, verdictDigest, count)))
  {
    if |prevRoot| != 32 { return Err; }
    if |batchDigest| != 32 { return Err; }
    if |merkleRoot| != 32 { return Err; }
    if |verdictDigest| != 32 { return Err; }
    var buf: Bytes := [0x12];
    buf := buf + BE64(seqno);
    buf := buf + prevRoot;
    buf := buf + batchDigest;
    buf := buf + merkleRoot;
    buf := buf + verdictDigest;
    buf := buf + BE64(count);
    assert buf == Encode(fmt, RootV3(seqno, prevRoot, batchDigest, merkleRoot, verdictDigest, count));
    r := Ok(sha(buf));
  }

  method CanonicalReservationDischargeDigest(sha: HashFn, fmt: Formatter, uid: Bytes, operation: Bytes, amount: Decimal,
                                             key: Bytes, nanos: int)
    returns (r: Result<Digest>, ghost units: int)
    ensures r.Ok? <==> EncodeAmount(amount).Ok?
    ensures r.Ok? ==> InUnits(amount, units)
    ensures r.Ok? ==> r.value == sha(Encode(fmt, Discharge(uid, operation, key, Micros(nanos), units)))
  {
    units := 0;
    var buf: Bytes := [0x11];
    buf := buf + LP(uid);
    buf := buf + LP(operation);
    buf := buf + LP(key);
    buf := buf + LP(fmt(Micros(nanos)));
    match EncodeAmount(amount) {
      case Err => r := Err;
      case Ok(bytes) =>
        units := DischargeUnits(amount);
        AssembleDischarge(fmt, uid, operation, key, nanos, units);
        buf := buf + bytes;
        r := Ok(sha(buf));
    }
  }

  lemma DischargeUnits(amount: Decimal) returns (units: int)
    requires EncodeAmount(amount).Ok?
    ensures InUnits(amount, units) && AmountBytes(units) == EncodeAmount(amount).value
  {
    units := Scaled(amount).value;
    ScaledSpec(amount, units);
  }

  lemma AssembleDischarge(fmt: Formatter, uid: Bytes, operation: Bytes, key: Bytes, nanos: int, units: int)
    ensures [0x11] + LP(uid) + LP(operation) + LP(key) + LP(fmt(Micros(nanos))) + AmountBytes(units)
         == Encode(fmt, Discharge(uid, operation, key, Micros(nanos), units))
  {
    var f2 := LP(uid) + LP(operation);
    var f3 := f2 + LP(key);
    var f4 := f3 + LP(fmt(Micros(nanos)));
    Reassoc([0x11], LP(uid), LP(operation));
    Reassoc([0x11], f2, LP(key));
    Reassoc([0x11], f3, LP(fmt(Micros(nanos))));
    Reassoc([0x11], f4, AmountBytes(units));
  }

  // ---------------------------------------------------------------- histories

  /** One attestation with the entries it covers and their recorded verdicts. */
  datatype Link = Link(row: Row, entries: seq<AttestedEntry>, verdicts: seq<Bytes>)

  ghost predicate IsV3(l: Link) {
    |l.row.verdictDigest| > 0
  }

  function Payloads(fmt: Formatter, es: seq<AttestedEntry>): seq<Bytes> {
    Map((e: AttestedEntry) => EncodeRow(fmt, RowOf(e)), es)
  }

  ghost predicate EntryFramed(fmt: Formatter, e: AttestedEntry) {
    Encodable(e) && Short(e.kind) && Short(fmt(Micros(e.nanos)))
  }

  /** Sizes and lengths the storage layer cannot exceed. */
  ghost predicate LinkFramed(fmt: Formatter, l: Link) {
    && |l.entries| < 0x8000_0000_0000_0000
    && (forall i :: 0 <= i < |l.entries| ==> EntryFramed(fmt, l.entries[i]))
    && (forall i :: 0 <= i < |l.verdicts| ==> Short(l.verdicts[i]))
  }

  /** Every stored column of the row is what recomputing it from the covered entries gives. */
  ghost predicate LinkHolds(sha: HashFn, fmt: Formatter, l: Link) {
    && LinkFramed(fmt, l)
    && RootContent(l.row).Ok? && l.row.rootHash == sha(Encode(fmt, RootContent(l.row).value))
    && l.row.count == |l.entries|
    && l.row.batchDigest == sha(Encode(fmt, Batch(RowsOf(l.entries))))
    && (|l.row.merkleRoot| > 0 ==> l.row.merkleRoot == MTH(sha, Payloads(fmt, l.entries)))
    && (IsV3(l) ==> |l.verdicts| == |l.entries|
                    && l.row.verdictDigest == sha(Encode(fmt, Verdicts(VerdictsOf(l.entries, l.verdicts)))))
  }

  function Head(chain: seq<Link>): Bytes {
    if |chain| == 0 then GENESIS_ROOT else chain[|chain| - 1].row.rootHash
  }

  /** The chain a full verification run accepts: consecutive, linked from genesis, every row holds. */
  ghost predicate ChainHolds(sha: HashFn, fmt: Formatter, chain: seq<Link>)
    decreases |chain|
  {
    |chain| > 0 ==>
      var last, before := chain[|chain| - 1], chain[..|chain| - 1];
      && last.row.seqno == |chain|
      && last.row.prevRoot == Head(before)
      && LinkHolds(sha, fmt, last)
      && ChainHolds(sha, fmt, before)
  }

  datatype Version = V1 | V2 | V3

  /** The row an attestor computes for a batch, before its root hash. */
  function NextRow(sha: HashFn, fmt: Formatter, seqno: Int64, prevRoot: Bytes, version: Version,
                   entries: seq<AttestedEntry>, verdicts: seq<Bytes>): Row
    requires |entries| < 0x8000_0000_0000_0000 && |verdicts| == |entries|
  {
    Row(seqno, |entries|, sha(Encode(fmt, Batch(RowsOf(entries)))),
        if version == V1 then [] else MTH(sha, Payloads(fmt, entries)),
        if version == V3 then sha(Encode(fmt, Verdicts(VerdictsOf(entries, verdicts)))) else [],
        prevRoot, [])
  }

  function Sealed(sha: HashFn, fmt: Formatter, row: Row): Row {
    match RootContent(row) case Ok(c) => row.(rootHash := sha(Encode(fmt, c))) case Err => row
  }

  lemma SealedHolds(sha: HashFn, fmt: Formatter, row: Row)
    requires RootContent(row).Ok?
    ensures var sealed := Sealed(sha, fmt, row);
            sealed == row.(rootHash := sealed.rootHash) && RootContent(sealed) == RootContent(row)
            && sealed.rootHash == sha(Encode(fmt, RootContent(sealed).value))
  {
    var sealed := Sealed(sha, fmt, row);
    assert RootContent(sealed) == RootContent(row);
  }

  lemma NextLinkHolds(sha: HashFn, fmt: Formatter, seqno: Int64, prevRoot: Bytes, version: Version,
                      entries: seq<AttestedEntry>, verdicts: seq<Bytes>)
    requires |prevRoot| == 32 && |verdicts| == |entries|
    requires LinkFramed(fmt, Link(Row(0, 0, [], [], [], [], []), entries, verdicts))
    ensures var row := NextRow(sha, fmt, seqno, prevRoot, version, entries, verdicts);
            LinkHolds(sha, fmt, Link(Sealed(sha, fmt, row), entries, verdicts))
  {
    SealedHolds(sha, fmt, NextRow(sha, fmt, seqno, prevRoot, version, entries, verdicts));
  }

  /** Every accepted chain can be extended by every batch in every version, and stays accepted. */
  lemma ChainExtends(sha: HashFn, fmt: Formatter, chain: seq<Link>, version: Version,
                     entries: seq<AttestedEntry>, verdicts: seq<Bytes>)
    requires ChainHolds(sha, fmt, chain) && |chain| + 1 < 0x8000_0000_0000_0000 && |verdicts| == |entries|
    requires LinkFramed(fmt, Link(Row(0, 0, [], [], [], [], []), entries, verdicts))
    ensures var row := NextRow(sha, fmt, |chain| + 1, Head(chain), version, entries, verdicts);
            ChainHolds(sha, fmt, chain + [Link(Sealed(sha, fmt, row), entries, verdicts)])
  {
    var row := NextRow(sha, fmt, |chain| + 1, Head(chain), version, entries, verdicts);
    var l := Link(Sealed(sha, fmt, row), entries, verdicts);
    HeadIsDigest(sha, fmt, chain);
    NextLinkHolds(sha, fmt, |chain| + 1, Head(chain), version, entries, verdicts);
    SealedHolds(sha, fmt, row);
    JoinLink(sha, fmt, chain, l);
  }

  /** A batch to attest. */
  datatype Work = Work(version: Version, entries: seq<AttestedEntry>, verdicts: seq<Bytes>)

  ghost predicate WorkFramed(fmt: Formatter, b: Work) {
    |b.verdicts| == |b.entries| && LinkFramed(fmt, Link(Row(0, 0, [], [], [], [], []), b.entries, b.verdicts))
  }

  /** The version a row's columns say it is. */
  function VersionOf(row: Row): Version {
    if |row.verdictDigest| > 0 then V3 else if |row.merkleRoot| > 0 then V2 else V1
  }

  ghost predicate Covers(l: Link, b: Work) {
    VersionOf(l.row) == b.version && l.entries == b.entries && l.verdicts == b.verdicts
  }

  ghost predicate AllFramed(fmt: Formatter, work: seq<Work>) {
    forall i :: 0 <= i < |work| ==> WorkFramed(fmt, work[i])
  }

  ghost predicate CoversAll(chain: seq<Link>, work: seq<Work>) {
    |chain| == |work| && forall i :: 0 <= i < |work| ==> Covers(chain[i], work[i])
  }

  lemma FramedParts(fmt: Formatter, work: seq<Work>, n: nat)
    requires AllFramed(fmt, work) && n < |work|
    ensures AllFramed(fmt, work[..n]) && WorkFramed(fmt, work[n])
  {
  }

  lemma CoversOneMore(chain: seq<Link>, l: Link, work: seq<Work>, n: nat)
    requires |work| == n + 1 && CoversAll(chain, work[..n]) && Covers(l, work[n])
    ensures CoversAll(chain + [l], work)
  {
    forall i | 0 <= i < |work| ensures Covers((chain + [l])[i], work[i]) {
      if i < n { assert Covers(chain[i], work[..n][i]); }
    }
  }

  /** Every list of batches, in any mix of versions, has an accepted chain that covers exactly them, each in
      its version. */
  lemma {:induction false} ChainsExist(sha: HashFn, fmt: Formatter, work: seq<Work>) returns (chain: seq<Link>)
    requires |work| < 0x8000_0000_0000_0000 && AllFramed(fmt, work)
    ensures ChainHolds(sha, fmt, chain) && CoversAll(chain, work)
    decreases |work|
  {
    if |work| == 0 {
      chain := [];
    } else {
      var n := |work| - 1;
      FramedParts(fmt, work, n);
      var before := ChainsExist(sha, fmt, work[..n]);
      var last := Attested(sha, fmt, before, work[n]);
      CoversOneMore(before, last, work, n);
      chain := before + [last];
    }
  }

  lemma Attested(sha: HashFn, fmt: Formatter, chain: seq<Link>, b: Work) returns (l: Link)
    requires ChainHolds(sha, fmt, chain) && |chain| + 1 < 0x8000_0000_0000_0000 && WorkFramed(fmt, b)
    ensures ChainHolds(sha, fmt, chain + [l]) && Covers(l, b)
  {
    ChainExtends(sha, fmt, chain, b.version, b.entries, b.verdicts);
    var row := NextRow(sha, fmt, |chain| + 1, Head(chain), b.version, b.entries, b.verdicts);
    HeadIsDigest(sha, fmt, chain);
    SealedHolds(sha, fmt, row);
    l := Link(Sealed(sha, fmt, row), b.entries, b.verdicts);
  }

  lemma HeadIsDigest(sha: HashFn, fmt: Formatter, chain: seq<Link>)
    requires ChainHolds(sha, fmt, chain)
    ensures |Head(chain)| == 32
  {
  }

  lemma JoinLink(sha: HashFn, fmt: Formatter, chain: seq<Link>, l: Link)
    requires ChainHolds(sha, fmt, chain) && LinkHolds(sha, fmt, l)
    requires l.row.seqno == |chain| + 1 && l.row.prevRoot == Head(chain)
    ensures ChainHolds(sha, fmt, chain + [l])
  {
    var longer := chain + [l];
    assert longer[..|longer| - 1] == chain && longer[|longer| - 1] == l;
  }

  /** Every string hashed for a link's digests. */
  ghost function LinkPreimages(fmt: Formatter, l: Link): set<Bytes> {
    {if RootContent(l.row).Ok? then Encode(fmt, RootContent(l.row).value) else [],
     Encode(fmt, Batch(RowsOf(l.entries)))}
    + if IsV3(l) && |l.verdicts| == |l.entries| then {Encode(fmt, Verdicts(VerdictsOf(l.entries, l.verdicts)))} else {}
  }

  ghost function ChainPreimages(fmt: Formatter, chain: seq<Link>): set<Bytes>
    decreases |chain|
  {
    if |chain| == 0 then {}
    else ChainPreimages(fmt, chain[..|chain| - 1]) + LinkPreimages(fmt, chain[|chain| - 1])
  }

  /** Two links record the same thing. */
  ghost predicate SameLink(a: Link, b: Link) {
    && a.row == b.row && SameEntries(a.entries, b.entries)
    && (IsV3(a) ==> a.verdicts == b.verdicts)
  }

  ghost predicate SameHistory(a: seq<Link>, b: seq<Link>) {
    |a| == |b| && forall i :: 0 <= i < |a| ==> SameLink(a[i], b[i])
  }

  lemma RootContentInjective(fmt: Formatter, a: Row, b: Row)
    requires RootContent(a).Ok? && RootContent(b).Ok?
    requires Encode(fmt, RootContent(a).value) == Encode(fmt, RootContent(b).value)
    ensures a.(rootHash := []) == b.(rootHash := [])
  {
    var c, d := RootContent(a).value, RootContent(b).value;
    assert Tag(c) == Tag(d);
    PeelFixed([Tag(c)], [Tag(d)], Body(fmt, c), Body(fmt, d));
    match c {
      case RootV1(_, _, _, _) => RootV1Injective(fmt, c, d);
      case RootV2(_, _, _, _, _) => RootV2Injective(fmt, c, d);
      case RootV3(_, _, _, _, _, _) => RootV3Injective(fmt, c, d);
    }
  }

  lemma BatchFramed(fmt: Formatter, l: Link)
    requires LinkFramed(fmt, l)
    ensures Framed(fmt, Batch(RowsOf(l.entries)))
  {
    forall i | 0 <= i < |l.entries| ensures FramedRow(fmt, RowsOf(l.entries)[i]) {
      RowEncodes(l.entries[i]);
    }
  }

  /** Links whose root hashes agree record the same thing, or strings hashed for them collide. */
  lemma LinkBinding(sha: HashFn, fmt: Formatter, a: Link, b: Link)
    requires Faithful(fmt) && LinkHolds(sha, fmt, a) && LinkHolds(sha, fmt, b)
    requires a.row.rootHash == b.row.rootHash
    ensures SameLink(a, b) || Collides(sha, LinkPreimages(fmt, a), LinkPreimages(fmt, b))
  {
    var hashedA, hashedB := LinkPreimages(fmt, a), LinkPreimages(fmt, b);
    var p, q := Encode(fmt, RootContent(a.row).value), Encode(fmt, RootContent(b.row).value);
    if p != q {
      CollidesWith(sha, hashedA, hashedB, p, q);
    } else {
      RootContentInjective(fmt, a.row, b.row);
      EntriesBinding(sha, fmt, a, b);
      VerdictBinding(sha, fmt, a, b);
    }
  }

  lemma EntriesBinding(sha: HashFn, fmt: Formatter, a: Link, b: Link)
    requires Faithful(fmt) && LinkHolds(sha, fmt, a) && LinkHolds(sha, fmt, b)
    requires a.row.batchDigest == b.row.batchDigest
    ensures SameEntries(a.entries, b.entries) || Collides(sha, LinkPreimages(fmt, a), LinkPreimages(fmt, b))
  {
    var c, d := Batch(RowsOf(a.entries)), Batch(RowsOf(b.entries));
    if Encode(fmt, c) != Encode(fmt, d) {
      CollidesWith(sha, LinkPreimages(fmt, a), LinkPreimages(fmt, b), Encode(fmt, c), Encode(fmt, d));
    } else {
      BatchFramed(fmt, a);
      BatchFramed(fmt, b);
      EncodeInjective(fmt, c, d);
      SameRowsSameEntries(a.entries, b.entries);
    }
  }

  lemma VerdictBinding(sha: HashFn, fmt: Formatter, a: Link, b: Link)
    requires Faithful(fmt) && LinkHolds(sha, fmt, a) && LinkHolds(sha, fmt, b)
    requires a.row.verdictDigest == b.row.verdictDigest
    ensures (IsV3(a) ==> a.verdicts == b.verdicts) || Collides(sha, LinkPreimages(fmt, a), LinkPreimages(fmt, b))
  {
    if IsV3(a) {
      var c, d := Verdicts(VerdictsOf(a.entries, a.verdicts)), Verdicts(VerdictsOf(b.entries, b.verdicts));
      if Encode(fmt, c) != Encode(fmt, d) {
        CollidesWith(sha, LinkPreimages(fmt, a), LinkPreimages(fmt, b), Encode(fmt, c), Encode(fmt, d));
      } else {
        EncodeInjective(fmt, c, d);
        assert |a.verdicts| == |c.verdicts| == |d.verdicts| == |b.verdicts|;
        forall i | 0 <= i < |a.verdicts| ensures a.verdicts[i] == b.verdicts[i] {
          assert c.verdicts[i] == d.verdicts[i];
        }
      }
    }
  }

  /** The one way past the chain without a collision: some hashed string has the genesis hash. */
  ghost predicate HitsGenesis(sha: HashFn, hashed: set<Bytes>) {
    exists p :: p in hashed && sha(p) == Zeros(32)
  }

  lemma HashedNest(fmt: Formatter, chain: seq<Link>)
    requires |chain| > 0
    ensures ChainPreimages(fmt, chain[..|chain| - 1]) <= ChainPreimages(fmt, chain)
    ensures LinkPreimages(fmt, chain[|chain| - 1]) <= ChainPreimages(fmt, chain)
  {
  }

  /** Accepted chains with one head end in the same link, or hashed strings collide. */
  lemma LastLinkBinding(sha: HashFn, fmt: Formatter, a: seq<Link>, b: seq<Link>)
    requires Faithful(fmt) && ChainHolds(sha, fmt, a) && ChainHolds(sha, fmt, b)
    requires |a| > 0 && |b| > 0 && Head(a) == Head(b)
    ensures || (SameLink(a[|a| - 1], b[|b| - 1]) && |a| == |b| && Head(a[..|a| - 1]) == Head(b[..|b| - 1]))
            || Collides(sha, ChainPreimages(fmt, a), ChainPreimages(fmt, b))
  {
    var l, r := a[|a| - 1], b[|b| - 1];
    LinkBinding(sha, fmt, l, r);
    HashedNest(fmt, a);
    HashedNest(fmt, b);
    if !SameLink(l, r) {
      CollidesWiden(sha, LinkPreimages(fmt, l), LinkPreimages(fmt, r), ChainPreimages(fmt, a), ChainPreimages(fmt, b));
    }
  }

  lemma SameHistoryExtends(a: seq<Link>, b: seq<Link>)
    requires |a| == |b| > 0
    requires SameHistory(a[..|a| - 1], b[..|b| - 1]) && SameLink(a[|a| - 1], b[|b| - 1])
    ensures SameHistory(a, b)
  {
    forall i | 0 <= i < |a| - 1 ensures SameLink(a[i], b[i]) {
      assert a[..|a| - 1][i] == a[i] && b[..|b| - 1][i] == b[i];
    }
  }

  lemma {:induction false} SameLengthBinding(sha: HashFn, fmt: Formatter, a: seq<Link>, b: seq<Link>)
    requires Faithful(fmt) && ChainHolds(sha, fmt, a) && ChainHolds(sha, fmt, b)
    requires |a| == |b| && Head(a) == Head(b)
    ensures SameHistory(a, b) || Collides(sha, ChainPreimages(fmt, a), ChainPreimages(fmt, b))
    decreases |a|
  {
    if |a| > 0 {
      LastLinkBinding(sha, fmt, a, b);
      var hashedA, hashedB := ChainPreimages(fmt, a), ChainPreimages(fmt, b);
      if !Collides(sha, hashedA, hashedB) {
        var beforeA, beforeB := a[..|a| - 1], b[..|b| - 1];
        SameLengthBinding(sha, fmt, beforeA, beforeB);
        HashedNest(fmt, a);
        HashedNest(fmt, b);
        if SameHistory(beforeA, beforeB) {
          SameHistoryExtends(a, b);
        } else {
          CollidesWiden(sha, ChainPreimages(fmt, beforeA), ChainPreimages(fmt, beforeB), hashedA, hashedB);
        }
      }
    }
  }

  /** Two accepted chains with one head are one history: the same length, rows, entries and verdicts
      at every sequence number. Otherwise hashed strings collide, or exactly one chain is empty and
      a string hashed for the other has the all-zero hash. */
  lemma HistoryBinding(sha: HashFn, fmt: Formatter, a: seq<Link>, b: seq<Link>)
    requires Faithful(fmt) && ChainHolds(sha, fmt, a) && ChainHolds(sha, fmt, b)
    requires Head(a) == Head(b)
    ensures || SameHistory(a, b)
            || Collides(sha, ChainPreimages(fmt, a), ChainPreimages(fmt, b))
            || (a == [] && b != [] && HitsGenesis(sha, ChainPreimages(fmt, b)))
            || (a != [] && b == [] && HitsGenesis(sha, ChainPreimages(fmt, a)))
  {
    if |a| == |b| {
      SameLengthBinding(sha, fmt, a, b);
    } else if |a| == 0 {
      HeadIsHashed(sha, fmt, b);
    } else if |b| == 0 {
      HeadIsHashed(sha, fmt, a);
    } else {
      LastLinkBinding(sha, fmt, a, b);
    }
  }

  lemma HeadIsHashed(sha: HashFn, fmt: Formatter, chain: seq<Link>)
    requires |chain| > 0 && ChainHolds(sha, fmt, chain) && Head(chain) == GENESIS_ROOT
    ensures HitsGenesis(sha, ChainPreimages(fmt, chain))
  {
    var last := chain[|chain| - 1];
    var p := Encode(fmt, RootContent(last.row).value);
    assert p in LinkPreimages(fmt, last);
  }

  // ---------------------------------------------------------------- one entry against a signed root

  lemma RowFramed(fmt: Formatter, e: AttestedEntry)
    requires EntryFramed(fmt, e)
    ensures FramedRow(fmt, RowOf(e))
  {
    RowEncodes(e);
  }

  /** A proof that verifies for one entry against the merkle root of an accepted link shows that the
      link covers that entry at that index, with every column the same, or hashed strings collide. */
  lemma AttestedEntryIncluded(sha: HashFn, fmt: Formatter, l: Link, e: AttestedEntry, i: nat, path: seq<Bytes>)
    requires Faithful(fmt) && LinkHolds(sha, fmt, l) && |l.row.merkleRoot| > 0
    requires i < |l.entries| && EntryFramed(fmt, e)
    requires Verifies(sha, sha(LeafPreimage(EncodeRow(fmt, RowOf(e)))), InclusionProof(i, |l.entries|, path), l.row.merkleRoot)
    ensures var payload := EncodeRow(fmt, RowOf(e));
            || SameEntry(e, l.entries[i])
            || Collides(sha,
                        WalkPreimages(sha, sha(LeafPreimage(payload)), Directions(i, |l.entries|), path) + {LeafPreimage(payload)},
                        Preimages(sha, Payloads(fmt, l.entries)))
  {
    var payload, all := EncodeRow(fmt, RowOf(e)), Payloads(fmt, l.entries);
    PayloadInclusionSound(sha, all, payload, i, path);
    if payload == all[i] {
      var other := l.entries[i];
      RowFramed(fmt, e);
      RowFramed(fmt, other);
      assert payload + [] == payload && all[i] + [] == all[i];
      PeelRow(fmt, RowOf(e), RowOf(other), [], []);
      SameRowsSameEntries([e], [other]);
      assert SameEntry([e][0], [other][0]);
    }
  }
}
