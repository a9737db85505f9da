/** The durable form of settlement facts, frontiers and pending manifests
    (src/dispatch/file_managed_deal_settlement_store.cpp:20-262). */
module SettlementCodec {
  import opened MachineWords
  import opened Options
  import opened FieldCodec
  import opened RecordEnvelope
  import opened SettlementRecords

  const FORMAT: u32 := 1

  /** "MT5MDS01". */
  const RECORD_MAGIC: Bytes := [77, 84, 53, 77, 68, 83, 48, 49]

  /** "MT5MDP01". */
  const PENDING_MAGIC: Bytes := [77, 84, 53, 77, 68, 80, 48, 49]

  // ----- facts

  function FactKinds(): seq<Kind> {
    [STRING, STRING, U64, U64, U64, U64, U64, U64, U64, U64, U64, U64, U64]
  }

  function FactFields(f: DealSettlement): (fields: seq<Field>)
    ensures |fields| == 13
  {
    [Blob(f.key.account.server), Blob(f.key.operationKey.account.server), Number(f.key.account.login),
     Number(f.key.operationKey.account.login), Number(f.key.operationKey.tradeId), Number(f.key.operationKey.operationId),
     Number(f.key.dealTicket), Number(f.sourceOperationRevision), Number(f.managedLogicalUnits),
     Number(f.provenance.graphInstanceId), Number(f.provenance.graphRevision), Number(f.provenance.historyDealsRevision),
     Number(f.provenance.evidenceDigest)]
  }

  /** Two names, then nothing but words. */
  predicate TwoNames(fields: seq<Field>, words: nat) {
    && |fields| == 2 + words && fields[0].Blob? && fields[1].Blob?
    && forall i :: 2 <= i < |fields| ==> fields[i].Number? && fields[i].value < U64_BASE
  }

  function FactFrom(fields: seq<Field>): DealSettlement
    requires TwoNames(fields, 11)
  {
    DealSettlement(
      DealSettlementKey(AccountKey(fields[0].content, fields[2].value),
                        OperationKey(AccountKey(fields[1].content, fields[3].value), fields[4].value, fields[5].value),
                        fields[6].value),
      fields[7].value, fields[8].value, Provenance(fields[9].value, fields[10].value, fields[11].value, fields[12].value))
  }

  function FactBody(f: DealSettlement): Bytes {
    Encode(FactFields(f), FactKinds())
  }

  /** None when the fact is invalid or exceeds a storage limit. */
  function WriteFactRecord(f: DealSettlement): Option<Bytes> {
    if f.Valid() && NamesFit(f.key.account, f.key.operationKey.account) && |FactBody(f)| <= MAX_RECORD_BODY then
      Some(Envelope(RECORD_MAGIC, FORMAT, FactBody(f)))
    else None
  }

  predicate NamesFit(a: AccountKey, b: AccountKey) {
    |a.server| <= MAX_STRING && |b.server| <= MAX_STRING
  }

  /** The body of an envelope in the one known format. */
  function BodyOf(magic: Bytes, bytes: Bytes): Option<Bytes>
    requires |magic| == 8
  {
    match OpenEnvelope(magic, MAX_RECORD_BODY, bytes)
    case None => None
    case Some((v, body)) => if v == FORMAT then Some(body) else None
  }

  function ReadFactRecord(bytes: Bytes): Option<DealSettlement> {
    match BodyOf(RECORD_MAGIC, bytes)
    case None => None
    case Some(body) =>
      match Decode(FactKinds(), body)
      case None => None
      case Some(read) =>
        FactDecoded(body);
        if read.1 == [] && FactFrom(read.0).Valid() then Some(FactFrom(read.0)) else None
  }

  lemma FactDecoded(body: Bytes)
    requires Decode(FactKinds(), body).Some?
    ensures TwoNames(Decode(FactKinds(), body).value.0, 11)
  {
    hide Decode;
    EncodeDecoded(FactKinds(), body);
    NamesThenWords(Decode(FactKinds(), body).value.0, FactKinds());
  }

  lemma NamesThenWords(fields: seq<Field>, kinds: seq<Kind>)
    requires AllFit(fields, kinds) && |kinds| >= 2 && kinds[0] == STRING && kinds[1] == STRING
    requires forall i :: 2 <= i < |kinds| ==> kinds[i] == U64 || kinds[i] == U32
    ensures TwoNames(fields, |kinds| - 2)
  {
    hide ByteWeight;
    Weights();
    forall i | 0 <= i < |fields| ensures Fits(fields[i], kinds[i]) {}
    assert Fits(fields[0], STRING) && Fits(fields[1], STRING);
  }

  lemma FactFits(f: DealSettlement)
    requires NamesFit(f.key.account, f.key.operationKey.account)
    ensures AllFit(FactFields(f), FactKinds()) && TwoNames(FactFields(f), 11) && FactFrom(FactFields(f)) == f
  {
    hide ByteWeight;
    Weights();
  }

  /** A fact that is written reads back as itself. */
  lemma FactRoundTrip(f: DealSettlement)
    requires WriteFactRecord(f).Some?
    ensures ReadFactRecord(WriteFactRecord(f).value) == Some(f)
  {
    hide Encode;
    hide Decode;
    hide OpenEnvelope;
    hide DealSettlement.Valid;
    EnvelopeForward(RECORD_MAGIC, MAX_RECORD_BODY, FORMAT, FactBody(f));
    FactFits(f);
    DecodeEncoded(FactFields(f), FactKinds(), []);
    assert FactBody(f) + [] == FactBody(f);
  }

  // ----- frontiers

  function HeadKinds(): seq<Kind> {
    [STRING, STRING, U64, U64, U64, U64, U64, U64, U64, U64, U64, U64, U32]
  }

  function HeadFields(f: SettlementFrontier): (fields: seq<Field>)
    ensures |fields| == 13
  {
    [Blob(f.account.server), Blob(f.operationKey.account.server), Number(f.account.login), Number(f.operationKey.account.login),
     Number(f.operationKey.tradeId), Number(f.operationKey.operationId), Number(f.operationRevision), Number(f.settledVolume),
     Number(f.provenance.graphInstanceId), Number(f.provenance.graphRevision), Number(f.provenance.historyDealsRevision),
     Number(f.provenance.evidenceDigest), Number(|f.entries|)]
  }

  function EntryKinds(): seq<Kind> { [U64, U64, U64] }

  function EntryFields(e: FrontierEntry): (fields: seq<Field>)
    ensures |fields| == 3
  {
    [Number(e.dealTicket), Number(e.sourceOperationRevision), Number(e.managedLogicalUnits)]
  }

  function EntriesBytes(s: seq<FrontierEntry>): Bytes {
    if s == [] then [] else Encode(EntryFields(s[0]), EntryKinds()) + EntriesBytes(s[1..])
  }

  function FrontierBody(f: SettlementFrontier): Bytes {
    Encode(HeadFields(f), HeadKinds()) + EntriesBytes(f.entries)
  }

  function WriteFrontierRecord(f: SettlementFrontier): Option<Bytes> {
    if f.Valid() && |f.entries| <= MAX_ENTRIES && NamesFit(f.account, f.operationKey.account) && |FrontierBody(f)| <= MAX_RECORD_BODY then
      Some(Envelope(RECORD_MAGIC, FORMAT, FrontierBody(f)))
    else None
  }

  function ReadEntries(count: nat, bytes: Bytes): Option<(seq<FrontierEntry>, Bytes)>
    decreases count
  {
    if count == 0 then Some(([], bytes))
    else
      match Decode(EntryKinds(), bytes)
      case None => None
      case Some(head) =>
        DecodedWords(EntryKinds(), bytes);
        match ReadEntries(count - 1, head.1)
        case None => None
        case Some(tail) => Some(([FrontierEntry(head.0[0].value, head.0[1].value, head.0[2].value)] + tail.0, tail.1))
  }

  function FrontierFrom(head: seq<Field>, entries: seq<FrontierEntry>): SettlementFrontier
    requires TwoNames(head, 11)
  {
    SettlementFrontier(
      AccountKey(head[0].content, head[2].value), OperationKey(AccountKey(head[1].content, head[3].value), head[4].value, head[5].value),
      head[6].value, head[7].value, Provenance(head[8].value, head[9].value, head[10].value, head[11].value), entries)
  }

  function ReadFrontierRecord(bytes: Bytes): Option<SettlementFrontier> {
    match BodyOf(RECORD_MAGIC, bytes)
    case None => None
    case Some(body) => ReadFrontierBody(body)
  }

  function ReadFrontierBody(body: Bytes): Option<SettlementFrontier> {
    match Decode(HeadKinds(), body)
    case None => None
    case Some(head) =>
      HeadDecoded(body);
      var count := head.0[12].value;
      if count == 0 || count > MAX_ENTRIES then None
      else
        match ReadEntries(count, head.1)
        case None => None
        case Some(list) =>
          var frontier := FrontierFrom(head.0, list.0);
          if list.1 == [] && frontier.Valid() then Some(frontier) else None
  }

  lemma HeadDecoded(body: Bytes)
    requires Decode(HeadKinds(), body).Some?
    ensures TwoNames(Decode(HeadKinds(), body).value.0, 11)
  {
    hide Decode;
    EncodeDecoded(HeadKinds(), body);
    NamesThenWords(Decode(HeadKinds(), body).value.0, HeadKinds());
  }

  lemma HeadFits(f: SettlementFrontier)
    requires NamesFit(f.account, f.operationKey.account) && |f.entries| < U32_BASE
    ensures AllFit(HeadFields(f), HeadKinds()) && TwoNames(HeadFields(f), 11) && FrontierFrom(HeadFields(f), f.entries) == f
  {
    hide ByteWeight;
    Weights();
  }

  lemma {:induction false} EntriesForward(s: seq<FrontierEntry>, rest: Bytes)
    ensures ReadEntries(|s|, EntriesBytes(s) + rest) == Some((s, rest))
    decreases |s|
  {
    hide Encode;
    hide Decode;
    if s == [] {
      assert EntriesBytes(s) + rest == rest;
    } else {
      var head := Encode(EntryFields(s[0]), EntryKinds());
      assert EntriesBytes(s) + rest == head + (EntriesBytes(s[1..]) + rest);
      WordsFit(EntryFields(s[0]), EntryKinds());
      DecodeEncoded(EntryFields(s[0]), EntryKinds(), EntriesBytes(s[1..]) + rest);
      EntriesForward(s[1..], rest);
      assert [s[0]] + s[1..] == s;
    }
  }

  lemma FrontierRoundTrip(f: SettlementFrontier)
    requires WriteFrontierRecord(f).Some?
    ensures ReadFrontierRecord(WriteFrontierRecord(f).value) == Some(f)
  {
    hide Encode;
    hide Decode;
    hide OpenEnvelope;
    hide EntriesBytes;
    hide ReadEntries;
    EnvelopeForward(RECORD_MAGIC, MAX_RECORD_BODY, FORMAT, FrontierBody(f));
    HeadFits(f);
    DecodeEncoded(HeadFields(f), HeadKinds(), EntriesBytes(f.entries));
    EntriesForward(f.entries, []);
    assert EntriesBytes(f.entries) + [] == EntriesBytes(f.entries);
  }

  // ----- manifests

  const EMBEDDED: Kind := BlobOf(8, ENVELOPE + MAX_RECORD_BODY)

  function ManifestKinds(): seq<Kind> { [EMBEDDED, EMBEDDED] }

  function ManifestBody(fact: Bytes, frontier: Bytes): Bytes {
    Encode([Blob(fact), Blob(frontier)], ManifestKinds())
  }

  /** The pending manifest: both records behind their sizes. */
  function WriteManifest(p: Publication): Option<Bytes> {
    if !p.Matched() || WriteFactRecord(p.fact).None? || WriteFrontierRecord(p.frontier).None? then None
    else
      var body := ManifestBody(WriteFactRecord(p.fact).value, WriteFrontierRecord(p.frontier).value);
      if |body| <= MAX_RECORD_BODY then Some(Envelope(PENDING_MAGIC, FORMAT, body)) else None
  }

  function ReadManifest(bytes: Bytes): Option<Publication> {
    match BodyOf(PENDING_MAGIC, bytes)
    case None => None
    case Some(body) =>
      match Decode(ManifestKinds(), body)
      case None => None
      case Some(read) =>
        ManifestDecoded(body);
        if read.1 != [] then None
        else
          match ReadFactRecord(read.0[0].content)
          case None => None
          case Some(fact) =>
            match ReadFrontierRecord(read.0[1].content)
            case None => None
            case Some(frontier) => if Publication(fact, frontier).WellFormed() then Some(Publication(fact, frontier)) else None
  }

  lemma ManifestDecoded(body: Bytes)
    requires Decode(ManifestKinds(), body).Some?
    ensures var fields := Decode(ManifestKinds(), body).value.0; |fields| == 2 && fields[0].Blob? && fields[1].Blob?
  {
    hide Decode;
    hide ByteWeight;
    EncodeDecoded(ManifestKinds(), body);
    var fields := Decode(ManifestKinds(), body).value.0;
    assert Fits(fields[0], EMBEDDED) && Fits(fields[1], EMBEDDED);
  }

  // ----- sizes

  lemma TwoNamesSize(fields: seq<Field>, kinds: seq<Kind>)
    requires |fields| == |kinds| && |fields| >= 2 && kinds[0] == STRING && kinds[1] == STRING && fields[0].Blob? && fields[1].Blob?
    requires Numbers(fields[2..])
    ensures |Encode(fields, kinds)| == 8 + |fields[0].content| + |fields[1].content| + WidthSum(kinds[2..])
  {
    EncodedSize(fields, kinds);
    WordsHaveNoContent(fields[2..]);
    assert fields[1..][1..] == fields[2..] && kinds[1..][1..] == kinds[2..];
  }

  lemma {:induction false} EntriesSize(s: seq<FrontierEntry>)
    ensures |EntriesBytes(s)| == 24 * |s|
  {
    hide Encode;
    if s != [] {
      AllLong(EntryFields(s[0]), EntryKinds());
      EntriesSize(s[1..]);
    }
  }

  lemma FactWidths()
    ensures WidthSum(FactKinds()[2..]) == 88
  {
    WidthsOf(FactKinds()[2..], 8);
  }

  lemma HeadWidths()
    ensures WidthSum(HeadKinds()[2..]) == 84
  {
    var longs := [U64, U64, U64, U64, U64, U64, U64, U64, U64, U64];
    assert HeadKinds()[2..] == longs + [U32];
    WidthsJoin(longs, [U32]);
    WidthsOf(longs, 8);
    WidthsOf([U32], 4);
  }

  lemma RecordSizes(p: Publication)
    ensures |FactBody(p.fact)| == p.FactSize() && |FrontierBody(p.frontier)| == p.FrontierSize()
  {
    hide Encode;
    hide EntriesBytes;
    hide WidthSum;
    FactWidths();
    HeadWidths();
    TwoNamesSize(FactFields(p.fact), FactKinds());
    TwoNamesSize(HeadFields(p.frontier), HeadKinds());
    EntriesSize(p.frontier.entries);
  }

  lemma {:induction false} ManifestBodySize(fact: Bytes, frontier: Bytes)
    ensures |ManifestBody(fact, frontier)| == 16 + |fact| + |frontier|
  {
    hide LittleEndian;
    var fields, kinds := [Blob(fact), Blob(frontier)], ManifestKinds();
    assert fields[1..] == [Blob(frontier)] && kinds[1..] == [EMBEDDED];
    assert fields[1..][1..] == [] && kinds[1..][1..] == [];
    assert Encode(fields[1..], kinds[1..]) == EncodeField(Blob(frontier), 8) + [];
  }

  /** The arithmetic limit is the writer's: a matching publication gets a manifest exactly when it
      fits, and then each of its records is written too. */
  lemma WritesIffFits(p: Publication)
    requires p.Matched()
    ensures WriteManifest(p).Some? <==> p.Fits()
    ensures p.Fits() ==> WriteFactRecord(p.fact).Some? && WriteFrontierRecord(p.frontier).Some?
  {
    hide Encode;
    hide Envelope;
    hide DealSettlement.Valid;
    hide SettlementFrontier.Valid;
    RecordSizes(p);
    EnvelopeSize(RECORD_MAGIC, FORMAT, FactBody(p.fact));
    EnvelopeSize(RECORD_MAGIC, FORMAT, FrontierBody(p.frontier));
    ManifestBodySize(Envelope(RECORD_MAGIC, FORMAT, FactBody(p.fact)), Envelope(RECORD_MAGIC, FORMAT, FrontierBody(p.frontier)));
  }

  /** A manifest that was written reads back as its publication if and only if the frontier pins the
      fact; the settlement store writes no other, so every manifest it leaves can be recovered. */
  lemma ManifestRoundTrip(p: Publication)
    requires WriteManifest(p).Some?
    ensures ReadManifest(WriteManifest(p).value) == if p.WellFormed() then Some(p) else None
  {
    hide Encode;
    hide Decode;
    hide OpenEnvelope;
    hide ReadFactRecord;
    hide ReadFrontierRecord;
    hide WriteFactRecord;
    hide WriteFrontierRecord;
    hide Publication.WellFormed;
    WritesIffFits(p);
    FactRoundTrip(p.fact);
    FrontierRoundTrip(p.frontier);
    var fact, frontier := WriteFactRecord(p.fact).value, WriteFrontierRecord(p.frontier).value;
    RecordLengths(p);
    ManifestBodySize(fact, frontier);
    EnvelopeForward(PENDING_MAGIC, MAX_RECORD_BODY, FORMAT, ManifestBody(fact, frontier));
    EmbeddedFit(fact, frontier);
    DecodeEncoded([Blob(fact), Blob(frontier)], ManifestKinds(), []);
    assert ManifestBody(fact, frontier) + [] == ManifestBody(fact, frontier);
  }

  lemma RecordLengths(p: Publication)
    requires WriteFactRecord(p.fact).Some? && WriteFrontierRecord(p.frontier).Some?
    ensures |WriteFactRecord(p.fact).value| == ENVELOPE + p.FactSize() <= ENVELOPE + MAX_RECORD_BODY
    ensures |WriteFrontierRecord(p.frontier).value| == ENVELOPE + p.FrontierSize() <= ENVELOPE + MAX_RECORD_BODY
  {
    hide Encode;
    RecordSizes(p);
    EnvelopeSize(RECORD_MAGIC, FORMAT, FactBody(p.fact));
    EnvelopeSize(RECORD_MAGIC, FORMAT, FrontierBody(p.frontier));
  }

  lemma EmbeddedFit(fact: Bytes, frontier: Bytes)
    requires |fact| <= ENVELOPE + MAX_RECORD_BODY && |frontier| <= ENVELOPE + MAX_RECORD_BODY
    ensures AllFit([Blob(fact), Blob(frontier)], ManifestKinds())
  {
    hide ByteWeight;
    Weights();
  }

  // ----- nothing else is accepted

  lemma FieldsOfFact(fields: seq<Field>)
    requires TwoNames(fields, 11)
    ensures FactFields(FactFrom(fields)) == fields
  {
    Refields(FactFields(FactFrom(fields)), fields);
  }

  lemma Refields(a: seq<Field>, b: seq<Field>)
    requires |a| == |b| == 13
    requires forall i :: 0 <= i < 13 ==> a[i] == b[i]
    ensures a == b
  {
  }

  lemma NamesThatFit(fields: seq<Field>, kinds: seq<Kind>)
    requires AllFit(fields, kinds) && |kinds| >= 2 && kinds[0] == STRING && kinds[1] == STRING && fields[0].Blob? && fields[1].Blob?
    ensures |fields[0].content| <= MAX_STRING && |fields[1].content| <= MAX_STRING
  {
    hide ByteWeight;
    assert Fits(fields[0], STRING) && Fits(fields[1], STRING);
  }

  /** The bytes of an accepted fact record are the one encoding of a valid fact. */
  lemma AcceptedFact(bytes: Bytes)
    requires ReadFactRecord(bytes).Some?
    ensures ReadFactRecord(bytes).value.Valid() && WriteFactRecord(ReadFactRecord(bytes).value) == Some(bytes)
  {
    hide Encode, Decode, OpenEnvelope, AllFit, DealSettlement.Valid, Envelope;
    EnvelopeBackward(RECORD_MAGIC, MAX_RECORD_BODY, bytes);
    var body := BodyOf(RECORD_MAGIC, bytes).value;
    FactDecoded(body);
    EncodeDecoded(FactKinds(), body);
    var fields := Decode(FactKinds(), body).value.0;
    FieldsOfFact(fields);
    NamesThatFit(fields, FactKinds());
    assert Encode(fields, FactKinds()) + [] == Encode(fields, FactKinds());
  }

  lemma {:induction false} EntriesBackward(count: nat, bytes: Bytes)
    requires ReadEntries(count, bytes).Some?
    ensures var (entries, rest) := ReadEntries(count, bytes).value; |entries| == count && EntriesBytes(entries) + rest == bytes
    decreases count
  {
    hide Encode, Decode, AllFit;
    if count > 0 {
      DecodedWords(EntryKinds(), bytes);
      EncodeDecoded(EntryKinds(), bytes);
      var (fields, rest) := Decode(EntryKinds(), bytes).value;
      EntriesBackward(count - 1, rest);
      var (entries, end) := ReadEntries(count, bytes).value;
      assert EntryFields(entries[0]) == fields;
      assert EntriesBytes(entries) + end == Encode(fields, EntryKinds()) + (EntriesBytes(entries[1..]) + end);
    }
  }

  lemma AcceptedFrontier(bytes: Bytes)
    requires ReadFrontierRecord(bytes).Some?
    ensures ReadFrontierRecord(bytes).value.Valid() && WriteFrontierRecord(ReadFrontierRecord(bytes).value) == Some(bytes)
  {
    hide Encode, Decode, OpenEnvelope, AllFit, SettlementFrontier.Valid, Envelope, EntriesBytes, ReadEntries;
    EnvelopeBackward(RECORD_MAGIC, MAX_RECORD_BODY, bytes);
    var body := BodyOf(RECORD_MAGIC, bytes).value;
    HeadDecoded(body);
    EncodeDecoded(HeadKinds(), body);
    var (head, rest) := Decode(HeadKinds(), body).value;
    EntriesBackward(head[12].value, rest);
    NamesThatFit(head, HeadKinds());
    var frontier := ReadFrontierRecord(bytes).value;
    Refields(HeadFields(frontier), head);
    assert EntriesBytes(frontier.entries) + [] == EntriesBytes(frontier.entries);
  }

  /** A manifest that is read back is the one encoding of a publication whose frontier pins its fact. */
  lemma AcceptedManifest(bytes: Bytes)
    requires ReadManifest(bytes).Some?
    ensures ReadManifest(bytes).value.WellFormed() && WriteManifest(ReadManifest(bytes).value) == Some(bytes)
  {
    hide Encode, Decode, OpenEnvelope, AllFit, Envelope, ReadFactRecord, ReadFrontierRecord, WriteFactRecord, WriteFrontierRecord;
    EnvelopeBackward(PENDING_MAGIC, MAX_RECORD_BODY, bytes);
    var body := BodyOf(PENDING_MAGIC, bytes).value;
    ManifestDecoded(body);
    EncodeDecoded(ManifestKinds(), body);
    var fields := Decode(ManifestKinds(), body).value.0;
    AcceptedFact(fields[0].content);
    AcceptedFrontier(fields[1].content);
    assert fields == [Blob(fields[0].content), Blob(fields[1].content)];
    assert Encode(fields, ManifestKinds()) + [] == Encode(fields, ManifestKinds());
  }
}
