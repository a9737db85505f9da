/** The journal's record codec and the five older formats it still reads
    (src/dispatch/file_journal_store.cpp:25-60, 268-401). */
module JournalCodec {
  import opened MachineWords
  import opened Options
  import opened FnvHash
  import opened FieldCodec
  import opened RecordEnvelope
  import opened SettlementRecords
  import opened JournalRecords
  import opened EvidenceCodec

  const MAX_PAYLOAD: nat := 0x100_0000
  const MAX_BODY: nat := 2 * (MAX_PAYLOAD + MAX_STRING) + 256

  const PAYLOAD: Kind := BlobOf(4, MAX_PAYLOAD)

  // ----- what a format can express

  /** The record as a reader of this format sees it: fields the format lacks take their defaults. */
  function Defaulted(v: Version, r: JournalRecord): JournalRecord {
    var descriptor := if r.descriptor.None? then None else Some(DefaultedDescriptor(v, r.descriptor.value));
    r.(resultSourceRevision := if v >= 6 then r.resultSourceRevision else 0, mode := if v >= 5 then r.mode else 0,
       kind := if v >= 4 then r.kind else InferredKind(v, descriptor), settledVolume := if v >= 3 then r.settledVolume else 0,
       bindings := if v >= 2 then r.bindings else [], descriptor := descriptor)
  }

  /** Format 3 implied an opening operation by its requested volume. */
  function InferredKind(v: Version, descriptor: Option<Descriptor>): u32 {
    if v == 3 && descriptor.Some? && descriptor.value.requestedVolume != 0 then KIND_OPEN else 0
  }

  /** Nothing is lost when this record is written in this format. */
  predicate Expressible(v: Version, r: JournalRecord) {
    Defaulted(v, r) == r
  }

  /** Which records an older format holds: later fields at zero, no bindings before the second, and of
      the kind that the third format tells from a requested volume and the first two cannot tell. */
  lemma ExpressibleIff(v: Version, r: JournalRecord)
    ensures Expressible(v, r)
       <==> && (v < 6 ==> r.resultSourceRevision == 0) && (v < 5 ==> r.mode == 0) && (v < 3 ==> r.kind == 0 && r.settledVolume == 0)
            && (v == 3 ==> r.kind == if r.descriptor.Some? && r.descriptor.value.requestedVolume > 0 then KIND_OPEN else 0)
            && (v < 2 ==> r.bindings == [])
            && (r.descriptor.Some? ==> DefaultedDescriptor(v, r.descriptor.value) == r.descriptor.value)
  {
  }

  // ----- bodies

  function HeadKinds(): seq<Kind> { [STRING, PAYLOAD, PAYLOAD, U64, U64, U64, U32, U32, U64] }

  function TailKinds(v: Version): seq<Kind> {
    match v
    case 6 => [U64, U64, U64, U32, U32]
    case 5 => [U64, U64, U32, U32]
    case 4 => [U64, U64, U32]
    case 3 => [U64, U64]
    case _ => [U64]
  }

  function HeadFields(r: JournalRecord): (fields: seq<Field>)
    ensures |fields| == 9
  {
    [Blob(r.key.account.server), Blob(r.request), Blob(r.result), Number(r.key.account.login), Number(r.key.tradeId),
     Number(r.key.operationId), Number(r.state), Number(r.journalState), Number(r.revision)]
  }

  /** Result anchor, fencing token, settled volume, kind and mode, as far as the format has them. */
  function TailFields(v: Version, r: JournalRecord): (fields: seq<Field>)
    ensures |fields| == |TailKinds(v)|
  {
    match v
    case 6 =>
      [Number(r.resultSourceRevision), Number(r.fencingToken), Number(r.settledVolume), Number(r.kind), Number(r.mode)]
    case 5 => [Number(r.fencingToken), Number(r.settledVolume), Number(r.kind), Number(r.mode)]
    case 4 => [Number(r.fencingToken), Number(r.settledVolume), Number(r.kind)]
    case 3 => [Number(r.fencingToken), Number(r.settledVolume)]
    case _ => [Number(r.fencingToken)]
  }

  function FixedBytes(v: Version, r: JournalRecord): Bytes {
    Encode(HeadFields(r), HeadKinds()) + Encode(TailFields(v, r), TailKinds(v))
  }

  function Body(v: Version, r: JournalRecord): Bytes {
    FixedBytes(v, r) + (DescriptorBytes(v, r.descriptor) + ListBytes(v, r.bindings))
  }

  predicate HeadShaped(fields: seq<Field>) {
    && |fields| == 9 && fields[0].Blob? && |fields[0].content| <= MAX_STRING
    && fields[1].Blob? && |fields[1].content| <= MAX_PAYLOAD && fields[2].Blob? && |fields[2].content| <= MAX_PAYLOAD
    && (forall i :: 3 <= i < 9 ==> fields[i].Number? && fields[i].value < U64_BASE)
    && fields[6].value < U32_BASE && fields[7].value < U32_BASE
  }

  predicate TailShaped(v: Version, fields: seq<Field>) {
    && |fields| == |TailKinds(v)| && Numbers(fields)
    && (forall i :: 0 <= i < |fields| ==> fields[i].value < (if TailKinds(v)[i] == U32 then U32_BASE else U64_BASE))
  }

  lemma HeadDecoded(bytes: Bytes)
    requires Decode(HeadKinds(), bytes).Some?
    ensures HeadShaped(Decode(HeadKinds(), bytes).value.0)
  {
    hide Decode;
    hide ByteWeight;
    Weights();
    EncodeDecoded(HeadKinds(), bytes);
    var fields := Decode(HeadKinds(), bytes).value.0;
    forall i | 0 <= i < 9 ensures Fits(fields[i], HeadKinds()[i]) {}
    assert Fits(fields[0], STRING) && Fits(fields[1], PAYLOAD) && Fits(fields[2], PAYLOAD);
  }

  lemma TailDecoded(v: Version, bytes: Bytes)
    requires Decode(TailKinds(v), bytes).Some?
    ensures TailShaped(v, Decode(TailKinds(v), bytes).value.0)
  {
    hide Decode;
    DecodedWords(TailKinds(v), bytes);
  }

  /** The record of these fields; what the format lacks takes its default. */
  function RecordOf(v: Version, head: seq<Field>, tail: seq<Field>, d: Option<Descriptor>, bindings: seq<Binding>): JournalRecord
    requires HeadShaped(head) && TailShaped(v, tail)
  {
    var base := JournalRecord(
      OperationKey(AccountKey(head[0].content, head[3].value), head[4].value, head[5].value), InferredKind(v, d), 0,
      head[1].content, head[2].content, head[6].value, head[7].value, head[8].value, 0, tail[if v == 6 then 1 else 0].value,
      d, bindings, 0);
    match v
    case 6 =>
      base.(resultSourceRevision := tail[0].value, settledVolume := tail[2].value, kind := tail[3].value, mode := tail[4].value)
    case 5 => base.(settledVolume := tail[1].value, kind := tail[2].value, mode := tail[3].value)
    case 4 => base.(settledVolume := tail[1].value, kind := tail[2].value)
    case 3 => base.(settledVolume := tail[1].value)
    case _ => base
  }

  function ReadBody(v: Version, body: Bytes): Option<JournalRecord> {
    match Decode(HeadKinds(), body)
    case None => None
    case Some(head) =>
      HeadDecoded(body);
      match Decode(TailKinds(v), head.1)
      case None => None
      case Some(tail) => TailDecoded(v, head.1); ReadEvidence(v, head.0, tail.0, tail.1)
  }

  function ReadEvidence(v: Version, head: seq<Field>, tail: seq<Field>, bytes: Bytes): Option<JournalRecord>
    requires HeadShaped(head) && TailShaped(v, tail)
  {
    match ReadDescriptor(v, bytes)
    case None => None
    case Some(d) =>
      match ReadBindings(v, d.1)
      case None => None
      case Some(list) => if list.1 == [] then Some(RecordOf(v, head, tail, d.0, list.0)) else None
  }

  /** What the appending helpers demand. */
  predicate Writable(r: JournalRecord) {
    && |r.key.account.server| <= MAX_STRING && |r.request| <= MAX_PAYLOAD && |r.result| <= MAX_PAYLOAD
    && (r.descriptor.Some? ==> DescriptorWritable(r.descriptor.value)) && AllValid(r.bindings) && |r.bindings| < U32_BASE
  }

  /** What the reader demands of the two lists. */
  predicate CountsFit(r: JournalRecord) {
    (r.descriptor.Some? ==> |r.descriptor.value.assertions| <= MAX_COUNT) && |r.bindings| <= MAX_COUNT
  }

  lemma FixedFits(v: Version, r: JournalRecord)
    requires Writable(r)
    ensures AllFit(HeadFields(r), HeadKinds()) && HeadShaped(HeadFields(r))
    ensures AllFit(TailFields(v, r), TailKinds(v)) && TailShaped(v, TailFields(v, r))
  {
    hide ByteWeight;
    hide DescriptorWritable;
    hide AllValid;
    Weights();
  }

  lemma RecordOfFields(v: Version, r: JournalRecord)
    requires Writable(r) && Expressible(v, r)
    requires HeadShaped(HeadFields(r)) && TailShaped(v, TailFields(v, r))
    ensures RecordOf(v, HeadFields(r), TailFields(v, r), r.descriptor, r.bindings) == r
    ensures v < 2 ==> r.bindings == []
    ensures r.descriptor.Some? ==> DefaultedDescriptor(v, r.descriptor.value) == r.descriptor.value
  {
    hide DefaultedDescriptor;
    hide Writable;
    assert Defaulted(v, r).descriptor == r.descriptor && Defaulted(v, r).kind == r.kind && Defaulted(v, r).mode == r.mode;
    assert Defaulted(v, r).resultSourceRevision == r.resultSourceRevision && Defaulted(v, r).bindings == r.bindings;
    assert Defaulted(v, r).settledVolume == r.settledVolume;
  }

  lemma EvidenceForward(v: Version, r: JournalRecord)
    requires Writable(r) && Expressible(v, r)
    requires HeadShaped(HeadFields(r)) && TailShaped(v, TailFields(v, r))
    ensures ReadEvidence(v, HeadFields(r), TailFields(v, r), DescriptorBytes(v, r.descriptor) + ListBytes(v, r.bindings))
         == if CountsFit(r) then Some(r) else None
  {
    hide ReadDescriptor;
    hide ReadBindings;
    hide DescriptorBytes;
    hide ListBytes;
    hide DescriptorWritable;
    hide AllValid;
    hide DefaultedDescriptor;
    hide HeadFields;
    hide TailFields;
    hide HeadShaped;
    hide TailShaped;
    hide RecordOf;
    hide Expressible;
    RecordOfFields(v, r);
    DescriptorForward(v, r.descriptor, ListBytes(v, r.bindings));
    ListForward(v, r.bindings, []);
    assert ListBytes(v, r.bindings) + [] == ListBytes(v, r.bindings);
  }

  /** A body reads back as its record exactly when both lists are short enough. */
  lemma BodyForward(v: Version, r: JournalRecord)
    requires Writable(r) && Expressible(v, r)
    ensures ReadBody(v, Body(v, r)) == if CountsFit(r) then Some(r) else None
  {
    hide Encode;
    hide Decode;
    hide ReadEvidence;
    hide DescriptorBytes;
    hide ListBytes;
    hide Writable;
    hide Expressible;
    hide HeadFields;
    hide TailFields;
    hide HeadKinds;
    hide TailKinds;
    FixedFits(v, r);
    var evidence := DescriptorBytes(v, r.descriptor) + ListBytes(v, r.bindings);
    var tail := Encode(TailFields(v, r), TailKinds(v));
    assert Body(v, r) == Encode(HeadFields(r), HeadKinds()) + (tail + evidence);
    DecodeEncoded(HeadFields(r), HeadKinds(), tail + evidence);
    DecodeEncoded(TailFields(v, r), TailKinds(v), evidence);
    EvidenceForward(v, r);
  }

  lemma FieldsOfRecord(v: Version, head: seq<Field>, tail: seq<Field>, d: Option<Descriptor>, bindings: seq<Binding>)
    requires HeadShaped(head) && TailShaped(v, tail)
    ensures var r := RecordOf(v, head, tail, d, bindings);
            HeadFields(r) == head && TailFields(v, r) == tail && r.descriptor == d && r.bindings == bindings
  {
  }

  lemma RecordIsExpressible(v: Version, head: seq<Field>, tail: seq<Field>, d: Option<Descriptor>, bindings: seq<Binding>)
    requires HeadShaped(head) && TailShaped(v, tail)
    requires (d.Some? ==> DefaultedDescriptor(v, d.value) == d.value) && (v < 2 ==> bindings == [])
    ensures Expressible(v, RecordOf(v, head, tail, d, bindings))
  {
    hide DefaultedDescriptor;
  }

  /** The oldest format may leave out the flag of an absent descriptor. */
  predicate Stored(v: Version, r: JournalRecord, body: Bytes) {
    body == Body(v, r) || (v == 1 && r.descriptor.None? && body == FixedBytes(v, r))
  }

  lemma EvidenceBackward(v: Version, head: seq<Field>, tail: seq<Field>, bytes: Bytes)
    requires HeadShaped(head) && TailShaped(v, tail) && ReadEvidence(v, head, tail, bytes).Some?
    ensures var r := ReadEvidence(v, head, tail, bytes).value;
            && HeadFields(r) == head && TailFields(v, r) == tail && Expressible(v, r) && CountsFit(r) && AllValid(r.bindings)
            && (r.descriptor.Some? ==> DescriptorWritable(r.descriptor.value))
            && (DescriptorBytes(v, r.descriptor) + ListBytes(v, r.bindings) == bytes
                || (v == 1 && r.descriptor.None? && bytes == []))
  {
    hide ReadBindings;
    hide DescriptorBytes;
    hide ListBytes;
    hide DescriptorWritable;
    hide AllValid;
    hide DefaultedDescriptor;
    hide HeadFields;
    hide TailFields;
    hide HeadShaped;
    hide TailShaped;
    hide RecordOf;
    hide Expressible;
    var d := ReadDescriptor(v, bytes).value;
    ListBackward(v, d.1);
    var list := ReadBindings(v, d.1).value;
    FieldsOfRecord(v, head, tail, d.0, list.0);
    if bytes == [] {
      NoListInNothing(v);
    } else {
      DescriptorBackward(v, bytes);
      assert ListBytes(v, list.0) + [] == ListBytes(v, list.0);
    }
    RecordIsExpressible(v, head, tail, d.0, list.0);
  }

  lemma NoListInNothing(v: Version)
    ensures ReadBindings(v, []).Some? ==> v == 1
  {
    if v >= 2 { NoWordInNothing([]); }
  }

  lemma NoWordInNothing(bytes: Bytes)
    requires bytes == []
    ensures Decode([U32], bytes).None?
  {
    assert DecodeField([U32][0], bytes).None?;
  }

  /** Every body that is read at all is the encoding of its record in that format. */
  lemma BodyBackward(v: Version, body: Bytes)
    requires ReadBody(v, body).Some?
    ensures var r := ReadBody(v, body).value; Stored(v, r, body) && Expressible(v, r) && CountsFit(r) && Writable(r)
  {
    hide Encode;
    hide Decode;
    hide ReadEvidence;
    hide DescriptorBytes;
    hide ListBytes;
    hide DescriptorWritable;
    hide AllValid;
    hide Expressible;
    hide HeadKinds;
    hide TailKinds;
    hide TailFields;
    EncodeDecoded(HeadKinds(), body);
    HeadDecoded(body);
    var head := Decode(HeadKinds(), body).value;
    EncodeDecoded(TailKinds(v), head.1);
    TailDecoded(v, head.1);
    var tail := Decode(TailKinds(v), head.1).value;
    EvidenceBackward(v, head.0, tail.0, tail.1);
    var r := ReadBody(v, body).value;
    assert FixedBytes(v, r) + tail.1 == body;
    assert FixedBytes(v, r) + [] == FixedBytes(v, r);
  }

  // ----- envelopes

  /** "MT5JNL01". */
  function Magic(): (m: Bytes)
    ensures |m| == 8
  {
    [77, 84, 53, 74, 78, 76, 48, 49]
  }

  /** Writing in a given format; the source itself only writes the current one. */
  function SerializeAs(v: Version, r: JournalRecord): Option<Bytes> {
    if Writable(r) && |Body(v, r)| <= MAX_BODY then Some(Envelope(Magic(), v, Body(v, r))) else None
  }

  function Serialize(r: JournalRecord): Option<Bytes> {
    SerializeAs(CURRENT, r)
  }

  /** Any of the six formats is opened. */
  function OpenRecord(bytes: Bytes): Option<(Version, Bytes)> {
    match OpenEnvelope(Magic(), MAX_BODY, bytes)
    case None => None
    case Some((v, body)) => if 1 <= v <= CURRENT then Some((v, body)) else None
  }

  function Deserialize(bytes: Bytes): Option<JournalRecord> {
    match OpenRecord(bytes)
    case None => None
    case Some((v, body)) =>
      match ReadBody(v, body)
      case None => None
      case Some(r) => if r.Valid() then Some(r) else None
  }

  // ----- main results

  /** A valid record that can be written in a format reads back as itself exactly when its two
      lists respect the reader's limit; otherwise what was written is unreadable. */
  lemma FormatRoundTrip(v: Version, r: JournalRecord)
    requires r.Valid() && Expressible(v, r) && SerializeAs(v, r).Some?
    ensures Deserialize(SerializeAs(v, r).value) == if CountsFit(r) then Some(r) else None
  {
    hide JournalRecord.Valid;
    hide Expressible;
    hide Writable;
    hide Body;
    hide ReadBody;
    hide OpenEnvelope;
    hide CountsFit;
    hide Magic;
    EnvelopeForward(Magic(), MAX_BODY, v, Body(v, r));
    BodyForward(v, r);
  }

  lemma {:induction false} CurrentExpressesAll(r: JournalRecord)
    ensures Expressible(CURRENT, r)
  {
    if r.descriptor.Some? {
      var d := r.descriptor.value;
      assert DefaultedAssertions(CURRENT, d.assertions) == d.assertions;
    }
  }

  /** The current format: every valid record within the size limits reads back as itself if and
      only if it has at most 2^20 assertions and at most 2^20 bindings. */
  lemma RoundTrip(r: JournalRecord)
    requires r.Valid() && Serialize(r).Some?
    ensures Deserialize(Serialize(r).value) == Some(r) <==> CountsFit(r)
    ensures Deserialize(Serialize(r).value).None? <==> !CountsFit(r)
  {
    hide JournalRecord.Valid;
    hide Expressible;
    hide SerializeAs;
    hide Deserialize;
    hide CountsFit;
    CurrentExpressesAll(r);
    FormatRoundTrip(CURRENT, r);
  }

  /** Every accepted byte string, of whatever format, is the encoding of its result in that format:
      corrupting or padding a record is never silently repaired. */
  lemma AcceptedIsEncoding(bytes: Bytes)
    requires Deserialize(bytes).Some?
    ensures var r := Deserialize(bytes).value;
            var (v, body) := OpenRecord(bytes).value;
            && r.Valid() && CountsFit(r) && Expressible(v, r) && Stored(v, r, body) && bytes == Envelope(Magic(), v, body)
            && (v >= 2 ==> SerializeAs(v, r) == Some(bytes))
  {
    hide JournalRecord.Valid;
    hide Expressible;
    hide Writable;
    hide Body;
    hide ReadBody;
    hide OpenEnvelope;
    hide CountsFit;
    hide Envelope;
    hide Magic;
    EnvelopeBackward(Magic(), MAX_BODY, bytes);
    var (v, body) := OpenRecord(bytes).value;
    BodyBackward(v, body);
  }

  // ----- sizes, and what an upgrade adds

  function TailSize(v: Version): nat {
    match v case 6 => 32 case 5 => 24 case 4 => 20 case 3 => 16 case _ => 8
  }

  /** Bytes of a record's body in a format. */
  function BodySize(v: Version, r: JournalRecord): nat {
    52 + |r.key.account.server| + |r.request| + |r.result| + TailSize(v) + DescriptorSize(v, r.descriptor) + ListSize(v, r.bindings)
  }

  lemma HeadSize(r: JournalRecord)
    ensures |Encode(HeadFields(r), HeadKinds())| == 52 + |r.key.account.server| + |r.request| + |r.result|
  {
    hide Encode;
    EncodedSize(HeadFields(r), HeadKinds());
    HeadContent(r);
    HeadWidths();
  }

  lemma HeadContent(r: JournalRecord)
    ensures ContentSum(HeadFields(r)) == |r.key.account.server| + |r.request| + |r.result|
  {
    var fields := HeadFields(r);
    WordsHaveNoContent(fields[3..]);
    assert fields[1..][1..][1..] == fields[3..];
    assert ContentSum(fields[1..][1..]) == |r.result| && ContentSum(fields[1..]) == |r.request| + |r.result|;
  }

  lemma HeadWidths()
    ensures WidthSum(HeadKinds()) == 52
  {
    var blobs, longs, words := [STRING, PAYLOAD, PAYLOAD], [U64, U64, U64], [U32, U32];
    assert HeadKinds() == blobs + longs + words + [U64];
    WidthsJoin(blobs + longs + words, [U64]);
    WidthsJoin(blobs + longs, words);
    WidthsJoin(blobs, longs);
    WidthsOf(blobs, 4);
    WidthsOf(longs, 8);
    WidthsOf(words, 4);
    WidthsOf([U64], 8);
  }

  lemma TailSizeIsExact(v: Version, r: JournalRecord)
    ensures |Encode(TailFields(v, r), TailKinds(v))| == TailSize(v)
  {
    hide Encode;
    var kinds := TailKinds(v);
    EncodedSize(TailFields(v, r), kinds);
    WordsHaveNoContent(TailFields(v, r));
    var longs := if v == 6 then 3 else if v >= 3 then 2 else 1;
    assert kinds == kinds[..longs] + kinds[longs..];
    WidthsJoin(kinds[..longs], kinds[longs..]);
    WidthsOf(kinds[..longs], 8);
    WidthsOf(kinds[longs..], 4);
  }

  lemma BodySizeIsExact(v: Version, r: JournalRecord)
    ensures |Body(v, r)| == BodySize(v, r) && |FixedBytes(v, r)| + DescriptorSize(v, r.descriptor) + ListSize(v, r.bindings) == BodySize(v, r)
  {
    hide Encode;
    hide DescriptorBytes;
    hide ListBytes;
    hide DescriptorSize;
    hide ListSize;
    hide TailSize;
    HeadSize(r);
    TailSizeIsExact(v, r);
    DescriptorSizeIsExact(v, r.descriptor);
    ListSizeIsExact(v, r.bindings);
  }

  /** What the current format adds to a body of this format: the fields of the tail and of the
      descriptor's identity that the format lacks, 16 bytes for each assertion of the oldest format
      and its empty list of bindings, and the flag of an absent descriptor where it was left out. */
  function Growth(v: Version, r: JournalRecord, size: nat): nat {
    32 - TailSize(v) + (if v == 1 then 4 else 0)
    + (if r.descriptor.Some? then 24 - IdentitySize(v) + (if v == 1 then 16 * |r.descriptor.value.assertions| else 0)
       else if size < BodySize(v, r) then 4
       else 0)
  }

  lemma UpgradedSize(v: Version, r: JournalRecord, body: Bytes)
    requires Stored(v, r, body) && Expressible(v, r)
    ensures |Body(CURRENT, r)| == |body| + Growth(v, r, |body|)
  {
    hide Body;
    hide FixedBytes;
    hide AssertionsSize;
    BodySizeIsExact(v, r);
    BodySizeIsExact(CURRENT, r);
    if r.descriptor.Some? { AssertionsGrow(v, r.descriptor.value.assertions); }
    assert v < 2 ==> r.bindings == [] by { assert Defaulted(v, r).bindings == r.bindings; }
  }

  /** Rewriting a stored record in the current format keeps it, exactly if the old body and what the
      current format adds to it fit the limit; otherwise the writer refuses the record that the
      reader has accepted. */
  lemma UpgradeKeepsRecord(bytes: Bytes)
    requires Deserialize(bytes).Some?
    ensures var r := Deserialize(bytes).value;
            var (v, body) := OpenRecord(bytes).value;
            if |body| + Growth(v, r, |body|) <= MAX_BODY then Serialize(r).Some? && Deserialize(Serialize(r).value) == Some(r)
            else Serialize(r).None?
  {
    hide JournalRecord.Valid;
    hide Body;
    hide ReadBody;
    hide OpenEnvelope;
    hide CountsFit;
    hide Envelope;
    hide Magic;
    hide Growth;
    hide Stored;
    hide Expressible;
    hide Writable;
    var (v, body) := OpenRecord(bytes).value;
    BodyBackward(v, body);
    var r := Deserialize(bytes).value;
    UpgradedSize(v, r, body);
    if Serialize(r).Some? {
      hide Deserialize;
      RoundTrip(r);
    }
  }

  /** In particular a record of the current format can always be written again, and so can every
      record without a descriptor. */
  lemma PlainRecordsUpgrade(bytes: Bytes)
    requires Deserialize(bytes).Some?
    ensures OpenRecord(bytes).value.0 == CURRENT || Deserialize(bytes).value.descriptor.None?
            ==> Serialize(Deserialize(bytes).value).Some?
  {
    hide JournalRecord.Valid;
    hide Body;
    hide FixedBytes;
    hide ReadBody;
    hide CountsFit;
    hide OpenEnvelope;
    hide Envelope;
    hide Magic;
    hide Expressible;
    EnvelopeBackward(Magic(), MAX_BODY, bytes);
    var (v, body) := OpenRecord(bytes).value;
    BodyBackward(v, body);
    var r := Deserialize(bytes).value;
    NoBindingsAlone(r);
    BodySizeIsExact(CURRENT, r);
  }

  lemma NoBindingsAlone(r: JournalRecord)
    requires r.Valid()
    ensures r.descriptor.None? ==> r.bindings == []
  {
  }

  // ----- a valid record that is written but cannot be read

  function PlainAssertion(): Assertion {
    Assertion(0, 1, None, Some(false), 0, ABSENT_TO_PRESENT)
  }

  predicate AllPlain(s: seq<Assertion>) {
    forall i :: 0 <= i < |s| ==> s[i] == PlainAssertion()
  }

  /** A queued operation that awaits these assertions; `tagged` if its descriptor names it. */
  function RecordWith(s: seq<Assertion>, request: Text, tagged: bool): JournalRecord {
    var account, id := AccountKey([65], 1), if tagged then 1 else 0;
    JournalRecord(OperationKey(account, 1, 1), 0, 0, request, [], QUEUED, 0, 1, 0, 0,
                  Some(Descriptor(account, Baseline(account, 1, 1, 0, 0, 0, 0), s, FILLED, id, id, 0)), [], 0)
  }

  lemma {:induction false} PlainAssertionsSize(v: Version, s: seq<Assertion>)
    requires AllPlain(s)
    ensures AssertionsSize(v, s) == (if v >= 2 then 32 else 16) * |s|
  {
    if s != [] { PlainAssertionsSize(v, s[1..]); }
  }

  lemma RecordWithSize(v: Version, s: seq<Assertion>, request: Text, tagged: bool)
    requires AllPlain(s)
    ensures |Body(v, RecordWith(s, request, tagged))|
         == 139 + |request| + TailSize(v) + IdentitySize(v) + (if v >= 2 then 4 + 32 * |s| else 16 * |s|)
  {
    hide Body;
    hide FixedBytes;
    hide AssertionsSize;
    PlainAssertionsSize(v, s);
    BodySizeIsExact(v, RecordWith(s, request, tagged));
  }

  lemma RecordWithIsValid(s: seq<Assertion>, request: Text, tagged: bool)
    requires AllPlain(s) && s != [] && request != []
    ensures RecordWith(s, request, tagged).Valid()
    ensures |s| < U32_BASE && |request| <= MAX_PAYLOAD ==> Writable(RecordWith(s, request, tagged))
  {
    assert s[0].Valid();
  }

  /** One assertion more than the reader's limit still fits the size limits, so a valid record is
      stored that no reader accepts. */
  lemma OverlongRecordIsStranded(s: seq<Assertion>)
    requires AllPlain(s) && MAX_COUNT < |s| <= MAX_COUNT + 0x8000
    ensures var r := RecordWith(s, [0], true);
            r.Valid() && Serialize(r).Some? && Deserialize(Serialize(r).value).None?
  {
    hide JournalRecord.Valid;
    hide Writable;
    hide Body;
    hide Deserialize;
    RecordWithSize(CURRENT, s, [0], true);
    RecordWithIsValid(s, [0], true);
    RoundTrip(RecordWith(s, [0], true));
  }

  // ----- a record that is read but cannot be written again

  lemma RecordWithIsExpressible(s: seq<Assertion>, request: Text)
    requires AllPlain(s)
    ensures Expressible(1, RecordWith(s, request, false))
  {
    assert DefaultedAssertions(1, s) == s;
  }

  /** A record of the oldest format, of a few mebibytes and with as many assertions as the reader
      takes, is accepted; neither it nor any later state of its operation, which keeps key, request
      and descriptor, can be written in the current format. */
  lemma OldRecordIsStuck(s: seq<Assertion>, request: Text, next: JournalRecord)
    requires AllPlain(s) && |s| == MAX_COUNT && 0x20_0100 <= |request| <= MAX_PAYLOAD
    ensures var r := RecordWith(s, request, false);
            && SerializeAs(1, r).Some? && Deserialize(SerializeAs(1, r).value) == Some(r) && Serialize(r).None?
            && (next.key == r.key && next.request == r.request && next.descriptor == r.descriptor ==> Serialize(next).None?)
  {
    hide JournalRecord.Valid;
    hide Writable;
    hide Body;
    hide Deserialize;
    hide Expressible;
    hide CountsFit;
    var r := RecordWith(s, request, false);
    RecordWithIsValid(s, request, false);
    RecordWithIsExpressible(s, request);
    RecordWithSize(1, s, request, false);
    RecordWithSize(CURRENT, s, request, false);
    CountsOf(s, request);
    FormatRoundTrip(1, r);
    PlainAssertionsSize(CURRENT, s);
    BodySizeIsExact(CURRENT, next);
  }

  lemma CountsOf(s: seq<Assertion>, request: Text)
    requires |s| <= MAX_COUNT
    ensures CountsFit(RecordWith(s, request, false))
  {
  }

  // ----- the loops

  /** The record writer: three sized blobs, the scalars, descriptor, bindings, then the envelope. */
  method SerializeRecord(r: JournalRecord) returns (bytes: Option<Bytes>)
    ensures bytes == Serialize(r)
  {
    hide Encode;
    hide DescriptorBytes;
    hide ListBytes;
    hide DescriptorWritable;
    hide AllValid;
    hide HeadFields;
    hide TailFields;
    hide Magic;
    hide Checksum;
    if |r.key.account.server| > MAX_STRING || |r.request| > MAX_PAYLOAD || |r.result| > MAX_PAYLOAD { return None; }
    var body := WriteFields([], HeadFields(r), HeadKinds());
    body := WriteFields(body, TailFields(CURRENT, r), TailKinds(CURRENT));
    assert body == FixedBytes(CURRENT, r);
    var described := AppendDescriptor(body, r.descriptor);
    if described.None? { return None; }
    var bound := AppendBindings(described.value, r.bindings);
    if bound.None? { return None; }
    assert bound.value == Body(CURRENT, r);
    if |bound.value| > MAX_BODY { return None; }
    var out := WriteEnvelope(Magic(), CURRENT, bound.value);
    bytes := Some(out);
  }

  method ReadBodyOf(v: Version, body: Bytes) returns (r: Option<JournalRecord>)
    ensures r == ReadBody(v, body)
  {
    hide Decode;
    hide ReadDescriptor;
    hide ReadBindings;
    hide RecordOf;
    assert body[0..] == body;
    var head, offset := ReadFields(HeadKinds(), body, 0);
    if head.None? { return None; }
    HeadDecoded(body);
    ghost var afterHead := body[offset..];
    var tail;
    tail, offset := ReadFields(TailKinds(v), body, offset);
    if tail.None? { return None; }
    TailDecoded(v, afterHead);
    var ok, d;
    ok, d, offset := ReadDescriptorAt(v, body, offset);
    if !ok { return None; }
    var bindings;
    bindings, offset := ReadBindingsAt(v, body, offset);
    if bindings.None? || offset != |body| { return None; }
    r := Some(RecordOf(v, head.value, tail.value, d, bindings.value));
  }

  /** The record reader: envelope, format, size, checksum, body, validity. */
  method DeserializeRecord(bytes: Bytes) returns (r: Option<JournalRecord>)
    ensures r == Deserialize(bytes)
  {
    hide Decode;
    hide ReadBody;
    hide Magic;
    hide Checksum;
    hide JournalRecord.Valid;
    var inner := ReadEnvelope(Magic(), MAX_BODY, bytes);
    if inner.None? || inner.value.0 < 1 || inner.value.0 > CURRENT { return None; }
    var (version, body) := inner.value;
    r := ReadBodyOf(version, body);
    if r.Some? && !r.value.Valid() { r := None; }
  }
}
