/** The canonical byte form of OPEN execution facts
    (src/dispatch/managed_opening_execution_evidence.hpp:157-205, 282-347, 407-435). */
module FactCodec {
  import opened MachineWords
  import opened Options
  import opened FieldCodec
  import opened SettlementRecords
  import opened ManagedQuantity
  import opened OpeningFacts


  /** "mt5bridge-managed-opening-deal-fact" */
  const TAG: Text :=
    [109, 116, 53, 98, 114, 105, 100, 103, 101, 45, 109, 97, 110, 97, 103, 101, 100, 45, 111, 112, 101, 110, 105, 110, 103, 45,
     100, 101, 97, 108, 45, 102, 97, 99, 116]

  function DirectionCode(d: Direction): u64 {
    match d case UnknownDirection => 0 case Buy => 1 case Sell => 2
  }

  function DirectionOf(code: u64): Direction
    requires code <= 2
  {
    if code == 0 then UnknownDirection else if code == 1 then Buy else Sell
  }

  function EntryCode(e: DealEntry): u64 {
    match e case In => 0 case Out => 1 case Inout => 2 case OutBy => 3 case UnknownEntry => 0xFFFF_FFFF
  }

  function EntryOf(code: u64): DealEntry
    requires code <= 3
  {
    if code == 0 then In else if code == 1 then Out else if code == 2 then Inout else OutBy
  }

  const TEXT: Kind := BlobOf(8, MAX_CANONICAL_BYTES)
  const WORD: Kind := WordOf(8)

  /** The header and the server name, then twenty words. */
  function Kinds(): (kinds: seq<Kind>)
    ensures |kinds| == 23 && kinds[0] == TEXT && kinds[1] == WORD && kinds[2] == TEXT
    ensures forall i :: 3 <= i < 23 ==> kinds[i] == WORD
  {
    [TEXT, WORD, TEXT] + seq(20, _ => WORD)
  }

  function WordsOf(f: DealFact): (w: seq<u64>)
    ensures |w| == 20
  {
    [f.operationKey.account.login, f.operationKey.tradeId, f.operationKey.operationId, f.operationRevision, f.orderTicket,
     f.dealTicket, f.positionIdentifier, DirectionCode(f.direction), EntryCode(f.entry), ToWord(f.dealTime),
     f.quantity.canonicalScale, f.quantity.brokerStepUnits, f.quantity.brokerUnits, f.quantity.integerStepCount,
     f.quantity.managedLogicalUnits, f.receipt.sourceRevision, f.receipt.graphInstanceId, f.receipt.coverageRevision,
     ToWord(f.receipt.windowFrom), ToWord(f.receipt.windowTo)]
  }

  function WordFields(words: seq<u64>): (fields: seq<Field>)
    ensures |fields| == |words| && forall i :: 0 <= i < |words| ==> fields[i] == Number(words[i])
  {
    seq(|words|, i requires 0 <= i < |words| => Number(words[i]))
  }

  function FieldsOf(f: DealFact): (fields: seq<Field>)
    ensures |fields| == 23
  {
    [Blob(TAG), Number(SCHEMA_VERSION), Blob(f.operationKey.account.server)] + WordFields(WordsOf(f))
  }

  function CanonicalBytes(f: DealFact): Bytes {
    Encode(FieldsOf(f), Kinds())
  }

  /** A fact from its server name and words; none for an unknown enumerator or a bad quantity. */
  function FactFrom(server: Text, w: seq<u64>): Option<DealFact>
    requires |w| == 20
  {
    if w[10] > 0xFFFF_FFFF || w[7] > 2 || w[8] > 3 then None
    else
      var quantity := ManagedOpeningQuantity(w[10], w[11], w[12], w[13], w[14]);
      if !quantity.Valid() then None
      else
        Some(DealFact(OperationKey(AccountKey(server, w[0]), w[1], w[2]), w[3], w[4], w[5], w[6], DirectionOf(w[7]), EntryOf(w[8]),
                      FromWord(w[9]), quantity, Receipt(w[15], w[16], w[17], FromWord(w[18]), FromWord(w[19]))))
  }

  predicate FactShaped(fields: seq<Field>) {
    && |fields| == 23 && fields[0].Blob? && fields[1].Number? && fields[2].Blob?
    && (forall i :: 3 <= i < 23 ==> fields[i].Number? && fields[i].value < U64_BASE)
  }

  lemma FittingIsShaped(fields: seq<Field>)
    requires AllFit(fields, Kinds())
    ensures FactShaped(fields)
  {
    hide Kinds;
    hide ByteWeight;
    Weights();
    forall i | 0 <= i < 23 ensures Fits(fields[i], Kinds()[i]) {}
  }

  lemma ShapedFits(fields: seq<Field>)
    requires FactShaped(fields) && fields[1].value < U64_BASE
    requires |fields[0].content| <= MAX_CANONICAL_BYTES && |fields[2].content| <= MAX_CANONICAL_BYTES
    ensures AllFit(fields, Kinds())
  {
    hide Kinds;
    hide ByteWeight;
    Weights();
    forall i | 0 <= i < 23 ensures Fits(fields[i], Kinds()[i]) {}
  }

  function WordsIn(fields: seq<Field>): (w: seq<u64>)
    requires FactShaped(fields)
    ensures |w| == 20 && forall i :: 0 <= i < 20 ==> w[i] == fields[i + 3].value
  {
    seq(20, i requires 0 <= i < 20 => fields[i + 3].value)
  }

  function FactOf(fields: seq<Field>): Option<DealFact>
    requires FactShaped(fields)
  {
    if fields[0].content != TAG || fields[1].value != SCHEMA_VERSION then None
    else
      match FactFrom(fields[2].content, WordsIn(fields))
      case None => None
      case Some(fact) => if fact.Valid() then Some(fact) else None
  }

  lemma DecodedShape(bytes: Bytes)
    requires Decode(Kinds(), bytes).Some?
    ensures FactShaped(Decode(Kinds(), bytes).value.0)
  {
    hide Decode;
    hide Kinds;
    EncodeDecoded(Kinds(), bytes);
    FittingIsShaped(Decode(Kinds(), bytes).value.0);
  }

  /** The decoder before its final self-check; nothing may be left over. */
  function Parse(bytes: Bytes): Option<DealFact> {
    if |bytes| > MAX_CANONICAL_BYTES then None
    else
      match Decode(Kinds(), bytes)
      case None => None
      case Some(read) => DecodedShape(bytes); if read.1 == [] then FactOf(read.0) else None
  }

  function FromCanonicalBytes(bytes: Bytes): Option<DealFact> {
    match Parse(bytes)
    case None => None
    case Some(fact) => if CanonicalBytes(fact) == bytes then Some(fact) else None
  }

  lemma WordsOfFact(server: Text, w: seq<u64>)
    requires |w| == 20 && FactFrom(server, w).Some?
    ensures WordsOf(FactFrom(server, w).value) == w
  {
    var f := FactFrom(server, w).value;
    assert DirectionCode(f.direction) == w[7] && EntryCode(f.entry) == w[8];
  }

  lemma FactOfWords(f: DealFact)
    requires f.Valid()
    ensures FactFrom(f.operationKey.account.server, WordsOf(f)) == Some(f)
  {
  }

  /** Encoding what was parsed gives the bytes back. */
  lemma ParsedIsCanonical(bytes: Bytes)
    requires Parse(bytes).Some?
    ensures CanonicalBytes(Parse(bytes).value) == bytes && Parse(bytes).value.Valid()
  {
    hide Decode;
    hide Encode;
    hide Kinds;
    hide WordsOf;
    hide FactFrom;
    EncodeDecoded(Kinds(), bytes);
    var fields := Decode(Kinds(), bytes).value.0;
    DecodedShape(bytes);
    WordsOfFact(fields[2].content, WordsIn(fields));
    ServerOfFact(fields[2].content, WordsIn(fields));
    assert FieldsOf(Parse(bytes).value) == fields;
    assert Encode(fields, Kinds()) + [] == Encode(fields, Kinds());
  }

  lemma ServerOfFact(server: Text, w: seq<u64>)
    requires |w| == 20 && FactFrom(server, w).Some?
    ensures FactFrom(server, w).value.operationKey.account.server == server
  {
  }

  /** The final self-check of the decoder never rejects anything. */
  lemma SelfCheckIsRedundant(bytes: Bytes)
    ensures FromCanonicalBytes(bytes) == Parse(bytes)
  {
    hide Parse;
    if Parse(bytes).Some? { ParsedIsCanonical(bytes); }
  }

  lemma {:induction false} WordFieldsSize(fields: seq<Field>, kinds: seq<Kind>)
    requires |fields| == |kinds| && (forall i :: 0 <= i < |fields| ==> fields[i].Number? && kinds[i] == WORD)
    ensures |Encode(fields, kinds)| == 8 * |fields|
  {
    hide LittleEndian;
    if fields != [] { WordFieldsSize(fields[1..], kinds[1..]); }
  }

  lemma CanonicalSizeIsExact(f: DealFact)
    ensures |CanonicalBytes(f)| == f.CanonicalSize()
  {
    hide WordsOf;
    hide LittleEndian;
    hide Kinds;
    var fields, kinds := FieldsOf(f), Kinds();
    WordFieldsSize(fields[1..][1..][1..], kinds[1..][1..][1..]);
    assert Encode(fields, kinds) == EncodeField(fields[0], kinds[0].width) + Encode(fields[1..], kinds[1..]);
    assert Encode(fields[1..], kinds[1..]) == EncodeField(fields[1], kinds[1].width) + Encode(fields[1..][1..], kinds[1..][1..]);
    assert Encode(fields[1..][1..], kinds[1..][1..])
        == EncodeField(fields[2], kinds[2].width) + Encode(fields[1..][1..][1..], kinds[1..][1..][1..]);
  }

  /** Decoding the canonical bytes of a valid fact returns that fact. */
  lemma RoundTrip(f: DealFact)
    requires f.Valid()
    ensures FromCanonicalBytes(CanonicalBytes(f)) == Some(f)
  {
    hide Decode;
    hide Encode;
    hide Kinds;
    hide WordsOf;
    hide FactFrom;
    CanonicalSizeIsExact(f);
    var fields := FieldsOf(f);
    assert FactShaped(fields);
    ShapedFits(fields);
    DecodeEncoded(fields, Kinds(), []);
    assert Encode(fields, Kinds()) + [] == Encode(fields, Kinds());
    assert WordsIn(fields) == WordsOf(f);
    FactOfWords(f);
  }

  /** Every accepted byte string is the canonical encoding of its result, so no two different byte
      strings decode to one fact. */
  lemma AcceptedIsCanonical(bytes: Bytes)
    requires FromCanonicalBytes(bytes).Some?
    ensures CanonicalBytes(FromCanonicalBytes(bytes).value) == bytes && FromCanonicalBytes(bytes).value.Valid()
    ensures |bytes| <= MAX_CANONICAL_BYTES
  {
    hide Parse;
    SelfCheckIsRedundant(bytes);
    ParsedIsCanonical(bytes);
    assert |bytes| <= MAX_CANONICAL_BYTES by { ParsedIsShort(bytes); }
  }

  lemma ParsedIsShort(bytes: Bytes)
    requires Parse(bytes).Some?
    ensures |bytes| <= MAX_CANONICAL_BYTES
  {
  }

  /** The fact decoder: size limit, fields, enumerators, quantity, validity and the self-check. */
  method DecodeFact(bytes: Bytes) returns (fact: Option<DealFact>)
    ensures fact == FromCanonicalBytes(bytes)
  {
    hide Decode;
    hide Encode;
    hide Kinds;
    if |bytes| > MAX_CANONICAL_BYTES {
      return None;
    }
    assert bytes[0..] == bytes;
    var fields, offset := ReadFields(Kinds(), bytes, 0);
    if fields.None? || offset != |bytes| {
      return None;
    }
    assert bytes[offset..] == [];
    DecodedShape(bytes);
    fact := FactOf(fields.value);
    if fact.None? {
      return None;
    }
    var again := WriteFields([], FieldsOf(fact.value), Kinds());
    assert [] + CanonicalBytes(fact.value) == CanonicalBytes(fact.value);
    if again != bytes { return None; }
  }
}
