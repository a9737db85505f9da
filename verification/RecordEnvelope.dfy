/** The envelope around every durable record: magic, format version, body size, checksum, body
    (src/dispatch/file_journal_store.cpp:303-343, src/dispatch/file_managed_deal_settlement_store.cpp:101-161). */
module RecordEnvelope {
  import opened MachineWords
  import opened Options
  import opened FnvHash
  import opened FieldCodec

  const ENVELOPE: nat := 28

  function EnvelopeKinds(): seq<Kind> { [U32, U64, U64] }

  function EnvelopeFields(v: nat, body: Bytes): (fields: seq<Field>)
    ensures |fields| == 3
  {
    [Number(v), Number(|body|), Number(Checksum(body))]
  }

  function Envelope(magic: Bytes, v: nat, body: Bytes): Bytes {
    magic + (Encode(EnvelopeFields(v, body), EnvelopeKinds()) + body)
  }

  function OpenEnvelope(magic: Bytes, limit: nat, bytes: Bytes): Option<(nat, Bytes)>
    requires |magic| == 8
  {
    if |bytes| < ENVELOPE || |bytes| > ENVELOPE + limit || bytes[..8] != magic then None
    else
      match Decode(EnvelopeKinds(), bytes[8..])
      case None => None
      case Some(read) =>
        DecodedWords(EnvelopeKinds(), bytes[8..]);
        var size := read.0[1].value;
        if size > limit || size != |read.1| || Checksum(read.1) != read.0[2].value then None
        else Some((read.0[0].value, read.1))
  }

  lemma EnvelopeSize(magic: Bytes, v: nat, body: Bytes)
    requires |magic| == 8
    ensures |Envelope(magic, v, body)| == ENVELOPE + |body|
  {
    hide LittleEndian;
    hide Checksum;
    var fields, kinds := EnvelopeFields(v, body), EnvelopeKinds();
    assert fields[1..][1..][1..] == [] && kinds[1..][1..][1..] == [];
    assert |Encode(fields[1..][1..], kinds[1..][1..])| == 8;
    assert |Encode(fields[1..], kinds[1..])| == 16;
  }

  /** What was enveloped is opened again ... */
  lemma EnvelopeForward(magic: Bytes, limit: nat, v: u32, body: Bytes)
    requires |magic| == 8 && |body| <= limit < U64_BASE
    ensures OpenEnvelope(magic, limit, Envelope(magic, v, body)) == Some((v, body))
  {
    hide Encode;
    hide Decode;
    hide Checksum;
    var fields := EnvelopeFields(v, body);
    EnvelopeSize(magic, v, body);
    WordsFit(fields, EnvelopeKinds());
    DecodeEncoded(fields, EnvelopeKinds(), body);
    var bytes := Envelope(magic, v, body);
    assert bytes[..8] == magic && bytes[8..] == Encode(fields, EnvelopeKinds()) + body;
  }

  /** ... and nothing else is. */
  lemma EnvelopeBackward(magic: Bytes, limit: nat, bytes: Bytes)
    requires |magic| == 8 && OpenEnvelope(magic, limit, bytes).Some?
    ensures var (v, body) := OpenEnvelope(magic, limit, bytes).value;
            Envelope(magic, v, body) == bytes && |body| <= limit && v < U32_BASE
  {
    hide Encode;
    hide Decode;
    hide Checksum;
    EncodeDecoded(EnvelopeKinds(), bytes[8..]);
    DecodedWords(EnvelopeKinds(), bytes[8..]);
    var read := Decode(EnvelopeKinds(), bytes[8..]).value;
    var (v, body) := OpenEnvelope(magic, limit, bytes).value;
    assert read.0 == EnvelopeFields(v, body);
    assert bytes == bytes[..8] + bytes[8..];
  }

  method WriteEnvelope(magic: Bytes, v: nat, body: Bytes) returns (bytes: Bytes)
    ensures bytes == Envelope(magic, v, body)
  {
    hide Encode;
    hide Checksum;
    var sum := ComputeChecksum(body);
    bytes := WriteFields(magic, [Number(v), Number(|body|), Number(sum)], EnvelopeKinds());
    bytes := bytes + body;
  }

  method ReadEnvelope(magic: Bytes, limit: nat, bytes: Bytes) returns (inner: Option<(nat, Bytes)>)
    requires |magic| == 8
    ensures inner == OpenEnvelope(magic, limit, bytes)
  {
    hide Decode;
    hide Checksum;
    if |bytes| < ENVELOPE || |bytes| > ENVELOPE + limit || bytes[..8] != magic { return None; }
    var fields, offset := ReadFields(EnvelopeKinds(), bytes, 8);
    if fields.None? { return None; }
    DecodedWords(EnvelopeKinds(), bytes[8..]);
    var version, size, sum := fields.value[0].value, fields.value[1].value, fields.value[2].value;
    if size > limit || size != |bytes| - offset { return None; }
    var body := bytes[offset..];
    var actual := ComputeChecksum(body);
    if actual != sum { return None; }
    inner := Some((version, body));
  }
}
