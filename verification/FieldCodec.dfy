/** Little-endian words, sized blobs and runs of fields: the primitives of every durable record
    (src/dispatch/file_store_support.cpp:40-120). */
module FieldCodec {
  import opened MachineWords
  import opened Options

  type Bytes = seq<u8>

  // ----- words

  /** The n lowest bytes of v, least significant first. */
  function LittleEndian(v: nat, n: nat): (s: Bytes)
    ensures |s| == n
  {
    if n == 0 then [] else [v % 0x100] + LittleEndian(v / 0x100, n - 1)
  }

  function WordValue(s: Bytes): nat {
    if s == [] then 0 else s[0] + 0x100 * WordValue(s[1..])
  }

  function ByteWeight(n: nat): (w: nat)
    ensures w >= 1
  {
    if n == 0 then 1 else 0x100 * ByteWeight(n - 1)
  }

  lemma {:induction false} ValueOfBytes(v: nat, n: nat)
    requires v < ByteWeight(n)
    ensures WordValue(LittleEndian(v, n)) == v
  {
    if n > 0 {
      ValueOfBytes(v / 0x100, n - 1);
      assert LittleEndian(v, n)[1..] == LittleEndian(v / 0x100, n - 1);
    }
  }

  lemma {:induction false} BytesOfValue(s: Bytes)
    ensures WordValue(s) < ByteWeight(|s|) && LittleEndian(WordValue(s), |s|) == s
  {
    if s != [] {
      BytesOfValue(s[1..]);
      var rest := WordValue(s[1..]);
      assert WordValue(s) / 0x100 == rest && WordValue(s) % 0x100 == s[0];
    }
  }

  lemma Weights()
    ensures ByteWeight(4) == U32_BASE && ByteWeight(8) == U64_BASE
  {
    assert ByteWeight(2) == 0x1_0000 && ByteWeight(4) == 0x1_0000_0000 && ByteWeight(6) == 0x1_0000_0000_0000;
  }

  /** Appends a word byte by byte. */
  method AppendWord(bytes: Bytes, value: nat, width: nat) returns (out: Bytes)
    ensures out == bytes + LittleEndian(value, width)
  {
    out := bytes;
    var rest := value;
    for i := 0 to width
      invariant out + LittleEndian(rest, width - i) == bytes + LittleEndian(value, width)
    {
      ghost var before := out + LittleEndian(rest, width - i);
      assert LittleEndian(rest, width - i) == [rest % 0x100] + LittleEndian(rest / 0x100, width - (i + 1));
      out := out + [rest % 0x100];
      rest := rest / 0x100;
      assert out + LittleEndian(rest, width - (i + 1)) == before;
    }
  }

  /** Reads a word and advances; none when fewer bytes are left. */
  method ReadWord(bytes: Bytes, offset: nat, width: nat) returns (value: Option<nat>, next: nat)
    requires offset <= |bytes|
    ensures value.None? <==> |bytes| - offset < width
    ensures next <= |bytes|
    ensures value.Some? ==> next == offset + width && value.value == WordValue(bytes[offset..][..width])
  {
    next := offset;
    if |bytes| - offset < width {
      return None, next;
    }
    var total: nat, weight: nat := 0, 1;
    for i := 0 to width
      invariant next == offset + i
      invariant total + weight * WordValue(bytes[next..offset + width]) == WordValue(bytes[offset..offset + width])
    {
      var tail := bytes[next..offset + width];
      assert tail[1..] == bytes[next + 1..offset + width];
      NextByte(total, weight, tail[0], WordValue(tail[1..]));
      total := total + weight * bytes[next];
      weight := weight * 0x100;
      next := next + 1;
    }
    assert bytes[next..offset + width] == [];
    assert bytes[offset..][..width] == bytes[offset..offset + width];
    value := Some(total);
  }

  lemma NextByte(total: nat, weight: nat, head: nat, rest: nat)
    ensures total + weight * (head + 0x100 * rest) == (total + weight * head) + (weight * 0x100) * rest
  {
  }

  /** Two's complement. */
  function ToWord(x: i64): u64 {
    if x < 0 then x + 0x1_0000_0000_0000_0000 else x
  }

  function FromWord(w: u64): i64 {
    if w < 0x8000_0000_0000_0000 then w else w - 0x1_0000_0000_0000_0000
  }

  // ----- fields

  /** A word, or a blob behind its size; the width is that of the word in bytes. */
  datatype Kind = WordOf(width: nat) | BlobOf(width: nat, limit: nat)

  datatype Field = Number(value: nat) | Blob(content: Bytes)

  predicate Fits(f: Field, kind: Kind) {
    match kind
    case WordOf(width) => f.Number? && f.value < ByteWeight(width)
    case BlobOf(width, limit) => f.Blob? && |f.content| <= limit && |f.content| < ByteWeight(width)
  }

  predicate AllFit(fields: seq<Field>, kinds: seq<Kind>) {
    |fields| == |kinds| && forall i :: 0 <= i < |fields| ==> Fits(fields[i], kinds[i])
  }

  function EncodeField(f: Field, width: nat): Bytes {
    match f
    case Number(value) => LittleEndian(value, width)
    case Blob(content) => LittleEndian(|content|, width) + content
  }

  function Encode(fields: seq<Field>, kinds: seq<Kind>): Bytes
    requires |fields| == |kinds|
  {
    if fields == [] then [] else EncodeField(fields[0], kinds[0].width) + Encode(fields[1..], kinds[1..])
  }

  function DecodeField(kind: Kind, bytes: Bytes): Option<(Field, Bytes)> {
    if |bytes| < kind.width then None
    else
      var word := WordValue(bytes[..kind.width]);
      if kind.WordOf? then Some((Number(word), bytes[kind.width..]))
      else if word > kind.limit || word > |bytes| - kind.width then None
      else Some((Blob(bytes[kind.width..kind.width + word]), bytes[kind.width + word..]))
  }

  /** Reads fields of exactly these kinds and hands back what is left over. */
  function Decode(kinds: seq<Kind>, bytes: Bytes): Option<(seq<Field>, Bytes)>
    decreases |kinds|
  {
    if kinds == [] then Some(([], bytes))
    else
      match DecodeField(kinds[0], bytes)
      case None => None
      case Some(head) =>
        match Decode(kinds[1..], head.1)
        case None => None
        case Some(tail) => Some(([head.0] + tail.0, tail.1))
  }

  lemma DecodeEncodedField(f: Field, kind: Kind, rest: Bytes)
    requires Fits(f, kind)
    ensures DecodeField(kind, EncodeField(f, kind.width) + rest) == Some((f, rest))
  {
    hide LittleEndian;
    hide WordValue;
    var bytes, width := EncodeField(f, kind.width) + rest, kind.width;
    if f.Number? {
      ValueOfBytes(f.value, width);
      assert bytes[..width] == LittleEndian(f.value, width) && bytes[width..] == rest;
    } else {
      var size := |f.content|;
      ValueOfBytes(size, width);
      assert bytes[..width] == LittleEndian(size, width);
      assert bytes[width..width + size] == f.content && bytes[width + size..] == rest;
    }
  }

  lemma EncodeDecodedField(kind: Kind, bytes: Bytes)
    requires DecodeField(kind, bytes).Some?
    ensures var (f, rest) := DecodeField(kind, bytes).value;
            EncodeField(f, kind.width) + rest == bytes && Fits(f, kind)
  {
    hide LittleEndian;
    hide WordValue;
    var width := kind.width;
    BytesOfValue(bytes[..width]);
    assert bytes == bytes[..width] + bytes[width..];
    if kind.BlobOf? {
      var word := WordValue(bytes[..width]);
      assert bytes[width..] == bytes[width..width + word] + bytes[width + word..];
    }
  }

  /** Decoding inverts encoding, whatever follows ... */
  lemma {:induction false} DecodeEncoded(fields: seq<Field>, kinds: seq<Kind>, rest: Bytes)
    requires AllFit(fields, kinds)
    ensures Decode(kinds, Encode(fields, kinds) + rest) == Some((fields, rest))
    decreases |fields|
  {
    hide DecodeField;
    hide EncodeField;
    hide Fits;
    if fields == [] {
      assert Encode(fields, kinds) + rest == rest;
    } else {
      var tail := Encode(fields[1..], kinds[1..]);
      assert Encode(fields, kinds) + rest == EncodeField(fields[0], kinds[0].width) + (tail + rest);
      DecodeEncodedField(fields[0], kinds[0], tail + rest);
      DecodeEncoded(fields[1..], kinds[1..], rest);
      assert [fields[0]] + fields[1..] == fields;
    }
  }

  /** ... and accepts nothing but encodings. */
  lemma {:induction false} EncodeDecoded(kinds: seq<Kind>, bytes: Bytes)
    requires Decode(kinds, bytes).Some?
    ensures var (fields, rest) := Decode(kinds, bytes).value;
            AllFit(fields, kinds) && Encode(fields, kinds) + rest == bytes
    decreases |kinds|
  {
    hide DecodeField;
    hide EncodeField;
    hide Fits;
    var (fields, rest) := Decode(kinds, bytes).value;
    if kinds != [] {
      EncodeDecodedField(kinds[0], bytes);
      var (f, tail) := DecodeField(kinds[0], bytes).value;
      EncodeDecoded(kinds[1..], tail);
      var inner := Decode(kinds[1..], tail).value.0;
      assert fields[1..] == inner;
      assert Encode(fields, kinds) + rest == EncodeField(f, kinds[0].width) + (Encode(inner, kinds[1..]) + rest);
    }
  }

  // ----- the kinds that records are made of

  const MAX_STRING: nat := 0x10_0000

  const U32: Kind := WordOf(4)
  const U64: Kind := WordOf(8)
  const STRING: Kind := BlobOf(4, MAX_STRING)

  predicate Numbers(fields: seq<Field>) {
    forall i :: 0 <= i < |fields| ==> fields[i].Number?
  }

  /** Only words were read, each within its width. */
  lemma DecodedWords(kinds: seq<Kind>, bytes: Bytes)
    requires Decode(kinds, bytes).Some?
    requires forall i :: 0 <= i < |kinds| ==> kinds[i] == U32 || kinds[i] == U64
    ensures var fields := Decode(kinds, bytes).value.0;
            && |fields| == |kinds| && Numbers(fields)
            && forall i :: 0 <= i < |kinds| ==> fields[i].value < (if kinds[i] == U32 then U32_BASE else U64_BASE)
  {
    hide Decode;
    hide ByteWeight;
    Weights();
    EncodeDecoded(kinds, bytes);
    var fields := Decode(kinds, bytes).value.0;
    forall i | 0 <= i < |kinds|
      ensures fields[i].Number? && fields[i].value < (if kinds[i] == U32 then U32_BASE else U64_BASE)
    {
      assert Fits(fields[i], kinds[i]);
    }
  }

  lemma WordsFit(fields: seq<Field>, kinds: seq<Kind>)
    requires |fields| == |kinds| && Numbers(fields)
    requires forall i :: 0 <= i < |kinds| ==>
               (kinds[i] == U32 && fields[i].value < U32_BASE) || (kinds[i] == U64 && fields[i].value < U64_BASE)
    ensures AllFit(fields, kinds)
  {
    hide ByteWeight;
    Weights();
  }

  // ----- sizes

  /** Bytes of the words and size prefixes of these kinds. */
  function WidthSum(kinds: seq<Kind>): nat {
    if kinds == [] then 0 else kinds[0].width + WidthSum(kinds[1..])
  }

  /** Bytes of the contents of all blobs. */
  function ContentSum(fields: seq<Field>): nat {
    if fields == [] then 0 else (if fields[0].Blob? then |fields[0].content| else 0) + ContentSum(fields[1..])
  }

  lemma {:induction false} EncodedSize(fields: seq<Field>, kinds: seq<Kind>)
    requires |fields| == |kinds|
    ensures |Encode(fields, kinds)| == WidthSum(kinds) + ContentSum(fields)
    decreases |fields|
  {
    if fields != [] { EncodedSize(fields[1..], kinds[1..]); }
  }

  lemma {:induction false} WidthsJoin(a: seq<Kind>, b: seq<Kind>)
    ensures WidthSum(a + b) == WidthSum(a) + WidthSum(b)
  {
    if a == [] {
      assert a + b == b;
    } else {
      assert (a + b)[1..] == a[1..] + b;
      WidthsJoin(a[1..], b);
    }
  }

  lemma {:induction false} WidthsOf(kinds: seq<Kind>, width: nat)
    requires forall i :: 0 <= i < |kinds| ==> kinds[i].width == width
    ensures WidthSum(kinds) == width * |kinds|
    decreases |kinds|
  {
    if kinds != [] { WidthsOf(kinds[1..], width); }
  }

  lemma {:induction false} WordsHaveNoContent(fields: seq<Field>)
    requires Numbers(fields)
    ensures ContentSum(fields) == 0
  {
    if fields != [] { WordsHaveNoContent(fields[1..]); }
  }

  lemma BlobThenWords(fields: seq<Field>)
    requires fields != [] && fields[0].Blob? && Numbers(fields[1..])
    ensures ContentSum(fields) == |fields[0].content|
  {
    WordsHaveNoContent(fields[1..]);
  }

  lemma AllLong(fields: seq<Field>, kinds: seq<Kind>)
    requires |fields| == |kinds| && Numbers(fields) && forall i :: 0 <= i < |kinds| ==> kinds[i] == U64
    ensures |Encode(fields, kinds)| == 8 * |fields|
  {
    EncodedSize(fields, kinds);
    WordsHaveNoContent(fields);
    WidthsOf(kinds, 8);
  }

  // ----- the loops

  method ReadField(kind: Kind, bytes: Bytes, offset: nat) returns (field: Option<Field>, next: nat)
    requires offset <= |bytes|
    ensures next <= |bytes|
    ensures field.None? ==> DecodeField(kind, bytes[offset..]).None?
    ensures field.Some? ==> DecodeField(kind, bytes[offset..]) == Some((field.value, bytes[next..]))
  {
    hide WordValue;
    var rest := bytes[offset..];
    var word;
    word, next := ReadWord(bytes, offset, kind.width);
    if word.None? {
      return None, next;
    }
    assert rest[kind.width..] == bytes[next..];
    if kind.WordOf? {
      return Some(Number(word.value)), next;
    }
    if word.value > kind.limit || word.value > |bytes| - next {
      return None, next;
    }
    var content := bytes[next..next + word.value];
    assert rest[kind.width..kind.width + word.value] == content;
    next := next + word.value;
    assert rest[kind.width + word.value..] == bytes[next..];
    field := Some(Blob(content));
  }

  function Prepend(read: seq<Field>, tail: Option<(seq<Field>, Bytes)>): Option<(seq<Field>, Bytes)> {
    match tail case None => None case Some(t) => Some((read + t.0, t.1))
  }

  lemma NothingRead(kinds: seq<Kind>, bytes: Bytes)
    ensures Prepend([], Decode(kinds, bytes)) == Decode(kinds, bytes)
  {
    if Decode(kinds, bytes).Some? { assert [] + Decode(kinds, bytes).value.0 == Decode(kinds, bytes).value.0; }
  }

  lemma OneRead(kinds: seq<Kind>, bytes: Bytes, read: seq<Field>)
    requires kinds != []
    ensures DecodeField(kinds[0], bytes).None? ==> Decode(kinds, bytes).None?
    ensures DecodeField(kinds[0], bytes).Some? ==>
              var (f, rest) := DecodeField(kinds[0], bytes).value;
              Prepend(read, Decode(kinds, bytes)) == Prepend(read + [f], Decode(kinds[1..], rest))
  {
    hide DecodeField;
    if DecodeField(kinds[0], bytes).Some? {
      var (f, rest) := DecodeField(kinds[0], bytes).value;
      if Decode(kinds[1..], rest).Some? {
        var tail := Decode(kinds[1..], rest).value.0;
        assert read + ([f] + tail) == read + [f] + tail;
      }
    }
  }

  /** Reads the fields one after the other behind a moving offset. */
  method ReadFields(kinds: seq<Kind>, bytes: Bytes, offset: nat) returns (fields: Option<seq<Field>>, next: nat)
    requires offset <= |bytes|
    ensures next <= |bytes|
    ensures fields.None? ==> Decode(kinds, bytes[offset..]).None?
    ensures fields.Some? ==> Decode(kinds, bytes[offset..]) == Some((fields.value, bytes[next..]))
  {
    hide DecodeField;
    hide Decode;
    var read := [];
    next := offset;
    NothingRead(kinds, bytes[offset..]);
    assert kinds[0..] == kinds;
    for i := 0 to |kinds|
      invariant next <= |bytes|
      invariant Prepend(read, Decode(kinds[i..], bytes[next..])) == Decode(kinds, bytes[offset..])
    {
      assert kinds[i..][1..] == kinds[i + 1..];
      OneRead(kinds[i..], bytes[next..], read);
      var field;
      field, next := ReadField(kinds[i], bytes, next);
      if field.None? {
        return None, next;
      }
      read := read + [field.value];
    }
    NoKindsLeft(bytes[next..]);
    assert kinds[|kinds|..] == [] && read + [] == read;
    fields := Some(read);
  }

  lemma NoKindsLeft(bytes: Bytes)
    ensures Decode([], bytes) == Some(([], bytes))
  {
  }

  lemma WriteNext(before: Bytes, fields: seq<Field>, kinds: seq<Kind>, i: nat)
    requires |fields| == |kinds| && i < |fields|
    ensures before + EncodeField(fields[i], kinds[i].width) + Encode(fields[i + 1..], kinds[i + 1..])
         == before + Encode(fields[i..], kinds[i..])
  {
    hide EncodeField;
    assert fields[i..][1..] == fields[i + 1..] && kinds[i..][1..] == kinds[i + 1..];
    var f, rest := EncodeField(fields[i], kinds[i].width), Encode(fields[i + 1..], kinds[i + 1..]);
    assert before + f + rest == before + (f + rest);
  }

  /** Appends the fields one after the other. */
  method WriteFields(before: Bytes, fields: seq<Field>, kinds: seq<Kind>) returns (out: Bytes)
    requires |fields| == |kinds|
    ensures out == before + Encode(fields, kinds)
  {
    hide LittleEndian;
    hide Encode;
    out := before;
    assert fields[0..] == fields && kinds[0..] == kinds;
    for i := 0 to |fields|
      invariant out + Encode(fields[i..], kinds[i..]) == before + Encode(fields, kinds)
    {
      WriteNext(out, fields, kinds, i);
      ghost var start := out;
      var field := fields[i];
      if field.Blob? {
        out := AppendWord(out, |field.content|, kinds[i].width);
        out := out + field.content;
      } else {
        out := AppendWord(out, field.value, kinds[i].width);
      }
      assert out == start + EncodeField(field, kinds[i].width);
    }
    NothingLeft(fields[|fields|..], kinds[|fields|..]);
    assert out + [] == out;
  }

  lemma NothingLeft(fields: seq<Field>, kinds: seq<Kind>)
    requires fields == [] && kinds == []
    ensures Encode(fields, kinds) == []
  {
  }
}
