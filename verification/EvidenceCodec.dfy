/** The evidence part of a journal record: assertions, descriptors and bindings in all six formats
    (src/dispatch/file_journal_store.cpp:115-266, 360-378). */
module EvidenceCodec {
  import opened MachineWords
  import opened Options
  import opened FieldCodec
  import opened SettlementRecords
  import opened JournalRecords

  const MAX_COUNT: nat := 0x10_0000

  /** Formats 1 to 6: legacy, causal, managed volume, operation kind, settlement mode, result anchor. */
  type Version = v: nat | 1 <= v <= 6 witness 1

  const CURRENT: Version := 6

  // ----- what a format can express

  function DefaultedAssertion(v: Version, a: Assertion): Assertion {
    if v >= 2 then a else a.WithDefaultTransition()
  }

  function DefaultedAssertions(v: Version, s: seq<Assertion>): (r: seq<Assertion>)
    ensures |r| == |s| && forall i :: 0 <= i < |s| ==> r[i] == DefaultedAssertion(v, s[i])
  {
    seq(|s|, i requires 0 <= i < |s| => DefaultedAssertion(v, s[i]))
  }

  function DefaultedDescriptor(v: Version, d: Descriptor): Descriptor {
    d.(tradeId := if v >= 2 then d.tradeId else 0, operationId := if v >= 2 then d.operationId else 0,
       requestedVolume := if v >= 3 then d.requestedVolume else 0, assertions := DefaultedAssertions(v, d.assertions))
  }

  // ----- assertions

  function AssertionKinds(): seq<Kind> { [U32, U64, U32] }

  function WindowKinds(): seq<Kind> { [U64, U64] }

  function CausalKinds(): seq<Kind> { [U32, U64, U32] }

  function AssertionFields(a: Assertion): (fields: seq<Field>)
    ensures |fields| == 3
  {
    [Number(a.kind), Number(a.ticket), Number(if a.window.Some? then 1 else 0)]
  }

  function WindowFields(w: Window): (fields: seq<Field>)
    ensures |fields| == 2
  {
    [Number(ToWord(w.from)), Number(ToWord(w.to))]
  }

  function CausalFields(a: Assertion): (fields: seq<Field>)
    ensures |fields| == 3
  {
    [Number(if a.baselinePresent.None? then 0 else if a.baselinePresent.value then 2 else 1), Number(a.correlation),
     Number(a.transition)]
  }

  function WindowBytes(w: Option<Window>): Bytes {
    if w.None? then [] else Encode(WindowFields(w.value), WindowKinds())
  }

  function CausalBytes(v: Version, a: Assertion): Bytes {
    if v >= 2 then Encode(CausalFields(a), CausalKinds()) else []
  }

  function AssertionBytes(v: Version, a: Assertion): Bytes {
    Encode(AssertionFields(a), AssertionKinds()) + (WindowBytes(a.window) + CausalBytes(v, a))
  }

  function ReadWindow(present: nat, bytes: Bytes): Option<(Option<Window>, Bytes)> {
    if present == 0 then Some((None, bytes))
    else
      match Decode(WindowKinds(), bytes)
      case None => None
      case Some(read) =>
        DecodedWords(WindowKinds(), bytes);
        Some((Some(Window(FromWord(read.0[0].value), FromWord(read.0[1].value))), read.1))
  }

  /** Either the stored causal fields or, for the oldest format, the defaults. */
  function ReadCausal(v: Version, a: Assertion, bytes: Bytes): Option<(Assertion, Bytes)> {
    if v < 2 then Some((a.WithDefaultTransition(), bytes))
    else
      match Decode(CausalKinds(), bytes)
      case None => None
      case Some(read) =>
        DecodedWords(CausalKinds(), bytes);
        var baseline := read.0[0].value;
        if baseline > 2 then None
        else
          Some((a.(baselinePresent := if baseline == 0 then None else Some(baseline == 2), correlation := read.0[1].value,
                   transition := read.0[2].value), read.1))
  }

  function ReadAssertion(v: Version, bytes: Bytes): Option<(Assertion, Bytes)> {
    match Decode(AssertionKinds(), bytes)
    case None => None
    case Some(head) =>
      DecodedWords(AssertionKinds(), bytes);
      if head.0[2].value > 1 then None
      else
        match ReadWindow(head.0[2].value, head.1)
        case None => None
        case Some(window) =>
          ReadCausal(v, Assertion(head.0[0].value, head.0[1].value, window.0, None, 0, 0), window.1)
  }

  lemma SignedWords(x: i64, w: u64)
    ensures FromWord(ToWord(x)) == x && ToWord(FromWord(w)) == w
  {
  }

  lemma WindowForward(w: Option<Window>, rest: Bytes)
    ensures ReadWindow(if w.Some? then 1 else 0, WindowBytes(w) + rest) == Some((w, rest))
  {
    hide Encode;
    hide Decode;
    if w.Some? {
      SignedWords(w.value.from, 0);
      SignedWords(w.value.to, 0);
      WordsFit(WindowFields(w.value), WindowKinds());
      DecodeEncoded(WindowFields(w.value), WindowKinds(), rest);
    } else {
      assert WindowBytes(w) + rest == rest;
    }
  }

  lemma WindowBackward(present: nat, bytes: Bytes)
    requires present <= 1 && ReadWindow(present, bytes).Some?
    ensures var (w, rest) := ReadWindow(present, bytes).value; WindowBytes(w) + rest == bytes && (w.Some? <==> present == 1)
  {
    hide Encode;
    hide Decode;
    if present == 1 {
      EncodeDecoded(WindowKinds(), bytes);
      DecodedWords(WindowKinds(), bytes);
      var fields := Decode(WindowKinds(), bytes).value.0;
      SignedWords(0, fields[0].value);
      SignedWords(0, fields[1].value);
      assert fields == WindowFields(ReadWindow(present, bytes).value.0.value);
    }
  }

  lemma CausalForward(v: Version, a: Assertion, bare: Assertion, rest: Bytes)
    requires DefaultedAssertion(v, a) == a && bare == a.(baselinePresent := None, correlation := 0, transition := 0)
    ensures ReadCausal(v, bare, CausalBytes(v, a) + rest) == Some((a, rest))
  {
    hide Encode;
    hide Decode;
    if v >= 2 {
      WordsFit(CausalFields(a), CausalKinds());
      DecodeEncoded(CausalFields(a), CausalKinds(), rest);
    } else {
      assert CausalBytes(v, a) + rest == rest;
    }
  }

  lemma CausalBackward(v: Version, bare: Assertion, bytes: Bytes)
    requires ReadCausal(v, bare, bytes).Some?
    ensures var (a, rest) := ReadCausal(v, bare, bytes).value;
            && CausalBytes(v, a) + rest == bytes && DefaultedAssertion(v, a) == a
            && a.kind == bare.kind && a.ticket == bare.ticket && a.window == bare.window
  {
    hide Encode;
    hide Decode;
    if v >= 2 {
      EncodeDecoded(CausalKinds(), bytes);
      DecodedWords(CausalKinds(), bytes);
      assert Decode(CausalKinds(), bytes).value.0 == CausalFields(ReadCausal(v, bare, bytes).value.0);
    }
  }

  lemma AssertionForward(v: Version, a: Assertion, rest: Bytes)
    requires DefaultedAssertion(v, a) == a
    ensures ReadAssertion(v, AssertionBytes(v, a) + rest) == Some((a, rest))
  {
    hide Encode;
    hide Decode;
    hide ReadWindow;
    hide ReadCausal;
    hide WindowBytes;
    hide CausalBytes;
    var head, window, causal := Encode(AssertionFields(a), AssertionKinds()), WindowBytes(a.window), CausalBytes(v, a);
    assert AssertionBytes(v, a) + rest == head + (window + (causal + rest));
    WordsFit(AssertionFields(a), AssertionKinds());
    DecodeEncoded(AssertionFields(a), AssertionKinds(), window + (causal + rest));
    WindowForward(a.window, causal + rest);
    CausalForward(v, a, Assertion(a.kind, a.ticket, a.window, None, 0, 0), rest);
  }

  lemma AssertionBackward(v: Version, bytes: Bytes)
    requires ReadAssertion(v, bytes).Some?
    ensures var (a, rest) := ReadAssertion(v, bytes).value; AssertionBytes(v, a) + rest == bytes && DefaultedAssertion(v, a) == a
  {
    hide Encode;
    hide Decode;
    hide ReadWindow;
    hide ReadCausal;
    hide WindowBytes;
    hide CausalBytes;
    hide DefaultedAssertion;
    EncodeDecoded(AssertionKinds(), bytes);
    DecodedWords(AssertionKinds(), bytes);
    var head := Decode(AssertionKinds(), bytes).value;
    WindowBackward(head.0[2].value, head.1);
    var window := ReadWindow(head.0[2].value, head.1).value;
    CausalBackward(v, Assertion(head.0[0].value, head.0[1].value, window.0, None, 0, 0), window.1);
    var (a, rest) := ReadAssertion(v, bytes).value;
    assert AssertionFields(a) == head.0;
    var first := Encode(head.0, AssertionKinds());
    assert AssertionBytes(v, a) + rest == first + (WindowBytes(a.window) + (CausalBytes(v, a) + rest));
  }

  // ----- lists

  function AssertionsBytes(v: Version, s: seq<Assertion>): Bytes {
    if s == [] then [] else AssertionBytes(v, s[0]) + AssertionsBytes(v, s[1..])
  }

  function ReadAssertions(v: Version, count: nat, bytes: Bytes): Option<(seq<Assertion>, Bytes)>
    decreases count
  {
    if count == 0 then Some(([], bytes))
    else
      match ReadAssertion(v, bytes)
      case None => None
      case Some(head) =>
        match ReadAssertions(v, count - 1, head.1)
        case None => None
        case Some(tail) => Some(([head.0] + tail.0, tail.1))
  }

  lemma {:induction false} AssertionsForward(v: Version, s: seq<Assertion>, rest: Bytes)
    requires DefaultedAssertions(v, s) == s
    ensures ReadAssertions(v, |s|, AssertionsBytes(v, s) + rest) == Some((s, rest))
    decreases |s|
  {
    hide AssertionBytes;
    hide ReadAssertion;
    hide DefaultedAssertion;
    if s == [] {
      assert AssertionsBytes(v, s) + rest == rest;
    } else {
      assert DefaultedAssertions(v, s)[0] == s[0] && DefaultedAssertions(v, s[1..]) == s[1..];
      assert AssertionsBytes(v, s) + rest == AssertionBytes(v, s[0]) + (AssertionsBytes(v, s[1..]) + rest);
      AssertionForward(v, s[0], AssertionsBytes(v, s[1..]) + rest);
      AssertionsForward(v, s[1..], rest);
      assert [s[0]] + s[1..] == s;
    }
  }

  lemma {:induction false} AssertionsBackward(v: Version, count: nat, bytes: Bytes)
    requires ReadAssertions(v, count, bytes).Some?
    ensures var (s, rest) := ReadAssertions(v, count, bytes).value;
            && |s| == count && AssertionsBytes(v, s) + rest == bytes
            && forall i :: 0 <= i < |s| ==> DefaultedAssertion(v, s[i]) == s[i]
    decreases count
  {
    hide AssertionBytes;
    hide ReadAssertion;
    hide DefaultedAssertion;
    var (s, rest) := ReadAssertions(v, count, bytes).value;
    if count > 0 {
      AssertionBackward(v, bytes);
      var head := ReadAssertion(v, bytes).value;
      AssertionsBackward(v, count - 1, head.1);
      var tail := ReadAssertions(v, count - 1, head.1).value;
      assert s[1..] == tail.0 && rest == tail.1;
      assert AssertionsBytes(v, s) + rest == AssertionBytes(v, s[0]) + (AssertionsBytes(v, s[1..]) + rest);
    }
  }

  function BindingKinds(): seq<Kind> { [U64, U64] }

  function BindingFields(b: Binding): (fields: seq<Field>)
    ensures |fields| == 2
  {
    [Number(b.correlation), Number(b.ticket)]
  }

  function BindingListBytes(s: seq<Binding>): Bytes {
    if s == [] then [] else Encode(BindingFields(s[0]), BindingKinds()) + BindingListBytes(s[1..])
  }

  function ReadBinding(bytes: Bytes): Option<(Binding, Bytes)> {
    match Decode(BindingKinds(), bytes)
    case None => None
    case Some(head) =>
      DecodedWords(BindingKinds(), bytes);
      var binding := Binding(head.0[0].value, head.0[1].value);
      if binding.Valid() then Some((binding, head.1)) else None
  }

  function ReadBindingList(count: nat, bytes: Bytes): Option<(seq<Binding>, Bytes)>
    decreases count
  {
    if count == 0 then Some(([], bytes))
    else
      match ReadBinding(bytes)
      case None => None
      case Some(head) =>
        match ReadBindingList(count - 1, head.1)
        case None => None
        case Some(tail) => Some(([head.0] + tail.0, tail.1))
  }

  predicate AllValid(s: seq<Binding>) {
    forall i :: 0 <= i < |s| ==> s[i].Valid()
  }

  lemma BindingForward(b: Binding, rest: Bytes)
    requires b.Valid()
    ensures ReadBinding(Encode(BindingFields(b), BindingKinds()) + rest) == Some((b, rest))
  {
    hide Encode;
    hide Decode;
    WordsFit(BindingFields(b), BindingKinds());
    DecodeEncoded(BindingFields(b), BindingKinds(), rest);
  }

  lemma BindingBackward(bytes: Bytes)
    requires ReadBinding(bytes).Some?
    ensures var (b, rest) := ReadBinding(bytes).value; Encode(BindingFields(b), BindingKinds()) + rest == bytes && b.Valid()
  {
    hide Encode;
    hide Decode;
    EncodeDecoded(BindingKinds(), bytes);
    DecodedWords(BindingKinds(), bytes);
    assert Decode(BindingKinds(), bytes).value.0 == BindingFields(ReadBinding(bytes).value.0);
  }

  lemma {:induction false} BindingsForward(s: seq<Binding>, rest: Bytes)
    requires AllValid(s)
    ensures ReadBindingList(|s|, BindingListBytes(s) + rest) == Some((s, rest))
    decreases |s|
  {
    hide Encode;
    hide ReadBinding;
    hide Binding.Valid;
    if s == [] {
      assert BindingListBytes(s) + rest == rest;
    } else {
      var head := Encode(BindingFields(s[0]), BindingKinds());
      assert BindingListBytes(s) + rest == head + (BindingListBytes(s[1..]) + rest);
      BindingForward(s[0], BindingListBytes(s[1..]) + rest);
      BindingsForward(s[1..], rest);
      assert [s[0]] + s[1..] == s;
    }
  }

  lemma {:induction false} BindingsBackward(count: nat, bytes: Bytes)
    requires ReadBindingList(count, bytes).Some?
    ensures var (s, rest) := ReadBindingList(count, bytes).value;
            |s| == count && BindingListBytes(s) + rest == bytes && AllValid(s)
    decreases count
  {
    hide Encode;
    hide ReadBinding;
    hide Binding.Valid;
    hide BindingFields;
    var (s, rest) := ReadBindingList(count, bytes).value;
    if count > 0 {
      BindingBackward(bytes);
      var head := ReadBinding(bytes).value;
      BindingsBackward(count - 1, head.1);
      var tail := ReadBindingList(count - 1, head.1).value;
      assert s[1..] == tail.0 && rest == tail.1;
      assert BindingListBytes(s) + rest == Encode(BindingFields(s[0]), BindingKinds()) + (BindingListBytes(s[1..]) + rest);
    }
  }

  function ListBytes(v: Version, s: seq<Binding>): Bytes {
    if v < 2 then [] else Encode([Number(|s|)], [U32]) + BindingListBytes(s)
  }

  function ReadBindings(v: Version, bytes: Bytes): Option<(seq<Binding>, Bytes)> {
    if v < 2 then Some(([], bytes))
    else
      match Decode([U32], bytes)
      case None => None
      case Some(count) =>
        DecodedWords([U32], bytes);
        if count.0[0].value > MAX_COUNT then None else ReadBindingList(count.0[0].value, count.1)
  }

  lemma OneWord(n: nat, rest: Bytes)
    requires n < U32_BASE
    ensures Decode([U32], Encode([Number(n)], [U32]) + rest) == Some(([Number(n)], rest))
  {
    hide Encode;
    hide Decode;
    WordsFit([Number(n)], [U32]);
    DecodeEncoded([Number(n)], [U32], rest);
  }

  lemma OneWordRead(bytes: Bytes)
    requires Decode([U32], bytes).Some?
    ensures var (fields, rest) := Decode([U32], bytes).value;
            && |fields| == 1 && fields[0].Number? && fields[0].value < U32_BASE
            && Encode([Number(fields[0].value)], [U32]) + rest == bytes
  {
    hide Encode;
    hide Decode;
    EncodeDecoded([U32], bytes);
    DecodedWords([U32], bytes);
    var fields := Decode([U32], bytes).value.0;
    assert fields == [Number(fields[0].value)];
  }

  lemma ListForward(v: Version, s: seq<Binding>, rest: Bytes)
    requires AllValid(s) && |s| < U32_BASE && (v < 2 ==> s == [])
    ensures ReadBindings(v, ListBytes(v, s) + rest) == if |s| <= MAX_COUNT then Some((s, rest)) else None
  {
    hide Encode;
    hide Decode;
    hide ReadBindingList;
    hide BindingListBytes;
    hide AllValid;
    if v >= 2 {
      assert ListBytes(v, s) + rest == Encode([Number(|s|)], [U32]) + (BindingListBytes(s) + rest);
      OneWord(|s|, BindingListBytes(s) + rest);
      BindingsForward(s, rest);
    } else {
      assert ListBytes(v, s) + rest == rest;
    }
  }

  lemma ListBackward(v: Version, bytes: Bytes)
    requires ReadBindings(v, bytes).Some?
    ensures var (s, rest) := ReadBindings(v, bytes).value;
            && ListBytes(v, s) + rest == bytes && AllValid(s) && |s| <= MAX_COUNT && (v < 2 ==> s == [])
  {
    hide Encode;
    hide Decode;
    hide ReadBindingList;
    hide BindingListBytes;
    if v >= 2 {
      OneWordRead(bytes);
      var (fields, tail) := Decode([U32], bytes).value;
      BindingsBackward(fields[0].value, tail);
      var (s, rest) := ReadBindings(v, bytes).value;
      assert ListBytes(v, s) + rest == Encode([Number(|s|)], [U32]) + (BindingListBytes(s) + rest);
    }
  }

  // ----- descriptors

  function ScopeKinds(): seq<Kind> { [STRING, U64] }

  function IdentityKinds(v: Version): seq<Kind> {
    if v >= 3 then [U64, U64, U64] else if v == 2 then [U64, U64] else []
  }

  function BaselineKinds(): seq<Kind> { [STRING, U64, U64, U64, U64, U64, U64, U64, U32, U32] }

  function ScopeFields(account: AccountKey): (fields: seq<Field>)
    ensures |fields| == 2
  {
    [Blob(account.server), Number(account.login)]
  }

  function IdentityFields(v: Version, d: Descriptor): (fields: seq<Field>)
    ensures |fields| == |IdentityKinds(v)|
  {
    if v >= 3 then [Number(d.tradeId), Number(d.operationId), Number(d.requestedVolume)]
    else if v == 2 then [Number(d.tradeId), Number(d.operationId)]
    else []
  }

  function BaselineFields(b: Baseline, settledState: u32, count: nat): (fields: seq<Field>)
    ensures |fields| == 10
  {
    [Blob(b.account.server), Number(b.account.login), Number(b.graphInstance), Number(b.graphRevision), Number(b.activeOrders),
     Number(b.positions), Number(b.historyOrders), Number(b.historyDeals), Number(settledState), Number(count)]
  }

  function ScopeBytes(d: Descriptor): Bytes {
    Encode(ScopeFields(d.account), ScopeKinds())
  }

  function IdentityBytes(v: Version, d: Descriptor): Bytes {
    Encode(IdentityFields(v, d), IdentityKinds(v))
  }

  function BaselineBytes(d: Descriptor): Bytes {
    Encode(BaselineFields(d.baseline, d.settledState, |d.assertions|), BaselineKinds())
  }

  function PresentBytes(v: Version, d: Descriptor): Bytes {
    ScopeBytes(d) + (IdentityBytes(v, d) + (BaselineBytes(d) + AssertionsBytes(v, d.assertions)))
  }

  function DescriptorBytes(v: Version, d: Option<Descriptor>): Bytes {
    if d.None? then Encode([Number(0)], [U32]) else Encode([Number(1)], [U32]) + PresentBytes(v, d.value)
  }

  predicate ScopeShaped(fields: seq<Field>) {
    && |fields| == 2 && fields[0].Blob? && |fields[0].content| <= MAX_STRING
    && fields[1].Number? && fields[1].value < U64_BASE
  }

  predicate BaselineShaped(fields: seq<Field>) {
    && |fields| == 10 && fields[0].Blob? && |fields[0].content| <= MAX_STRING
    && (forall i :: 1 <= i < 8 ==> fields[i].Number? && fields[i].value < U64_BASE)
    && (forall i :: 8 <= i < 10 ==> fields[i].Number? && fields[i].value < U32_BASE)
  }

  lemma ScopeDecoded(bytes: Bytes)
    requires Decode(ScopeKinds(), bytes).Some?
    ensures ScopeShaped(Decode(ScopeKinds(), bytes).value.0)
  {
    hide Decode;
    hide ByteWeight;
    Weights();
    EncodeDecoded(ScopeKinds(), bytes);
    var fields := Decode(ScopeKinds(), bytes).value.0;
    assert Fits(fields[0], STRING) && Fits(fields[1], U64);
  }

  lemma BaselineDecoded(bytes: Bytes)
    requires Decode(BaselineKinds(), bytes).Some?
    ensures BaselineShaped(Decode(BaselineKinds(), bytes).value.0)
  {
    hide Decode;
    hide ByteWeight;
    Weights();
    EncodeDecoded(BaselineKinds(), bytes);
    var fields := Decode(BaselineKinds(), bytes).value.0;
    forall i | 0 <= i < 10 ensures Fits(fields[i], BaselineKinds()[i]) {}
    assert Fits(fields[0], STRING);
  }

  function BaselineOf(fields: seq<Field>): Baseline
    requires BaselineShaped(fields)
  {
    Baseline(AccountKey(fields[0].content, fields[1].value), fields[2].value, fields[3].value, fields[4].value, fields[5].value,
             fields[6].value, fields[7].value)
  }

  function Identified(v: Version, d: Descriptor, words: seq<Field>): Descriptor
    requires |words| == |IdentityKinds(v)| && Numbers(words) && forall i :: 0 <= i < |words| ==> words[i].value < U64_BASE
  {
    if v >= 3 then d.(tradeId := words[0].value, operationId := words[1].value, requestedVolume := words[2].value)
    else if v == 2 then d.(tradeId := words[0].value, operationId := words[1].value, requestedVolume := 0)
    else d.(tradeId := 0, operationId := 0, requestedVolume := 0)
  }

  function ReadBaseline(v: Version, account: AccountKey, words: seq<Field>, bytes: Bytes): Option<(Descriptor, Bytes)>
    requires |words| == |IdentityKinds(v)| && Numbers(words) && forall i :: 0 <= i < |words| ==> words[i].value < U64_BASE
  {
    match Decode(BaselineKinds(), bytes)
    case None => None
    case Some(base) =>
      BaselineDecoded(bytes);
      var count := base.0[9].value;
      if count > MAX_COUNT || !BaselineOf(base.0).Valid() then None
      else
        match ReadAssertions(v, count, base.1)
        case None => None
        case Some(list) =>
          var d := Identified(v, Descriptor(account, BaselineOf(base.0), list.0, base.0[8].value, 0, 0, 0), words);
          if d.Valid() then Some((d, list.1)) else None
  }

  function ReadPresent(v: Version, bytes: Bytes): Option<(Descriptor, Bytes)> {
    match Decode(ScopeKinds(), bytes)
    case None => None
    case Some(scope) =>
      ScopeDecoded(bytes);
      match Decode(IdentityKinds(v), scope.1)
      case None => None
      case Some(words) =>
        DecodedWords(IdentityKinds(v), scope.1);
        ReadBaseline(v, AccountKey(scope.0[0].content, scope.0[1].value), words.0, words.1)
  }

  /** An input that ends here has no descriptor either: the oldest records may stop short. */
  function ReadDescriptor(v: Version, bytes: Bytes): Option<(Option<Descriptor>, Bytes)> {
    if bytes == [] then Some((None, []))
    else
      match Decode([U32], bytes)
      case None => None
      case Some(flag) =>
        OneWordRead(bytes);
        if flag.0[0].value > 1 then None
        else if flag.0[0].value == 0 then Some((None, flag.1))
        else
          match ReadPresent(v, flag.1)
          case None => None
          case Some(present) => Some((Some(present.0), present.1))
  }

  predicate DescriptorWritable(d: Descriptor) {
    && d.Valid() && |d.assertions| < U32_BASE
    && |d.account.server| <= MAX_STRING && |d.baseline.account.server| <= MAX_STRING
  }

  lemma ScopeFits(account: AccountKey)
    requires |account.server| <= MAX_STRING
    ensures AllFit(ScopeFields(account), ScopeKinds())
  {
    hide ByteWeight;
    Weights();
  }

  lemma BaselineFits(b: Baseline, settledState: u32, count: nat)
    requires |b.account.server| <= MAX_STRING && count < U32_BASE
    ensures AllFit(BaselineFields(b, settledState, count), BaselineKinds())
    ensures BaselineShaped(BaselineFields(b, settledState, count))
  {
    hide ByteWeight;
    Weights();
  }

  lemma BaselineForward(v: Version, d: Descriptor, rest: Bytes)
    requires DescriptorWritable(d) && DefaultedDescriptor(v, d) == d
    ensures ReadBaseline(v, d.account, IdentityFields(v, d), BaselineBytes(d) + (AssertionsBytes(v, d.assertions) + rest))
         == if |d.assertions| <= MAX_COUNT then Some((d, rest)) else None
  {
    hide Encode;
    hide Decode;
    hide ReadAssertions;
    hide AssertionsBytes;
    hide Descriptor.Valid;
    hide DefaultedAssertions;
    var fields := BaselineFields(d.baseline, d.settledState, |d.assertions|);
    BaselineFits(d.baseline, d.settledState, |d.assertions|);
    DecodeEncoded(fields, BaselineKinds(), AssertionsBytes(v, d.assertions) + rest);
    assert BaselineOf(fields) == d.baseline;
    BaselineOfValid(d);
    assert DefaultedAssertions(v, d.assertions) == DefaultedDescriptor(v, d).assertions;
    AssertionsForward(v, d.assertions, rest);
    var read := Descriptor(d.account, d.baseline, d.assertions, d.settledState, 0, 0, 0);
    assert Identified(v, read, IdentityFields(v, d)) == d;
  }

  lemma BaselineOfValid(d: Descriptor)
    requires d.Valid()
    ensures d.baseline.Valid()
  {
  }

  lemma IdentityFits(v: Version, d: Descriptor)
    ensures AllFit(IdentityFields(v, d), IdentityKinds(v))
  {
    hide ByteWeight;
    Weights();
  }

  lemma PresentForward(v: Version, d: Descriptor, rest: Bytes)
    requires DescriptorWritable(d) && DefaultedDescriptor(v, d) == d
    ensures ReadPresent(v, PresentBytes(v, d) + rest) == if |d.assertions| <= MAX_COUNT then Some((d, rest)) else None
  {
    hide Encode;
    hide Decode;
    hide ReadBaseline;
    hide AssertionsBytes;
    hide BaselineBytes;
    hide DefaultedDescriptor;
    hide Descriptor.Valid;
    hide IdentityFields;
    hide IdentityKinds;
    var tail := BaselineBytes(d) + (AssertionsBytes(v, d.assertions) + rest);
    assert PresentBytes(v, d) + rest == ScopeBytes(d) + (IdentityBytes(v, d) + tail);
    ScopeFits(d.account);
    DecodeEncoded(ScopeFields(d.account), ScopeKinds(), IdentityBytes(v, d) + tail);
    IdentityFits(v, d);
    DecodeEncoded(IdentityFields(v, d), IdentityKinds(v), tail);
    BaselineForward(v, d, rest);
  }

  lemma BaselineBackward(v: Version, account: AccountKey, words: seq<Field>, bytes: Bytes)
    requires |words| == |IdentityKinds(v)| && Numbers(words) && forall i :: 0 <= i < |words| ==> words[i].value < U64_BASE
    requires ReadBaseline(v, account, words, bytes).Some?
    ensures var (d, rest) := ReadBaseline(v, account, words, bytes).value;
            && BaselineBytes(d) + (AssertionsBytes(v, d.assertions) + rest) == bytes
            && IdentityFields(v, d) == words && d.account == account && DefaultedDescriptor(v, d) == d
            && d.Valid() && |d.assertions| <= MAX_COUNT && |d.baseline.account.server| <= MAX_STRING
  {
    hide Encode;
    hide Decode;
    hide ReadAssertions;
    hide AssertionsBytes;
    hide Descriptor.Valid;
    EncodeDecoded(BaselineKinds(), bytes);
    BaselineDecoded(bytes);
    var base := Decode(BaselineKinds(), bytes).value;
    AssertionsBackward(v, base.0[9].value, base.1);
    var (d, rest) := ReadBaseline(v, account, words, bytes).value;
    IdentifiedRest(v, Descriptor(account, BaselineOf(base.0), d.assertions, base.0[8].value, 0, 0, 0), words);
    assert BaselineFields(d.baseline, d.settledState, |d.assertions|) == base.0;
    assert DefaultedAssertions(v, d.assertions) == d.assertions;
  }

  lemma IdentifiedRest(v: Version, d: Descriptor, words: seq<Field>)
    requires |words| == |IdentityKinds(v)| && Numbers(words) && forall i :: 0 <= i < |words| ==> words[i].value < U64_BASE
    ensures var r := Identified(v, d, words);
            && IdentityFields(v, r) == words && r.account == d.account && r.baseline == d.baseline
            && r.assertions == d.assertions && r.settledState == d.settledState
            && (v < 2 ==> r.tradeId == 0 && r.operationId == 0) && (v < 3 ==> r.requestedVolume == 0)
  {
  }

  lemma PresentBackward(v: Version, bytes: Bytes)
    requires ReadPresent(v, bytes).Some?
    ensures var (d, rest) := ReadPresent(v, bytes).value;
            && PresentBytes(v, d) + rest == bytes && DefaultedDescriptor(v, d) == d && DescriptorWritable(d)
            && |d.assertions| <= MAX_COUNT
  {
    hide Encode;
    hide Decode;
    hide ReadBaseline;
    hide AssertionsBytes;
    hide BaselineBytes;
    hide DefaultedDescriptor;
    hide Descriptor.Valid;
    hide IdentityFields;
    hide IdentityKinds;
    EncodeDecoded(ScopeKinds(), bytes);
    ScopeDecoded(bytes);
    var scope := Decode(ScopeKinds(), bytes).value;
    EncodeDecoded(IdentityKinds(v), scope.1);
    IdentityIsWords(v, scope.1);
    var words := Decode(IdentityKinds(v), scope.1).value;
    var account := AccountKey(scope.0[0].content, scope.0[1].value);
    BaselineBackward(v, account, words.0, words.1);
    var (d, rest) := ReadPresent(v, bytes).value;
    assert ScopeFields(account) == scope.0;
    var tail := BaselineBytes(d) + (AssertionsBytes(v, d.assertions) + rest);
    assert PresentBytes(v, d) + rest == ScopeBytes(d) + (IdentityBytes(v, d) + tail);
  }

  lemma IdentityIsWords(v: Version, bytes: Bytes)
    requires Decode(IdentityKinds(v), bytes).Some?
    ensures var words := Decode(IdentityKinds(v), bytes).value.0;
            && |words| == |IdentityKinds(v)| && Numbers(words)
            && forall i :: 0 <= i < |words| ==> words[i].value < U64_BASE
  {
    hide Decode;
    DecodedWords(IdentityKinds(v), bytes);
  }

  lemma DescriptorForward(v: Version, d: Option<Descriptor>, rest: Bytes)
    requires d.Some? ==> DescriptorWritable(d.value) && DefaultedDescriptor(v, d.value) == d.value
    ensures ReadDescriptor(v, DescriptorBytes(v, d) + rest)
         == if d.Some? && |d.value.assertions| > MAX_COUNT then None else Some((d, rest))
  {
    hide Encode;
    hide Decode;
    hide ReadPresent;
    hide PresentBytes;
    hide DescriptorWritable;
    hide DefaultedDescriptor;
    EncodedWordSize(0);
    EncodedWordSize(1);
    if d.Some? {
      assert DescriptorBytes(v, d) + rest == Encode([Number(1)], [U32]) + (PresentBytes(v, d.value) + rest);
      OneWord(1, PresentBytes(v, d.value) + rest);
      PresentForward(v, d.value, rest);
    } else {
      OneWord(0, rest);
    }
  }

  lemma EncodedWordSize(n: nat)
    ensures |Encode([Number(n)], [U32])| == 4
  {
    hide LittleEndian;
    assert [Number(n)][1..] == [];
  }

  lemma DescriptorBackward(v: Version, bytes: Bytes)
    requires ReadDescriptor(v, bytes).Some? && bytes != []
    ensures var (d, rest) := ReadDescriptor(v, bytes).value;
            && DescriptorBytes(v, d) + rest == bytes
            && (d.Some? ==> DescriptorWritable(d.value) && DefaultedDescriptor(v, d.value) == d.value
                            && |d.value.assertions| <= MAX_COUNT)
  {
    hide Encode;
    hide Decode;
    hide ReadPresent;
    hide PresentBytes;
    hide DescriptorWritable;
    hide DefaultedDescriptor;
    OneWordRead(bytes);
    var flag := Decode([U32], bytes).value;
    if flag.0[0].value == 1 {
      PresentBackward(v, flag.1);
      var (d, rest) := ReadPresent(v, flag.1).value;
      assert DescriptorBytes(v, Some(d)) + rest == Encode([Number(1)], [U32]) + (PresentBytes(v, d) + rest);
    }
  }

  // ----- sizes

  function AssertionSize(v: Version, a: Assertion): nat {
    16 + (if a.window.Some? then 16 else 0) + (if v >= 2 then 16 else 0)
  }

  function AssertionsSize(v: Version, s: seq<Assertion>): nat {
    if s == [] then 0 else AssertionSize(v, s[0]) + AssertionsSize(v, s[1..])
  }

  function IdentitySize(v: Version): nat {
    if v >= 3 then 24 else if v == 2 then 16 else 0
  }

  function DescriptorSize(v: Version, d: Option<Descriptor>): nat {
    if d.None? then 4
    else
      84 + |d.value.account.server| + |d.value.baseline.account.server| + IdentitySize(v) + AssertionsSize(v, d.value.assertions)
  }

  function ListSize(v: Version, s: seq<Binding>): nat {
    if v < 2 then 0 else 4 + 16 * |s|
  }

  lemma WordLongWord(fields: seq<Field>)
    requires |fields| == 3 && Numbers(fields)
    ensures |Encode(fields, [U32, U64, U32])| == 16
  {
    var kinds := [U32, U64, U32];
    EncodedSize(fields, kinds);
    WordsHaveNoContent(fields);
    assert kinds[1..][1..][1..] == [] && WidthSum(kinds[1..][1..]) == 4 && WidthSum(kinds[1..]) == 12;
  }

  lemma AssertionSizeIsExact(v: Version, a: Assertion)
    ensures |AssertionBytes(v, a)| == AssertionSize(v, a)
  {
    hide Encode;
    WordLongWord(AssertionFields(a));
    WordLongWord(CausalFields(a));
    if a.window.Some? { AllLong(WindowFields(a.window.value), WindowKinds()); }
  }

  lemma {:induction false} AssertionsSizeIsExact(v: Version, s: seq<Assertion>)
    ensures |AssertionsBytes(v, s)| == AssertionsSize(v, s)
  {
    hide AssertionBytes;
    hide AssertionSize;
    if s != [] {
      AssertionSizeIsExact(v, s[0]);
      AssertionsSizeIsExact(v, s[1..]);
    }
  }

  lemma BaselineSize(d: Descriptor)
    ensures |BaselineBytes(d)| == 68 + |d.baseline.account.server|
  {
    hide Encode;
    var fields := BaselineFields(d.baseline, d.settledState, |d.assertions|);
    EncodedSize(fields, BaselineKinds());
    BlobThenWords(fields);
    var longs := [U64, U64, U64, U64, U64, U64, U64];
    assert BaselineKinds() == [STRING] + longs + [U32, U32];
    WidthsJoin([STRING] + longs, [U32, U32]);
    WidthsJoin([STRING], longs);
    WidthsOf(longs, 8);
    WidthsOf([U32, U32], 4);
    WidthsOf([STRING], 4);
  }

  lemma ScopeSize(d: Descriptor)
    ensures |ScopeBytes(d)| == 12 + |d.account.server|
  {
    hide Encode;
    EncodedSize(ScopeFields(d.account), ScopeKinds());
    BlobThenWords(ScopeFields(d.account));
    assert ScopeKinds()[1..] == [U64] && ScopeKinds()[1..][1..] == [];
  }

  lemma DescriptorSizeIsExact(v: Version, d: Option<Descriptor>)
    ensures |DescriptorBytes(v, d)| == DescriptorSize(v, d)
  {
    hide Encode;
    hide ScopeBytes;
    hide BaselineBytes;
    hide AssertionsBytes;
    hide AssertionsSize;
    EncodedWordSize(0);
    EncodedWordSize(1);
    if d.Some? {
      ScopeSize(d.value);
      AllLong(IdentityFields(v, d.value), IdentityKinds(v));
      BaselineSize(d.value);
      AssertionsSizeIsExact(v, d.value.assertions);
    }
  }

  lemma {:induction false} BindingListSize(s: seq<Binding>)
    ensures |BindingListBytes(s)| == 16 * |s|
  {
    hide Encode;
    if s != [] {
      AllLong(BindingFields(s[0]), BindingKinds());
      BindingListSize(s[1..]);
    }
  }

  lemma ListSizeIsExact(v: Version, s: seq<Binding>)
    ensures |ListBytes(v, s)| == ListSize(v, s)
  {
    hide Encode;
    EncodedWordSize(|s|);
    BindingListSize(s);
  }

  /** The causal fields are all that an assertion takes more than in the oldest format. */
  lemma {:induction false} AssertionsGrow(v: Version, s: seq<Assertion>)
    ensures AssertionsSize(CURRENT, s) == AssertionsSize(v, s) + if v >= 2 then 0 else 16 * |s|
  {
    if s != [] { AssertionsGrow(v, s[1..]); }
  }

  // ----- the loops

  method AppendAssertions(before: Bytes, s: seq<Assertion>) returns (out: Bytes)
    ensures out == before + AssertionsBytes(CURRENT, s)
  {
    hide Encode;
    hide AssertionsBytes;
    out := before;
    assert s[0..] == s;
    for i := 0 to |s|
      invariant out + AssertionsBytes(CURRENT, s[i..]) == before + AssertionsBytes(CURRENT, s)
    {
      ghost var start := out;
      var a := s[i];
      out := WriteFields(out, AssertionFields(a), AssertionKinds());
      if a.window.Some? {
        out := WriteFields(out, WindowFields(a.window.value), WindowKinds());
      }
      out := WriteFields(out, CausalFields(a), CausalKinds());
      assert out == start + AssertionBytes(CURRENT, a);
      AssertionsStep(start, s, i);
    }
    NoAssertions(s[|s|..]);
    assert out + [] == out;
  }

  lemma AssertionsStep(before: Bytes, s: seq<Assertion>, i: nat)
    requires i < |s|
    ensures before + AssertionBytes(CURRENT, s[i]) + AssertionsBytes(CURRENT, s[i + 1..]) == before + AssertionsBytes(CURRENT, s[i..])
  {
    hide AssertionBytes;
    assert s[i..][1..] == s[i + 1..];
    var a, rest := AssertionBytes(CURRENT, s[i]), AssertionsBytes(CURRENT, s[i + 1..]);
    assert before + a + rest == before + (a + rest);
  }

  lemma NoAssertions(s: seq<Assertion>)
    requires s == []
    ensures AssertionsBytes(CURRENT, s) == []
  {
  }

  /** None when a binding is unusable. */
  method AppendBindings(before: Bytes, s: seq<Binding>) returns (out: Option<Bytes>)
    ensures out == if AllValid(s) && |s| < U32_BASE then Some(before + ListBytes(CURRENT, s)) else None
  {
    hide Encode;
    hide BindingListBytes;
    hide Binding.Valid;
    if |s| >= U32_BASE { return None; }
    var bytes := WriteFields(before, [Number(|s|)], [U32]);
    ghost var start := bytes;
    assert s[0..] == s;
    for i := 0 to |s|
      invariant forall k :: 0 <= k < i ==> s[k].Valid()
      invariant bytes + BindingListBytes(s[i..]) == start + BindingListBytes(s)
    {
      if !s[i].Valid() { return None; }
      BindingsStep(bytes, s, i);
      bytes := WriteFields(bytes, BindingFields(s[i]), BindingKinds());
    }
    NoBindings(s[|s|..]);
    assert bytes + [] == bytes;
    assert start + BindingListBytes(s) == before + ListBytes(CURRENT, s);
    out := Some(bytes);
  }

  lemma BindingsStep(before: Bytes, s: seq<Binding>, i: nat)
    requires i < |s|
    ensures before + Encode(BindingFields(s[i]), BindingKinds()) + BindingListBytes(s[i + 1..]) == before + BindingListBytes(s[i..])
  {
    hide Encode;
    assert s[i..][1..] == s[i + 1..];
    var b, rest := Encode(BindingFields(s[i]), BindingKinds()), BindingListBytes(s[i + 1..]);
    assert before + b + rest == before + (b + rest);
  }

  lemma NoBindings(s: seq<Binding>)
    requires s == []
    ensures BindingListBytes(s) == []
  {
  }

  method AppendDescriptor(before: Bytes, d: Option<Descriptor>) returns (out: Option<Bytes>)
    ensures out == if d.Some? && !DescriptorWritable(d.value) then None else Some(before + DescriptorBytes(CURRENT, d))
  {
    hide Encode;
    hide AssertionsBytes;
    hide Descriptor.Valid;
    if d.None? {
      var absent := WriteFields(before, [Number(0)], [U32]);
      return Some(absent);
    }
    var value := d.value;
    if !DescriptorWritable(value) { return None; }
    var bytes := WriteFields(before, [Number(1)], [U32]);
    ghost var start := bytes;
    bytes := WriteFields(bytes, ScopeFields(value.account), ScopeKinds());
    bytes := WriteFields(bytes, IdentityFields(CURRENT, value), IdentityKinds(CURRENT));
    bytes := WriteFields(bytes, BaselineFields(value.baseline, value.settledState, |value.assertions|), BaselineKinds());
    bytes := AppendAssertions(bytes, value.assertions);
    assert bytes == start + PresentBytes(CURRENT, value);
    assert bytes == before + DescriptorBytes(CURRENT, d);
    out := Some(bytes);
  }

  method ReadAssertionAt(v: Version, bytes: Bytes, offset: nat) returns (a: Option<Assertion>, next: nat)
    requires offset <= |bytes|
    ensures next <= |bytes|
    ensures a.None? ==> ReadAssertion(v, bytes[offset..]).None?
    ensures a.Some? ==> ReadAssertion(v, bytes[offset..]) == Some((a.value, bytes[next..]))
  {
    hide Decode;
    var head;
    head, next := ReadFields(AssertionKinds(), bytes, offset);
    if head.None? { return None, next; }
    DecodedWords(AssertionKinds(), bytes[offset..]);
    if head.value[2].value > 1 { return None, next; }
    var bare := Assertion(head.value[0].value, head.value[1].value, None, None, 0, 0);
    if head.value[2].value != 0 {
      ghost var rest := bytes[next..];
      var window;
      window, next := ReadFields(WindowKinds(), bytes, next);
      if window.None? { return None, next; }
      DecodedWords(WindowKinds(), rest);
      bare := bare.(window := Some(Window(FromWord(window.value[0].value), FromWord(window.value[1].value))));
    }
    if v < 2 {
      return Some(bare.WithDefaultTransition()), next;
    }
    ghost var rest := bytes[next..];
    var causal;
    causal, next := ReadFields(CausalKinds(), bytes, next);
    if causal.None? { return None, next; }
    DecodedWords(CausalKinds(), rest);
    var baseline := causal.value[0].value;
    if baseline > 2 { return None, next; }
    a := Some(bare.(baselinePresent := if baseline == 0 then None else Some(baseline == 2),
                    correlation := causal.value[1].value, transition := causal.value[2].value));
  }

  function After<T>(read: seq<T>, tail: Option<(seq<T>, Bytes)>): Option<(seq<T>, Bytes)> {
    match tail case None => None case Some(t) => Some((read + t.0, t.1))
  }

  lemma AfterNothing<T>(tail: Option<(seq<T>, Bytes)>)
    ensures After([], tail) == tail
  {
    if tail.Some? { assert [] + tail.value.0 == tail.value.0; }
  }

  lemma AfterOne<T>(read: seq<T>, x: T, tail: Option<(seq<T>, Bytes)>)
    ensures After(read, After([x], tail)) == After(read + [x], tail)
  {
    if tail.Some? { assert read + ([x] + tail.value.0) == read + [x] + tail.value.0; }
  }

  method ReadAssertionsAt(v: Version, count: nat, bytes: Bytes, offset: nat) returns (s: Option<seq<Assertion>>, next: nat)
    requires offset <= |bytes|
    ensures next <= |bytes|
    ensures s.None? ==> ReadAssertions(v, count, bytes[offset..]).None?
    ensures s.Some? ==> ReadAssertions(v, count, bytes[offset..]) == Some((s.value, bytes[next..]))
  {
    hide ReadAssertion;
    hide ReadAssertions;
    var read := [];
    next := offset;
    AfterNothing(ReadAssertions(v, count, bytes[offset..]));
    for i := 0 to count
      invariant next <= |bytes|
      invariant After(read, ReadAssertions(v, count - i, bytes[next..])) == ReadAssertions(v, count, bytes[offset..])
    {
      ghost var rest := bytes[next..];
      AssertionsRead(v, count - i, rest);
      var a;
      a, next := ReadAssertionAt(v, bytes, next);
      if a.None? { return None, next; }
      AfterOne(read, a.value, ReadAssertions(v, count - i - 1, bytes[next..]));
      read := read + [a.value];
    }
    NoAssertionsRead(v, bytes[next..]);
    assert read + [] == read;
    s := Some(read);
  }

  lemma AssertionsRead(v: Version, count: nat, bytes: Bytes)
    requires count > 0
    ensures ReadAssertion(v, bytes).None? ==> ReadAssertions(v, count, bytes).None?
    ensures ReadAssertion(v, bytes).Some? ==>
              var (a, rest) := ReadAssertion(v, bytes).value;
              ReadAssertions(v, count, bytes) == After([a], ReadAssertions(v, count - 1, rest))
  {
    hide ReadAssertion;
  }

  lemma NoAssertionsRead(v: Version, bytes: Bytes)
    ensures ReadAssertions(v, 0, bytes) == Some(([], bytes))
  {
  }

  method ReadBindingsAt(v: Version, bytes: Bytes, offset: nat) returns (s: Option<seq<Binding>>, next: nat)
    requires offset <= |bytes|
    ensures next <= |bytes|
    ensures s.None? ==> ReadBindings(v, bytes[offset..]).None?
    ensures s.Some? ==> ReadBindings(v, bytes[offset..]) == Some((s.value, bytes[next..]))
  {
    hide Decode;
    hide ReadBindingList;
    next := offset;
    if v < 2 { return Some([]), next; }
    var counted;
    counted, next := ReadFields([U32], bytes, offset);
    if counted.None? { return None, next; }
    OneWordRead(bytes[offset..]);
    var count := counted.value[0].value;
    if count > MAX_COUNT { return None, next; }
    ghost var listed := bytes[next..];
    var read := [];
    AfterNothing(ReadBindingList(count, listed));
    for i := 0 to count
      invariant next <= |bytes|
      invariant After(read, ReadBindingList(count - i, bytes[next..])) == ReadBindingList(count, listed)
    {
      ghost var rest := bytes[next..];
      BindingsRead(count - i, rest);
      var fields;
      fields, next := ReadFields(BindingKinds(), bytes, next);
      if fields.None? { return None, next; }
      DecodedWords(BindingKinds(), rest);
      var binding := Binding(fields.value[0].value, fields.value[1].value);
      if !binding.Valid() { return None, next; }
      AfterOne(read, binding, ReadBindingList(count - i - 1, bytes[next..]));
      read := read + [binding];
    }
    NoBindingsRead(bytes[next..]);
    assert read + [] == read;
    s := Some(read);
  }

  lemma BindingsRead(count: nat, bytes: Bytes)
    requires count > 0
    ensures ReadBinding(bytes).None? ==> ReadBindingList(count, bytes).None?
    ensures ReadBinding(bytes).Some? ==>
              var (b, rest) := ReadBinding(bytes).value;
              ReadBindingList(count, bytes) == After([b], ReadBindingList(count - 1, rest))
  {
    hide ReadBinding;
  }

  lemma NoBindingsRead(bytes: Bytes)
    ensures ReadBindingList(0, bytes) == Some(([], bytes))
  {
  }

  method ReadDescriptorAt(v: Version, bytes: Bytes, offset: nat) returns (ok: bool, d: Option<Descriptor>, next: nat)
    requires offset <= |bytes|
    ensures next <= |bytes|
    ensures !ok ==> ReadDescriptor(v, bytes[offset..]).None?
    ensures ok ==> ReadDescriptor(v, bytes[offset..]) == Some((d, bytes[next..]))
  {
    hide Decode;
    hide ReadPresent;
    d, next := None, offset;
    if offset == |bytes| { return true, None, next; }
    var flag;
    flag, next := ReadFields([U32], bytes, offset);
    if flag.None? { return false, None, next; }
    OneWordRead(bytes[offset..]);
    if flag.value[0].value > 1 { return false, None, next; }
    if flag.value[0].value == 0 { return true, None, next; }
    d, next := ReadPresentAt(v, bytes, next);
    ok := d.Some?;
  }

  method ReadPresentAt(v: Version, bytes: Bytes, offset: nat) returns (d: Option<Descriptor>, next: nat)
    requires offset <= |bytes|
    ensures next <= |bytes|
    ensures d.None? ==> ReadPresent(v, bytes[offset..]).None?
    ensures d.Some? ==> ReadPresent(v, bytes[offset..]) == Some((d.value, bytes[next..]))
  {
    hide Decode;
    hide ReadAssertions;
    hide Descriptor.Valid;
    var scope;
    scope, next := ReadFields(ScopeKinds(), bytes, offset);
    if scope.None? { return None, next; }
    ScopeDecoded(bytes[offset..]);
    ghost var afterScope := bytes[next..];
    var words;
    words, next := ReadFields(IdentityKinds(v), bytes, next);
    if words.None? { return None, next; }
    IdentityIsWords(v, afterScope);
    ghost var afterWords := bytes[next..];
    var base;
    base, next := ReadFields(BaselineKinds(), bytes, next);
    if base.None? { return None, next; }
    BaselineDecoded(afterWords);
    var count := base.value[9].value;
    if count > MAX_COUNT || !BaselineOf(base.value).Valid() { return None, next; }
    var list;
    list, next := ReadAssertionsAt(v, count, bytes, next);
    if list.None? { return None, next; }
    var account := AccountKey(scope.value[0].content, scope.value[1].value);
    var value := Identified(v, Descriptor(account, BaselineOf(base.value), list.value, base.value[8].value, 0, 0, 0), words.value);
    d := if value.Valid() then Some(value) else None;
  }
}
