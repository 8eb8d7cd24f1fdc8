/**
 Which bytes survive decoding and encoding again. The decoder reads only part of the two headers and
 accepts other encodings of an `Any`, so not every accepted byte string is the encoding of its message;
 the condition under which it is, is exact over everything the decoder accepts.
 */
module Reencoding {
  import opened Types
  import opened ByteCodec
  import opened ProtoAny
  import opened Messages
  import opened Abi
  import opened MessageCodec

  // ---------------------------------------------------------------------------------------
  // Headered structs: a header word and a byte string

  function HeaderOf(bz: Bytes): Bytes32 {
    match AbiDecode(HEADERED_TY, bz) case None => Zeros(32) case Some(v) => WordField(v, 0)
  }

  function BodyOf(bz: Bytes): Bytes {
    match AbiDecode(HEADERED_TY, bz) case None => [] case Some(v) => BlobField(v, 1)
  }

  lemma HeaderedParts(bz: Bytes)
    requires AbiDecode(HEADERED_TY, bz).Some?
    ensures bz == AbiEncode(Tuple([Word(HeaderOf(bz)), Blob(BodyOf(bz))]))
  {
    var v := AbiDecode(HEADERED_TY, bz).value;
    assert HasType(v.vs[0], TWord) && HasType(v.vs[1], TBytes);
    assert v.vs == [Word(HeaderOf(bz)), Blob(BodyOf(bz))];
  }

  /** Accepted bytes are a headered struct's encoding exactly if header and body are the struct's. */
  lemma HeaderedExact(bz: Bytes, header: Bytes32, body: Bytes)
    requires AbiDecode(HEADERED_TY, bz).Some? && |bz| < WORD_LIMIT
    ensures AbiEncode(Tuple([Word(header), Blob(body)])) == bz <==> header == HeaderOf(bz) && body == BodyOf(bz)
  {
    HeaderedParts(bz);
    if AbiEncode(Tuple([Word(header), Blob(body)])) == bz { HeaderedRoundTrip(header, body); }
  }

  /** A word that starts with a small number and is zero from there on. */
  lemma HeaderIs(header: Bytes32, kind: nat)
    requires FromBE(header[..2]) == kind
    ensures header == ToBE(kind, 2) + Zeros(30) <==> header[2..] == Zeros(30)
  {
    ToFromBE(header[..2]);
    assert header == header[..2] + header[2..];
    assert (ToBE(kind, 2) + Zeros(30))[2..] == Zeros(30);
  }

  // ---------------------------------------------------------------------------------------
  // Validation contexts

  lemma PackExact(w: Bytes32)
    ensures Pack(FromBE(w[..16]), FromBE(w[16..])) == w
  {
    ToFromBE(w[..16]);
    ToFromBE(w[16..]);
    assert w == w[..16] + w[16..];
  }

  lemma PeriodExact(bz: Bytes, p: TrustingPeriod)
    requires ToPeriod(bz) == Some(p)
    ensures PeriodBytes(p) == bz
  {
    var v := AbiDecode(PAIR_TY, bz).value;
    assert HasType(v.vs[0], TWord) && HasType(v.vs[1], TWord);
    PackExact(WordField(v, 0));
    PackExact(WordField(v, 1));
    assert v.vs == [Word(WordField(v, 0)), Word(WordField(v, 1))];
  }

  /** An accepted context is stable exactly if its header's reserved part is zero. */
  lemma ContextExact(bz: Bytes, c: Context)
    requires ToContext(bz) == Some(c) && |bz| < WORD_LIMIT
    ensures ContextBytes(c) == bz <==> HeaderOf(bz)[2..] == Zeros(30)
  {
    var kind := if c.Empty? then CONTEXT_TYPE_EMPTY else CONTEXT_TYPE_TRUSTING_PERIOD;
    var body := if c.Empty? then [] else PeriodBytes(c.period);
    HeaderedExact(bz, ContextHeader(c), body);
    HeaderIs(HeaderOf(bz), kind);
    if c.Within? { PeriodExact(BodyOf(bz), c.period); }
  }

  // ---------------------------------------------------------------------------------------
  // Fields

  lemma WordExact(w: Bytes, limit: nat)
    requires |w| == 32 && WordTo(w, limit).Some?
    ensures U256(WordTo(w, limit).value) == w
  {
    ToFromBE(w);
  }

  lemma HeightExact(v: Val, h: Height)
    requires HasType(v, HEIGHT_TY) && ToHeight(v) == Some(h)
    ensures HeightVal(h) == v
  {
    assert HasType(v.vs[0], TWord) && HasType(v.vs[1], TWord);
    WordExact(WordField(v, 0), U64_LIMIT);
    WordExact(WordField(v, 1), U64_LIMIT);
    assert v.vs == [Word(WordField(v, 0)), Word(WordField(v, 1))];
  }

  lemma EmittedExact(v: Val, e: EmittedState)
    requires HasType(v, EMITTED_TY) && ToEmitted(v) == Some(e)
    ensures EmittedVal(e) == v <==> BlobField(v, 1) == EncAny(e.state)
  {
    assert HasType(v.vs[0], HEIGHT_TY) && HasType(v.vs[1], TBytes);
    HeightExact(v.vs[0], e.height);
    assert v.vs == [v.vs[0], Blob(BlobField(v, 1))];
  }

  lemma PrevExact(v: Val, p: PrevState)
    requires HasType(v, PREV_TY) && ToPrev(v) == Some(p)
    ensures PrevVal(p) == v
  {
    assert HasType(v.vs[0], HEIGHT_TY) && HasType(v.vs[1], TWord);
    HeightExact(v.vs[0], p.height);
    assert v.vs == [v.vs[0], Word(WordField(v, 1))];
  }

  lemma {:induction false} CollectEach<T>(convert: Val -> Option<T>, vs: seq<Val>)
    requires Collect(convert, vs).Some?
    ensures var xs := Collect(convert, vs).value;
            |xs| == |vs| && forall i :: 0 <= i < |vs| ==> convert(vs[i]) == Some(xs[i])
  {
    if vs != [] { CollectEach(convert, vs[..|vs| - 1]); }
  }

  /** Every `Any` of the list is encoded as the encoder encodes it. */
  ghost predicate AnysCanonical(vs: seq<Val>, es: seq<EmittedState>) {
    |vs| == |es| && forall i :: 0 <= i < |vs| ==> BlobField(vs[i], 1) == EncAny(es[i].state)
  }

  lemma EmittedListExact(vs: seq<Val>, es: seq<EmittedState>)
    requires HasType(Array(vs), TArray(EMITTED_TY)) && Collect(ToEmitted, vs) == Some(es)
    ensures EmittedVals(es) == vs <==> AnysCanonical(vs, es)
  {
    CollectEach(ToEmitted, vs);
    forall i | 0 <= i < |vs| ensures EmittedVals(es)[i] == vs[i] <==> BlobField(vs[i], 1) == EncAny(es[i].state) {
      EmittedExact(vs[i], es[i]);
    }
  }

  lemma PrevListExact(vs: seq<Val>, ps: seq<PrevState>)
    requires HasType(Array(vs), TArray(PREV_TY)) && Collect(ToPrev, vs) == Some(ps)
    ensures PrevVals(ps) == vs
  {
    CollectEach(ToPrev, vs);
    forall i | 0 <= i < |vs| ensures PrevVals(ps)[i] == vs[i] { PrevExact(vs[i], ps[i]); }
  }

  // ---------------------------------------------------------------------------------------
  // Messages

  lemma UpdateFieldTypes(v: Val)
    requires HasType(v, UPDATE_TY)
    ensures v.Tuple? && |v.vs| == 7
    ensures HasType(v.vs[0], HEIGHT_TY) && HasType(v.vs[1], TWord) && HasType(v.vs[2], HEIGHT_TY)
    ensures HasType(v.vs[3], TWord) && HasType(v.vs[4], TWord) && HasType(v.vs[5], TBytes)
    ensures HasType(v.vs[6], TArray(EMITTED_TY))
  {
  }

  lemma Options(h: Height, id: StateId)
    ensures OrZero(NonZeroHeight(h)) == h && IdOrZero(NonZeroId(id)) == id
  {
  }

  /** The fields of a decoded update. */
  lemma UpdateDecoded(v: Val, m: UpdateState)
    requires HasType(v, UPDATE_TY) && ToUpdate(v) == Some(m)
    ensures v.Tuple? && |v.vs| == 7 && v.vs[1].Word? && v.vs[3].Word? && v.vs[4].Word?
    ensures v.vs[5].Blob? && v.vs[6].Array?
    ensures |v.vs[1].w| == 32 && |v.vs[4].w| == 32
    ensures ToHeight(v.vs[0]).Some? && m.prevHeight == NonZeroHeight(ToHeight(v.vs[0]).value)
    ensures m.prevStateId == NonZeroId(v.vs[1].w)
    ensures ToHeight(v.vs[2]) == Some(m.postHeight) && m.postStateId == v.vs[3].w
    ensures WordTo(v.vs[4].w, U128_LIMIT) == Some(m.timestamp)
    ensures Collect(ToEmitted, v.vs[6].es) == Some(m.emittedStates)
    ensures BlobField(v, 5) == v.vs[5].b && ArrayField(v, 6) == v.vs[6].es
  {
    UpdateFieldTypes(v);
  }

  /** Encoding fields again changes at most the context and the emitted states. */
  lemma UpdateAgain(vs: seq<Val>, m: UpdateState)
    requires |vs| == 7 && HeightVal(OrZero(m.prevHeight)) == vs[0] && Word(IdOrZero(m.prevStateId)) == vs[1]
    requires HeightVal(m.postHeight) == vs[2] && Word(m.postStateId) == vs[3] && Word(U256(m.timestamp)) == vs[4]
    ensures UpdateVal(m) == Tuple(vs) <==>
              vs[5] == Blob(ContextBytes(m.context)) && vs[6] == Array(EmittedVals(m.emittedStates))
  {
    var us := UpdateVal(m).vs;
    assert us[5] == Blob(ContextBytes(m.context)) && us[6] == Array(EmittedVals(m.emittedStates));
    if vs[5] == us[5] && vs[6] == us[6] { assert us == vs; }
  }

  lemma UpdateExact(v: Val, m: UpdateState)
    requires HasType(v, UPDATE_TY) && ToUpdate(v) == Some(m)
    ensures UpdateVal(m) == v <==>
              BlobField(v, 5) == ContextBytes(m.context) && AnysCanonical(ArrayField(v, 6), m.emittedStates)
  {
    UpdateDecoded(v, m);
    UpdateFieldTypes(v);
    UpdateExactFields(v.vs, m);
  }

  lemma UpdateExactFields(vs: seq<Val>, m: UpdateState)
    requires |vs| == 7 && vs[1].Word? && vs[3].Word? && vs[4].Word? && vs[5].Blob? && vs[6].Array?
    requires |vs[1].w| == 32 && |vs[4].w| == 32 && HasType(vs[0], HEIGHT_TY) && HasType(vs[2], HEIGHT_TY)
    requires ToHeight(vs[0]).Some? && m.prevHeight == NonZeroHeight(ToHeight(vs[0]).value)
    requires m.prevStateId == NonZeroId(vs[1].w)
    requires ToHeight(vs[2]) == Some(m.postHeight) && m.postStateId == vs[3].w
    requires WordTo(vs[4].w, U128_LIMIT) == Some(m.timestamp)
    requires HasType(vs[6], TArray(EMITTED_TY)) && Collect(ToEmitted, vs[6].es) == Some(m.emittedStates)
    ensures UpdateVal(m) == Tuple(vs) <==>
              vs[5].b == ContextBytes(m.context) && AnysCanonical(vs[6].es, m.emittedStates)
  {
    HeightExact(vs[0], ToHeight(vs[0]).value);
    HeightExact(vs[2], m.postHeight);
    WordExact(vs[4].w, U128_LIMIT);
    Options(ToHeight(vs[0]).value, vs[1].w);
    EmittedListExact(vs[6].es, m.emittedStates);
    UpdateAgain(vs, m);
  }

  lemma MembershipFieldTypes(v: Val)
    requires HasType(v, MEMBERSHIP_TY)
    ensures v.Tuple? && |v.vs| == 5 && v.vs[0].Blob? && v.vs[1].Blob? && v.vs[2].Word? && |v.vs[2].w| == 32
    ensures HasType(v.vs[3], HEIGHT_TY) && v.vs[4].Word? && |v.vs[4].w| == 32
  {
    assert HasType(v.vs[0], TBytes) && HasType(v.vs[1], TBytes) && HasType(v.vs[2], TWord);
    assert HasType(v.vs[3], HEIGHT_TY) && HasType(v.vs[4], TWord);
  }

  lemma MembershipAgain(vs: seq<Val>, m: VerifyMembership)
    requires |vs| == 5 && vs[0] == Blob(m.prefix) && vs[1] == Blob(m.path) && vs[2] == Word(IdOrZero(m.value))
    requires vs[3] == HeightVal(m.height) && vs[4] == Word(m.stateId)
    ensures MembershipVal(m) == Tuple(vs)
  {
    assert MembershipVal(m).vs == vs;
  }

  lemma MembershipExact(v: Val, m: VerifyMembership)
    requires HasType(v, MEMBERSHIP_TY) && ToMembership(v) == Some(m)
    ensures MembershipVal(m) == v
  {
    MembershipFieldTypes(v);
    HeightExact(v.vs[3], m.height);
    Options(m.height, v.vs[2].w);
    MembershipAgain(v.vs, m);
  }

  lemma MisbehaviourFieldTypes(v: Val)
    requires HasType(v, MISBEHAVIOUR_TY)
    ensures v.Tuple? && |v.vs| == 3 && HasType(v.vs[0], TArray(PREV_TY)) && v.vs[1].Blob? && v.vs[2].Blob?
  {
    assert HasType(v.vs[1], TBytes) && HasType(v.vs[2], TBytes);
  }

  lemma MisbehaviourAgain(vs: seq<Val>, m: Misbehaviour)
    requires |vs| == 3 && vs[0] == Array(PrevVals(m.prevStates))
    ensures MisbehaviourVal(m) == Tuple(vs) <==>
              vs[1] == Blob(ContextBytes(m.context)) && vs[2] == Blob(EncAny(m.clientMessage))
  {
    var us := MisbehaviourVal(m).vs;
    assert us[1] == Blob(ContextBytes(m.context)) && us[2] == Blob(EncAny(m.clientMessage));
    if vs[1] == us[1] && vs[2] == us[2] { assert us == vs; }
  }

  lemma MisbehaviourExact(v: Val, m: Misbehaviour)
    requires HasType(v, MISBEHAVIOUR_TY) && ToMisbehaviour(v) == Some(m)
    ensures MisbehaviourVal(m) == v <==>
              BlobField(v, 1) == ContextBytes(m.context) && BlobField(v, 2) == EncAny(m.clientMessage)
  {
    MisbehaviourFieldTypes(v);
    PrevListExact(v.vs[0].es, m.prevStates);
    MisbehaviourAgain(v.vs, m);
  }

  /** The decoded struct behind an accepted message. */
  function ValOf(bz: Bytes, m: ProxyMessage): Val {
    match AbiDecode(MessageTy(m), BodyOf(bz)) case None => Tuple([]) case Some(v) => v
  }

  /** The parts the decoder does not pin down are as the encoder writes them: reserved header bytes
      zero, here and in the context, and every `Any` in its canonical encoding. */
  ghost predicate Canonical(bz: Bytes, m: ProxyMessage) {
    && HeaderOf(bz)[4..] == Zeros(28)
    && var v := ValOf(bz, m);
    match m
    case Update(u) => HeaderOf(BlobField(v, 5))[2..] == Zeros(30) && AnysCanonical(ArrayField(v, 6), u.emittedStates)
    case Membership(_) => true
    case Misbehave(b) => HeaderOf(BlobField(v, 1))[2..] == Zeros(30) && BlobField(v, 2) == EncAny(b.clientMessage)
  }

  ghost predicate BodyCanonical(v: Val, m: ProxyMessage) {
    match m
    case Update(u) => BlobField(v, 5) == ContextBytes(u.context) && AnysCanonical(ArrayField(v, 6), u.emittedStates)
    case Membership(_) => true
    case Misbehave(b) => BlobField(v, 1) == ContextBytes(b.context) && BlobField(v, 2) == EncAny(b.clientMessage)
  }

  /** What an accepted message's bytes are made of. */
  lemma Accepted(bz: Bytes, m: ProxyMessage)
    requires FromBytes(bz) == Some(m)
    ensures AbiDecode(HEADERED_TY, bz).Some? && AbiDecode(MessageTy(m), BodyOf(bz)) == Some(ValOf(bz, m))
    ensures FromBE(HeaderOf(bz)[..2]) == MESSAGE_SCHEMA_VERSION && FromBE(HeaderOf(bz)[2..4]) == MessageType(m)
    ensures match m
            case Update(u) => ToUpdate(ValOf(bz, m)) == Some(u)
            case Membership(v) => ToMembership(ValOf(bz, m)) == Some(v)
            case Misbehave(b) => ToMisbehaviour(ValOf(bz, m)) == Some(b)
  {
  }

  lemma MessageHeaderExact(bz: Bytes, m: ProxyMessage)
    requires FromBytes(bz) == Some(m)
    ensures HeaderWith(m, Zeros(28)) == HeaderOf(bz) <==> HeaderOf(bz)[4..] == Zeros(28)
  {
    Accepted(bz, m);
    HeaderParts(m, Zeros(28));
    ThreeParts(HeaderOf(bz), MESSAGE_SCHEMA_VERSION, MessageType(m));
  }

  lemma ThreeParts(header: Bytes32, version: nat, kind: nat)
    requires FromBE(header[..2]) == version && FromBE(header[2..4]) == kind
    ensures header == ToBE(version, 2) + (ToBE(kind, 2) + header[4..])
  {
    ToFromBE(header[..2]);
    ToFromBE(header[2..4]);
    assert header == header[..2] + (header[2..4] + header[4..]);
  }

  lemma BodyExact(bz: Bytes, m: ProxyMessage)
    requires FromBytes(bz) == Some(m)
    ensures MessageVal(m) == ValOf(bz, m) <==> BodyCanonical(ValOf(bz, m), m)
  {
    Accepted(bz, m);
    match m
    case Update(u) => UpdateExact(ValOf(bz, m), u);
    case Membership(v) => MembershipExact(ValOf(bz, m), v);
    case Misbehave(b) => MisbehaviourExact(ValOf(bz, m), b);
  }

  lemma MessageFits(bz: Bytes, m: ProxyMessage)
    requires FromBytes(bz) == Some(m)
    ensures m.Update? ==> |m.update.emittedStates| < WORD_LIMIT
    ensures m.Misbehave? ==> |m.misbehaviour.prevStates| < WORD_LIMIT
  {
    Accepted(bz, m);
    var v := ValOf(bz, m);
    match m
    case Update(u) =>
      UpdateFieldTypes(v);
      CollectEach(ToEmitted, v.vs[6].es);
    case Membership(_) =>
    case Misbehave(_) =>
      MisbehaviourFieldTypes(v);
      CollectEach(ToPrev, v.vs[0].es);
  }

  lemma BodyBytesExact(bz: Bytes, m: ProxyMessage)
    requires FromBytes(bz) == Some(m) && |bz| < WORD_LIMIT
    ensures |BodyOf(bz)| < WORD_LIMIT
    ensures AbiEncode(MessageVal(m)) == BodyOf(bz) <==> MessageVal(m) == ValOf(bz, m)
  {
    Accepted(bz, m);
    HeaderedParts(bz);
    HeaderedRoundTrip(HeaderOf(bz), BodyOf(bz));
    if AbiEncode(MessageVal(m)) == BodyOf(bz) {
      MessageFits(bz, m);
      MessageTyped(m);
      AbiRoundTrip(MessageVal(m), MessageTy(m));
    }
  }

  /** The context field of an accepted message. */
  lemma ContextFieldExact(v: Val, i: nat, c: Context)
    requires v.Tuple? && i < |v.vs| && v.vs[i].Blob? && |AbiEncode(v)| < WORD_LIMIT
    requires ToContext(BlobField(v, i)) == Some(c)
    ensures BlobField(v, i) == ContextBytes(c) <==> HeaderOf(BlobField(v, i))[2..] == Zeros(30)
  {
    NestedPart(v.vs, i);
    ContextExact(BlobField(v, i), c);
  }

  lemma UpdateContextDecoded(v: Val, m: UpdateState)
    requires ToUpdate(v) == Some(m)
    ensures ToContext(BlobField(v, 5)) == Some(m.context)
  {
  }

  lemma CanonicalBody(bz: Bytes, m: ProxyMessage)
    requires FromBytes(bz) == Some(m) && |bz| < WORD_LIMIT
    ensures Canonical(bz, m) <==> HeaderOf(bz)[4..] == Zeros(28) && BodyCanonical(ValOf(bz, m), m)
  {
    Accepted(bz, m);
    BodyBytesExact(bz, m);
    var v := ValOf(bz, m);
    assert AbiEncode(v) == BodyOf(bz);
    match m
    case Update(u) =>
      UpdateFieldTypes(v);
      UpdateContextDecoded(v, u);
      ContextFieldExact(v, 5, u.context);
    case Membership(_) =>
    case Misbehave(b) =>
      MisbehaviourFieldTypes(v);
      ContextFieldExact(v, 1, b.context);
  }

  /**
   Encoding an accepted message again gives the accepted bytes if and only if the reserved parts of
   the message header and of the context header are zero and every `Any` is canonically encoded.
   */
  lemma ReencodingExact(bz: Bytes, m: ProxyMessage)
    requires FromBytes(bz) == Some(m) && |bz| < WORD_LIMIT
    ensures ToBytes(m) == bz <==> Canonical(bz, m)
  {
    Accepted(bz, m);
    HeaderedExact(bz, HeaderWith(m, Zeros(28)), AbiEncode(MessageVal(m)));
    MessageHeaderExact(bz, m);
    BodyBytesExact(bz, m);
    BodyExact(bz, m);
    CanonicalBody(bz, m);
  }

  /** Context bytes with other reserved header bytes; they decode to the same context. */
  lemma ContextHeaderIgnored(c: Context, reserved: Bytes)
    requires |reserved| == 30
    requires |ReservedContext(c, reserved)| < WORD_LIMIT
    ensures ToContext(ReservedContext(c, reserved)) == Some(c)
    ensures ContextBytes(c) == ReservedContext(c, reserved) <==> reserved == Zeros(30)
  {
    var kind := if c.Empty? then CONTEXT_TYPE_EMPTY else CONTEXT_TYPE_TRUSTING_PERIOD;
    var body := if c.Empty? then [] else PeriodBytes(c.period);
    var bz := ReservedContext(c, reserved);
    HeaderedRoundTrip(ToBE(kind, 2) + reserved, body);
    HeaderPrefix(kind, reserved);
    if c.Within? { PeriodRoundTrip(c.period); }
    ContextExact(bz, c);
    assert (ToBE(kind, 2) + reserved)[2..] == reserved;
  }

  function ReservedContext(c: Context, reserved: Bytes): Bytes
    requires |reserved| == 30
  {
    AbiEncode(Tuple([Word(ToBE(if c.Empty? then CONTEXT_TYPE_EMPTY else CONTEXT_TYPE_TRUSTING_PERIOD, 2) + reserved),
                     Blob(if c.Empty? then [] else PeriodBytes(c.period))]))
  }
}
