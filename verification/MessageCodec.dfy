/** Proxy messages as bytes: ABI structs around the in-repo packing of headers, contexts and options. */
module MessageCodec {
  import opened Types
  import opened ByteCodec
  import opened ProtoAny
  import opened Messages
  import opened Abi

  const MESSAGE_SCHEMA_VERSION: nat := 1
  const MESSAGE_TYPE_UPDATE_STATE: nat := 1
  const MESSAGE_TYPE_STATE: nat := 2
  const MESSAGE_TYPE_MISBEHAVIOUR: nat := 3
  const CONTEXT_TYPE_EMPTY: nat := 0
  const CONTEXT_TYPE_TRUSTING_PERIOD: nat := 1

  const HEIGHT_TY := TTuple([TWord, TWord])
  const EMITTED_TY := TTuple([HEIGHT_TY, TBytes])
  const PREV_TY := TTuple([HEIGHT_TY, TWord])
  const PAIR_TY := TTuple([TWord, TWord])
  const HEADERED_TY := TTuple([TWord, TBytes])
  const UPDATE_TY := TTuple([HEIGHT_TY, TWord, HEIGHT_TY, TWord, TWord, TBytes, TArray(EMITTED_TY)])
  const MEMBERSHIP_TY := TTuple([TBytes, TBytes, TWord, HEIGHT_TY, TWord])
  const MISBEHAVIOUR_TY := TTuple([TArray(PREV_TY), TBytes, TBytes])

  // ---------------------------------------------------------------------------------------
  // Fields of a decoded struct. Decoding against a type has already fixed its shape.

  function Field(v: Val, i: nat): Val { if v.Tuple? && i < |v.vs| then v.vs[i] else Tuple([]) }

  function WordField(v: Val, i: nat): Bytes32 {
    var f := Field(v, i);
    if f.Word? && |f.w| == 32 then f.w else Zeros(32)
  }

  function BlobField(v: Val, i: nat): Bytes { if Field(v, i).Blob? then Field(v, i).b else [] }

  function ArrayField(v: Val, i: nat): seq<Val> { if Field(v, i).Array? then Field(v, i).es else [] }

  // ---------------------------------------------------------------------------------------
  // Words and heights

  const U64_LIMIT: nat := 0x1_0000_0000_0000_0000
  const U128_LIMIT: nat := 0x1_0000_0000_0000_0000_0000_0000_0000_0000

  /** An unsigned integer word; validation rejects values beyond the integer's width. */
  function WordTo(w: Bytes, limit: nat): Option<nat> {
    if FromBE(w) < limit then Some(FromBE(w)) else None
  }

  function HeightVal(h: Height): Val { Tuple([Word(U256(h.revision)), Word(U256(h.height))]) }

  function ToHeight(v: Val): Option<Height> {
    var r, h := WordTo(WordField(v, 0), U64_LIMIT), WordTo(WordField(v, 1), U64_LIMIT);
    if r.Some? && h.Some? then Some(Height(r.value, h.value)) else None
  }

  /** A zero height stands for an absent one. */
  function NonZeroHeight(h: Height): Option<Height> { if h.IsZero() then None else Some(h) }

  function NonZeroId(id: StateId): Option<StateId> { if id == Zeros(32) then None else Some(id) }

  lemma HeightTyped(h: Height)
    ensures HasType(HeightVal(h), HEIGHT_TY)
  {
  }

  lemma HeightRoundTrip(h: Height)
    ensures ToHeight(HeightVal(h)) == Some(h)
  {
    U256RoundTrip(h.revision);
    U256RoundTrip(h.height);
  }

  // ---------------------------------------------------------------------------------------
  // Validation contexts

  function ContextHeader(c: Context): Bytes32 {
    ToBE(if c.Empty? then CONTEXT_TYPE_EMPTY else CONTEXT_TYPE_TRUSTING_PERIOD, 2) + Zeros(30)
  }

  /** Two 128-bit numbers side by side in one word. */
  function Pack(a: nat, b: nat): Bytes32 { ToBE(a, 16) + ToBE(b, 16) }

  function PeriodBytes(p: TrustingPeriod): Bytes {
    AbiEncode(Tuple([Word(Pack(p.untrustedHeaderTime, p.trustedStateTime)),
                     Word(Pack(p.trustingPeriod, p.clockDrift))]))
  }

  function ContextVal(c: Context): Val {
    Tuple([Word(ContextHeader(c)), Blob(if c.Empty? then [] else PeriodBytes(c.period))])
  }

  function ContextBytes(c: Context): Bytes { AbiEncode(ContextVal(c)) }

  function ToDuration(nanos: nat): Option<Duration> {
    if nanos / NANOS_PER_SEC < 0x1_0000_0000_0000_0000 then Some(nanos) else None
  }

  function ToTime(nanos: nat): Option<Time> {
    if nanos <= MAX_UNIX_TIMESTAMP_NANOS then Some(nanos) else None
  }

  function ToPeriod(bz: Bytes): Option<TrustingPeriod> {
    match AbiDecode(PAIR_TY, bz)
    case None => None
    case Some(v) =>
      var times, params := WordField(v, 0), WordField(v, 1);
      var period, drift := ToDuration(FromBE(params[..16])), ToDuration(FromBE(params[16..]));
      var header, trusted := ToTime(FromBE(times[..16])), ToTime(FromBE(times[16..]));
      if period.Some? && drift.Some? && header.Some? && trusted.Some?
      then Some(TrustingPeriod(period.value, drift.value, header.value, trusted.value)) else None
  }

  function ToContext(bz: Bytes): Option<Context> {
    match AbiDecode(HEADERED_TY, bz)
    case None => None
    case Some(v) =>
      var kind := FromBE(WordField(v, 0)[..2]);
      if kind == CONTEXT_TYPE_EMPTY then (if BlobField(v, 1) == [] then Some(Empty) else None)
      else if kind == CONTEXT_TYPE_TRUSTING_PERIOD then
        match ToPeriod(BlobField(v, 1))
        case None => None
        case Some(p) => Some(Within(p))
      else None
  }

  lemma PackRoundTrip(a: nat, b: nat)
    requires a < 0x1_0000_0000_0000_0000 * 1_000_000_000 && b < 0x1_0000_0000_0000_0000 * 1_000_000_000
    ensures FromBE(Pack(a, b)[..16]) == a && FromBE(Pack(a, b)[16..]) == b
  {
    Pow256Values();
    FromToBE(a, 16);
    FromToBE(b, 16);
    assert Pack(a, b)[..16] == ToBE(a, 16) && Pack(a, b)[16..] == ToBE(b, 16);
  }

  lemma PeriodRoundTrip(p: TrustingPeriod)
    requires |PeriodBytes(p)| < WORD_LIMIT
    ensures ToPeriod(PeriodBytes(p)) == Some(p)
  {
    var times, params := Pack(p.untrustedHeaderTime, p.trustedStateTime), Pack(p.trustingPeriod, p.clockDrift);
    AbiRoundTrip(Tuple([Word(times), Word(params)]), PAIR_TY);
    PackRoundTrip(p.untrustedHeaderTime, p.trustedStateTime);
    PackRoundTrip(p.trustingPeriod, p.clockDrift);
  }

  lemma HeaderPrefix(kind: nat, reserved: Bytes)
    requires kind < 0x1_0000
    ensures FromBE((ToBE(kind, 2) + reserved)[..2]) == kind
  {
    Pow256Values();
    FromToBE(kind, 2);
    assert (ToBE(kind, 2) + reserved)[..2] == ToBE(kind, 2);
  }

  lemma HeaderedRoundTrip(header: Bytes32, body: Bytes)
    requires |AbiEncode(Tuple([Word(header), Blob(body)]))| < WORD_LIMIT
    ensures AbiDecode(HEADERED_TY, AbiEncode(Tuple([Word(header), Blob(body)])))
         == Some(Tuple([Word(header), Blob(body)]))
    ensures |body| < WORD_LIMIT
  {
    NestedPart([Word(header), Blob(body)], 1);
    AbiRoundTrip(Tuple([Word(header), Blob(body)]), HEADERED_TY);
  }

  lemma ContextRoundTrip(c: Context)
    requires |ContextBytes(c)| < WORD_LIMIT
    ensures ToContext(ContextBytes(c)) == Some(c)
  {
    var body := if c.Empty? then [] else PeriodBytes(c.period);
    HeaderedRoundTrip(ContextHeader(c), body);
    HeaderPrefix(if c.Empty? then CONTEXT_TYPE_EMPTY else CONTEXT_TYPE_TRUSTING_PERIOD, Zeros(30));
    if c.Within? { PeriodRoundTrip(c.period); }
  }

  // ---------------------------------------------------------------------------------------
  // Messages

  function EmittedVal(e: EmittedState): Val { Tuple([HeightVal(e.height), Blob(EncAny(e.state))]) }

  function ToEmitted(v: Val): Option<EmittedState> {
    var h, a := ToHeight(Field(v, 0)), DecAny(BlobField(v, 1));
    if h.Some? && a.Some? then Some(EmittedState(h.value, a.value)) else None
  }

  function PrevVal(p: PrevState): Val { Tuple([HeightVal(p.height), Word(p.stateId)]) }

  function ToPrev(v: Val): Option<PrevState> {
    var h := ToHeight(Field(v, 0));
    if h.Some? then Some(PrevState(h.value, WordField(v, 1))) else None
  }

  function EmittedVals(es: seq<EmittedState>): (vs: seq<Val>)
    ensures |vs| == |es| && forall i :: 0 <= i < |es| ==> vs[i] == EmittedVal(es[i])
  {
    seq(|es|, i requires 0 <= i < |es| => EmittedVal(es[i]))
  }

  function PrevVals(ps: seq<PrevState>): (vs: seq<Val>)
    ensures |vs| == |ps| && forall i :: 0 <= i < |ps| ==> vs[i] == PrevVal(ps[i])
  {
    seq(|ps|, i requires 0 <= i < |ps| => PrevVal(ps[i]))
  }

  /** All elements converted or, at the first failure, nothing. */
  function Collect<T>(convert: Val -> Option<T>, vs: seq<Val>): Option<seq<T>> {
    if vs == [] then Some([])
    else
      var front, last := Collect(convert, vs[..|vs| - 1]), convert(vs[|vs| - 1]);
      if front.Some? && last.Some? then Some(front.value + [last.value]) else None
  }

  lemma {:induction false} CollectAll<T>(convert: Val -> Option<T>, vs: seq<Val>, xs: seq<T>)
    requires |vs| == |xs| && forall i :: 0 <= i < |vs| ==> convert(vs[i]) == Some(xs[i])
    ensures Collect(convert, vs) == Some(xs)
  {
    if vs != [] {
      var n := |vs| - 1;
      CollectAll(convert, vs[..n], xs[..n]);
      assert xs == xs[..n] + [xs[n]];
    }
  }

  function UpdateVal(m: UpdateState): Val {
    Tuple([HeightVal(OrZero(m.prevHeight)), Word(IdOrZero(m.prevStateId)),
           HeightVal(m.postHeight), Word(m.postStateId), Word(U256(m.timestamp)),
           Blob(ContextBytes(m.context)), Array(EmittedVals(m.emittedStates))])
  }

  function ToUpdate(v: Val): Option<UpdateState> {
    MakeUpdate(ToHeight(Field(v, 0)), WordField(v, 1), ToHeight(Field(v, 2)), WordField(v, 3),
               WordTo(WordField(v, 4), U128_LIMIT),
               ToContext(BlobField(v, 5)), Collect(ToEmitted, ArrayField(v, 6)))
  }

  function MakeUpdate(prev: Option<Height>, prevId: StateId, post: Option<Height>, postId: StateId,
                      nanos: Option<nat>, context: Option<Context>, emitted: Option<seq<EmittedState>>)
    : Option<UpdateState>
  {
    if prev.Some? && post.Some? && nanos.Some? && ToTime(nanos.value).Some? && context.Some? && emitted.Some?
    then Some(UpdateState(NonZeroHeight(prev.value), NonZeroId(prevId), post.value, postId,
                          nanos.value, context.value, emitted.value))
    else None
  }

  function MembershipVal(m: VerifyMembership): Val {
    Tuple([Blob(m.prefix), Blob(m.path), Word(IdOrZero(m.value)), HeightVal(m.height), Word(m.stateId)])
  }

  function ToMembership(v: Val): Option<VerifyMembership> {
    var height := ToHeight(Field(v, 3));
    if ValidUtf8(BlobField(v, 1)) && height.Some?
    then Some(VerifyMembership(BlobField(v, 0), BlobField(v, 1), NonZeroId(WordField(v, 2)),
                               height.value, WordField(v, 4)))
    else None
  }

  function MisbehaviourVal(m: Misbehaviour): Val {
    Tuple([Array(PrevVals(m.prevStates)), Blob(ContextBytes(m.context)), Blob(EncAny(m.clientMessage))])
  }

  function ToMisbehaviour(v: Val): Option<Misbehaviour> {
    var prevs, context, any := Collect(ToPrev, ArrayField(v, 0)), ToContext(BlobField(v, 1)), DecAny(BlobField(v, 2));
    if prevs.Some? && context.Some? && any.Some?
    then Some(Misbehaviour(prevs.value, context.value, any.value)) else None
  }

  function MessageType(m: ProxyMessage): nat {
    match m
    case Update(_) => MESSAGE_TYPE_UPDATE_STATE
    case Membership(_) => MESSAGE_TYPE_STATE
    case Misbehave(_) => MESSAGE_TYPE_MISBEHAVIOUR
  }

  function MessageTy(m: ProxyMessage): Ty {
    match m
    case Update(_) => UPDATE_TY
    case Membership(_) => MEMBERSHIP_TY
    case Misbehave(_) => MISBEHAVIOUR_TY
  }

  function MessageVal(m: ProxyMessage): Val {
    match m
    case Update(u) => UpdateVal(u)
    case Membership(v) => MembershipVal(v)
    case Misbehave(b) => MisbehaviourVal(b)
  }

  /** Version, message type, then `reserved`; the encoder always writes zeros there. */
  function HeaderWith(m: ProxyMessage, reserved: Bytes): Bytes
    requires |reserved| == 28
  {
    ToBE(MESSAGE_SCHEMA_VERSION, 2) + (ToBE(MessageType(m), 2) + reserved)
  }

  function Envelope(m: ProxyMessage, reserved: Bytes): Bytes
    requires |reserved| == 28
  {
    AbiEncode(Tuple([Word(HeaderWith(m, reserved)), Blob(AbiEncode(MessageVal(m)))]))
  }

  function ToBytes(m: ProxyMessage): Bytes { Envelope(m, Zeros(28)) }

  function FromBytes(bz: Bytes): Option<ProxyMessage> {
    match AbiDecode(HEADERED_TY, bz)
    case None => None
    case Some(v) =>
      var header, body := WordField(v, 0), BlobField(v, 1);
      if FromBE(header[..2]) != MESSAGE_SCHEMA_VERSION then None
      else BodyFromBytes(FromBE(header[2..4]), body)
  }

  function BodyFromBytes(kind: nat, body: Bytes): Option<ProxyMessage> {
    if kind == MESSAGE_TYPE_UPDATE_STATE then
      match AbiDecode(UPDATE_TY, body)
      case None => None
      case Some(v) => (match ToUpdate(v) case None => None case Some(m) => Some(Update(m)))
    else if kind == MESSAGE_TYPE_STATE then
      match AbiDecode(MEMBERSHIP_TY, body)
      case None => None
      case Some(v) => (match ToMembership(v) case None => None case Some(m) => Some(Membership(m)))
    else if kind == MESSAGE_TYPE_MISBEHAVIOUR then
      match AbiDecode(MISBEHAVIOUR_TY, body)
      case None => None
      case Some(v) => (match ToMisbehaviour(v) case None => None case Some(m) => Some(Misbehave(m)))
    else None
  }

  /** What transport makes of a message: zero optional fields become absent. */
  function Normalize(m: ProxyMessage): ProxyMessage {
    match m
    case Update(u) => Update(NormalizeUpdate(u))
    case Membership(v) => Membership(v.(value := NonZeroId(IdOrZero(v.value))))
    case Misbehave(_) => m
  }

  function NormalizeUpdate(u: UpdateState): UpdateState {
    u.(prevHeight := NonZeroHeight(OrZero(u.prevHeight)), prevStateId := NonZeroId(IdOrZero(u.prevStateId)))
  }

  /** Lengths of buffers and lists fit the words that carry them; no machine holds a longer message. */
  ghost predicate Fits(m: ProxyMessage) {
    && |ToBytes(m)| < WORD_LIMIT
    && (m.Update? ==> |m.update.emittedStates| < WORD_LIMIT)
    && (m.Misbehave? ==> |m.misbehaviour.prevStates| < WORD_LIMIT)
  }

  // ---------------------------------------------------------------------------------------
  // Round trips

  /** A component's encoding is no longer than its frame. */
  lemma {:induction false} PartBound(vs: seq<Val>, i: nat, k: nat, off: nat)
    requires i <= k < |vs|
    ensures |Enc(vs[k])| <= |Heads(vs, i, off)| + |Tails(vs, i)|
    decreases k - i
  {
    if i < k { PartBound(vs, i + 1, k, if DynamicVal(vs[i]) then off + |Enc(vs[i])| else off); }
  }

  /** A byte string inside a struct is shorter than the struct's encoding. */
  lemma NestedPart(vs: seq<Val>, k: nat)
    requires k < |vs|
    ensures |Enc(vs[k])| <= |AbiEncode(Tuple(vs))|
    ensures vs[k].Blob? ==> |vs[k].b| <= |AbiEncode(Tuple(vs))|
  {
    PartBound(vs, 0, k, HeadsLen(vs, 0));
    PartBound([Tuple(vs)], 0, 0, HeadsLen([Tuple(vs)], 0));
  }

  lemma EmittedRoundTrip(es: seq<EmittedState>)
    ensures Collect(ToEmitted, EmittedVals(es)) == Some(es)
  {
    forall i | 0 <= i < |es| ensures ToEmitted(EmittedVal(es[i])) == Some(es[i]) {
      HeightRoundTrip(es[i].height);
      AnyRoundTrip(es[i].state);
    }
    CollectAll(ToEmitted, EmittedVals(es), es);
  }

  lemma PrevRoundTrip(ps: seq<PrevState>)
    ensures Collect(ToPrev, PrevVals(ps)) == Some(ps)
  {
    forall i | 0 <= i < |ps| ensures ToPrev(PrevVal(ps[i])) == Some(ps[i]) { HeightRoundTrip(ps[i].height); }
    CollectAll(ToPrev, PrevVals(ps), ps);
  }

  lemma EmittedTyped(es: seq<EmittedState>)
    requires |es| < WORD_LIMIT
    ensures HasType(Array(EmittedVals(es)), TArray(EMITTED_TY))
  {
    forall e: EmittedState ensures HasType(EmittedVal(e), EMITTED_TY) { HeightTyped(e.height); }
  }

  lemma PrevTyped(ps: seq<PrevState>)
    requires |ps| < WORD_LIMIT
    ensures HasType(Array(PrevVals(ps)), TArray(PREV_TY))
  {
    forall p: PrevState ensures HasType(PrevVal(p), PREV_TY) { HeightTyped(p.height); }
  }

  lemma MessageTyped(m: ProxyMessage)
    requires m.Update? ==> |m.update.emittedStates| < WORD_LIMIT
    requires m.Misbehave? ==> |m.misbehaviour.prevStates| < WORD_LIMIT
    ensures HasType(MessageVal(m), MessageTy(m))
  {
    match m {
      case Update(u) => UpdateTyped(u);
      case Membership(v) => HeightTyped(v.height);
      case Misbehave(b) => PrevTyped(b.prevStates);
    }
  }

  lemma UpdateTyped(m: UpdateState)
    requires |m.emittedStates| < WORD_LIMIT
    ensures HasType(UpdateVal(m), UPDATE_TY)
  {
    HeightTyped(OrZero(m.prevHeight));
    HeightTyped(m.postHeight);
    EmittedTyped(m.emittedStates);
  }

  lemma UpdateFields(m: UpdateState)
    ensures ToUpdate(UpdateVal(m))
         == MakeUpdate(ToHeight(HeightVal(OrZero(m.prevHeight))), IdOrZero(m.prevStateId),
                       ToHeight(HeightVal(m.postHeight)), m.postStateId,
                       WordTo(U256(m.timestamp), U128_LIMIT),
                       ToContext(ContextBytes(m.context)), Collect(ToEmitted, EmittedVals(m.emittedStates)))
  {
  }

  lemma TimestampRoundTrip(t: Time)
    ensures WordTo(U256(t), U128_LIMIT) == Some(t)
  {
    U256RoundTrip(t);
  }

  lemma UpdateRoundTrip(m: UpdateState)
    requires ToContext(ContextBytes(m.context)) == Some(m.context)
    ensures ToUpdate(UpdateVal(m)) == Some(NormalizeUpdate(m))
  {
    UpdateFields(m);
    HeightRoundTrip(OrZero(m.prevHeight));
    HeightRoundTrip(m.postHeight);
    TimestampRoundTrip(m.timestamp);
    EmittedRoundTrip(m.emittedStates);
  }

  lemma UpdateContext(m: UpdateState)
    requires |AbiEncode(UpdateVal(m))| < WORD_LIMIT
    ensures ToContext(ContextBytes(m.context)) == Some(m.context)
  {
    NestedPart(UpdateVal(m).vs, 5);
    ContextRoundTrip(m.context);
  }

  lemma MembershipRoundTrip(m: VerifyMembership)
    ensures ToMembership(MembershipVal(m)) == Some(m.(value := NonZeroId(IdOrZero(m.value))))
  {
    HeightRoundTrip(m.height);
  }

  lemma MisbehaviourRoundTrip(m: Misbehaviour)
    requires |AbiEncode(MisbehaviourVal(m))| < WORD_LIMIT
    ensures ToMisbehaviour(MisbehaviourVal(m)) == Some(m)
  {
    PrevRoundTrip(m.prevStates);
    NestedPart(MisbehaviourVal(m).vs, 1);
    ContextRoundTrip(m.context);
    AnyRoundTrip(m.clientMessage);
  }

  lemma BodyRoundTrip(m: ProxyMessage)
    requires |AbiEncode(MessageVal(m))| < WORD_LIMIT
    requires m.Update? ==> |m.update.emittedStates| < WORD_LIMIT
    requires m.Misbehave? ==> |m.misbehaviour.prevStates| < WORD_LIMIT
    ensures BodyFromBytes(MessageType(m), AbiEncode(MessageVal(m))) == Some(Normalize(m))
  {
    MessageTyped(m);
    AbiRoundTrip(MessageVal(m), MessageTy(m));
    match m {
      case Update(u) => UpdateContext(u); UpdateRoundTrip(u);
      case Membership(v) => MembershipRoundTrip(v);
      case Misbehave(b) => MisbehaviourRoundTrip(b);
    }
  }

  lemma HeaderParts(m: ProxyMessage, reserved: Bytes)
    requires |reserved| == 28
    ensures FromBE(HeaderWith(m, reserved)[..2]) == MESSAGE_SCHEMA_VERSION
    ensures FromBE(HeaderWith(m, reserved)[2..4]) == MessageType(m)
    ensures HeaderWith(m, reserved)[4..] == reserved
  {
    var kind := ToBE(MessageType(m), 2) + reserved;
    HeaderPrefix(MESSAGE_SCHEMA_VERSION, kind);
    HeaderPrefix(MessageType(m), reserved);
    assert HeaderWith(m, reserved)[2..4] == kind[..2];
  }

  /** Decoding ignores the reserved header bytes. */
  lemma EnvelopeRoundTrip(m: ProxyMessage, reserved: Bytes)
    requires |reserved| == 28 && |Envelope(m, reserved)| < WORD_LIMIT
    requires m.Update? ==> |m.update.emittedStates| < WORD_LIMIT
    requires m.Misbehave? ==> |m.misbehaviour.prevStates| < WORD_LIMIT
    ensures FromBytes(Envelope(m, reserved)) == Some(Normalize(m))
  {
    HeaderedRoundTrip(HeaderWith(m, reserved), AbiEncode(MessageVal(m)));
    HeaderParts(m, reserved);
    BodyRoundTrip(m);
  }

  /** Decoding an encoded message gives the message with its zero optional fields absent. */
  lemma DecodeEncode(m: ProxyMessage)
    requires Fits(m)
    ensures FromBytes(ToBytes(m)) == Some(Normalize(m))
  {
    EnvelopeRoundTrip(m, Zeros(28));
  }

  /** When a message validates at its receiver: an update if both or none of its previous height and id
      are zero or absent, a membership if path, height and id are there, evidence if it has states. */
  lemma ReceivedValidates(m: ProxyMessage)
    requires Fits(m)
    ensures FromBytes(ToBytes(m)).Some?
    ensures Validate(FromBytes(ToBytes(m)).value) <==>
            match m
            case Update(u) =>
              (u.prevHeight in {None, Some(ZERO_HEIGHT)} <==> u.prevStateId in {None, Some(Zeros(32))})
            case Membership(v) => v.path != [] && v.height != ZERO_HEIGHT && v.stateId != Zeros(32)
            case Misbehave(b) => |b.prevStates| > 0
  {
    DecodeEncode(m);
  }

  /** Transport does not change the bytes: encoding what was decoded gives the same encoding. */
  lemma ReencodingStable(m: ProxyMessage)
    requires Fits(m)
    ensures FromBytes(ToBytes(m)).Some? && ToBytes(FromBytes(ToBytes(m)).value) == ToBytes(m)
  {
    DecodeEncode(m);
  }

  /**
   Bytes whose reserved header part is not zero decode to the same message, but re-encode to
   different bytes: such a message is byte-stable exactly if the reserved part is zero.
   */
  lemma ReservedBytesUnstable(m: ProxyMessage, reserved: Bytes)
    requires |reserved| == 28 && |Envelope(m, reserved)| < WORD_LIMIT && Fits(m)
    ensures FromBytes(Envelope(m, reserved)) == Some(Normalize(m))
    ensures ToBytes(Normalize(m)) == Envelope(m, reserved) <==> reserved == Zeros(28)
  {
    EnvelopeRoundTrip(m, reserved);
    DecodeEncode(m);
    if ToBytes(m) == Envelope(m, reserved) {
      HeaderedRoundTrip(HeaderWith(m, Zeros(28)), AbiEncode(MessageVal(m)));
      HeaderedRoundTrip(HeaderWith(m, reserved), AbiEncode(MessageVal(m)));
      HeaderParts(m, reserved);
      HeaderParts(m, Zeros(28));
    }
  }

  // ---------------------------------------------------------------------------------------
  // Signatures

  /** Signing, recovery of the signer's address, and the hash of committed values. */
  datatype Crypto<!Key> = Crypto(
    sign: (Key, Bytes) -> Bytes,
    address: Key -> Address,
    recover: (Bytes, Bytes) -> Option<Address>,
    keccak256: Bytes -> Bytes32)

  ghost predicate Sound<Key(!new)>(c: Crypto<Key>) {
    forall k: Key, bz: Bytes :: c.recover(bz, c.sign(k, bz)) == Some(c.address(k))
  }

  /** A signature made over an encoded message still recovers its signer after the message was
      decoded and encoded again. */
  lemma SignatureSurvivesTransport<Key(!new)>(c: Crypto<Key>, k: Key, m: ProxyMessage)
    requires Sound(c) && Fits(m)
    ensures var received := FromBytes(ToBytes(m));
            received.Some? && c.recover(ToBytes(received.value), c.sign(k, ToBytes(m))) == Some(c.address(k))
  {
    ReencodingStable(m);
  }
}
