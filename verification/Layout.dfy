/**
 The bytes of proxy messages, position by position: what stands where in the structs that the
 verifying contracts read, down to the packed words of headers and contexts.
 */
module Layout {
  import opened Types
  import opened ByteCodec
  import opened ProtoAny
  import opened Messages
  import opened Abi
  import opened MessageCodec

  // ---------------------------------------------------------------------------------------
  // Building blocks

  /** A byte string: its length, its bytes, zeros up to the next whole word. */
  function Padded(b: Bytes): Bytes { U256(|b|) + b + Zeros(if |b| % 32 == 0 then 0 else 32 - |b| % 32) }

  lemma PaddedIs(b: Bytes)
    ensures Enc(Blob(b)) == Padded(b)
  {
  }

  function HeightBytes(h: Height): Bytes { U256(h.revision) + U256(h.height) }

  lemma TwoStatic(x: Val, y: Val)
    requires !DynamicVal(x) && !DynamicVal(y)
    ensures Frame([x, y]) == Enc(x) + Enc(y)
  {
    var vs, n := [x, y], HeadsLen([x, y], 0);
    assert Heads(vs, 2, n) == [];
    assert Heads(vs, 1, n) == Enc(y);
    assert Tails(vs, 2) == [];
    assert Tails(vs, 1) == [];
  }

  lemma StaticDynamic(x: Val, y: Val)
    requires !DynamicVal(x) && DynamicVal(y)
    ensures Frame([x, y]) == Enc(x) + U256(|Enc(x)| + 32) + Enc(y)
  {
    var vs, n := [x, y], |Enc(x)| + 32;
    assert HeadsLen(vs, 2) == 0;
    assert HeadsLen(vs, 1) == 32;
    assert Heads(vs, 2, n + |Enc(y)|) == [];
    assert Heads(vs, 1, n) == U256(n);
    assert Tails(vs, 2) == [];
    assert Tails(vs, 1) == Enc(y);
  }

  lemma WordsFrame(a: Bytes32, b: Bytes32)
    ensures Enc(Tuple([Word(a), Word(b)])) == a + b && !DynamicVal(Tuple([Word(a), Word(b)]))
  {
    TwoStatic(Word(a), Word(b));
  }

  lemma HeightIs(h: Height)
    ensures Enc(HeightVal(h)) == HeightBytes(h) && !DynamicVal(HeightVal(h)) && |Enc(HeightVal(h))| == 64
  {
    WordsFrame(U256(h.revision), U256(h.height));
  }

  /** A struct with a dynamic field is encoded as the offset 32 and then its frame. */
  lemma StructIs(vs: seq<Val>)
    requires DynamicVal(Tuple(vs))
    ensures AbiEncode(Tuple(vs)) == U256(32) + Frame(vs)
  {
    var top := [Tuple(vs)];
    assert HeadsLen(top, 1) == 0 && HeadsLen(top, 0) == 32;
    assert Heads(top, 0, 32) == U256(32) && Tails(top, 0) == Frame(vs);
  }

  lemma AtBehind(a: Bytes, f: Bytes, pos: nat, x: Bytes)
    requires At(f, pos, x)
    ensures At(a + f, |a| + pos, x)
  {
    assert (a + f)[|a| + pos..|a| + pos + |x|] == x;
  }

  lemma AtFront(a: Bytes, f: Bytes)
    ensures At(a + f, 0, a)
  {
  }

  /** What stands in the frame of a struct stands 32 bytes further in its encoding. */
  lemma InStruct(vs: seq<Val>, b: Bytes, pos: nat, x: Bytes, start: nat)
    requires DynamicVal(Tuple(vs)) && b == AbiEncode(Tuple(vs)) && At(Frame(vs), pos, x) && start == 32 + pos
    ensures At(b, start, x)
  {
    StructIs(vs);
    AtBehind(U256(32), Frame(vs), pos, x);
  }

  lemma StaticField(vs: seq<Val>, b: Bytes, k: nat, pos: nat, x: Bytes)
    requires DynamicVal(Tuple(vs)) && b == AbiEncode(Tuple(vs))
    requires k < |vs| && !DynamicVal(vs[k]) && Enc(vs[k]) == x && HeadPos(vs, k) == pos
    ensures At(b, 32 + pos, x)
  {
    FrameLayout(vs, k);
    InStruct(vs, b, pos, x, 32 + pos);
  }

  lemma DynamicField(vs: seq<Val>, b: Bytes, k: nat, pos: nat, off: nat, x: Bytes, start: nat)
    requires b == AbiEncode(Tuple(vs)) && k < |vs| && DynamicVal(vs[k]) && Enc(vs[k]) == x
    requires HeadPos(vs, k) == pos && TailPos(vs, k) == off && start == 32 + off
    ensures At(b, 32 + pos, U256(off)) && At(b, start, x)
  {
    FrameLayout(vs, k);
    InStruct(vs, b, pos, U256(off), 32 + pos);
    InStruct(vs, b, off, x, start);
  }

  lemma StructLength(vs: seq<Val>, b: Bytes)
    requires DynamicVal(Tuple(vs)) && |vs| > 0 && b == AbiEncode(Tuple(vs))
    ensures |b| == 32 + TailPos(vs, |vs|) && At(b, 0, U256(32))
  {
    StructIs(vs);
    FrameLayout(vs, 0);
    AtFront(U256(32), Frame(vs));
  }

  lemma HeightField(b: Bytes, pos: nat, h: Height)
    requires At(b, pos, HeightBytes(h))
    ensures At(b, pos, U256(h.revision)) && At(b, pos + 32, U256(h.height))
  {
    AtSplit(b, pos, U256(h.revision), U256(h.height));
  }

  // ---------------------------------------------------------------------------------------
  // Envelopes and contexts

  lemma HeaderedIs(w: Bytes32, b: Bytes)
    ensures AbiEncode(Tuple([Word(w), Blob(b)])) == U256(32) + w + U256(64) + Padded(b)
  {
    var vs := [Word(w), Blob(b)];
    assert DynamicVal(vs[1]);
    StructIs(vs);
    StaticDynamic(vs[0], vs[1]);
    PaddedIs(b);
    Regroup(U256(32), w, U256(64), Padded(b));
  }

  lemma Regroup(a: Bytes, b: Bytes, c: Bytes, d: Bytes)
    ensures a + (b + c + d) == a + b + c + d
  {
  }

  function TypeByte(m: ProxyMessage): Byte { if m.Update? then 1 else if m.Membership? then 2 else 3 }

  /** Schema version 1 and the message type, two bytes each, then 28 reserved zeros; the body follows. */
  lemma EnvelopeLayout(m: ProxyMessage)
    ensures ToBytes(m) == U256(32) + ([0, 1, 0, TypeByte(m)] + Zeros(28)) + U256(64)
                          + Padded(AbiEncode(MessageVal(m)))
  {
    HeaderBytes(m);
    HeaderedIs(HeaderWith(m, Zeros(28)), AbiEncode(MessageVal(m)));
  }

  lemma SmallPair(n: nat)
    requires n < 256
    ensures ToBE(n, 2) == [0, n]
  {
    assert ToBE(n / 256, 1) == [0];
  }

  lemma HeaderBytes(m: ProxyMessage)
    ensures HeaderWith(m, Zeros(28)) == [0, 1, 0, TypeByte(m)] + Zeros(28)
  {
    SmallPair(1);
    SmallPair(MessageType(m));
  }

  lemma EmptyContextLayout()
    ensures ContextBytes(Empty) == U256(32) + Zeros(32) + U256(64) + U256(0)
  {
    SmallPair(0);
    assert ContextHeader(Empty) == Zeros(32);
    HeaderedIs(ContextHeader(Empty), []);
    assert Padded([]) == U256(0);
  }

  /** Header time, trusted time, trusting period and clock drift, sixteen bytes of nanoseconds each. */
  lemma PeriodContextLayout(p: TrustingPeriod)
    ensures ContextBytes(Within(p)) == U256(32) + ([0, 1] + Zeros(30)) + U256(64) + U256(64)
                + (ToBE(p.untrustedHeaderTime, 16) + ToBE(p.trustedStateTime, 16))
                + (ToBE(p.trustingPeriod, 16) + ToBE(p.clockDrift, 16))
  {
    SmallPair(1);
    var a := ToBE(p.untrustedHeaderTime, 16) + ToBE(p.trustedStateTime, 16);
    var b := ToBE(p.trustingPeriod, 16) + ToBE(p.clockDrift, 16);
    PairIs(a, b);
    HeaderedIs([0, 1] + Zeros(30), a + b);
    assert Padded(a + b) == U256(64) + a + b;
  }

  lemma PairIs(a: Bytes32, b: Bytes32)
    ensures AbiEncode(Tuple([Word(a), Word(b)])) == a + b
  {
    WordsFrame(a, b);
    var top := [Tuple([Word(a), Word(b)])];
    assert HeadsLen(top, 1) == 0 && HeadsLen(top, 0) == 64;
    assert Heads(top, 1, 64) == [] && Heads(top, 0, 64) == a + b && Tails(top, 0) == [];
  }

  // ---------------------------------------------------------------------------------------
  // Structs

  lemma UpdatePositions(m: UpdateState, vs: seq<Val>)
    requires Tuple(vs) == UpdateVal(m)
    ensures |vs| == 7 && DynamicVal(vs[5]) && DynamicVal(vs[6])
    ensures !DynamicVal(vs[0]) && !DynamicVal(vs[1]) && !DynamicVal(vs[2]) && !DynamicVal(vs[3]) && !DynamicVal(vs[4])
    ensures HeadPos(vs, 0) == 0 && HeadPos(vs, 1) == 64 && HeadPos(vs, 2) == 96 && HeadPos(vs, 3) == 160
    ensures HeadPos(vs, 4) == 192 && HeadPos(vs, 5) == 224 && HeadPos(vs, 6) == 256
    ensures TailPos(vs, 5) == 288 && TailPos(vs, 6) == 288 + |Enc(vs[5])|
    ensures TailPos(vs, 7) == 288 + |Enc(vs[5])| + |Enc(vs[6])|
  {
    UpdateSizes(m, vs);
    HeadsOfFive(vs);
    TailsOfSeven(vs);
  }

  lemma UpdateSizes(m: UpdateState, vs: seq<Val>)
    requires Tuple(vs) == UpdateVal(m)
    ensures |vs| == 7 && DynamicVal(vs[5]) && DynamicVal(vs[6])
    ensures !DynamicVal(vs[0]) && !DynamicVal(vs[1]) && !DynamicVal(vs[2]) && !DynamicVal(vs[3]) && !DynamicVal(vs[4])
    ensures |Enc(vs[0])| == 64 && |Enc(vs[1])| == 32 && |Enc(vs[2])| == 64
    ensures |Enc(vs[3])| == 32 && |Enc(vs[4])| == 32
  {
    HeightIs(OrZero(m.prevHeight));
    HeightIs(m.postHeight);
  }

  lemma HeadsOfFive(vs: seq<Val>)
    requires |vs| >= 5
    requires !DynamicVal(vs[0]) && !DynamicVal(vs[1]) && !DynamicVal(vs[2]) && !DynamicVal(vs[3]) && !DynamicVal(vs[4])
    requires |Enc(vs[0])| == 64 && |Enc(vs[1])| == 32 && |Enc(vs[2])| == 64
    requires |Enc(vs[3])| == 32 && |Enc(vs[4])| == 32
    ensures HeadPos(vs, 0) == 0 && HeadPos(vs, 1) == 64 && HeadPos(vs, 2) == 96 && HeadPos(vs, 3) == 160
    ensures HeadPos(vs, 4) == 192 && HeadPos(vs, 5) == 224
  {
    assert HeadPos(vs, 1) == 64;
    assert HeadPos(vs, 2) == 96;
    assert HeadPos(vs, 3) == 160;
    assert HeadPos(vs, 4) == 192;
  }

  lemma TailsOfSeven(vs: seq<Val>)
    requires |vs| == 7 && DynamicVal(vs[5]) && DynamicVal(vs[6])
    requires !DynamicVal(vs[0]) && !DynamicVal(vs[1]) && !DynamicVal(vs[2]) && !DynamicVal(vs[3]) && !DynamicVal(vs[4])
    requires HeadPos(vs, 5) == 224
    ensures HeadPos(vs, 6) == 256 && TailPos(vs, 5) == 288 && TailPos(vs, 6) == 288 + |Enc(vs[5])|
    ensures TailPos(vs, 7) == 288 + |Enc(vs[5])| + |Enc(vs[6])|
  {
    assert HeadPos(vs, 6) == 256;
    assert HeadPos(vs, 7) == 288;
    assert TailPos(vs, 1) == 288;
    assert TailPos(vs, 2) == 288;
    assert TailPos(vs, 3) == 288;
    assert TailPos(vs, 4) == 288;
    assert TailPos(vs, 5) == 288;
    assert TailPos(vs, 6) == 288 + |Enc(vs[5])|;
  }

  /** Heights, ids and time in ten words, then the context and the emitted states. */
  lemma UpdateLayout(m: UpdateState, b: Bytes, prev: Height, context: Bytes, emitted: Bytes)
    requires b == AbiEncode(UpdateVal(m)) && prev == OrZero(m.prevHeight)
    requires context == Padded(ContextBytes(m.context)) && emitted == Enc(Array(EmittedVals(m.emittedStates)))
    ensures At(b, 0, U256(32))
    ensures At(b, 32, U256(prev.revision)) && At(b, 64, U256(prev.height)) && At(b, 96, IdOrZero(m.prevStateId))
    ensures At(b, 128, U256(m.postHeight.revision)) && At(b, 160, U256(m.postHeight.height))
    ensures At(b, 192, m.postStateId) && At(b, 224, U256(m.timestamp))
    ensures At(b, 256, U256(288)) && At(b, 288, U256(288 + |context|))
    ensures At(b, 320, context) && At(b, 320 + |context|, emitted) && |b| == 320 + |context| + |emitted|
  {
    var vs := UpdateVal(m).vs;
    UpdatePositions(m, vs);
    UpdateStatics(m, vs, b, prev);
    PaddedIs(ContextBytes(m.context));
    UpdateDynamics(vs, b, context, emitted);
  }

  lemma UpdateDynamics(vs: seq<Val>, b: Bytes, context: Bytes, emitted: Bytes)
    requires |vs| == 7 && DynamicVal(vs[5]) && DynamicVal(vs[6]) && Enc(vs[5]) == context && Enc(vs[6]) == emitted
    requires HeadPos(vs, 5) == 224 && HeadPos(vs, 6) == 256
    requires TailPos(vs, 5) == 288 && TailPos(vs, 6) == 288 + |context|
    requires TailPos(vs, 7) == 288 + |context| + |emitted| && b == AbiEncode(Tuple(vs))
    ensures At(b, 0, U256(32)) && At(b, 256, U256(288)) && At(b, 288, U256(288 + |context|))
    ensures At(b, 320, context) && At(b, 320 + |context|, emitted) && |b| == 320 + |context| + |emitted|
  {
    DynamicField(vs, b, 5, 224, 288, context, 320);
    DynamicField(vs, b, 6, 256, 288 + |context|, emitted, 320 + |context|);
    StructLength(vs, b);
  }

  lemma UpdateStatics(m: UpdateState, vs: seq<Val>, b: Bytes, prev: Height)
    requires Tuple(vs) == UpdateVal(m) && b == AbiEncode(Tuple(vs)) && prev == OrZero(m.prevHeight)
    ensures At(b, 32, U256(prev.revision)) && At(b, 64, U256(prev.height)) && At(b, 96, IdOrZero(m.prevStateId))
    ensures At(b, 128, U256(m.postHeight.revision)) && At(b, 160, U256(m.postHeight.height))
    ensures At(b, 192, m.postStateId) && At(b, 224, U256(m.timestamp))
  {
    UpdatePositions(m, vs);
    HeightIs(prev);
    HeightIs(m.postHeight);
    StaticField(vs, b, 0, 0, HeightBytes(prev));
    HeightField(b, 32, prev);
    StaticField(vs, b, 1, 64, IdOrZero(m.prevStateId));
    StaticField(vs, b, 2, 96, HeightBytes(m.postHeight));
    HeightField(b, 128, m.postHeight);
    StaticField(vs, b, 3, 160, m.postStateId);
    StaticField(vs, b, 4, 192, U256(m.timestamp));
  }

  lemma MembershipPositions(m: VerifyMembership, vs: seq<Val>)
    requires Tuple(vs) == MembershipVal(m)
    ensures |vs| == 5 && DynamicVal(vs[0]) && DynamicVal(vs[1])
    ensures forall k :: 2 <= k < 5 ==> !DynamicVal(vs[k])
    ensures HeadPos(vs, 0) == 0 && HeadPos(vs, 1) == 32 && HeadPos(vs, 2) == 64 && HeadPos(vs, 3) == 96
    ensures HeadPos(vs, 4) == 160 && TailPos(vs, 0) == 192 && TailPos(vs, 1) == 192 + |Enc(vs[0])|
    ensures TailPos(vs, 5) == 192 + |Enc(vs[0])| + |Enc(vs[1])|
  {
    HeightIs(m.height);
    assert HeadPos(vs, 1) == 32;
    assert HeadPos(vs, 2) == 64;
    assert HeadPos(vs, 3) == 96;
    assert HeadPos(vs, 4) == 160;
    assert HeadPos(vs, 5) == 192;
    assert TailPos(vs, 1) == 192 + |Enc(vs[0])|;
    assert TailPos(vs, 2) == 192 + |Enc(vs[0])| + |Enc(vs[1])|;
    assert TailPos(vs, 3) == TailPos(vs, 2);
    assert TailPos(vs, 4) == TailPos(vs, 2);
  }

  /** The offsets of prefix and path, the value's hash, the height and the state id, then both strings. */
  lemma MembershipLayout(m: VerifyMembership, b: Bytes, prefix: Bytes, path: Bytes)
    requires b == AbiEncode(MembershipVal(m)) && prefix == Padded(m.prefix) && path == Padded(m.path)
    ensures At(b, 0, U256(32)) && At(b, 32, U256(192)) && At(b, 64, U256(192 + |prefix|))
    ensures At(b, 96, IdOrZero(m.value))
    ensures At(b, 128, U256(m.height.revision)) && At(b, 160, U256(m.height.height)) && At(b, 192, m.stateId)
    ensures At(b, 224, prefix) && At(b, 224 + |prefix|, path) && |b| == 224 + |prefix| + |path|
  {
    var vs := MembershipVal(m).vs;
    MembershipPositions(m, vs);
    PaddedIs(m.prefix);
    PaddedIs(m.path);
    HeightIs(m.height);
    MembershipDynamics(vs, b, prefix, path);
    StaticField(vs, b, 2, 64, IdOrZero(m.value));
    StaticField(vs, b, 3, 96, HeightBytes(m.height));
    HeightField(b, 128, m.height);
    StaticField(vs, b, 4, 160, m.stateId);
  }

  lemma MembershipDynamics(vs: seq<Val>, b: Bytes, prefix: Bytes, path: Bytes)
    requires |vs| == 5 && DynamicVal(vs[0]) && DynamicVal(vs[1]) && Enc(vs[0]) == prefix && Enc(vs[1]) == path
    requires HeadPos(vs, 0) == 0 && HeadPos(vs, 1) == 32
    requires TailPos(vs, 0) == 192 && TailPos(vs, 1) == 192 + |prefix|
    requires TailPos(vs, 5) == 192 + |prefix| + |path| && b == AbiEncode(Tuple(vs))
    ensures At(b, 0, U256(32)) && At(b, 32, U256(192)) && At(b, 64, U256(192 + |prefix|))
    ensures At(b, 224, prefix) && At(b, 224 + |prefix|, path) && |b| == 224 + |prefix| + |path|
  {
    DynamicField(vs, b, 0, 0, 192, prefix, 224);
    DynamicField(vs, b, 1, 32, 192 + |prefix|, path, 224 + |prefix|);
    StructLength(vs, b);
  }

  lemma MisbehaviourPositions(vs: seq<Val>)
    requires |vs| == 3 && forall k :: 0 <= k < 3 ==> DynamicVal(vs[k])
    ensures HeadPos(vs, 0) == 0 && HeadPos(vs, 1) == 32 && HeadPos(vs, 2) == 64
    ensures TailPos(vs, 0) == 96 && TailPos(vs, 1) == 96 + |Enc(vs[0])|
    ensures TailPos(vs, 2) == 96 + |Enc(vs[0])| + |Enc(vs[1])|
    ensures TailPos(vs, 3) == 96 + |Enc(vs[0])| + |Enc(vs[1])| + |Enc(vs[2])|
  {
    assert HeadPos(vs, 1) == 32;
    assert HeadPos(vs, 2) == 64;
    assert HeadPos(vs, 3) == 96;
    assert TailPos(vs, 1) == 96 + |Enc(vs[0])|;
  }

  /** Three offsets, then the previous states, the context and the client message. */
  lemma MisbehaviourLayout(m: Misbehaviour, b: Bytes, prevs: Bytes, context: Bytes, evidence: Bytes)
    requires b == AbiEncode(MisbehaviourVal(m)) && prevs == Enc(Array(PrevVals(m.prevStates)))
    requires context == Padded(ContextBytes(m.context)) && evidence == Padded(EncAny(m.clientMessage))
    ensures At(b, 0, U256(32)) && At(b, 32, U256(96)) && At(b, 64, U256(96 + |prevs|))
    ensures At(b, 96, U256(96 + |prevs| + |context|))
    ensures At(b, 128, prevs) && At(b, 128 + |prevs|, context) && At(b, 128 + |prevs| + |context|, evidence)
    ensures |b| == 128 + |prevs| + |context| + |evidence|
  {
    PaddedIs(ContextBytes(m.context));
    PaddedIs(EncAny(m.clientMessage));
    ThreeDynamic(MisbehaviourVal(m).vs, b, prevs, context, evidence);
  }

  lemma ThreeDynamic(vs: seq<Val>, b: Bytes, x: Bytes, y: Bytes, z: Bytes)
    requires |vs| == 3 && forall k :: 0 <= k < 3 ==> DynamicVal(vs[k])
    requires Enc(vs[0]) == x && Enc(vs[1]) == y && Enc(vs[2]) == z && b == AbiEncode(Tuple(vs))
    ensures At(b, 0, U256(32)) && At(b, 32, U256(96)) && At(b, 64, U256(96 + |x|))
    ensures At(b, 96, U256(96 + |x| + |y|))
    ensures At(b, 128, x) && At(b, 128 + |x|, y) && At(b, 128 + |x| + |y|, z)
    ensures |b| == 128 + |x| + |y| + |z|
  {
    MisbehaviourPositions(vs);
    DynamicField(vs, b, 0, 0, 96, x, 128);
    DynamicField(vs, b, 1, 32, 96 + |x|, y, 128 + |x|);
    DynamicField(vs, b, 2, 64, 96 + |x| + |y|, z, 128 + |x| + |y|);
    StructLength(vs, b);
  }

  // ---------------------------------------------------------------------------------------
  // Lists

  lemma PrevIs(p: PrevState)
    ensures Enc(PrevVal(p)) == HeightBytes(p.height) + p.stateId && !DynamicVal(PrevVal(p))
  {
    HeightIs(p.height);
    TwoStatic(HeightVal(p.height), Word(p.stateId));
  }

  lemma {:induction false} PrevPos(ps: seq<PrevState>, k: nat)
    requires k <= |ps|
    ensures HeadPos(PrevVals(ps), k) == 96 * k
  {
    if k > 0 {
      PrevPos(ps, k - 1);
      PrevIs(ps[k - 1]);
    }
  }

  /** Previous states stand one after another behind their number, three words each. */
  lemma PrevStatesLayout(ps: seq<PrevState>, k: nat)
    requires k < |ps|
    ensures var b := Enc(Array(PrevVals(ps)));
            At(b, 0, U256(|ps|)) && At(b, 32 + 96 * k, HeightBytes(ps[k].height) + ps[k].stateId)
  {
    var f := Frame(PrevVals(ps));
    PrevPos(ps, k);
    PrevIs(ps[k]);
    FrameLayout(PrevVals(ps), k);
    AtFront(U256(|ps|), f);
    AtBehind(U256(|ps|), f, 96 * k, HeightBytes(ps[k].height) + ps[k].stateId);
  }

  /** A height, the offset 96, and the protobuf bytes. */
  function EmittedBytes(e: EmittedState): Bytes { HeightBytes(e.height) + U256(96) + Padded(EncAny(e.state)) }

  lemma EmittedIs(e: EmittedState)
    ensures Enc(EmittedVal(e)) == EmittedBytes(e) && DynamicVal(EmittedVal(e))
  {
    var vs := [HeightVal(e.height), Blob(EncAny(e.state))];
    HeightIs(e.height);
    PaddedIs(EncAny(e.state));
    assert DynamicVal(vs[1]);
    StaticDynamic(vs[0], vs[1]);
  }

  /** Where the `k`-th emitted state starts, counted from behind the number of states. */
  function EmittedPos(es: seq<EmittedState>, k: nat): nat
    requires k <= |es|
  {
    if k == 0 then 32 * |es| else EmittedPos(es, k - 1) + |EmittedBytes(es[k - 1])|
  }

  lemma {:induction false} EmittedHeads(es: seq<EmittedState>, k: nat)
    requires k <= |es|
    ensures HeadPos(EmittedVals(es), k) == 32 * k
  {
    if k > 0 {
      EmittedHeads(es, k - 1);
      EmittedIs(es[k - 1]);
    }
  }

  lemma {:induction false} EmittedTails(es: seq<EmittedState>, k: nat)
    requires k <= |es|
    ensures TailPos(EmittedVals(es), k) == EmittedPos(es, k)
  {
    if k == 0 {
      EmittedHeads(es, |es|);
    } else {
      EmittedTails(es, k - 1);
      EmittedIs(es[k - 1]);
      assert EmittedVals(es)[k - 1] == EmittedVal(es[k - 1]);
    }
  }

  lemma DynamicElement(vs: seq<Val>, b: Bytes, k: nat, off: nat, x: Bytes)
    requires b == Enc(Array(vs))
    requires k < |vs| && DynamicVal(vs[k]) && HeadPos(vs, k) == 32 * k && TailPos(vs, k) == off && Enc(vs[k]) == x
    ensures At(b, 0, U256(|vs|)) && At(b, 32 + 32 * k, U256(off)) && At(b, 32 + off, x)
    ensures |b| == 32 + TailPos(vs, |vs|)
  {
    var f := Frame(vs);
    FrameLayout(vs, k);
    AtFront(U256(|vs|), f);
    AtBehind(U256(|vs|), f, 32 * k, U256(off));
    AtBehind(U256(|vs|), f, off, x);
  }

  /** The number of emitted states, the offset of each, and the states. */
  lemma {:induction false} EmittedStatesLayout(es: seq<EmittedState>, b: Bytes, k: nat, off: nat, x: Bytes)
    requires b == Enc(Array(EmittedVals(es)))
    requires k < |es| && off == EmittedPos(es, k) && x == EmittedBytes(es[k])
    ensures At(b, 0, U256(|es|)) && At(b, 32 + 32 * k, U256(off)) && At(b, 32 + off, x)
    ensures |b| == 32 + EmittedPos(es, |es|)
  {
    EmittedHeads(es, k);
    EmittedTails(es, k);
    EmittedTails(es, |es|);
    EmittedIs(es[k]);
    DynamicElement(EmittedVals(es), b, k, off, x);
  }

  // ---------------------------------------------------------------------------------------
  // One message to the byte

  lemma {:induction false} ZeroBytes(w: nat)
    ensures ToBE(0, w) == Zeros(w)
  {
    if w > 0 { ZeroBytes(w - 1); }
  }

  lemma SmallWord(n: nat)
    requires n < 0x1_0000
    ensures U256(n) == Zeros(30) + [n / 256, n % 256]
  {
    ZeroBytes(30);
    assert n / 256 / 256 == 0;
    assert ToBE(n / 256, 31) == Zeros(30) + [n / 256];
  }

  lemma Joined(b: Bytes, pos: nat, x: Bytes, y: Bytes)
    requires At(b, pos, x) && At(b, pos + |x|, y)
    ensures At(b, pos, x + y)
  {
    assert b[pos..pos + |x + y|] == b[pos..pos + |x|] + b[pos + |x|..pos + |x| + |y|];
  }

  /** Evidence without previous states, context or client message. */
  const EMPTY_EVIDENCE := Misbehaviour([], Empty, AnyRec.Any([], []))

  lemma EmptyBody(b: Bytes)
    requires b == AbiEncode(MisbehaviourVal(EMPTY_EVIDENCE))
    ensures b == U256(32) + U256(96) + U256(128) + U256(288) + U256(0)
                 + (U256(128) + ContextBytes(Empty)) + U256(0)
  {
    EmptyContextLayout();
    var none, context := U256(0), U256(128) + ContextBytes(Empty);
    assert Padded(ContextBytes(Empty)) == context;
    assert Padded(EncAny(EMPTY_EVIDENCE.clientMessage)) == none;
    assert Enc(Array(PrevVals([]))) == none;
    MisbehaviourLayout(EMPTY_EVIDENCE, b, none, context, none);
    EmptyParts(b, context);
  }

  lemma EmptyParts(b: Bytes, context: Bytes)
    requires |context| == 160 && |b| == 352
    requires At(b, 0, U256(32)) && At(b, 32, U256(96)) && At(b, 64, U256(128)) && At(b, 96, U256(288))
    requires At(b, 128, U256(0)) && At(b, 160, context) && At(b, 320, U256(0))
    ensures b == U256(32) + U256(96) + U256(128) + U256(288) + U256(0) + context + U256(0)
  {
    var w := U256(32) + U256(96) + U256(128) + U256(288);
    Joined(b, 0, U256(32), U256(96));
    Joined(b, 0, U256(32) + U256(96), U256(128));
    Joined(b, 0, U256(32) + U256(96) + U256(128), U256(288));
    Joined(b, 0, w, U256(0));
    Joined(b, 0, w + U256(0), context);
    Joined(b, 0, w + U256(0) + context, U256(0));
  }

  /** A whole message, word by word; `SmallWord` gives the bytes of each word. */
  lemma EmptyEvidenceBytes()
    ensures ToBytes(Misbehave(EMPTY_EVIDENCE))
         == U256(32) + ([0, 1, 0, 3] + Zeros(28)) + U256(64) + (U256(352)
            + (U256(32) + U256(96) + U256(128) + U256(288) + U256(0)
               + (U256(128) + (U256(32) + Zeros(32) + U256(64) + U256(0))) + U256(0)))
  {
    var body := AbiEncode(MisbehaviourVal(EMPTY_EVIDENCE));
    EmptyContextLayout();
    EmptyBody(body);
    EnvelopeLayout(Misbehave(EMPTY_EVIDENCE));
    WholeWords(body);
  }

  lemma WholeWords(b: Bytes)
    requires |b| % 32 == 0
    ensures Padded(b) == U256(|b|) + b
  {
  }
}
