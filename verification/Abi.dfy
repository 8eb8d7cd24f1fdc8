/**
 The head/tail encoding of Ethereum's Contract ABI Specification, section "Formal Specification
 of the Encoding", for the types that proxy messages use: 32-byte words, byte strings, tuples and
 dynamic arrays. The decoder reads offsets and lengths from untrusted bytes.
 */
module Abi {
  import opened Types
  import opened ByteCodec

  datatype Ty = TWord | TBytes | TTuple(tys: seq<Ty>) | TArray(elem: Ty)

  datatype Val = Word(w: Bytes) | Blob(b: Bytes) | Tuple(vs: seq<Val>) | Array(es: seq<Val>)

  predicate HasType(v: Val, ty: Ty)
    decreases v
  {
    match ty
    case TWord => v.Word? && |v.w| == 32
    case TBytes => v.Blob?
    case TTuple(tys) => v.Tuple? && |v.vs| == |tys| && forall i :: 0 <= i < |tys| ==> HasType(v.vs[i], tys[i])
    case TArray(t) => v.Array? && |v.es| < WORD_LIMIT && forall i :: 0 <= i < |v.es| ==> HasType(v.es[i], t)
  }

  predicate Dynamic(ty: Ty) {
    match ty
    case TWord => false
    case TBytes => true
    case TTuple(tys) => exists i :: 0 <= i < |tys| && Dynamic(tys[i])
    case TArray(_) => true
  }

  predicate DynamicVal(v: Val) {
    match v
    case Word(_) => false
    case Blob(_) => true
    case Tuple(vs) => exists i :: 0 <= i < |vs| && DynamicVal(vs[i])
    case Array(_) => true
  }

  /** Lengths and offsets are 256-bit words. */
  const WORD_LIMIT: int := 0x1_0000000000000000_0000000000000000_0000000000000000_0000000000000000

  function U256(n: nat): (b: Bytes)
    ensures |b| == 32
  {
    ToBE(n, 32)
  }

  lemma WordBound(w: Bytes)
    requires |w| == 32
    ensures FromBE(w) < WORD_LIMIT
  {
    Pow256Values();
    FromBEBound(w);
  }

  function Padding(n: nat): Bytes { Zeros((32 - n % 32) % 32) }

  /** The encoding of one value, without its head. */
  function Enc(v: Val): Bytes
    decreases v, 0
  {
    match v
    case Word(w) => w
    case Blob(b) => U256(|b|) + b + Padding(|b|)
    case Tuple(vs) => Frame(vs)
    case Array(es) => U256(|es|) + Frame(es)
  }

  /** A sequence of components: all heads, then the tails of the dynamic ones. */
  function Frame(vs: seq<Val>): Bytes
    decreases vs, |vs| + 1
  {
    Heads(vs, 0, HeadsLen(vs, 0)) + Tails(vs, 0)
  }

  /** The heads from component `i` on; `off` is where the next tail starts, from the frame's start. */
  function Heads(vs: seq<Val>, i: nat, off: nat): Bytes
    requires i <= |vs|
    decreases vs, |vs| - i
  {
    if i == |vs| then []
    else if DynamicVal(vs[i]) then U256(off) + Heads(vs, i + 1, off + |Enc(vs[i])|)
    else Enc(vs[i]) + Heads(vs, i + 1, off)
  }

  function HeadsLen(vs: seq<Val>, i: nat): nat
    requires i <= |vs|
    decreases vs, |vs| - i
  {
    if i == |vs| then 0 else (if DynamicVal(vs[i]) then 32 else |Enc(vs[i])|) + HeadsLen(vs, i + 1)
  }

  function Tails(vs: seq<Val>, i: nat): Bytes
    requires i <= |vs|
    decreases vs, |vs| - i
  {
    if i == |vs| then [] else (if DynamicVal(vs[i]) then Enc(vs[i]) else []) + Tails(vs, i + 1)
  }

  /** Bytes that a component takes in the heads of its frame. */
  function HeadSize(ty: Ty): nat
    decreases ty
  {
    if Dynamic(ty) then 32 else
      match ty
      case TWord => 32
      case TTuple(tys) => HeadSizes(tys, 0)
      case _ => 0
  }

  function HeadSizes(tys: seq<Ty>, i: nat): nat
    requires i <= |tys|
    decreases tys, |tys| - i
  {
    if i == |tys| then 0 else HeadSize(tys[i]) + HeadSizes(tys, i + 1)
  }

  /** Decodes one value from the front of `d`; trailing bytes are allowed. */
  function Dec(ty: Ty, d: Bytes): (r: Option<Val>)
    ensures r.Some? ==> HasType(r.value, ty)
    decreases ty
  {
    match ty
    case TWord => if |d| < 32 then None else Some(Word(d[..32]))
    case TBytes =>
      if |d| < 32 then None else
        var n := FromBE(d[..32]);
        if |d| < 32 + n then None else Some(Blob(d[32..32 + n]))
    case TTuple(tys) =>
      (match DecFrame(ty, tys, 0, d, 0)
       case None => None
       case Some(vs) => Some(Tuple(vs)))
    case TArray(t) =>
      if |d| < 32 then None else
        WordBound(d[..32]);
        var tys := seq(FromBE(d[..32]), _ => t);
        match DecFrame(ty, tys, 0, d[32..], 0)
        case None => None
        case Some(vs) => Some(Array(vs))
  }

  /** Decodes the components of `parent` from the `i`-th on, whose heads start at `pos` of the frame. */
  function DecFrame(parent: Ty, tys: seq<Ty>, i: nat, frame: Bytes, pos: nat): (r: Option<seq<Val>>)
    requires i <= |tys| && forall j :: 0 <= j < |tys| ==> tys[j] < parent
    ensures r.Some? ==> |r.value| == |tys| - i && forall j :: 0 <= j < |tys| - i ==> HasType(r.value[j], tys[i + j])
    decreases parent, |tys| - i
  {
    if i == |tys| then Some([])
    else if |frame| < pos + (if Dynamic(tys[i]) then 32 else 0) then None
    else
      var off := if Dynamic(tys[i]) then FromBE(frame[pos..pos + 32]) else pos;
      if |frame| < off then None else
        match Dec(tys[i], frame[off..])
        case None => None
        case Some(v) =>
          match DecFrame(parent, tys, i + 1, frame, pos + HeadSize(tys[i]))
          case None => None
          case Some(vs) => Some([v] + vs)
  }

  /** `abi_encode` of a struct: the frame that holds just this value. */
  function AbiEncode(v: Val): Bytes { Frame([v]) }

  /** `abi_decode` with validation on: only bytes that re-encode to themselves are accepted. */
  function AbiDecode(ty: Ty, bz: Bytes): (r: Option<Val>)
    ensures r.Some? ==> HasType(r.value, ty) && AbiEncode(r.value) == bz
  {
    match DecFrame(TTuple([ty]), [ty], 0, bz, 0)
    case None => None
    case Some(vs) => if AbiEncode(vs[0]) == bz then Some(vs[0]) else None
  }

  // ---------------------------------------------------------------------------------------
  // Round trip

  lemma {:induction false} TypeFixesDynamic(v: Val, ty: Ty)
    requires HasType(v, ty)
    ensures DynamicVal(v) == Dynamic(ty)
    decreases v
  {
    if ty.TTuple? {
      forall i | 0 <= i < |ty.tys| ensures DynamicVal(v.vs[i]) == Dynamic(ty.tys[i]) {
        TypeFixesDynamic(v.vs[i], ty.tys[i]);
      }
    }
  }

  lemma {:induction false} StaticSize(v: Val, ty: Ty)
    requires HasType(v, ty) && !Dynamic(ty)
    ensures |Enc(v)| == HeadSize(ty)
    decreases v
  {
    TypeFixesDynamic(v, ty);
    if ty.TTuple? { StaticFrame(v.vs, ty.tys, 0, HeadsLen(v.vs, 0)); }
  }

  lemma {:induction false} StaticFrame(vs: seq<Val>, tys: seq<Ty>, i: nat, off: nat)
    requires i <= |vs| == |tys|
    requires forall j :: 0 <= j < |tys| ==> HasType(vs[j], tys[j]) && !Dynamic(tys[j])
    ensures |Heads(vs, i, off)| == HeadSizes(tys, i) && Tails(vs, i) == []
    decreases vs, |vs| - i
  {
    if i < |vs| {
      TypeFixesDynamic(vs[i], tys[i]);
      StaticSize(vs[i], tys[i]);
      StaticFrame(vs, tys, i + 1, off);
    }
  }

  lemma {:induction false} HeadsLength(vs: seq<Val>, i: nat, off: nat)
    requires i <= |vs|
    ensures |Heads(vs, i, off)| == HeadsLen(vs, i)
    decreases |vs| - i
  {
    if i < |vs| { HeadsLength(vs, i + 1, if DynamicVal(vs[i]) then off + |Enc(vs[i])| else off); }
  }

  lemma U256RoundTrip(n: nat)
    requires n < WORD_LIMIT
    ensures FromBE(U256(n)) == n
  {
    Pow256Values();
    FromToBE(n, 32);
  }

  /** `b` stands in `d` from position `pos` on. */
  predicate At(d: Bytes, pos: nat, b: Bytes) {
    pos + |b| <= |d| && d[pos..pos + |b|] == b
  }

  lemma AtSplit(d: Bytes, pos: nat, a: Bytes, b: Bytes)
    requires At(d, pos, a + b)
    ensures At(d, pos, a) && At(d, pos + |a|, b)
  {
    var ab := d[pos..pos + |a + b|];
    assert ab[..|a|] == a && ab[|a|..] == b;
  }

  lemma AtSuffix(d: Bytes, pos: nat, b: Bytes)
    requires At(d, pos, b)
    ensures At(d[pos..], 0, b)
  {
  }

  lemma DecBlobAt(d: Bytes, b: Bytes)
    requires |b| < WORD_LIMIT && At(d, 0, Enc(Blob(b)))
    ensures Dec(TBytes, d) == Some(Blob(b))
  {
    U256RoundTrip(|b|);
    AtSplit(d, 0, U256(|b|) + b, Padding(|b|));
    AtSplit(d, 0, U256(|b|), b);
  }

  /** Decoding where an encoded value stands gives the value back, whatever follows it. */
  lemma {:induction false} DecEnc(v: Val, ty: Ty, d: Bytes)
    requires HasType(v, ty) && |Enc(v)| < WORD_LIMIT && At(d, 0, Enc(v))
    ensures Dec(ty, d) == Some(v)
    decreases v, 0
  {
    match ty
    case TWord =>
    case TBytes =>
      DecBlobAt(d, v.b);
    case TTuple(tys) =>
      DecEncFrame(v.vs, ty, tys, d);
    case TArray(t) =>
      U256RoundTrip(|v.es|);
      AtSplit(d, 0, U256(|v.es|), Frame(v.es));
      AtSuffix(d, 32, Frame(v.es));
      DecEncFrame(v.es, ty, seq(|v.es|, _ => t), d[32..]);
  }

  ghost predicate Typed(vs: seq<Val>, tys: seq<Ty>, parent: Ty) {
    |vs| == |tys| && forall i :: 0 <= i < |tys| ==> HasType(vs[i], tys[i]) && tys[i] < parent
  }

  lemma {:induction false} DecEncFrame(vs: seq<Val>, parent: Ty, tys: seq<Ty>, frame: Bytes)
    requires Typed(vs, tys, parent) && |Frame(vs)| < WORD_LIMIT && At(frame, 0, Frame(vs))
    ensures DecFrame(parent, tys, 0, frame, 0) == Some(vs)
    decreases vs, |vs| + 1
  {
    var n := HeadsLen(vs, 0);
    HeadsLength(vs, 0, n);
    AtSplit(frame, 0, Heads(vs, 0, n), Tails(vs, 0));
    DecEncParts(vs, parent, tys, 0, frame, 0, n);
    assert vs[0..] == vs;
  }

  /** From component `i` on, the heads stand at `pos` and the tails at `off`. */
  ghost predicate Standing(vs: seq<Val>, i: nat, frame: Bytes, pos: nat, off: nat)
    requires i <= |vs|
  {
    && At(frame, pos, Heads(vs, i, off)) && |Heads(vs, i, off)| < WORD_LIMIT
    && At(frame, off, Tails(vs, i)) && off + |Tails(vs, i)| < WORD_LIMIT
  }

  lemma StandingDynamic(vs: seq<Val>, i: nat, frame: Bytes, pos: nat, off: nat)
    requires i < |vs| && DynamicVal(vs[i]) && Standing(vs, i, frame, pos, off)
    ensures At(frame, pos, U256(off)) && FromBE(U256(off)) == off && At(frame, off, Enc(vs[i]))
    ensures |Enc(vs[i])| < WORD_LIMIT && Standing(vs, i + 1, frame, pos + 32, off + |Enc(vs[i])|)
  {
    var e := Enc(vs[i]);
    U256RoundTrip(off);
    AtSplit(frame, pos, U256(off), Heads(vs, i + 1, off + |e|));
    AtSplit(frame, off, e, Tails(vs, i + 1));
  }

  lemma StandingStatic(vs: seq<Val>, i: nat, frame: Bytes, pos: nat, off: nat)
    requires i < |vs| && !DynamicVal(vs[i]) && Standing(vs, i, frame, pos, off)
    ensures At(frame, pos, Enc(vs[i])) && |Enc(vs[i])| < WORD_LIMIT
    ensures Standing(vs, i + 1, frame, pos + |Enc(vs[i])|, off)
  {
    AtSplit(frame, pos, Enc(vs[i]), Heads(vs, i + 1, off));
    assert Tails(vs, i) == Tails(vs, i + 1);
  }

  /** One unfolding of the decoder's loop. */
  lemma DecFrameStep(vs: seq<Val>, parent: Ty, tys: seq<Ty>, i: nat, frame: Bytes, pos: nat, off: nat)
    requires i < |vs| == |tys| && forall j :: 0 <= j < |tys| ==> tys[j] < parent
    requires if Dynamic(tys[i]) then pos + 32 <= |frame| && off == FromBE(frame[pos..pos + 32]) else off == pos
    requires off <= |frame| && pos <= |frame|
    requires Dec(tys[i], frame[off..]) == Some(vs[i])
    requires DecFrame(parent, tys, i + 1, frame, pos + HeadSize(tys[i])) == Some(vs[i + 1..])
    ensures DecFrame(parent, tys, i, frame, pos) == Some(vs[i..])
  {
    assert vs[i..] == [vs[i]] + vs[i + 1..];
  }

  lemma DecAt(v: Val, t: Ty, frame: Bytes, pos: nat)
    requires HasType(v, t) && |Enc(v)| < WORD_LIMIT && At(frame, pos, Enc(v))
    ensures Dec(t, frame[pos..]) == Some(v)
    decreases v, 1
  {
    AtSuffix(frame, pos, Enc(v));
    DecEnc(v, t, frame[pos..]);
  }

  /** The decoder's loop. */
  lemma {:induction false} DecEncParts(vs: seq<Val>, parent: Ty, tys: seq<Ty>, i: nat,
                                       frame: Bytes, pos: nat, off: nat)
    requires i <= |vs| && Typed(vs, tys, parent) && Standing(vs, i, frame, pos, off)
    ensures DecFrame(parent, tys, i, frame, pos) == Some(vs[i..])
    decreases vs, |vs| - i
  {
    if i == |vs| {
      assert vs[i..] == [];
    } else {
      TypeFixesDynamic(vs[i], tys[i]);
      if DynamicVal(vs[i]) {
        DecEncDynamic(vs, parent, tys, i, frame, pos, off);
      } else {
        StandingStatic(vs, i, frame, pos, off);
        StaticSize(vs[i], tys[i]);
        DecAt(vs[i], tys[i], frame, pos);
        DecEncParts(vs, parent, tys, i + 1, frame, pos + HeadSize(tys[i]), off);
        DecFrameStep(vs, parent, tys, i, frame, pos, pos);
      }
    }
  }

  lemma DecFrameDynamic(vs: seq<Val>, parent: Ty, tys: seq<Ty>, i: nat, frame: Bytes, pos: nat, off: nat)
    requires i < |vs| == |tys| && (forall j :: 0 <= j < |tys| ==> tys[j] < parent) && Dynamic(tys[i])
    requires At(frame, pos, U256(off)) && FromBE(U256(off)) == off && off <= |frame|
    requires Dec(tys[i], frame[off..]) == Some(vs[i])
    requires DecFrame(parent, tys, i + 1, frame, pos + 32) == Some(vs[i + 1..])
    ensures DecFrame(parent, tys, i, frame, pos) == Some(vs[i..])
  {
    DecFrameStep(vs, parent, tys, i, frame, pos, off);
  }

  lemma {:induction false} DecEncDynamic(vs: seq<Val>, parent: Ty, tys: seq<Ty>, i: nat,
                                         frame: Bytes, pos: nat, off: nat)
    requires i < |vs| && Typed(vs, tys, parent) && Standing(vs, i, frame, pos, off)
    requires DynamicVal(vs[i]) && Dynamic(tys[i])
    ensures DecFrame(parent, tys, i, frame, pos) == Some(vs[i..])
    decreases vs, |vs| - i, 0
  {
    StandingDynamic(vs, i, frame, pos, off);
    DecAt(vs[i], tys[i], frame, off);
    DecEncParts(vs, parent, tys, i + 1, frame, pos + 32, off + |Enc(vs[i])|);
    DecFrameDynamic(vs, parent, tys, i, frame, pos, off);
  }

  /** Strict decoding inverts encoding. */
  lemma AbiRoundTrip(v: Val, ty: Ty)
    requires HasType(v, ty) && |AbiEncode(v)| < WORD_LIMIT
    ensures AbiDecode(ty, AbiEncode(v)) == Some(v)
  {
    DecEncFrame([v], TTuple([ty]), [ty], AbiEncode(v));
  }

  /** The bytes accepted for a type are exactly the encodings of its values. */
  lemma DecodesExactly(ty: Ty, bz: Bytes, v: Val)
    requires |bz| < WORD_LIMIT
    ensures AbiDecode(ty, bz) == Some(v) <==> HasType(v, ty) && AbiEncode(v) == bz
  {
    if HasType(v, ty) && AbiEncode(v) == bz { AbiRoundTrip(v, ty); }
  }

  // ---------------------------------------------------------------------------------------
  // Layout

  predicate Whole(b: Bytes) { |b| % 32 == 0 }

  lemma WholeConcat(a: Bytes, b: Bytes)
    requires Whole(a) && Whole(b)
    ensures Whole(a + b)
  {
  }

  lemma BlobAligned(b: Bytes)
    ensures Whole(Enc(Blob(b)))
  {
    PaddedLength(|b|, |Padding(|b|)|);
  }

  lemma PaddedLength(n: nat, p: nat)
    requires p == (32 - n % 32) % 32
    ensures (32 + n + p) % 32 == 0
  {
    var q := n / 32;
    assert n + p == 32 * q || n + p == 32 * (q + 1);
  }

  /** Every encoding fills whole words. */
  lemma {:induction false} Aligned(v: Val, ty: Ty)
    requires HasType(v, ty)
    ensures Whole(Enc(v))
    decreases v, 0
  {
    match ty
    case TWord =>
    case TBytes => BlobAligned(v.b);
    case TTuple(tys) => AlignedFrame(v.vs, tys);
    case TArray(t) =>
      AlignedFrame(v.es, seq(|v.es|, _ => t));
      WholeConcat(U256(|v.es|), Frame(v.es));
  }

  lemma {:induction false} AlignedFrame(vs: seq<Val>, tys: seq<Ty>)
    requires |vs| == |tys| && forall j :: 0 <= j < |tys| ==> HasType(vs[j], tys[j])
    ensures Whole(Frame(vs))
    decreases vs, 0
  {
    forall j | 0 <= j < |vs| ensures Whole(Enc(vs[j])) { Aligned(vs[j], tys[j]); }
    AlignedHeads(vs, 0, HeadsLen(vs, 0));
    AlignedTails(vs, 0);
    WholeConcat(Heads(vs, 0, HeadsLen(vs, 0)), Tails(vs, 0));
  }

  lemma {:induction false} AlignedHeads(vs: seq<Val>, i: nat, off: nat)
    requires i <= |vs| && forall j :: 0 <= j < |vs| ==> Whole(Enc(vs[j]))
    ensures Whole(Heads(vs, i, off))
    decreases |vs| - i
  {
    if i < |vs| {
      var off' := if DynamicVal(vs[i]) then off + |Enc(vs[i])| else off;
      AlignedHeads(vs, i + 1, off');
      WholeConcat(if DynamicVal(vs[i]) then U256(off) else Enc(vs[i]), Heads(vs, i + 1, off'));
    }
  }

  lemma {:induction false} AlignedTails(vs: seq<Val>, i: nat)
    requires i <= |vs| && forall j :: 0 <= j < |vs| ==> Whole(Enc(vs[j]))
    ensures Whole(Tails(vs, i))
    decreases |vs| - i
  {
    if i < |vs| {
      AlignedTails(vs, i + 1);
      WholeConcat(if DynamicVal(vs[i]) then Enc(vs[i]) else [], Tails(vs, i + 1));
    }
  }

  lemma AbiAligned(v: Val, ty: Ty)
    requires HasType(v, ty)
    ensures |AbiEncode(v)| % 32 == 0
  {
    AlignedFrame([v], [ty]);
  }

  /** Where the head of component `k` starts: behind the heads before it. */
  function HeadPos(vs: seq<Val>, k: nat): nat
    requires k <= |vs|
  {
    if k == 0 then 0 else HeadPos(vs, k - 1) + (if DynamicVal(vs[k - 1]) then 32 else |Enc(vs[k - 1])|)
  }

  /** Where the tail of component `k` starts: behind all heads and the tails before it. */
  function TailPos(vs: seq<Val>, k: nat): nat
    requires k <= |vs|
  {
    if k == 0 then HeadPos(vs, |vs|)
    else TailPos(vs, k - 1) + (if DynamicVal(vs[k - 1]) then |Enc(vs[k - 1])| else 0)
  }

  lemma {:induction false} HeadPosTotal(vs: seq<Val>, k: nat)
    requires k <= |vs|
    ensures HeadPos(vs, k) + HeadsLen(vs, k) == HeadsLen(vs, 0)
  {
    if k > 0 { HeadPosTotal(vs, k - 1); }
  }

  /** From component `k` on, the heads stand at `pos` and the tails at `off`. */
  ghost predicate PartsAt(f: Bytes, vs: seq<Val>, k: nat, pos: nat, off: nat)
    requires k <= |vs|
  {
    At(f, pos, Heads(vs, k, off)) && At(f, off, Tails(vs, k))
  }

  lemma DynamicHead(f: Bytes, vs: seq<Val>, k: nat, pos: nat, off: nat)
    requires k < |vs| && DynamicVal(vs[k]) && At(f, pos, Heads(vs, k, off))
    ensures At(f, pos, U256(off)) && At(f, pos + 32, Heads(vs, k + 1, off + |Enc(vs[k])|))
  {
    AtSplit(f, pos, U256(off), Heads(vs, k + 1, off + |Enc(vs[k])|));
  }

  lemma DynamicTail(f: Bytes, vs: seq<Val>, k: nat, off: nat)
    requires k < |vs| && DynamicVal(vs[k]) && At(f, off, Tails(vs, k))
    ensures At(f, off, Enc(vs[k])) && At(f, off + |Enc(vs[k])|, Tails(vs, k + 1))
  {
    AtSplit(f, off, Enc(vs[k]), Tails(vs, k + 1));
  }

  lemma StaticPart(f: Bytes, vs: seq<Val>, k: nat, pos: nat, off: nat)
    requires k < |vs| && !DynamicVal(vs[k]) && PartsAt(f, vs, k, pos, off)
    ensures At(f, pos, Enc(vs[k])) && PartsAt(f, vs, k + 1, pos + |Enc(vs[k])|, off)
  {
    AtSplit(f, pos, Enc(vs[k]), Heads(vs, k + 1, off));
    assert Tails(vs, k) == Tails(vs, k + 1);
  }

  lemma PartStands(f: Bytes, vs: seq<Val>, k: nat, pos: nat, off: nat)
    requires k < |vs| && PartsAt(f, vs, k, pos, off)
    ensures if DynamicVal(vs[k])
            then At(f, pos, U256(off)) && At(f, off, Enc(vs[k])) && PartsAt(f, vs, k + 1, pos + 32, off + |Enc(vs[k])|)
            else At(f, pos, Enc(vs[k])) && PartsAt(f, vs, k + 1, pos + |Enc(vs[k])|, off)
  {
    if DynamicVal(vs[k]) {
      DynamicHead(f, vs, k, pos, off);
      DynamicTail(f, vs, k, off);
    } else {
      StaticPart(f, vs, k, pos, off);
    }
  }

  lemma FirstParts(vs: seq<Val>)
    ensures PartsAt(Frame(vs), vs, 0, HeadPos(vs, 0), TailPos(vs, 0))
  {
    var f, n := Frame(vs), HeadsLen(vs, 0);
    HeadPosTotal(vs, |vs|);
    HeadsLength(vs, 0, n);
    assert At(f, 0, Heads(vs, 0, n) + Tails(vs, 0));
    AtSplit(f, 0, Heads(vs, 0, n), Tails(vs, 0));
  }

  lemma {:induction false} PartsStand(vs: seq<Val>, k: nat)
    requires k <= |vs|
    ensures PartsAt(Frame(vs), vs, k, HeadPos(vs, k), TailPos(vs, k))
  {
    if k == 0 {
      FirstParts(vs);
    } else {
      PartsStand(vs, k - 1);
      PartStands(Frame(vs), vs, k - 1, HeadPos(vs, k - 1), TailPos(vs, k - 1));
    }
  }

  /** The specification's layout: a static component stands in the heads itself; for a dynamic one the
      head is the distance of its tail from the start of the frame. */
  lemma FrameLayout(vs: seq<Val>, k: nat)
    requires k < |vs|
    ensures !DynamicVal(vs[k]) ==> At(Frame(vs), HeadPos(vs, k), Enc(vs[k]))
    ensures DynamicVal(vs[k]) ==>
              At(Frame(vs), HeadPos(vs, k), U256(TailPos(vs, k))) && At(Frame(vs), TailPos(vs, k), Enc(vs[k]))
    ensures |Frame(vs)| == TailPos(vs, |vs|)
  {
    PartsStand(vs, k);
    PartStands(Frame(vs), vs, k, HeadPos(vs, k), TailPos(vs, k));
    FrameLength(vs, 0);
  }

  lemma {:induction false} FrameLength(vs: seq<Val>, k: nat)
    requires k <= |vs|
    ensures TailPos(vs, k) + |Tails(vs, k)| == TailPos(vs, |vs|)
    ensures k == 0 ==> |Frame(vs)| == TailPos(vs, |vs|)
    decreases |vs| - k
  {
    if k < |vs| { FrameLength(vs, k + 1); }
    if k == 0 {
      HeadPosTotal(vs, |vs|);
      HeadsLength(vs, 0, HeadsLen(vs, 0));
    }
  }
}
