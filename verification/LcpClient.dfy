/**
 The LCP client as a state machine over the stored state of one client. A failed check, whether
 the program reports an error or aborts, is the absence of a successor.
 */
module LcpClient {
  import opened Types
  import opened Messages
  import opened MessageCodec

  /** Stored form: the key expiration is kept in whole seconds. */
  datatype ClientState = ClientState(mrEnclave: Bytes, keyExpiration: U64, latestHeight: Height, frozen: bool)

  /** Stored form: the upstream timestamp is kept in whole seconds. */
  datatype ConsensusState = ConsensusState(stateId: StateId, timestamp: U64)

  /** What the host store holds for one client. */
  datatype View = View(
    state: Option<ClientState>, consensus: map<Height, ConsensusState>, keys: map<Address, U64>)

  const FRESH := View(None, map[], map[])

  /** A parsed and verified attestation report. */
  datatype Quote = Quote(address: Address, mrEnclave: Bytes, attestationTime: Time)

  datatype ClientMessage =
    | RegisterEnclaveKey(report: Option<Quote>)
    | UpdateClient(message: ProxyMessage, signer: Address, signature: Bytes)

  const EMPTY_CONSENSUS := ConsensusState(Zeros(32), 0)

  function Initialise(v: View, mrEnclave: Bytes, keyExpiration: Duration, latestHeight: Height, frozen: bool,
                      stateId: StateId, timestamp: Time): Option<View>
  {
    if keyExpiration != 0 && latestHeight.IsZero() && |mrEnclave| == 32 && stateId == Zeros(32) && timestamp == 0
    then Some(v.(state := Some(ClientState(mrEnclave, keyExpiration / NANOS_PER_SEC, latestHeight, frozen)),
                 consensus := v.consensus[latestHeight := ConsensusState(stateId, Secs(timestamp))]))
    else None
  }

  function WithHeader(s: ClientState, m: UpdateState): ClientState {
    s.(latestHeight := MaxHeight(s.latestHeight, m.postHeight))
  }

  predicate StoredId(v: View, h: Height, id: StateId) { h in v.consensus && v.consensus[h].stateId == id }

  /** The first message must emit a state; later ones must name a stored previous state. */
  predicate PrevStateOk(v: View, s: ClientState, m: UpdateState) {
    if s.latestHeight.IsZero() then m.emittedStates != []
    else m.prevHeight.Some? && m.prevStateId.Some? && StoredId(v, m.prevHeight.value, m.prevStateId.value)
  }

  predicate SignedBy<Key>(c: Crypto<Key>, v: View, m: ProxyMessage, signer: Address, signature: Bytes) {
    signer in v.keys && c.recover(ToBytes(m), signature) == Some(signer)
  }

  predicate UpdateAccepted<Key>(c: Crypto<Key>, v: View, now: Time, m: UpdateState, signer: Address, signature: Bytes) {
    && v.state.Some?
    && ValidateUpdate(m)
    && !v.state.value.frozen
    && PrevStateOk(v, v.state.value, m)
    && SignedBy(c, v, Update(m), signer, signature)
    && ContextValid(m.context, now)
  }

  function AfterUpdate(v: View, m: UpdateState): View
    requires v.state.Some?
  {
    v.(state := Some(WithHeader(v.state.value, m)),
       consensus := v.consensus[m.postHeight := ConsensusState(m.postStateId, Secs(m.timestamp))])
  }

  predicate MisbehaviourAccepted<Key>(c: Crypto<Key>, v: View, now: Time, m: Misbehaviour,
                                      signer: Address, signature: Bytes)
  {
    && v.state.Some?
    && ValidateMisbehaviour(m)
    && !v.state.value.frozen
    && (forall i :: 0 <= i < |m.prevStates| ==> StoredId(v, m.prevStates[i].height, m.prevStates[i].stateId))
    && SignedBy(c, v, Misbehave(m), signer, signature)
    && ContextValid(m.context, now)
  }

  /** The attested key's expiry, if the report is acceptable now. */
  function KeyExpiry(s: ClientState, now: Time, q: Quote): Option<U64> {
    match AddTime(q.attestationTime, FromSecs(s.keyExpiration))
    case None => None
    case Some(end) => if now > end || q.mrEnclave != s.mrEnclave then None else Some(Secs(end))
  }

  /** A report is acceptable exactly if it is from the right enclave and the key would not have expired;
      the end of its life must be representable. */
  lemma KeyExpiryExact(s: ClientState, now: Time, q: Quote)
    ensures var end := q.attestationTime + s.keyExpiration * NANOS_PER_SEC;
            && (KeyExpiry(s, now, q).Some? <==> now <= end <= MAX_UNIX_TIMESTAMP_NANOS && q.mrEnclave == s.mrEnclave)
            && (KeyExpiry(s, now, q).Some? ==> KeyExpiry(s, now, q).value == end / NANOS_PER_SEC)
  {
  }

  function Step<Key>(c: Crypto<Key>, v: View, now: Time, msg: ClientMessage): Option<View> {
    if v.state.None? then None
    else
      match msg
      case RegisterEnclaveKey(None) => None
      case RegisterEnclaveKey(Some(q)) =>
        (match KeyExpiry(v.state.value, now, q)
         case None => None
         case Some(e) => Some(v.(keys := v.keys[q.address := e])))
      case UpdateClient(Update(m), signer, signature) =>
        if UpdateAccepted(c, v, now, m, signer, signature) then Some(AfterUpdate(v, m)) else None
      case UpdateClient(Misbehave(m), signer, signature) =>
        if MisbehaviourAccepted(c, v, now, m, signer, signature)
        then Some(v.(state := Some(v.state.value.(frozen := true)))) else None
      case UpdateClient(Membership(_), _, _) => None
  }

  predicate ActiveKey(v: View, now: Time, a: Address) { a in v.keys && Secs(now) < v.keys[a] }

  /** `verify_membership` on a decoded commitment proof: neither `frozen` nor the client state is read. */
  predicate MembershipAccepted<Key>(c: Crypto<Key>, v: View, now: Time, prefix: Bytes, path: Bytes, value: Bytes,
                                    height: Height, proofMessage: Bytes, proofSigner: Address, signature: Bytes)
  {
    match FromBytes(proofMessage)
    case Some(Membership(m)) =>
      && m.prefix == prefix && m.path == path && m.height == height && m.value == Some(c.keccak256(value))
      && StoredId(v, height, m.stateId)
      && c.recover(proofMessage, signature) == Some(proofSigner)
      && ActiveKey(v, now, proofSigner)
    case _ => false
  }

  /** One proof is accepted for one question only: by whichever client and whenever it is accepted, prefix,
      path, height and the hash of the value are the same, and so is the state id both clients hold. */
  lemma ProofFixesQuestion<Key>(c: Crypto<Key>, proof: Bytes,
                                v: View, now: Time, prefix: Bytes, path: Bytes, value: Bytes, height: Height,
                                signer: Address, signature: Bytes,
                                v': View, now': Time, prefix': Bytes, path': Bytes, value': Bytes, height': Height,
                                signer': Address, signature': Bytes)
    requires MembershipAccepted(c, v, now, prefix, path, value, height, proof, signer, signature)
    requires MembershipAccepted(c, v', now', prefix', path', value', height', proof, signer', signature')
    ensures prefix == prefix' && path == path' && height == height' && c.keccak256(value) == c.keccak256(value')
    ensures height in v.consensus && height in v'.consensus
    ensures v.consensus[height].stateId == v'.consensus[height].stateId
  {
  }

  // ---------------------------------------------------------------------------------------
  // Runs

  /** A call at a host time; host times need not be ordered. */
  datatype Call = Call(now: Time, msg: ClientMessage)

  function Apply<Key>(c: Crypto<Key>, v: View, call: Call): View {
    match Step(c, v, call.now, call.msg)
    case None => v
    case Some(w) => w
  }

  ghost function Exec<Key>(c: Crypto<Key>, v: View, calls: seq<Call>): View {
    if calls == [] then v else Apply(c, Exec(c, v, calls[..|calls| - 1]), calls[|calls| - 1])
  }

  /** The views a newly created client can start from. */
  ghost predicate Initial(v: View) {
    exists mr: Bytes, exp: Duration, frozen: bool ::
      Initialise(FRESH, mr, exp, ZERO_HEIGHT, frozen, Zeros(32), 0) == Some(v)
  }

  /** What every run keeps between two of its states. */
  ghost predicate Later(a: View, b: View)
    requires a.state.Some?
  {
    && b.state.Some?
    && var s, t := a.state.value, b.state.value;
    && t.mrEnclave == s.mrEnclave && t.keyExpiration == s.keyExpiration
    && !t.latestHeight.Less(s.latestHeight)
    && (s.frozen ==> b.state == a.state && b.consensus == a.consensus)
    && a.consensus.Keys <= b.consensus.Keys && a.keys.Keys <= b.keys.Keys
    && (s.latestHeight in a.consensus ==> t.latestHeight in b.consensus)
  }

  lemma StepIsLater<Key>(c: Crypto<Key>, v: View, call: Call)
    requires v.state.Some?
    ensures Later(v, Apply(c, v, call))
  {
  }

  lemma {:induction false} RunIsLater<Key>(c: Crypto<Key>, v: View, calls: seq<Call>)
    requires v.state.Some?
    ensures Later(v, Exec(c, v, calls))
  {
    if calls != [] {
      RunIsLater(c, v, calls[..|calls| - 1]);
      StepIsLater(c, Exec(c, v, calls[..|calls| - 1]), calls[|calls| - 1]);
    }
  }

  lemma {:induction false} ExecSplit<Key>(c: Crypto<Key>, v: View, calls: seq<Call>, k: nat)
    requires k <= |calls|
    ensures Exec(c, v, calls) == Exec(c, Exec(c, v, calls[..k]), calls[k..])
  {
    if k == |calls| {
      assert calls[..k] == calls;
    } else {
      var n := |calls| - 1;
      ExecSplit(c, v, calls[..n], k);
      assert calls[..n][..k] == calls[..k];
      var rest := calls[k..];
      assert rest[..|rest| - 1] == calls[..n][k..] && rest[|rest| - 1] == calls[n];
    }
  }

  /**
   Over every run: the latest height never decreases and always has a consensus state, the enclave
   measurement and key expiration never change, entries and keys are never removed, and from the
   first frozen state on the client state and all consensus states stay as they are.
   */
  lemma RunInvariants<Key>(c: Crypto<Key>, v: View, calls: seq<Call>, i: nat, j: nat)
    requires Initial(v) && i <= j <= |calls|
    ensures var a, b := Exec(c, v, calls[..i]), Exec(c, v, calls[..j]);
            a.state.Some? && Later(a, b) && b.state.value.latestHeight in b.consensus
  {
    RunIsLater(c, v, calls[..i]);
    ExecSplit(c, v, calls[..j], i);
    assert calls[..j][..i] == calls[..i];
    RunIsLater(c, Exec(c, v, calls[..i]), calls[..j][i..]);
  }

  // ---------------------------------------------------------------------------------------
  // Provenance

  ghost predicate Accepted<Key>(c: Crypto<Key>, v: View, calls: seq<Call>, i: int) {
    0 <= i < |calls| && Step(c, Exec(c, v, calls[..i]), calls[i].now, calls[i].msg).Some?
  }

  /** Call `i` registered the key `a`. */
  ghost predicate Registers<Key>(c: Crypto<Key>, v: View, calls: seq<Call>, i: int, a: Address) {
    && Accepted(c, v, calls, i)
    && var msg := calls[i].msg;
    && msg.RegisterEnclaveKey? && msg.report.Some? && msg.report.value.address == a
  }

  /** Call `i` wrote the entry at `h`, with a message that recovers to a key registered before. */
  ghost predicate Writes<Key>(c: Crypto<Key>, v: View, calls: seq<Call>, i: int, h: Height, e: ConsensusState) {
    && Accepted(c, v, calls, i)
    && var msg := calls[i].msg;
    && msg.UpdateClient? && msg.message.Update?
    && var m := msg.message.update;
    && m.postHeight == h && e == ConsensusState(m.postStateId, Secs(m.timestamp))
    && c.recover(ToBytes(msg.message), msg.signature) == Some(msg.signer)
    && exists r :: 0 <= r < i && Registers(c, v, calls, r, msg.signer)
  }

  lemma PrefixAccepts<Key>(c: Crypto<Key>, v: View, calls: seq<Call>, n: nat, i: int)
    requires n <= |calls|
    ensures i < n ==> Accepted(c, v, calls[..n], i) == Accepted(c, v, calls, i)
  {
    if 0 <= i < n { assert calls[..n][..i] == calls[..i]; }
  }

  /** The latest registration of `a` in the run. */
  ghost predicate LatestRegistration<Key>(c: Crypto<Key>, v: View, calls: seq<Call>, i: int, a: Address) {
    Registers(c, v, calls, i, a) && forall j :: i < j < |calls| ==> !Registers(c, v, calls, j, a)
  }

  /** What one call does to the keys: only a registration of `a` changes the entry of `a`. */
  lemma KeyWritten<Key>(c: Crypto<Key>, v: View, call: Call, a: Address)
    requires v.state.Some? && a in Apply(c, v, call).keys
    requires !(a in v.keys && v.keys[a] == Apply(c, v, call).keys[a])
    ensures Step(c, v, call.now, call.msg).Some?
    ensures call.msg.RegisterEnclaveKey? && call.msg.report.Some? && call.msg.report.value.address == a
  {
  }

  lemma ExpiryWritten<Key>(c: Crypto<Key>, v: View, call: Call)
    requires Step(c, v, call.now, call.msg).Some? && call.msg.RegisterEnclaveKey?
    ensures v.state.Some? && call.msg.report.Some?
    ensures var q, s := call.msg.report.value, v.state.value;
            && q.mrEnclave == s.mrEnclave && call.now <= q.attestationTime + FromSecs(s.keyExpiration)
            && q.attestationTime + FromSecs(s.keyExpiration) <= MAX_UNIX_TIMESTAMP_NANOS
            && Apply(c, v, call).keys == v.keys[q.address := Secs(q.attestationTime + FromSecs(s.keyExpiration))]
  {
  }

  /** Every registered key has a latest registration, with the client's measurement, and its expiry
      is that attestation's time plus the key expiration, cut to seconds. */
  lemma {:induction false} KeyProvenance<Key>(c: Crypto<Key>, v: View, calls: seq<Call>, a: Address) returns (i: int)
    requires Initial(v) && a in Exec(c, v, calls).keys
    ensures LatestRegistration(c, v, calls, i, a)
    ensures var q, s := calls[i].msg.report.value, v.state.value;
            && q.mrEnclave == s.mrEnclave && calls[i].now <= q.attestationTime + FromSecs(s.keyExpiration)
            && q.attestationTime + FromSecs(s.keyExpiration) <= MAX_UNIX_TIMESTAMP_NANOS
            && Exec(c, v, calls).keys[a] == Secs(q.attestationTime + FromSecs(s.keyExpiration))
  {
    var n := |calls| - 1;
    var before := calls[..n];
    var u := Exec(c, v, before);
    RunIsLater(c, v, before);
    if Registers(c, v, calls, n, a) {
      i := n;
      ExpiryWritten(c, u, calls[n]);
    } else {
      if !(a in u.keys && u.keys[a] == Exec(c, v, calls).keys[a]) { KeyWritten(c, u, calls[n], a); }
      i := KeyProvenance(c, v, before, a);
      StillLatest(c, v, calls, i, a);
    }
  }

  lemma StillLatest<Key>(c: Crypto<Key>, v: View, calls: seq<Call>, i: int, a: Address)
    requires calls != [] && LatestRegistration(c, v, calls[..|calls| - 1], i, a)
    requires !Registers(c, v, calls, |calls| - 1, a)
    ensures LatestRegistration(c, v, calls, i, a)
  {
    var n := |calls| - 1;
    forall j | i <= j < n ensures Registers(c, v, calls[..n], j, a) == Registers(c, v, calls, j, a) {
      PrefixAccepts(c, v, calls, n, j);
    }
  }

  lemma EntryWritten<Key>(c: Crypto<Key>, v: View, call: Call, h: Height)
    requires v.state.Some? && h in Apply(c, v, call).consensus
    requires !(h in v.consensus && v.consensus[h] == Apply(c, v, call).consensus[h])
    ensures Step(c, v, call.now, call.msg).Some?
    ensures call.msg.UpdateClient? && call.msg.message.Update?
    ensures var m := call.msg.message.update;
            && m.postHeight == h && Apply(c, v, call).consensus[h] == ConsensusState(m.postStateId, Secs(m.timestamp))
            && SignedBy(c, v, call.msg.message, call.msg.signer, call.msg.signature)
  {
  }

  lemma LastCallWrites<Key>(c: Crypto<Key>, v: View, calls: seq<Call>, h: Height)
    requires Initial(v) && calls != [] && h in Exec(c, v, calls).consensus
    requires var u, e := Exec(c, v, calls[..|calls| - 1]), Exec(c, v, calls).consensus[h];
             !(h in u.consensus && u.consensus[h] == e)
    ensures Writes(c, v, calls, |calls| - 1, h, Exec(c, v, calls).consensus[h])
  {
    var n := |calls| - 1;
    RunIsLater(c, v, calls[..n]);
    EntryWritten(c, Exec(c, v, calls[..n]), calls[n], h);
    var r := KeyProvenance(c, v, calls[..n], calls[n].msg.signer);
    PrefixAccepts(c, v, calls, n, r);
    assert Registers(c, v, calls, r, calls[n].msg.signer);
  }

  /** Every stored consensus state is the initial one or was written by an accepted message. */
  lemma {:induction false} EntryProvenance<Key>(c: Crypto<Key>, v: View, calls: seq<Call>, h: Height)
    requires Initial(v) && h in Exec(c, v, calls).consensus
    ensures var e := Exec(c, v, calls).consensus[h];
            (h == ZERO_HEIGHT && e == EMPTY_CONSENSUS) || exists i :: Writes(c, v, calls, i, h, e)
  {
    if calls != [] {
      var n := |calls| - 1;
      var u, e := Exec(c, v, calls[..n]), Exec(c, v, calls).consensus[h];
      if h in u.consensus && u.consensus[h] == e {
        EntryProvenance(c, v, calls[..n], h);
        if i :| Writes(c, v, calls[..n], i, h, e) {
          PrefixWrites(c, v, calls, n, i, h, e);
        }
      } else {
        LastCallWrites(c, v, calls, h);
      }
    }
  }

  lemma PrefixWrites<Key>(c: Crypto<Key>, v: View, calls: seq<Call>, n: nat, i: int, h: Height, e: ConsensusState)
    requires n <= |calls| && Writes(c, v, calls[..n], i, h, e)
    ensures i < n && Writes(c, v, calls, i, h, e)
  {
    PrefixAccepts(c, v, calls, n, i);
    var r :| 0 <= r < i && Registers(c, v, calls[..n], r, calls[i].msg.signer);
    PrefixAccepts(c, v, calls, n, r);
    assert Registers(c, v, calls, r, calls[i].msg.signer);
  }

  /**
   A message accepted while the latest height is non-zero names, as its previous state, the initial
   empty entry or the post state of an earlier accepted message.
   */
  lemma PrevProvenance<Key>(c: Crypto<Key>, v: View, calls: seq<Call>, n: nat)
    requires Initial(v) && Accepted(c, v, calls, n)
    requires calls[n].msg.UpdateClient? && calls[n].msg.message.Update?
    requires Exec(c, v, calls[..n]).state.Some? && !Exec(c, v, calls[..n]).state.value.latestHeight.IsZero()
    ensures var m := calls[n].msg.message.update;
            && m.prevHeight.Some? && m.prevStateId.Some?
            && ((m.prevHeight.value == ZERO_HEIGHT && m.prevStateId.value == Zeros(32))
                || exists i: int, e: ConsensusState ::
                     i < n && e.stateId == m.prevStateId.value && Writes(c, v, calls, i, m.prevHeight.value, e))
  {
    var h := calls[n].msg.message.update.prevHeight.value;
    var e := Exec(c, v, calls[..n]).consensus[h];
    EntryProvenance(c, v, calls[..n], h);
    if i :| Writes(c, v, calls[..n], i, h, e) {
      PrefixWrites(c, v, calls, n, i, h, e);
    }
  }

  // ---------------------------------------------------------------------------------------
  // Key expiry

  /**
   Whenever a membership proof is accepted after a run, host time is strictly before the signer's
   latest attestation time plus the key expiration.
   */
  lemma MembershipBeforeExpiry<Key>(c: Crypto<Key>, v: View, calls: seq<Call>, now: Time, prefix: Bytes, path: Bytes,
                                    value: Bytes, height: Height, msg: Bytes, signer: Address, sig: Bytes)
    requires Initial(v)
    requires MembershipAccepted(c, Exec(c, v, calls), now, prefix, path, value, height, msg, signer, sig)
    ensures exists i :: LatestRegistration(c, v, calls, i, signer)
              && now < calls[i].msg.report.value.attestationTime + FromSecs(v.state.value.keyExpiration)
  {
    var i := KeyProvenance(c, v, calls, signer);
  }

  lemma RegisteredStays<Key>(c: Crypto<Key>, v: View, calls: seq<Call>, i: int, a: Address)
    requires Initial(v) && Registers(c, v, calls, i, a)
    ensures a in Exec(c, v, calls).keys
  {
    RunIsLater(c, v, calls[..i]);
    ExpiryWritten(c, Exec(c, v, calls[..i]), calls[i]);
    assert calls[..i + 1][..i] == calls[..i];
    ExecSplit(c, v, calls, i + 1);
    RunIsLater(c, v, calls[..i + 1]);
    RunIsLater(c, Exec(c, v, calls[..i + 1]), calls[i + 1..]);
  }

  /** The expiry check of a registered key fails no earlier than one second before that instant. */
  lemma ActiveUntilLastSecond<Key>(c: Crypto<Key>, v: View, calls: seq<Call>, now: Time, i: int, a: Address)
    requires Initial(v) && LatestRegistration(c, v, calls, i, a)
    requires now + NANOS_PER_SEC <= calls[i].msg.report.value.attestationTime + FromSecs(v.state.value.keyExpiration)
    ensures ActiveKey(Exec(c, v, calls), now, a)
  {
    RegisteredStays(c, v, calls, i, a);
    var j := KeyProvenance(c, v, calls, a);
    assert i == j;
  }

  // ---------------------------------------------------------------------------------------
  // From the arguments of `initialise` on

  /** What `initialise` requires of its arguments and keeps of them. */
  lemma InitialiseExact(v: View, mrEnclave: Bytes, keyExpiration: Duration, latestHeight: Height, frozen: bool,
                        stateId: StateId, timestamp: Time)
    ensures var r := Initialise(v, mrEnclave, keyExpiration, latestHeight, frozen, stateId, timestamp);
            && (r.Some? <==> && keyExpiration > 0 && latestHeight == ZERO_HEIGHT && |mrEnclave| == 32
                             && stateId == Zeros(32) && timestamp == 0)
            && (r.Some? ==>
                  && r.value.state.Some? && var s := r.value.state.value;
                  && s.mrEnclave == mrEnclave && s.latestHeight == ZERO_HEIGHT && s.frozen == frozen
                  && FromSecs(s.keyExpiration) <= keyExpiration < FromSecs(s.keyExpiration) + NANOS_PER_SEC
                  && r.value.consensus == v.consensus[ZERO_HEIGHT := EMPTY_CONSENSUS] && r.value.keys == v.keys)
  {
  }

  /** A proof accepted by a client was signed with a key attested for the measurement the client was made
      with, at a time before the attestation's time plus the key expiration it was made with. */
  lemma MembershipWithinArguments<Key>(c: Crypto<Key>, v: View, mrEnclave: Bytes, keyExpiration: Duration, frozen: bool,
                                       calls: seq<Call>, now: Time, prefix: Bytes, path: Bytes, value: Bytes,
                                       height: Height, msg: Bytes, signer: Address, sig: Bytes) returns (i: int)
    requires Initialise(FRESH, mrEnclave, keyExpiration, ZERO_HEIGHT, frozen, Zeros(32), 0) == Some(v)
    requires MembershipAccepted(c, Exec(c, v, calls), now, prefix, path, value, height, msg, signer, sig)
    ensures LatestRegistration(c, v, calls, i, signer)
    ensures var q := calls[i].msg.report.value;
            && q.mrEnclave == mrEnclave && now < q.attestationTime + keyExpiration
            && calls[i].now <= q.attestationTime + keyExpiration
  {
    InitialiseExact(FRESH, mrEnclave, keyExpiration, ZERO_HEIGHT, frozen, Zeros(32), 0);
    i := KeyProvenance(c, v, calls, signer);
  }

  /** A client made frozen never accepts an update or evidence. */
  lemma FrozenFromStart<Key>(c: Crypto<Key>, v: View, mrEnclave: Bytes, keyExpiration: Duration,
                             calls: seq<Call>, n: nat)
    requires Initialise(FRESH, mrEnclave, keyExpiration, ZERO_HEIGHT, true, Zeros(32), 0) == Some(v)
    requires n < |calls| && calls[n].msg.UpdateClient?
    ensures !Accepted(c, v, calls, n)
  {
    RunIsLater(c, v, calls[..n]);
  }

  /** Every update or evidence accepted in a run had a valid context at its host time: before the end of the
      trusting period, and with a header that is not from the future. */
  lemma AcceptedInTime<Key>(c: Crypto<Key>, v: View, calls: seq<Call>, n: nat)
    requires Accepted(c, v, calls, n) && calls[n].msg.UpdateClient?
    ensures var now, m := calls[n].now, calls[n].msg.message;
            && !m.Membership?
            && var context := if m.Update? then m.update.context else m.misbehaviour.context;
            context.Within? ==>
              && now < context.period.trustedStateTime + context.period.trustingPeriod
              && context.period.untrustedHeaderTime < now + context.period.clockDrift
  {
  }
}
