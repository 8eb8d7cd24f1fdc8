/**
 The Tendermint light client inside the enclave: how it advances, and the messages it makes of that.
 Header and misbehaviour verification are those of ibc-rs and are parameters with a stated contract.
 */
module TendermintElc {
  import opened Types
  import opened ProtoAny
  import opened Messages
  import opened StateIdGen

  /** The fields that no update changes; `others` stands for trust level, unbonding period, proof
      specs, upgrade path and update permissions. */
  datatype Params = Params(chainVersion: U64, trustingPeriod: Duration, clockDrift: Duration, others: Bytes)

  datatype ClientState = ClientState(params: Params, latestHeight: Height, frozenHeight: Option<Height>)

  datatype ConsensusState = ConsensusState(timestamp: Time, root: Bytes, nextValidators: Bytes)

  /** Heights of headers are never zero: ibc-rs refuses them. */
  type IbcHeight = h: Height | !h.IsZero() witness Height(0, 1)

  datatype Header = Header(height: IbcHeight, timestamp: Time, trustedHeight: IbcHeight, rest: Bytes)

  datatype Evidence = Evidence(trusted1: IbcHeight, trusted2: IbcHeight, any: Any)

  /** What the enclave stores for one client. */
  datatype Elc = Elc(client: Option<ClientState>, consensus: map<Height, ConsensusState>)

  datatype Env = Env(
    sha256: Bytes -> Bytes32,
    keccak256: Bytes -> Bytes32,
    clientAny: ClientState -> Any,
    consensusAny: ConsensusState -> Any,
    checkHeader: (ClientState, map<Height, ConsensusState>, Time, Header) -> Option<(ClientState, ConsensusState)>,
    checkEvidence: (ClientState, map<Height, ConsensusState>, Time, Evidence) -> Option<ClientState>,
    checkProof: (ClientState, ConsensusState, Bytes, Str, Option<Bytes>, Bytes) -> bool)

  /** The contract of ibc-rs: only the latest and the frozen height of a client state change, and a
      consensus state already installed at the header's height is returned as it is. */
  ghost predicate IbcContract(env: Env) {
    && (forall s, cs, now, h :: env.checkHeader(s, cs, now, h).Some? ==>
          var (s', c') := env.checkHeader(s, cs, now, h).value;
          s'.params == s.params && (h.height in cs ==> c' == cs[h.height]))
    && (forall s, cs, now, e :: env.checkEvidence(s, cs, now, e).Some? ==>
          env.checkEvidence(s, cs, now, e).value.params == s.params)
  }

  /** `canonicalize_state`. */
  function Canonicalize(s: ClientState): ClientState {
    s.(latestHeight := Height(s.params.chainVersion, 0), frozenHeight := None)
  }

  /** Canonicalising forgets the two heights and nothing else. */
  lemma CanonicalizeExact(s: ClientState, t: ClientState)
    ensures Canonicalize(s) == Canonicalize(t) <==> s.params == t.params
    ensures Canonicalize(s) == s <==> s.latestHeight == Height(s.params.chainVersion, 0) && s.frozenHeight.None?
    ensures Canonicalize(Canonicalize(s)) == Canonicalize(s)
  {
  }

  /** `gen_state_id` of a canonicalised client state and a consensus state. */
  ghost function Sid(env: Env, s: ClientState, c: ConsensusState): StateId {
    GenStateId(env.sha256, env.clientAny(Canonicalize(s)), env.consensusAny(c))
  }

  /** The bytes whose hash is the id. */
  ghost function SidPreimage(env: Env, s: ClientState, c: ConsensusState): Bytes {
    Preimage(EncAny(env.clientAny(Canonicalize(s))), EncAny(env.consensusAny(c)))
  }

  /** An id is the hash of bytes that determine the parameters of the client and the whole consensus
      state, as far as the encodings of the states do: it forgets exactly the latest and the frozen height. */
  lemma SidForgetsOnlyHeights(env: Env, s: ClientState, c: ConsensusState, t: ClientState, d: ConsensusState)
    requires env.clientAny(Canonicalize(s)) == env.clientAny(Canonicalize(t)) ==> Canonicalize(s) == Canonicalize(t)
    requires env.consensusAny(c) == env.consensusAny(d) ==> c == d
    ensures Sid(env, s, c) == env.sha256(SidPreimage(env, s, c))
    ensures SidPreimage(env, s, c) == SidPreimage(env, t, d) <==> s.params == t.params && c == d
  {
    CanonicalizeExact(s, t);
    if SidPreimage(env, s, c) == SidPreimage(env, t, d) {
      PreimageInjective(env.clientAny(Canonicalize(s)), env.consensusAny(c),
                        env.clientAny(Canonicalize(t)), env.consensusAny(d));
    }
  }

  method ComputeStateId(env: Env, s: ClientState, c: ConsensusState) returns (id: StateId)
    ensures id == Sid(env, s, c)
  {
    var preimage := BuildPreimage(env.clientAny(Canonicalize(s)), env.consensusAny(c));
    id := env.sha256(preimage);
  }

  /** The id the enclave computes for a stored height. */
  ghost function SidAt(env: Env, elc: Elc, h: Height): StateId
    requires elc.client.Some? && h in elc.consensus
  {
    Sid(env, elc.client.value, elc.consensus[h])
  }

  /** States that differ only in latest and frozen height have the same id. */
  lemma SidIgnoresHeights(env: Env, s: ClientState, t: ClientState, c: ConsensusState)
    requires s.params == t.params
    ensures Sid(env, s, c) == Sid(env, t, c)
  {
  }

  predicate Running(elc: Elc) { elc.client.Some? && elc.client.value.frozenHeight.None? }

  /** The latest consensus state exists, is not from the future and has not expired. */
  predicate NotExpired(elc: Elc, now: Time)
    requires elc.client.Some?
  {
    var s := elc.client.value;
    && s.latestHeight in elc.consensus
    && var latest := elc.consensus[s.latestHeight].timestamp;
    latest <= now <= latest + s.params.trustingPeriod
  }

  /** `update_state` and the storing of its result; the message emits the new state on request. */
  ghost function Advance(env: Env, elc: Elc, now: Time, header: Header, includeState: bool):
    Option<(Elc, UpdateState)>
  {
    if !Running(elc) || !NotExpired(elc, now) || header.trustedHeight !in elc.consensus then None
    else
      var s, trusted := elc.client.value, elc.consensus[header.trustedHeight];
      match env.checkHeader(s, elc.consensus, now, header)
      case None => None
      case Some((s', c')) =>
        var emitted := if includeState then [EmittedState(header.height, env.clientAny(s'))] else [];
        var period := TrustingPeriod(s.params.trustingPeriod, s.params.clockDrift, header.timestamp, trusted.timestamp);
        var message := UpdateState(
          Some(header.trustedHeight), Some(Sid(env, s, trusted)), header.height, Sid(env, s', c'),
          header.timestamp, Within(period), emitted);
        Some((Elc(Some(s'), elc.consensus[header.height := c']), message))
  }

  /** `make_prev_states`. */
  ghost function PrevStates(env: Env, elc: Elc, heights: seq<Height>): Option<seq<PrevState>>
    requires elc.client.Some?
  {
    if |heights| == 0 then Some([])
    else
      var h := heights[|heights| - 1];
      match PrevStates(env, elc, heights[..|heights| - 1])
      case None => None
      case Some(ps) => if h in elc.consensus then Some(ps + [PrevState(h, SidAt(env, elc, h))]) else None
  }

  method MakePrevStates(env: Env, elc: Elc, heights: seq<Height>) returns (r: Option<seq<PrevState>>)
    requires elc.client.Some?
    ensures r == PrevStates(env, elc, heights)
  {
    var prevStates: seq<PrevState> := [];
    var i := 0;
    while i < |heights|
      invariant 0 <= i <= |heights| && PrevStates(env, elc, heights[..i]) == Some(prevStates)
    {
      assert heights[..i + 1][..i] == heights[..i];
      if heights[i] !in elc.consensus {
        PrevStatesFail(env, elc, heights, i + 1);
        return None;
      }
      var id := ComputeStateId(env, elc.client.value, elc.consensus[heights[i]]);
      prevStates := prevStates + [PrevState(heights[i], id)];
      i := i + 1;
    }
    assert heights[..i] == heights;
    return Some(prevStates);
  }

  lemma {:induction false} PrevStatesFail(env: Env, elc: Elc, heights: seq<Height>, k: nat)
    requires elc.client.Some? && k <= |heights| && PrevStates(env, elc, heights[..k]).None?
    ensures PrevStates(env, elc, heights).None?
  {
    if k == |heights| {
      assert heights[..k] == heights;
    } else {
      assert heights[..|heights| - 1][..k] == heights[..k];
      PrevStatesFail(env, elc, heights[..|heights| - 1], k);
    }
  }

  /** `submit_misbehaviour` and the storing of the frozen client. */
  ghost function Freeze(env: Env, elc: Elc, now: Time, e: Evidence): Option<(Elc, Misbehaviour)> {
    if !Running(elc) then None
    else
      match env.checkEvidence(elc.client.value, elc.consensus, now, e)
      case None => None
      case Some(s') =>
        match PrevStates(env, elc, [e.trusted1, e.trusted2])
        case None => None
        case Some(ps) => Some((elc.(client := Some(s')), Misbehaviour(ps, Empty, e.any)))
  }

  /** `verify_membership` of a value and, without one, `verify_non_membership`; nothing is written. */
  ghost function Attest(env: Env, elc: Elc, prefix: Bytes, path: Str, value: Option<Bytes>, height: Height,
                        proof: Bytes): Option<VerifyMembership>
  {
    if !Running(elc) || height !in elc.consensus || height.IsZero() || elc.client.value.latestHeight.Less(height)
       || !env.checkProof(elc.client.value, elc.consensus[height], prefix, path, value, proof)
    then None
    else
      var hash := if value.Some? then Some(env.keccak256(value.value)) else None;
      Some(VerifyMembership(prefix, path, hash, height, SidAt(env, elc, height)))
  }

  /** The enclave's handlers, which write the client's states in place. */
  class EnclaveClient {
    const env: Env
    var client: Option<ClientState>
    var consensus: map<Height, ConsensusState>

    function Model(): Elc
      reads this
    {
      Elc(client, consensus)
    }

    constructor (env: Env, elc: Elc)
      ensures this.env == env && Model() == elc
    {
      this.env, client, consensus := env, elc.client, elc.consensus;
    }

    /** `update_client` on a header: a failed check writes nothing. */
    method UpdateClient(now: Time, header: Header, includeState: bool) returns (r: Option<UpdateState>)
      modifies this
      ensures match Advance(env, old(Model()), now, header, includeState)
              case None => r.None? && Model() == old(Model())
              case Some((elc, m)) => r == Some(m) && Model() == elc
    {
      if !Running(Model()) || !NotExpired(Model(), now) || header.trustedHeight !in consensus { return None; }
      var s, trusted := client.value, consensus[header.trustedHeight];
      var checked := env.checkHeader(s, consensus, now, header);
      if checked.None? { return None; }
      var (s', c') := checked.value;
      var prevStateId := ComputeStateId(env, s, trusted);
      var postStateId := ComputeStateId(env, s', c');
      var period := TrustingPeriod(s.params.trustingPeriod, s.params.clockDrift, header.timestamp, trusted.timestamp);
      var message := UpdateState(Some(header.trustedHeight), Some(prevStateId), header.height, postStateId,
                                          header.timestamp, Within(period), []);
      if includeState && message.emittedStates == [] {
        message := message.(emittedStates := [EmittedState(header.height, env.clientAny(s'))]);
      }
      client := Some(s');
      consensus := consensus[header.height := c'];
      r := Some(message);
    }

    /** `update_client` on evidence of misbehaviour. */
    method SubmitEvidence(now: Time, e: Evidence) returns (r: Option<Misbehaviour>)
      modifies this
      ensures match Freeze(env, old(Model()), now, e)
              case None => r.None? && Model() == old(Model())
              case Some((elc, m)) => r == Some(m) && Model() == elc
    {
      if !Running(Model()) { return None; }
      var checked := env.checkEvidence(client.value, consensus, now, e);
      if checked.None? { return None; }
      var prevStates := MakePrevStates(env, Model(), [e.trusted1, e.trusted2]);
      if prevStates.None? { return None; }
      client := checked;
      r := Some(Misbehaviour(prevStates.value, Empty, e.any));
    }
  }

  // ---------------------------------------------------------------------------------------

  /** When an update happens, and what it stores. */
  lemma AdvanceExact(env: Env, elc: Elc, now: Time, header: Header, includeState: bool)
    ensures Advance(env, elc, now, header, includeState).Some? <==>
              && elc.client.Some? && elc.client.value.frozenHeight == None
              && elc.client.value.latestHeight in elc.consensus && header.trustedHeight in elc.consensus
              && var s, latest := elc.client.value, elc.consensus[elc.client.value.latestHeight].timestamp;
              && 0 <= now - latest <= s.params.trustingPeriod
              && env.checkHeader(s, elc.consensus, now, header).Some?
    ensures Advance(env, elc, now, header, includeState).Some? ==>
              var (s', c') := env.checkHeader(elc.client.value, elc.consensus, now, header).value;
              Advance(env, elc, now, header, includeState).value.0 == Elc(Some(s'), elc.consensus[header.height := c'])
  {
  }

  /** The context of an update message is valid at a time exactly if that time is before the end of the
      trusting period of the trusted state and the header is not from the future of that time; the message
      is stamped with the header's time, and it emits the new client state if and only if asked to. */
  lemma AdvanceMessage(env: Env, elc: Elc, now: Time, header: Header, includeState: bool, at: Time)
    requires Advance(env, elc, now, header, includeState).Some?
    ensures var (elc', m) := Advance(env, elc, now, header, includeState).value;
            && elc.client.Some? && elc'.client.Some? && header.trustedHeight in elc.consensus
            && var p, trusted := elc.client.value.params, elc.consensus[header.trustedHeight].timestamp;
            && (ContextValid(m.context, at) <==>
                  && at < trusted + p.trustingPeriod <= MAX_UNIX_TIMESTAMP_NANOS
                  && header.timestamp < at + p.clockDrift <= MAX_UNIX_TIMESTAMP_NANOS)
            && m.timestamp == header.timestamp
            && m.emittedStates ==
               if includeState then [EmittedState(header.height, env.clientAny(elc'.client.value))] else []
  {
    var (elc', m) := Advance(env, elc, now, header, includeState).value;
    ContextWindow(m.context.period, at);
  }

  /** When evidence freezes the client, and the message made of it. */
  lemma FreezeExact(env: Env, elc: Elc, now: Time, e: Evidence)
    ensures Freeze(env, elc, now, e).Some? <==>
              && elc.client.Some? && elc.client.value.frozenHeight == None
              && env.checkEvidence(elc.client.value, elc.consensus, now, e).Some?
              && e.trusted1 in elc.consensus && e.trusted2 in elc.consensus
    ensures Freeze(env, elc, now, e).Some? ==>
              var (elc', m) := Freeze(env, elc, now, e).value;
              && elc' == elc.(client := env.checkEvidence(elc.client.value, elc.consensus, now, e))
              && m.clientMessage == e.any && m.context == Empty && |m.prevStates| == 2
              && m.prevStates[0] == PrevState(e.trusted1, SidAt(env, elc, e.trusted1))
              && m.prevStates[1] == PrevState(e.trusted2, SidAt(env, elc, e.trusted2))
  {
    if elc.client.Some? { TwoPrevStates(env, elc, e.trusted1, e.trusted2); }
  }

  lemma TwoPrevStates(env: Env, elc: Elc, h1: Height, h2: Height)
    requires elc.client.Some?
    ensures PrevStates(env, elc, [h1, h2]).Some? <==> h1 in elc.consensus && h2 in elc.consensus
    ensures PrevStates(env, elc, [h1, h2]).Some? ==>
              PrevStates(env, elc, [h1, h2]).value
              == [PrevState(h1, SidAt(env, elc, h1)), PrevState(h2, SidAt(env, elc, h2))]
  {
    assert [h1, h2][..1] == [h1];
    assert PrevStates(env, elc, [h1][..0]) == Some([]);
  }

  /** When a membership message is made, and what it says. */
  lemma AttestExact(env: Env, elc: Elc, prefix: Bytes, path: Str, value: Option<Bytes>, height: Height, proof: Bytes)
    ensures Attest(env, elc, prefix, path, value, height, proof).Some? <==>
              && elc.client.Some? && elc.client.value.frozenHeight == None
              && height in elc.consensus && height != ZERO_HEIGHT && !elc.client.value.latestHeight.Less(height)
              && env.checkProof(elc.client.value, elc.consensus[height], prefix, path, value, proof)
    ensures Attest(env, elc, prefix, path, value, height, proof).Some? ==>
              var m := Attest(env, elc, prefix, path, value, height, proof).value;
              && m.prefix == prefix && m.path == path && m.height == height && m.stateId == SidAt(env, elc, height)
              && (value.Some? ==> m.value == Some(env.keccak256(value.value))) && (value.None? ==> m.value.None?)
  {
  }

  /** Later states of the same client: no installed consensus state and no parameter has changed. */
  ghost predicate Extends(a: Elc, b: Elc) {
    a.client.Some? ==>
      && b.client.Some? && b.client.value.params == a.client.value.params
      && (forall h :: h in a.consensus ==> h in b.consensus && b.consensus[h] == a.consensus[h])
  }

  lemma UpdateExtends(env: Env, elc: Elc, now: Time, header: Header, includeState: bool)
    requires IbcContract(env) && Advance(env, elc, now, header, includeState).Some?
    ensures Extends(elc, Advance(env, elc, now, header, includeState).value.0)
  {
  }

  lemma MisbehaviourExtends(env: Env, elc: Elc, now: Time, e: Evidence)
    requires IbcContract(env) && Freeze(env, elc, now, e).Some?
    ensures Extends(elc, Freeze(env, elc, now, e).value.0)
  {
  }

  /** A height keeps its state id. */
  lemma SidStable(env: Env, a: Elc, b: Elc, h: Height)
    requires a.client.Some? && Extends(a, b) && h in a.consensus
    ensures h in b.consensus && SidAt(env, b, h) == SidAt(env, a, h)
  {
    SidIgnoresHeights(env, a.client.value, b.client.value, a.consensus[h]);
  }

  /** Both ends of an update message carry the ids of the heights they name. */
  lemma UpdateIds(env: Env, elc: Elc, now: Time, header: Header, includeState: bool)
    requires IbcContract(env) && Advance(env, elc, now, header, includeState).Some?
    ensures var (elc', m) := Advance(env, elc, now, header, includeState).value;
            && elc'.client.Some?
            && m.prevHeight == Some(header.trustedHeight) && header.trustedHeight in elc'.consensus
            && m.prevStateId == Some(SidAt(env, elc', header.trustedHeight))
            && m.postHeight == header.height && m.postHeight in elc'.consensus
            && m.postStateId == SidAt(env, elc', m.postHeight)
  {
    var (elc', m) := Advance(env, elc, now, header, includeState).value;
    UpdateExtends(env, elc, now, header, includeState);
    SidStable(env, elc, elc', header.trustedHeight);
  }

  lemma {:induction false} PrevStatesIds(env: Env, elc: Elc, heights: seq<Height>)
    requires elc.client.Some? && PrevStates(env, elc, heights).Some?
    ensures var ps := PrevStates(env, elc, heights).value;
            && |ps| == |heights|
            && forall i :: 0 <= i < |ps| ==>
                 && ps[i].height == heights[i] && heights[i] in elc.consensus
                 && ps[i].stateId == SidAt(env, elc, heights[i])
  {
    if |heights| > 0 { PrevStatesIds(env, elc, heights[..|heights| - 1]); }
  }
}
